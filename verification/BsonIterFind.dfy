/** Searching by key and by dotted path, against lookup in the abstract tree. */
module BsonIterFind {
  import opened Basics
  import opened BsonDocument
  import opened BsonEncoding
  import opened BsonIter
  import opened BsonIterBounds
  import opened BsonIterDecode

  const DOT: Byte := 0x2E

  function KeyOf(data: seq<Byte>, e: Step): seq<Byte>
    requires StepOf(data, e)
  {
    StepLayout(data, e);
    data[e.off + 1..e.d1 - 1]
  }

  /** The first element at or after an offset with a given key. */
  function FindStep(data: seq<Byte>, at: nat, key: seq<Byte>): (r: Option<Step>)
    requires |data| <= INT_MAX
    ensures r.Some? ==> StepOf(data, r.value) && KeyOf(data, r.value) == key
    decreases |data| - at
  {
    var e := StepAt(data, at);
    if e.Invalid? then None
    else
      Inside(data, e);
      if KeyOf(data, e) == key then Some(e) else FindStep(data, e.next, key)
  }

  /** strchr: the index of the first dot, or the length. */
  function DotAt(path: seq<Byte>): (i: nat)
    ensures i <= |path| && (i < |path| ==> path[i] == DOT)
    ensures forall k :: 0 <= k < i ==> path[k] != DOT
  {
    if path == [] || path[0] == DOT then 0 else 1 + DotAt(path[1..])
  }

  /** Following a dotted path from an offset: the buffer and the element it ends on. */
  function FindPath(data: seq<Byte>, at: nat, path: seq<Byte>): (r: Option<(seq<Byte>, Step)>)
    requires |data| <= INT_MAX
    ensures r.Some? ==> StepOf(r.value.0, r.value.1)
    decreases |path|
  {
    var dot := DotAt(path);
    match FindStep(data, at, path[..dot])
    case None => None
    case Some(e) =>
      if dot == |path| then Some((data, e))
      else if data[e.off] == 0x03 || data[e.off] == 0x04 then FindPath(Embedded(data, e), 4, path[dot + 1..])
      else None
  }

  /** strncmp up to `keylen`, and the terminator behind it. */
  method KeyMatches(iter: Iter, key: CString, keylen: nat) returns (same: bool)
    requires iter.Valid() && iter.Stands() && keylen <= |key|
    ensures same == (KeyOf(iter.raw, iter.Here()) == key[..keylen])
  {
    ghost var ikey := KeyOf(iter.raw, iter.Here());
    BeforeNul(iter.raw, iter.key);
    var i := 0;
    while i < keylen && iter.raw[iter.key + i] == key[i]
      invariant i <= keylen && i <= |ikey| && ikey[..i] == key[..i]
    {
      i := i + 1;
    }
    same := i == keylen && iter.raw[iter.key + keylen] == 0;
    if i < keylen && i < |ikey| {
      assert ikey[i] != key[..keylen][i];
    }
  }

  /** Moves on to the first element with the key. */
  method FindWLen(iter: Iter, key: CString, keylen: nat) returns (found: bool)
    requires iter.Valid() && keylen <= |key|
    modifies iter
    ensures iter.Valid() && found == iter.live
    ensures found <==> old(iter.live) && FindStep(old(iter.raw), old(iter.nextOff), key[..keylen]).Some?
    ensures found ==> iter.Stands() && iter.raw == old(iter.raw) && iter.off < |iter.raw|
    ensures found ==> FindStep(old(iter.raw), old(iter.nextOff), key[..keylen]) == Some(iter.Here())
  {
    ghost var data, was, sought := iter.raw, iter.live, FindStep(iter.raw, iter.nextOff, key[..keylen]);
    var more := true;
    found := false;
    while more
      invariant iter.Valid() && !found && (was ==> more == iter.live) && (!was ==> !iter.live)
      invariant was && more ==> iter.raw == data && sought == FindStep(data, iter.nextOff, key[..keylen])
      invariant was && !more ==> sought.None?
      decreases more, |data| + 5 - iter.nextOff
    {
      ghost var step := StepAt(data, iter.nextOff);
      var unsupported;
      more, unsupported := iter.Next();
      if more {
        Inside(data, step);
        assert step == iter.Here();
        var same := KeyMatches(iter, key, keylen);
        if same {
          return true;
        }
      }
    }
  }

  /** Follows a path in dot notation; `descendant` receives a copy of the iterator that found its last key. */
  method FindDescendant(iter: Iter, dotkey: CString, descendant: Iter) returns (found: bool)
    requires iter.Valid() && iter != descendant
    modifies iter, descendant
    ensures found <==> old(iter.live) && FindPath(old(iter.raw), old(iter.nextOff), dotkey).Some?
    ensures found ==> descendant.Valid() && descendant.Stands()
    ensures found ==> FindPath(old(iter.raw), old(iter.nextOff), dotkey) == Some((descendant.raw, descendant.Here()))
    decreases |dotkey|, 0
  {
    hide StepAt, Embedded;
    var sublen := DotAt(dotkey);
    found := FindWLen(iter, dotkey, sublen);
    if !found {
      return;
    }
    if sublen == |dotkey| {
      descendant.CopyFrom(iter);
      return;
    }
    if iter.raw[iter.typeOff] == 0x03 || iter.raw[iter.typeOff] == 0x04 {
      found := Descend(iter, dotkey[sublen + 1..], descendant);
      return;
    }
    found := false;
  }

  /** The search inside the document or array an iterator stands on. */
  method Descend(iter: Iter, rest: CString, descendant: Iter) returns (found: bool)
    requires iter.Valid() && iter.Stands() && iter != descendant
    requires iter.raw[iter.off] == 0x03 || iter.raw[iter.off] == 0x04
    modifies descendant
    ensures found == FindPath(Embedded(iter.raw, iter.Here()), 4, rest).Some?
    ensures found ==> descendant.Valid() && descendant.Stands()
    ensures found ==> FindPath(Embedded(iter.raw, iter.Here()), 4, rest) == Some((descendant.raw, descendant.Here()))
    decreases |rest|, 1
  {
    var tmp := new Iter();
    var recursed := iter.Recurse(tmp);
    assert tmp.raw == Embedded(iter.raw, iter.Here());
    found := FindDescendant(tmp, rest, descendant);
  }

  /** The first segment picks the first element of that key; only documents and arrays are searched further. */
  function LookupPath(doc: Doc, path: seq<Byte>): Option<Value>
    decreases |path|
  {
    var dot := DotAt(path);
    match Lookup(doc, path[..dot])
    case None => None
    case Some(v) =>
      if dot == |path| then Some(v)
      else if v.Document? || v.Array? then LookupPath(v.doc, path[dot + 1..])
      else None
  }

  /** An element found in a buffer shows a value. */
  predicate Shows(data: seq<Byte>, e: Step, v: Value) {
    StepOf(data, e) && Show(data, e).t == TypeCode(v) && Show(data, e).content == ContentOf(v)
  }

  lemma {:induction false} ShownKey(data: seq<Byte>, e: Step)
    requires StepOf(data, e)
    ensures Show(data, e).key == KeyOf(data, e) && Show(data, e).t == data[e.off]
  {
  }

  lemma {:induction false} FindNothing(data: seq<Byte>, at: nat, key: seq<Byte>)
    requires 4 <= at && At(data, at, EncodeElems([])) && at + 1 == |data| <= INT_MAX
    ensures FindStep(data, at, key).None?
  {
    WalkEnd(data, at);
    assert StepAt(data, at).Invalid?;
  }

  /** Searching an encoded list of elements finds what lookup finds. */
  lemma {:induction false} FindDecodes(data: seq<Byte>, at: nat, doc: Doc, key: seq<Byte>)
    requires 4 <= at && At(data, at, EncodeElems(doc)) && at + |EncodeElems(doc)| + 1 == |data| <= INT_MAX
    ensures FindStep(data, at, key).Some? == Lookup(doc, key).Some?
    ensures Lookup(doc, key).Some? ==> Shows(data, FindStep(data, at, key).value, Lookup(doc, key).value)
    decreases doc
  {
    hide StepAt, EncodeElem, At, Show, TypeCode, ContentOf;
    if doc == [] {
      FindNothing(data, at, key);
    } else {
      var first, rest := EncodeElem(doc[0]), EncodeElems(doc[1..]);
      assert EncodeElems(doc) == first + rest;
      AtAppend(data, at, first, rest);
      StepDecodes(data, at, doc[0]);
      hide EncodeElems;
      ShownKey(data, StepAt(data, at));
      FindDecodes(data, at + |first|, doc[1..], key);
    }
  }

  lemma {:induction false} FindEncoded(doc: Doc, key: seq<Byte>)
    requires |EncodeDoc(doc)| <= INT_MAX
    ensures FindStep(EncodeDoc(doc), 4, key).Some? == Lookup(doc, key).Some?
    ensures Lookup(doc, key).Some? ==>
              Shows(EncodeDoc(doc), FindStep(EncodeDoc(doc), 4, key).value, Lookup(doc, key).value)
  {
    var data, elems := EncodeDoc(doc), EncodeElems(doc);
    assert At(data, 0, data);
    assert data == LE32(|elems| + 5) + (elems + [0]);
    AtAppend(data, 0, LE32(|elems| + 5), elems + [0]);
    AtAppend(data, 4, elems, [0]);
    FindDecodes(data, 4, doc, key);
  }

  /** A document or array element shows its embedded buffer. */
  lemma {:induction false} ShownChild(data: seq<Byte>, e: Step, v: Value)
    requires Shows(data, e, v) && (v.Document? || v.Array?)
    ensures (data[e.off] == 0x03 || data[e.off] == 0x04) && Embedded(data, e) == EncodeDoc(v.doc)
  {
    ShownKey(data, e);
    StepLayout(data, e);
  }

  /** Following a path in an encoded document agrees with following it in the tree. */
  lemma {:induction false} PathDecodes(doc: Doc, path: seq<Byte>)
    requires |EncodeDoc(doc)| <= INT_MAX
    ensures FindPath(EncodeDoc(doc), 4, path).Some? == LookupPath(doc, path).Some?
    ensures LookupPath(doc, path).Some? ==>
              Shows(FindPath(EncodeDoc(doc), 4, path).value.0, FindPath(EncodeDoc(doc), 4, path).value.1,
                    LookupPath(doc, path).value)
    decreases |path|
  {
    hide StepAt, Show, EncodeDoc, FindStep, Lookup, Embedded;
    var data, dot := EncodeDoc(doc), DotAt(path);
    FindEncoded(doc, path[..dot]);
    var found := Lookup(doc, path[..dot]);
    if found.Some? && dot < |path| {
      var e := FindStep(data, 4, path[..dot]).value;
      ShownKey(data, e);
      if found.value.Document? || found.value.Array? {
        ShownChild(data, e, found.value);
        PathDecodes(found.value.doc, path[dot + 1..]);
      }
    }
  }

  /** Keys one behind the other with a full stop, 0x2E, between them. */
  function Dotted(keys: seq<CString>): CString
    requires keys != []
  {
    if |keys| == 1 then keys[0] else keys[0] + [0x2E] + Dotted(keys[1..])
  }

  /** The value that a list of keys leads to: the first element with each key, inside documents and arrays. */
  function Follow(doc: Doc, keys: seq<CString>): Option<Value>
    requires keys != []
    decreases |keys|
  {
    var i := Place(doc, keys[0]);
    if i == |doc| then None
    else if |keys| == 1 then Some(doc[i].value)
    else if doc[i].value.Document? || doc[i].value.Array? then Follow(doc[i].value.doc, keys[1..])
    else None
  }

  lemma {:induction false} FirstDot(key: CString, rest: seq<Byte>)
    requires 0x2E !in key
    ensures DotAt(key + [0x2E] + rest) == |key| && DotAt(key) == |key|
    decreases |key|
  {
    if key != [] {
      assert (key + [0x2E] + rest)[1..] == key[1..] + [0x2E] + rest;
      FirstDot(key[1..], rest);
    }
  }

  lemma DottedParts(keys: seq<CString>)
    requires keys != [] && 0x2E !in keys[0]
    ensures var path := Dotted(keys);
            && DotAt(path) == |keys[0]| && path[..|keys[0]|] == keys[0] && (|keys| == 1 <==> |keys[0]| == |path|)
            && (|keys| > 1 ==> path[|keys[0]| + 1..] == Dotted(keys[1..]))
  {
    FirstDot(keys[0], if |keys| == 1 then [] else Dotted(keys[1..]));
  }

  /** A path made of keys without full stops leads where its keys lead. */
  lemma {:induction false} PathFollows(doc: Doc, keys: seq<CString>)
    requires keys != [] && forall k <- keys :: 0x2E !in k
    ensures LookupPath(doc, Dotted(keys)) == Follow(doc, keys)
    decreases |keys|
  {
    hide Dotted, DotAt, Place, Lookup;
    DottedParts(keys);
    FindsPlace(doc, keys[0]);
    var i := Place(doc, keys[0]);
    if i < |doc| && |keys| > 1 && (doc[i].value.Document? || doc[i].value.Array?) {
      PathFollows(doc[i].value.doc, keys[1..]);
    }
  }

  /** The iterator object on an encoded document finds a path exactly when the tree has it, and shows its value. */
  method FindInDocument(doc: Doc, path: CString, iter: Iter, descendant: Iter) returns (found: bool)
    requires |EncodeDoc(doc)| <= INT_MAX && iter != descendant
    modifies iter, descendant
    ensures found == LookupPath(doc, path).Some?
    ensures found ==> Shows(descendant.raw, descendant.Here(), LookupPath(doc, path).value)
  {
    DecodesDocument(doc);
    PathDecodes(doc, path);
    hide Shows, FindPath, LookupPath, EncodeDoc, Walk, ShowAll, SeenAll;
    var ok := iter.InitFromData(EncodeDoc(doc));
    found := FindDescendant(iter, path, descendant);
  }
}

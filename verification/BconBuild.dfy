/** The builder's stack machine against the tree grammar: it builds what each accepted list stands for. */
module BconBuild {
  import opened Basics
  import opened BsonDocument
  import opened Bcon
  import opened BconSyntax

  lemma StepKey(frames: seq<Frame>, t: Token, rest: seq<Token>)
    requires frames != [] && !Top(frames).isArray && Terminated(rest)
    requires t.Str? || t.Splice?
    ensures Run(frames, [t] + rest) ==
            if t.Str? then RunValue(frames, t.s, rest) else Run(SetTop(frames, Append(Top(frames), t.doc)), rest)
  {
    Cut(t, rest);
  }

  lemma StepEnd(frames: seq<Frame>, rest: seq<Token>)
    requires |frames| > 1 && !Top(frames).isArray && Terminated(rest)
    ensures Run(frames, [DocEnd] + rest) == Run(Pop(frames), rest)
  {
    Cut(DocEnd, rest);
  }

  lemma StepValue(frames: seq<Frame>, key: CString, t: Token, rest: seq<Token>)
    requires frames != [] && Terminated(rest)
    requires Top(frames).isArray ==> Top(frames).i > 0
    ensures var after := ValueStep(frames, key, t);
            RunValue(frames, key, [t] + rest) == if after.Some? then Run(after.value, rest) else Aborted
  {
    Cut(t, rest);
  }

  /** Ending a level appends it to the level below. */
  lemma PopPushed(frames: seq<Frame>, f: Frame)
    requires frames != []
    ensures Pop(frames + [f]) == SetTop(frames, Append(Top(frames), [Elem(f.key, Built(f))]))
  {
    assert (frames + [f])[..|frames|] == frames;
  }

  /** A document level after its fields, with or without a key left over. */
  lemma CloseDoc(frames: seq<Frame>, f: Frame, dangling: Option<CString>, rest: seq<Token>)
    requires frames != [] && !f.isArray && Terminated(rest)
    ensures Run(frames + [f], DanglingKey(dangling) + ([DocEnd] + rest))
         == Run(SetTop(frames, Append(Top(frames), [Elem(f.key, Document(f.elems))])), rest)
  {
    PopPushed(frames, f);
    if dangling.None? {
      assert [] + ([DocEnd] + rest) == [DocEnd] + rest;
      StepEnd(frames + [f], rest);
    } else {
      CloseKeyed(frames + [f], dangling.value, rest);
    }
  }

  lemma CloseKeyed(frames: seq<Frame>, key: CString, rest: seq<Token>)
    requires |frames| > 1 && !Top(frames).isArray && Terminated(rest)
    ensures Run(frames, [Str(key)] + ([DocEnd] + rest)) == Run(Pop(frames), rest)
  {
    StepKey(frames, Str(key), [DocEnd] + rest);
    StepValue(frames, key, DocEnd, rest);
  }

  lemma CloseArray(frames: seq<Frame>, f: Frame, rest: seq<Token>)
    requires frames != [] && f.isArray && Terminated(rest)
    ensures Run(frames + [f], [ArrayEnd] + rest)
         == Run(SetTop(frames, Append(Top(frames), [Elem(f.key, Array(f.elems))])), rest)
  {
    var g := f.(i := f.i + 1);
    StepClose(frames + [f], rest);
    Replace(frames, f, g);
    PopPushed(frames, g);
  }

  lemma StepClose(frames: seq<Frame>, rest: seq<Token>)
    requires |frames| > 1 && Top(frames).isArray && Terminated(rest)
    ensures Run(frames, [ArrayEnd] + rest) == Run(Pop(SetTop(frames, Top(frames).(i := Top(frames).i + 1))), rest)
  {
    hide Pop;
    IndexUnfold(frames, [ArrayEnd] + rest);
    StepValue(SetTop(frames, Top(frames).(i := Top(frames).i + 1)), ArrayKey(Top(frames).i), ArrayEnd, rest);
  }

  /** An array level whose next key continues its numbering. */
  predicate Counted(f: Frame) { f.isArray && Numbered(f.elems) && f.i == |f.elems| }

  /** An array level with further values. */
  function Grow(f: Frame, vs: seq<Value>): Frame
  {
    f.(i := f.i + |vs|, elems := Count(Values(f.elems) + vs))
  }

  lemma GrowAgain(f: Frame, a: seq<Value>, b: seq<Value>)
    ensures Grow(Grow(f, a), b) == Grow(f, a + b)
  {
    assert Values(f.elems) + (a + b) == Values(f.elems) + a + b;
  }

  lemma GrowNone(f: Frame)
    requires Counted(f)
    ensures Grow(f, []) == f
  {
    assert Values(f.elems) + [] == Values(f.elems);
    SameArray(f.elems, Count(Values(f.elems)));
  }

  lemma AppendNone(f: Frame)
    ensures Append(f, []) == f
  {
    assert f.elems + [] == f.elems;
  }

  lemma AppendAgain(f: Frame, a: Doc, b: Doc)
    ensures Append(Append(f, a), b) == Append(f, a + b)
  {
    assert f.elems + (a + b) == f.elems + a + b;
  }

  /** One more value, as the machine appends it. */
  lemma GrowOne(f: Frame, v: Value)
    requires Counted(f)
    ensures Append(f.(i := f.i + 1), [Elem(ArrayKey(f.i), v)]) == Grow(f, [v])
  {
    var all := f.elems + [Elem(ArrayKey(f.i), v)];
    assert Numbered(all);
    assert Values(all) == Values(f.elems) + [v];
    SameArray(all, Count(Values(f.elems) + [v]));
  }

  lemma SameArray(a: Doc, b: Doc)
    requires Numbered(a) && Numbered(b) && Values(a) == Values(b)
    ensures a == b
  {
    assert |a| == |Values(a)| && |b| == |Values(b)|;
    forall k | 0 <= k < |a| ensures a[k] == b[k] {
      assert Values(a)[k] == Values(b)[k];
    }
  }

  lemma SpliceCounts(elems: Doc, doc: Doc)
    requires Numbered(elems)
    ensures elems + Renumber(doc, |elems|) == Count(Values(elems) + Values(doc))
  {
    var all := elems + Renumber(doc, |elems|);
    assert Numbered(all);
    assert Values(all) == Values(elems) + Values(doc);
    SameArray(all, Count(Values(elems) + Values(doc)));
  }

  /** A spliced array, as the machine renumbers it. */
  lemma GrowSplice(f: Frame, doc: Doc)
    requires Counted(f)
    ensures Append(f, Renumber(doc, f.i)).(i := f.i + |doc|) == Grow(f, Values(doc))
  {
    SpliceCounts(f.elems, doc);
  }

  lemma Replace(frames: seq<Frame>, f: Frame, g: Frame)
    ensures SetTop(frames + [f], g) == frames + [g]
    ensures frames != [] ==> SetTop(SetTop(frames, f), g) == SetTop(frames, g)
    ensures frames != [] ==> SetTop(frames, Top(frames)) == frames
  {
  }

  lemma FlatDoc(fields: seq<Field>, dangling: Option<CString>, rest: seq<Token>)
    ensures Flat(DocExpr(fields, dangling)) + rest
         == [DocStart] + (FlatFields(fields) + (DanglingKey(dangling) + ([DocEnd] + rest)))
  {
    assert DanglingKey(dangling) + [DocEnd] + rest == DanglingKey(dangling) + ([DocEnd] + rest);
  }

  lemma FlatArray(items: seq<Item>, rest: seq<Token>)
    ensures Flat(ArrExpr(items)) + rest == [ArrayStart] + (FlatItems(items) + ([ArrayEnd] + rest))
  {
  }

  lemma StepSplice(frames: seq<Frame>, doc: Doc)
    requires frames != [] && Counted(Top(frames))
    ensures ValueStep(SetTop(frames, Top(frames).(i := Top(frames).i + 1)), ArrayKey(Top(frames).i), Splice(doc))
         == Some(SetTop(frames, Grow(Top(frames), Values(doc))))
  {
    var top := Top(frames);
    GrowSplice(top, doc);
    Replace(frames, top.(i := top.i + 1), Grow(top, Values(doc)));
  }

  /** After a key, the machine appends the expression's meaning, or runs out of stack. */
  lemma {:induction false} RunExpr(frames: seq<Frame>, key: CString, e: Expr, rest: seq<Token>)
    requires frames != [] && |frames| <= STACK_MAX && Terminated(rest)
    requires Top(frames).isArray ==> Top(frames).i > 0
    ensures RunValue(frames, key, Flat(e) + rest)
         == if |frames| + Depth(e) <= STACK_MAX
            then Run(SetTop(frames, Append(Top(frames), [Elem(key, Meaning(e))])), rest) else Aborted
    decreases e
  {
    match e
    case Word(s) => StepValue(frames, key, Str(s), rest);
    case Given(v) => StepValue(frames, key, Single(v), rest);
    case DocExpr(fields, dangling) =>
      var tail := DanglingKey(dangling) + ([DocEnd] + rest);
      FlatDoc(fields, dangling, rest);
      StepValue(frames, key, DocStart, FlatFields(fields) + tail);
      if |frames| < STACK_MAX {
        RunDoc(frames, key, fields, dangling, rest);
      }
    case ArrExpr(items) =>
      var tail := [ArrayEnd] + rest;
      FlatArray(items, rest);
      StepValue(frames, key, ArrayStart, FlatItems(items) + tail);
      if |frames| < STACK_MAX {
        RunArray(frames, key, items, rest);
      }
  }

  lemma RunDoc(frames: seq<Frame>, key: CString, fields: seq<Field>, dangling: Option<CString>, rest: seq<Token>)
    requires frames != [] && |frames| < STACK_MAX && Terminated(rest)
    ensures Run(frames + [Frame(false, 0, key, [])], FlatFields(fields) + (DanglingKey(dangling) + ([DocEnd] + rest)))
         == if |frames| + 1 + FieldsDepth(fields) <= STACK_MAX
            then Run(SetTop(frames, Append(Top(frames), [Elem(key, Document(FieldsMeaning(fields)))])), rest)
            else Aborted
    decreases fields, 1
  {
    var f := Frame(false, 0, key, []);
    RunFields(frames + [f], fields, DanglingKey(dangling) + ([DocEnd] + rest));
    var g := f.(elems := FieldsMeaning(fields));
    assert Append(f, FieldsMeaning(fields)) == g;
    Replace(frames, f, g);
    CloseDoc(frames, g, dangling, rest);
  }

  lemma RunArray(frames: seq<Frame>, key: CString, items: seq<Item>, rest: seq<Token>)
    requires frames != [] && |frames| < STACK_MAX && Terminated(rest)
    ensures Run(frames + [Frame(true, 0, key, [])], FlatItems(items) + ([ArrayEnd] + rest))
         == if |frames| + 1 + ItemsDepth(items) <= STACK_MAX
            then Run(SetTop(frames, Append(Top(frames), [Elem(key, Array(ItemsMeaning(items)))])), rest) else Aborted
    decreases items, 1
  {
    var f := Frame(true, 0, key, []);
    RunItems(frames + [f], items, [ArrayEnd] + rest);
    assert Values([]) + ItemsValues(items) == ItemsValues(items);
    Replace(frames, f, Grow(f, ItemsValues(items)));
    CloseArray(frames, Grow(f, ItemsValues(items)), rest);
  }

  lemma {:induction false} RunField(frames: seq<Frame>, f: Field, rest: seq<Token>)
    requires frames != [] && |frames| <= STACK_MAX && Terminated(rest) && !Top(frames).isArray
    ensures Run(frames, FlatField(f) + rest)
         == if |frames| + FieldDepth(f) <= STACK_MAX
            then Run(SetTop(frames, Append(Top(frames), FieldMeaning(f))), rest) else Aborted
    decreases f
  {
    if f.Field? {
      assert FlatField(f) + rest == [Str(f.name)] + (Flat(f.expr) + rest);
      StepKey(frames, Str(f.name), Flat(f.expr) + rest);
      RunExpr(frames, f.name, f.expr, rest);
    } else {
      StepKey(frames, Splice(f.doc), rest);
    }
  }

  lemma {:induction false} RunFields(frames: seq<Frame>, fs: seq<Field>, rest: seq<Token>)
    requires frames != [] && |frames| <= STACK_MAX && Terminated(rest) && !Top(frames).isArray
    ensures Run(frames, FlatFields(fs) + rest)
         == if |frames| + FieldsDepth(fs) <= STACK_MAX
            then Run(SetTop(frames, Append(Top(frames), FieldsMeaning(fs))), rest) else Aborted
    decreases fs, 0
  {
    if fs == [] {
      AppendNone(Top(frames));
      Replace(frames, Top(frames), Top(frames));
      assert [] + rest == rest;
    } else {
      var init, last := fs[..|fs| - 1], fs[|fs| - 1];
      assert FlatFields(fs) + rest == FlatFields(init) + (FlatField(last) + rest);
      RunFields(frames, init, FlatField(last) + rest);
      var f := Append(Top(frames), FieldsMeaning(init));
      RunField(SetTop(frames, f), last, rest);
      AppendAgain(Top(frames), FieldsMeaning(init), FieldMeaning(last));
      Replace(frames, f, Append(f, FieldMeaning(last)));
    }
  }

  lemma {:induction false} RunItem(frames: seq<Frame>, item: Item, rest: seq<Token>)
    requires frames != [] && |frames| <= STACK_MAX && Terminated(rest) && Counted(Top(frames))
    ensures Run(frames, FlatItem(item) + rest)
         == if |frames| + ItemDepth(item) <= STACK_MAX
            then Run(SetTop(frames, Grow(Top(frames), ItemMeaning(item))), rest) else Aborted
    decreases item
  {
    var top := Top(frames);
    var next := top.(i := top.i + 1);
    IndexUnfold(frames, FlatItem(item) + rest);
    if item.Item? {
      RunExpr(SetTop(frames, next), ArrayKey(top.i), item.expr, rest);
      GrowOne(top, Meaning(item.expr));
      Replace(frames, next, Grow(top, ItemMeaning(item)));
    } else {
      StepValue(SetTop(frames, next), ArrayKey(top.i), Splice(item.doc), rest);
      StepSplice(frames, item.doc);
    }
  }

  lemma {:induction false} RunItems(frames: seq<Frame>, items: seq<Item>, rest: seq<Token>)
    requires frames != [] && |frames| <= STACK_MAX && Terminated(rest) && Counted(Top(frames))
    ensures Run(frames, FlatItems(items) + rest)
         == if |frames| + ItemsDepth(items) <= STACK_MAX
            then Run(SetTop(frames, Grow(Top(frames), ItemsValues(items))), rest) else Aborted
    decreases items, 0
  {
    if items == [] {
      GrowNone(Top(frames));
      Replace(frames, Top(frames), Top(frames));
      assert [] + rest == rest;
    } else {
      var init, last := items[..|items| - 1], items[|items| - 1];
      assert FlatItems(items) + rest == FlatItems(init) + (FlatItem(last) + rest);
      RunItems(frames, init, FlatItem(last) + rest);
      var f := Grow(Top(frames), ItemsValues(init));
      RunItem(SetTop(frames, f), last, rest);
      GrowAgain(Top(frames), ItemsValues(init), ItemMeaning(last));
      Replace(frames, f, Grow(f, ItemMeaning(last)));
    }
  }

  /** A well-formed list builds the document it stands for, unless it nests deeper than the stack. */
  lemma Builds(fields: seq<Field>, rest: seq<Token>)
    requires rest == [] || Terminated(rest)
    ensures Terminated(FlatFields(fields) + ([End] + rest))
    ensures Run([ROOT], FlatFields(fields) + ([End] + rest))
         == if FieldsDepth(fields) < STACK_MAX then Returned([ROOT.(elems := FieldsMeaning(fields))], rest) else Aborted
  {
    RunFields([ROOT], fields, [End] + rest);
    var f := ROOT.(elems := FieldsMeaning(fields));
    assert Append(ROOT, FieldsMeaning(fields)) == f && SetTop([ROOT], f) == [f];
    Cut(End, rest);
  }
}

/** Which bytes the iterator takes for an element: on any buffer, exactly those of a loose grammar. */
module BsonIterGrammar {
  import opened BsonDocument
  import opened BsonEncoding
  import opened BsonIter

  /** A string with its length and its final zero stands at `o` and ends at `n`. */
  ghost predicate StringStands(data: seq<Byte>, o: nat, n: nat, s: seq<Byte>) {
    At(data, o, EncodeString(s)) && n == o + 5 + |s|
  }

  /** A binary, in the form of its subtype. */
  ghost predicate BinaryStands(data: seq<Byte>, o: nat, n: nat, subtype: Byte, s: seq<Byte>) {
    if subtype == 2 then At(data, o, LE32(|s| + 4) + ([2] + (LE32(|s|) + s))) && n == o + 9 + |s|
    else At(data, o, LE32(|s|) + ([subtype] + s)) && n == o + 5 + |s|
  }

  ghost predicate RegexStands(data: seq<Byte>, o: nat, n: nat, p: CString, q: CString) {
    At(data, o, (p + [0]) + (q + [0])) && n == o + |p| + 1 + |q| + 1
  }

  ghost predicate PointerStands(data: seq<Byte>, o: nat, n: nat, s: seq<Byte>, id: Bytes12) {
    At(data, o, EncodeString(s) + id) && n == o + 5 + |s| + 12
  }

  /** A code, of which only the length is known, and a scope that announces its own length, of five or more. */
  ghost predicate ScopeStands(data: seq<Byte>, o: nat, n: nat, code: seq<Byte>, scope: seq<Byte>) {
    && At(data, o, LE32(8 + |code| + |scope|) + (LE32(|code|) + (code + scope)))
    && n == o + 8 + |code| + |scope| && code != [] && 5 <= |scope| && U32(scope, 0) == |scope|
  }

  /** The payload of an element: `o` is where it starts and `n` where it ends. */
  ghost predicate PayloadStands(data: seq<Byte>, t: Byte, o: nat, n: nat) {
    if t == 0x01 || t == 0x09 || t == 0x11 || t == 0x12 then n == o + 8
    else if t == 0x07 then n == o + 12
    else if t == 0x10 then n == o + 4
    else if t == 0x13 then n == o + 16
    else if t == 0x06 || t == 0x0A || t == 0x7F || t == 0xFF then n == o
    else if t == 0x08 then n == o + 1 && o < |data| && (data[o] == 0 || data[o] == 1)
    else if t == 0x02 || t == 0x0D || t == 0x0E then exists s :: StringStands(data, o, n, s)
    else if t == 0x03 || t == 0x04 then o + 4 < |data| && n == o + U32(data, o)
    else if t == 0x05 then exists subtype, s :: BinaryStands(data, o, n, subtype, s)
    else if t == 0x0B then exists p, q :: RegexStands(data, o, n, p, q)
    else if t == 0x0C then exists s, id :: PointerStands(data, o, n, s, id)
    else if t == 0x0F then exists code, scope :: ScopeStands(data, o, n, code, scope)
    else false
  }

  lemma Split256(q: nat, r: nat)
    requires r < 256
    ensures (256 * q + r) / 256 == q && (256 * q + r) % 256 == r
  {
  }

  /** Four bytes are the encoding of the number they denote. */
  lemma LittleEndian(data: seq<Byte>, o: nat)
    requires o + 4 <= |data|
    ensures At(data, o, LE32(U32(data, o)))
  {
    var b0: int, b1: int, b2: int, b3: int := data[o], data[o + 1], data[o + 2], data[o + 3];
    var n := U32(data, o);
    Split256(b1 + 256 * b2 + 65536 * b3, b0);
    Split256(b2 + 256 * b3, b1);
    Split256(b3, b2);
    assert n / 65536 == n / 256 / 256 && n / 16777216 == n / 256 / 256 / 256;
    assert LE32(n) == data[o..o + 4];
  }

  lemma AtJoin(data: seq<Byte>, o: nat, a: seq<Byte>, b: seq<Byte>)
    requires At(data, o, a) && At(data, o + |a|, b)
    ensures At(data, o, a + b)
  {
    forall i | 0 <= i < |a + b| ensures data[o + i] == (a + b)[i] {
      if i >= |a| { assert data[o + |a| + (i - |a|)] == b[i - |a|]; }
    }
  }

  lemma AtHere(data: seq<Byte>, o: nat, n: nat)
    requires o <= n <= |data|
    ensures At(data, o, data[o..n])
  {
  }

  lemma StringParts(data: seq<Byte>, o: nat, n: nat, s: seq<Byte>)
    requires |data| <= INT_MAX
    ensures StringStands(data, o, n, s) <==>
              && o + 5 <= n <= |data| && n == o + 4 + U32(data, o) && data[n - 1] == 0 && s == data[o + 4..n - 1]
  {
    if StringStands(data, o, n, s) {
      AtAppend(data, o, LE32(|s| + 1), s + [0]);
      AtU32(data, o, |s| + 1);
      AtAppend(data, o + 4, s, [0]);
      AtSlice(data, o + 4, s);
      assert data[o + 4 + |s| + 0] == [0][0];
    }
    if o + 5 <= n <= |data| && n == o + 4 + U32(data, o) && data[n - 1] == 0 && s == data[o + 4..n - 1] {
      LittleEndian(data, o);
      AtHere(data, o + 4, n - 1);
      assert At(data, n - 1, [0]);
      AtJoin(data, o + 4, s, [0]);
      AtJoin(data, o, LE32(|s| + 1), s + [0]);
    }
  }

  lemma StringExactly(data: seq<Byte>, o: nat, n: nat)
    requires o <= |data| <= INT_MAX && n < |data|
    ensures (StringLayout(data, o).Fields? && StringLayout(data, o).next == n)
       <==> exists s :: StringStands(data, o, n, s)
  {
    if StringLayout(data, o).Fields? && StringLayout(data, o).next == n { StringParts(data, o, n, data[o + 4..n - 1]); }
    if s :| StringStands(data, o, n, s) { StringParts(data, o, n, s); }
  }

  lemma BinaryParts(data: seq<Byte>, o: nat, n: nat, subtype: Byte, s: seq<Byte>)
    requires |data| <= INT_MAX && subtype != 2
    ensures BinaryStands(data, o, n, subtype, s) <==>
              o + 5 <= n <= |data| && n == o + 5 + U32(data, o) && data[o + 4] == subtype && s == data[o + 5..n]
  {
    if BinaryStands(data, o, n, subtype, s) {
      AtAppend(data, o, LE32(|s|), [subtype] + s);
      AtU32(data, o, |s|);
      AtAppend(data, o + 4, [subtype], s);
      AtSlice(data, o + 5, s);
      assert data[o + 4 + 0] == [subtype][0];
    }
    if o + 5 <= n <= |data| && n == o + 5 + U32(data, o) && data[o + 4] == subtype && s == data[o + 5..n] {
      LittleEndian(data, o);
      AtHere(data, o + 5, n);
      assert At(data, o + 4, [subtype]);
      AtJoin(data, o + 4, [subtype], s);
      AtJoin(data, o, LE32(|s|), [subtype] + s);
    }
  }

  lemma OldBinaryParts(data: seq<Byte>, o: nat, n: nat, s: seq<Byte>)
    requires |data| <= INT_MAX
    ensures BinaryStands(data, o, n, 2, s) <==>
              && o + 9 <= n <= |data| && n == o + 5 + U32(data, o) && data[o + 4] == 2
              && U32(data, o + 5) + 4 == U32(data, o) && s == data[o + 9..n]
  {
    if BinaryStands(data, o, n, 2, s) {
      AtAppend(data, o, LE32(|s| + 4), [2] + (LE32(|s|) + s));
      AtU32(data, o, |s| + 4);
      AtAppend(data, o + 4, [2], LE32(|s|) + s);
      assert data[o + 4 + 0] == [2][0];
      AtAppend(data, o + 5, LE32(|s|), s);
      AtU32(data, o + 5, |s|);
      AtSlice(data, o + 9, s);
    }
    if o + 9 <= n <= |data| && n == o + 5 + U32(data, o) && data[o + 4] == 2 && U32(data, o + 5) + 4 == U32(data, o)
       && s == data[o + 9..n] {
      OldBinaryThere(data, o, n);
    }
  }

  lemma OldBinaryThere(data: seq<Byte>, o: nat, n: nat)
    requires o + 9 <= n <= |data| && n == o + 5 + U32(data, o) && data[o + 4] == 2
    requires U32(data, o + 5) + 4 == U32(data, o)
    ensures BinaryStands(data, o, n, 2, data[o + 9..n])
  {
    var s := data[o + 9..n];
    LittleEndian(data, o);
    LittleEndian(data, o + 5);
    AtHere(data, o + 9, n);
    assert At(data, o + 4, [2]);
    hide LE32, U32;
    AtJoin(data, o + 5, LE32(|s|), s);
    AtJoin(data, o + 4, [2], LE32(|s|) + s);
    AtJoin(data, o, LE32(|s| + 4), [2] + (LE32(|s|) + s));
  }

  lemma BinaryExactly(data: seq<Byte>, o: nat, n: nat)
    requires o <= |data| <= INT_MAX && n < |data|
    ensures (BinaryLayout(data, o).Fields? && BinaryLayout(data, o).next == n)
       <==> exists subtype, s :: BinaryStands(data, o, n, subtype, s)
  {
    hide BinaryStands;
    if BinaryLayout(data, o).Fields? && BinaryLayout(data, o).next == n {
      if data[o + 4] == 2 {
        OldBinaryParts(data, o, n, data[o + 9..n]);
      } else {
        BinaryParts(data, o, n, data[o + 4], data[o + 5..n]);
      }
    }
    if subtype, s :| BinaryStands(data, o, n, subtype, s) {
      if subtype == 2 { OldBinaryParts(data, o, n, s); } else { BinaryParts(data, o, n, subtype, s); }
    }
  }

  lemma RegexExactly(data: seq<Byte>, at: nat, o: nat, n: nat)
    requires o <= |data| <= INT_MAX && n < |data|
    ensures (RegexLayout(data, at, o).Fields? && RegexLayout(data, at, o).next == n)
       <==> exists p, q :: RegexStands(data, o, n, p, q)
  {
    var e := FindNul(data, o);
    if RegexLayout(data, at, o).Fields? && RegexLayout(data, at, o).next == n {
      RegexThere(data, o, n);
    }
    if p, q :| RegexStands(data, o, n, p, q) {
      AtAppend(data, o, p + [0], q + [0]);
      AtString(data, o, p);
      AtString(data, o + |p| + 1, q);
    }
  }

  /** The bytes up to a zero are a C string, and the zero stands behind it. */
  lemma StringThere(data: seq<Byte>, o: nat) returns (s: CString)
    requires o <= |data| && FindNul(data, o) < |data|
    ensures At(data, o, s + [0]) && FindNul(data, o) == o + |s|
  {
    BeforeNul(data, o);
    var e := FindNul(data, o);
    s := data[o..e];
    assert At(data, o, s) && At(data, e, [0]);
    AtJoin(data, o, s, [0]);
  }

  lemma RegexThere(data: seq<Byte>, o: nat, n: nat)
    requires o <= |data| && FindNul(data, o) < |data|
    requires FindNul(data, FindNul(data, o) + 1) < |data| && n == FindNul(data, FindNul(data, o) + 1) + 1
    ensures exists p, q :: RegexStands(data, o, n, p, q)
  {
    var p := StringThere(data, o);
    var q := StringThere(data, o + |p| + 1);
    AtJoin(data, o, p + [0], q + [0]);
    assert RegexStands(data, o, n, p, q);
  }

  lemma PointerParts(data: seq<Byte>, o: nat, n: nat, s: seq<Byte>, id: Bytes12)
    requires |data| <= INT_MAX
    ensures PointerStands(data, o, n, s, id) <==>
              && n == o + 17 + |s| && n <= |data| && StringStands(data, o, n - 12, s) && id == data[n - 12..n]
  {
    if PointerStands(data, o, n, s, id) {
      AtAppend(data, o, EncodeString(s), id);
      AtSlice(data, n - 12, id);
    }
    if n == o + 17 + |s| && n <= |data| && StringStands(data, o, n - 12, s) && id == data[n - 12..n] {
      AtHere(data, n - 12, n);
      AtJoin(data, o, EncodeString(s), id);
    }
  }

  lemma PointerExactly(data: seq<Byte>, o: nat, n: nat)
    requires o <= |data| <= INT_MAX && n < |data|
    ensures (PointerLayout(data, o).Fields? && PointerLayout(data, o).next == n)
       <==> exists s, id :: PointerStands(data, o, n, s, id)
  {
    hide PointerStands, StringStands;
    if PointerLayout(data, o).Fields? && PointerLayout(data, o).next == n {
      StringParts(data, o, n - 12, data[o + 4..n - 13]);
      PointerParts(data, o, n, data[o + 4..n - 13], data[n - 12..n]);
    }
    if s, id :| PointerStands(data, o, n, s, id) {
      PointerParts(data, o, n, s, id);
      StringParts(data, o, n - 12, s);
    }
  }

  lemma ScopeParts(data: seq<Byte>, o: nat, n: nat, code: seq<Byte>, scope: seq<Byte>)
    requires |data| <= INT_MAX
    ensures ScopeStands(data, o, n, code, scope) <==>
              && o + 14 <= n <= |data| && n == o + U32(data, o) && U32(data, o + 4) == |code| > 0
              && o + 8 + |code| + 5 <= n && U32(data, o + 8 + |code|) == n - (o + 8 + |code|)
              && code == data[o + 8..o + 8 + |code|] && scope == data[o + 8 + |code|..n]
  {
    if ScopeStands(data, o, n, code, scope) {
      AtAppend(data, o, LE32(8 + |code| + |scope|), LE32(|code|) + (code + scope));
      AtU32(data, o, 8 + |code| + |scope|);
      AtAppend(data, o + 4, LE32(|code|), code + scope);
      AtU32(data, o + 4, |code|);
      AtAppend(data, o + 8, code, scope);
      AtSlice(data, o + 8, code);
      AtSlice(data, o + 8 + |code|, scope);
      SamePrefix(data, o + 8 + |code|, n, scope);
    }
    if o + 14 <= n <= |data| && n == o + U32(data, o) && U32(data, o + 4) == |code| > 0
       && o + 8 + |code| + 5 <= n && U32(data, o + 8 + |code|) == n - (o + 8 + |code|)
       && code == data[o + 8..o + 8 + |code|] && scope == data[o + 8 + |code|..n] {
      ScopeThere(data, o, n, code, scope);
    }
  }

  lemma SamePrefix(data: seq<Byte>, o: nat, n: nat, s: seq<Byte>)
    requires o + 4 <= n <= |data| && s == data[o..n]
    ensures U32(s, 0) == U32(data, o)
  {
  }

  lemma ScopeThere(data: seq<Byte>, o: nat, n: nat, code: seq<Byte>, scope: seq<Byte>)
    requires o + 14 <= n <= |data| <= INT_MAX && n == o + U32(data, o) && U32(data, o + 4) == |code| > 0
    requires o + 8 + |code| + 5 <= n && U32(data, o + 8 + |code|) == n - (o + 8 + |code|)
    requires code == data[o + 8..o + 8 + |code|] && scope == data[o + 8 + |code|..n]
    ensures ScopeStands(data, o, n, code, scope)
  {
    LittleEndian(data, o);
    LittleEndian(data, o + 4);
    SamePrefix(data, o + 8 + |code|, n, scope);
    AtHere(data, o + 8, o + 8 + |code|);
    AtHere(data, o + 8 + |code|, n);
    hide LE32, U32;
    AtJoin(data, o + 8, code, scope);
    AtJoin(data, o + 4, LE32(|code|), code + scope);
    AtJoin(data, o, LE32(8 + |code| + |scope|), LE32(|code|) + (code + scope));
  }

  lemma ScopeExactly(data: seq<Byte>, o: nat, n: nat)
    requires 6 <= o <= |data| <= INT_MAX && n < |data|
    ensures (ScopeLayout(data, o).Fields? && ScopeLayout(data, o).next == n)
       <==> exists code, scope :: ScopeStands(data, o, n, code, scope)
  {
    hide ScopeStands;
    if ScopeLayout(data, o).Fields? && ScopeLayout(data, o).next == n {
      var l := U32(data, o + 4);
      ScopeParts(data, o, n, data[o + 8..o + 8 + l], data[o + 8 + l..n]);
    }
    if code, scope :| ScopeStands(data, o, n, code, scope) {
      ScopeParts(data, o, n, code, scope);
    }
  }

  lemma LayoutExactly(data: seq<Byte>, at: nat, t: Byte, o: nat, n: nat)
    requires 6 <= o <= |data| <= INT_MAX && n < |data|
    ensures (LayoutAt(data, at, t, o).Fields? && LayoutAt(data, at, t, o).next == n) <==> PayloadStands(data, t, o, n)
  {
    if t == 0x02 || t == 0x0D || t == 0x0E { StringExactly(data, o, n); }
    if t == 0x05 { BinaryExactly(data, o, n); }
    if t == 0x0B { RegexExactly(data, at, o, n); }
    if t == 0x0C { PointerExactly(data, o, n); }
    if t == 0x0F { ScopeExactly(data, o, n); }
    hide StringLayout, BinaryLayout, RegexLayout, PointerLayout, ScopeLayout;
    hide StringStands, BinaryStands, RegexStands, PointerStands, ScopeStands;
  }

  /** An element: its type, its key and its payload, and at least one byte behind it. */
  ghost predicate ElementStands(data: seq<Byte>, at: nat, key: CString, n: nat) {
    at < |data| && At(data, at + 1, key + [0]) && PayloadStands(data, data[at], at + |key| + 2, n) && n < |data|
  }

  /** On any bytes, the iterator takes exactly the elements of the grammar, and ends them where it does. */
  lemma StepExactly(data: seq<Byte>, at: nat, n: nat)
    requires 4 <= at && |data| <= INT_MAX
    ensures (StepAt(data, at).Element? && StepAt(data, at).next == n) <==> exists key :: ElementStands(data, at, key, n)
  {
    hide LayoutAt, PayloadStands;
    if at < |data| && FindNul(data, at + 1) < |data| {
      var key := StringThere(data, at + 1);
      var o := at + |key| + 2;
      if n < |data| { LayoutExactly(data, at, data[at], o, n); }
      if StepAt(data, at).Element? && StepAt(data, at).next == n { assert ElementStands(data, at, key, n); }
      if k :| ElementStands(data, at, k, n) {
        AtString(data, at + 1, k);
        assert |k| == |key|;
      }
    } else if k :| ElementStands(data, at, k, n) {
      AtString(data, at + 1, k);
      assert false;
    }
  }

  /** The types of the grammar, and zero, which ends a document. */
  predicate KnownType(t: Byte) { t <= 0x13 || t == 0x7F || t == 0xFF }

  /** A step reports an unsupported type exactly when a key follows a type byte that the grammar does not have. */
  lemma UnsupportedExactly(data: seq<Byte>, at: nat)
    requires |data| <= INT_MAX
    ensures StepAt(data, at).Invalid? && StepAt(data, at).unsupported
       <==> at < |data| && FindNul(data, at + 1) < |data| && !KnownType(data[at])
  {
  }

  /** Wherever a step finds its error, it reports nothing at all or a place between the element and the end. */
  lemma ErrorPlace(data: seq<Byte>, at: nat)
    requires |data| <= INT_MAX && StepAt(data, at).Invalid?
    ensures StepAt(data, at).err == 0 || at <= StepAt(data, at).err <= |data|
  {
  }

  /** A length that fits the buffer is announced at `o`, with a byte behind what it counts. */
  predicate LengthFits(data: seq<Byte>, o: nat) { o + 4 < |data| && 1 <= U32(data, o) && o + 4 + U32(data, o) < |data| }

  /**
   * Where the error of a refused element is: at its payload, but for strings and pointers without a final zero at the
   * byte that should be one, for regular expressions that are cut off at the element, for old binaries at their second
   * length, and for a regular expression that is not followed by anything at its last byte.
   */
  lemma ErrorExactly(data: seq<Byte>, at: nat)
    requires at < |data| <= INT_MAX && FindNul(data, at + 1) < |data| && StepAt(data, at).Invalid?
    ensures var t, o, err := data[at], FindNul(data, at + 1) + 1, StepAt(data, at).err;
            && (t == 0x02 || t == 0x0D || t == 0x0E ==>
                  err == if LengthFits(data, o) then o + 3 + U32(data, o) else o)
            && (t == 0x0C && LengthFits(data, o) ==>
                  err == if data[o + 3 + U32(data, o)] != 0 then o + 3 + U32(data, o) else o)
            && (t == 0x05 && LengthFits(data, o) && o + 5 + U32(data, o) < |data| ==>
                  (data[o + 4] == 2 && U32(data, o) >= 4 ==> err == o + 5))
            && (t == 0x0B ==> err == at || err == |data| - 1)
            && (t != 0x02 && t != 0x0D && t != 0x0E && t != 0x0C && t != 0x05 && t != 0x0B && t != 0x0F ==> err == o)
  {
    hide ScopeLayout;
  }
}

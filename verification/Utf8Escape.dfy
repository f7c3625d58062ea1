/** Escaping a text for JSON, and reading the escaped text back as RFC 8259, section 7, says. */
module Utf8Escape {
  import opened Basics
  import opened BsonDocument
  import opened Utf8
  import opened Utf8Bits
  import opened Utf8Codes

  const QUOTE: Byte := 0x22
  const BACKSLASH: Byte := 0x5C

  /** Lower-case hexadecimal. */
  function HexDigit(n: nat): (b: Byte)
    requires n < 16
  {
    if n < 10 then 0x30 + n else 0x57 + n
  }

  /** One character, escaped; NUL and the other control characters become \u00XX. */
  function EscapeChar(c: nat): (s: seq<Byte>)
    requires IsScalar(c)
    ensures s != []
  {
    if c == BACKSLASH || c == QUOTE then [BACKSLASH] + Encode(c)
    else if c == 0x08 then [BACKSLASH, 0x62]
    else if c == 0x0C then [BACKSLASH, 0x66]
    else if c == 0x0A then [BACKSLASH, 0x6E]
    else if c == 0x0D then [BACKSLASH, 0x72]
    else if c == 0x09 then [BACKSLASH, 0x74]
    else if c < 0x20 then [BACKSLASH, 0x75, 0x30, 0x30, HexDigit(c / 16), HexDigit(c % 16)]
    else Encode(c)
  }

  /** What the escaper makes of a valid text from an offset on; a NUL in two bytes ends it without a result. */
  function EscapeFrom(s: seq<Byte>, i: nat): Option<seq<Byte>>
    requires i <= |s| && ValidFrom(s, i, true)
    decreases |s| - i
  {
    if i == |s| then Some([])
    else
      ValidDecodes(s, i, true);
      match CodeAt(s, i)
      case LongNul => None
      case Scalar(c) =>
        match EscapeFrom(s, i + SequenceLength(s[i]))
        case None => None
        case Some(rest) => Some(EscapeChar(c) + rest)
  }

  /** More output in front. */
  function Prefixed(str: seq<Byte>, r: Option<seq<Byte>>): Option<seq<Byte>> {
    match r
    case None => None
    case Some(rest) => Some(str + rest)
  }

  lemma PrefixedTwice(a: seq<Byte>, b: seq<Byte>, r: Option<seq<Byte>>)
    ensures Prefixed(a, Prefixed(b, r)) == Prefixed(a + b, r)
    ensures Prefixed([], r) == r
  {
    if r.Some? {
      assert a + (b + r.value) == a + b + r.value;
      assert [] + r.value == r.value;
    }
  }

  lemma EscapeOn(s: seq<Byte>, i: nat)
    requires i < |s| && ValidFrom(s, i, true)
    ensures CodeAt(s, i) == LongNul ==> EscapeFrom(s, i) == None
    ensures CodeAt(s, i).Scalar? ==> IsScalar(CodeAt(s, i).c)
    ensures CodeAt(s, i).Scalar? ==>
              EscapeFrom(s, i) == Prefixed(EscapeChar(CodeAt(s, i).c), EscapeFrom(s, i + SequenceLength(s[i])))
    ensures CodeAt(s, i) == LongNul <==> s[i] == 0xC0
    ensures CodeAt(s, i) == Scalar(0) ==> s[i] == 0
  {
    ValidDecodes(s, i, true);
    if CodeAt(s, i).Scalar? { NoC0(CodeAt(s, i).c); }
  }

  /** No scalar value is encoded with the byte C0. */
  lemma NoC0(c: nat)
    requires IsScalar(c)
    ensures 0xC0 !in Encode(c)
  {
  }

  lemma PrefixedIs(a: seq<Byte>, r: Option<seq<Byte>>)
    ensures Prefixed(a, r) == if r.Some? then Some(a + r.value) else None
  {
  }

  method AppendEscaped(str: seq<Byte>, c: nat) returns (out: seq<Byte>)
    requires IsScalar(c)
    ensures out == str + EscapeChar(c)
  {
    out := str;
    if c == BACKSLASH || c == QUOTE {
      out := out + [BACKSLASH];
      out := out + Encode(c);
      assert out == str + ([BACKSLASH] + Encode(c));
    } else if c == 0x08 {
      out := out + [BACKSLASH, 0x62];
    } else if c == 0x0C {
      out := out + [BACKSLASH, 0x66];
    } else if c == 0x0A {
      out := out + [BACKSLASH, 0x6E];
    } else if c == 0x0D {
      out := out + [BACKSLASH, 0x72];
    } else if c == 0x09 {
      out := out + [BACKSLASH, 0x74];
    } else if c < 0x20 {
      out := out + [BACKSLASH, 0x75, 0x30, 0x30, HexDigit(c / 16), HexDigit(c % 16)];
    } else {
      out := out + Encode(c);
    }
  }

  /** bson_utf8_escape_for_json with an explicit length, on a text the validator accepts. */
  method EscapeForJson(s: seq<Byte>) returns (r: Option<seq<Byte>>)
    requires ValidFrom(s, 0, true)
    ensures r == EscapeFrom(s, 0)
  {
    hide EscapeFrom, EscapeChar, Encode, Word, Prefixed;
    var str: seq<Byte> := [];
    var i := 0;
    PrefixedTwice([], [], EscapeFrom(s, 0));
    while i < |s|
      invariant i <= |s| && ValidFrom(s, i, true)
      invariant EscapeFrom(s, 0) == Prefixed(str, EscapeFrom(s, i))
      decreases |s| - i
    {
      ValidDecodes(s, i, true);
      EscapeOn(s, i);
      var w := GetChar(s, i);
      var c := Word(w);
      var out := AppendEscaped(str, c);
      if c != 0 {
        PrefixedTwice(str, EscapeChar(c), EscapeFrom(s, i + SequenceLength(s[i])));
        i := i + SequenceLength(s[i]);
      } else if s[i] == 0 {
        PrefixedTwice(str, EscapeChar(c), EscapeFrom(s, i + 1));
        i := i + 1;
      } else {
        PrefixedIs(str, None);
        return None;
      }
      str := out;
    }
    EscapeEnd(s);
    PrefixedIs(str, Some([]));
    assert str + [] == str;
    r := Some(str);
  }

  lemma EscapeEnd(s: seq<Byte>)
    ensures EscapeFrom(s, |s|) == Some([])
  {
  }

  function HexValue(b: Byte): Option<nat> {
    if 0x30 <= b < 0x3A then Some(b - 0x30)
    else if 0x61 <= b < 0x67 then Some(b - 0x57)
    else if 0x41 <= b < 0x47 then Some(b - 0x37)
    else None
  }

  /** Four hexadecimal digits behind \u. */
  function Hex4(t: seq<Byte>, i: nat): Option<nat> {
    if i + 4 > |t| || HexValue(t[i]).None? || HexValue(t[i + 1]).None? || HexValue(t[i + 2]).None?
      || HexValue(t[i + 3]).None? then None
    else
      Some(HexValue(t[i]).value * 4096 + HexValue(t[i + 1]).value * 256 + HexValue(t[i + 2]).value * 16
           + HexValue(t[i + 3]).value)
  }

  /** The byte a two-character escape stands for. */
  function ShortEscape(b: Byte): Option<Byte> {
    if b == QUOTE || b == BACKSLASH || b == 0x2F then Some(b)
    else if b == 0x62 then Some(0x08)
    else if b == 0x66 then Some(0x0C)
    else if b == 0x6E then Some(0x0A)
    else if b == 0x72 then Some(0x0D)
    else if b == 0x74 then Some(0x09)
    else None
  }

  /** The text of a JSON string's inside, by the grammar of RFC 8259, section 7; surrogates must come in pairs. */
  function Unescape(t: seq<Byte>): Option<seq<Byte>> {
    if t == [] then Some([])
    else if t[0] != BACKSLASH then
      if t[0] == QUOTE || t[0] < 0x20 then None else Prefixed([t[0]], Unescape(t[1..]))
    else if |t| < 2 then None
    else if ShortEscape(t[1]).Some? then Prefixed([ShortEscape(t[1]).value], Unescape(t[2..]))
    else if t[1] != 0x75 || Hex4(t, 2).None? then None
    else
      var u := Hex4(t, 2).value;
      if IsScalar(u) then Prefixed(Encode(u), Unescape(t[6..]))
      else if 0xD800 <= u < 0xDC00 && |t| >= 12 && t[6] == BACKSLASH && t[7] == 0x75 && Hex4(t, 8).Some?
              && 0xDC00 <= Hex4(t, 8).value < 0xE000 then
        Prefixed(Encode(0x10000 + (u - 0xD800) * 0x400 + (Hex4(t, 8).value - 0xDC00)), Unescape(t[12..]))
      else None
  }

  lemma {:induction false} UnescapePlain(p: seq<Byte>, rest: seq<Byte>)
    requires forall k :: 0 <= k < |p| ==> p[k] >= 0x20 && p[k] != QUOTE && p[k] != BACKSLASH
    ensures Unescape(p + rest) == Prefixed(p, Unescape(rest))
  {
    if p == [] {
      assert p + rest == rest;
      PrefixedTwice([], [], Unescape(rest));
    } else {
      var t := p + rest;
      assert t[0] == p[0] && t[1..] == p[1..] + rest;
      UnescapePlain(p[1..], rest);
      PrefixedTwice([p[0]], p[1..], Unescape(rest));
      assert [p[0]] + p[1..] == p;
    }
  }

  lemma HexBack(n: nat)
    requires n < 16
    ensures HexValue(HexDigit(n)) == Some(n)
  {
  }

  lemma UnescapeUnicode(c: nat, rest: seq<Byte>)
    requires c < 0x20
    ensures Unescape([BACKSLASH, 0x75, 0x30, 0x30, HexDigit(c / 16), HexDigit(c % 16)] + rest)
         == Prefixed(Encode(c), Unescape(rest))
  {
    var t := [BACKSLASH, 0x75, 0x30, 0x30, HexDigit(c / 16), HexDigit(c % 16)] + rest;
    HexBack(c / 16);
    HexBack(c % 16);
    assert t[2] == 0x30 && t[3] == 0x30 && t[4] == HexDigit(c / 16) && t[5] == HexDigit(c % 16);
    assert Hex4(t, 2) == Some(c);
    assert t[6..] == rest;
  }

  lemma UnescapeShort(b: Byte, rest: seq<Byte>)
    requires ShortEscape(b).Some?
    ensures Unescape([BACKSLASH, b] + rest) == Prefixed([ShortEscape(b).value], Unescape(rest))
  {
    var t := [BACKSLASH, b] + rest;
    assert t[2..] == rest;
  }

  /** Reading an escaped character back gives its encoding. */
  lemma UnescapeChar(c: nat, rest: seq<Byte>)
    requires IsScalar(c)
    ensures Unescape(EscapeChar(c) + rest) == Prefixed(Encode(c), Unescape(rest))
    ensures forall k :: 0 <= k < |EscapeChar(c)| ==> EscapeChar(c)[k] >= 0x20
  {
    if c == BACKSLASH || c == QUOTE {
      assert [BACKSLASH] + Encode(c) == [BACKSLASH, c];
      UnescapeShort(c, rest);
    } else if c == 0x08 || c == 0x0C || c == 0x0A || c == 0x0D || c == 0x09 {
      UnescapeShort(EscapeChar(c)[1], rest);
    } else if c < 0x20 {
      UnescapeUnicode(c, rest);
    } else {
      UnescapePlain(Encode(c), rest);
    }
  }

  /** Which characters are escaped, and in how many bytes; with what they are read back as, that leaves no choice. */
  lemma EscapesOnly(c: nat)
    requires IsScalar(c)
    ensures c >= 0x20 && c != 0x22 && c != 0x5C <==> EscapeChar(c) == Encode(c)
    ensures EscapeChar(c) != Encode(c) ==> EscapeChar(c)[0] == 0x5C
    ensures c == 0x22 || c == 0x5C || c == 8 || c == 9 || c == 10 || c == 12 || c == 13 ==> |EscapeChar(c)| == 2
    ensures c < 8 || c == 11 || 14 <= c < 0x20 ==>
              && |EscapeChar(c)| == 6 && EscapeChar(c)[1..4] == [0x75, 0x30, 0x30]
              && forall k :: 4 <= k < 6 ==> 0x30 <= EscapeChar(c)[k] <= 0x39 || 0x61 <= EscapeChar(c)[k] <= 0x66
  {
  }

  /** Escaping fails exactly on a NUL in two bytes; otherwise unescaping gives the text back. */
  lemma {:induction false} EscapeInverse(s: seq<Byte>, i: nat)
    requires i <= |s| && ValidFrom(s, i, true)
    ensures EscapeFrom(s, i) == None <==> 0xC0 in s[i..]
    ensures EscapeFrom(s, i).Some? ==> Unescape(EscapeFrom(s, i).value) == Some(s[i..])
    ensures EscapeFrom(s, i).Some? ==> forall b <- EscapeFrom(s, i).value :: b >= 0x20
    decreases |s| - i
  {
    hide ValidAt, CodeAt, EscapeFrom, EscapeChar, Encode, Unescape;
    if i == |s| {
      EscapeEnd(s);
      UnescapeEmpty();
    } else {
      ValidDecodes(s, i, true);
      EscapeOn(s, i);
      NulOn(s, i);
      EscapeInverse(s, i + SequenceLength(s[i]));
      if CodeAt(s, i).Scalar? && EscapeFrom(s, i + SequenceLength(s[i])).Some? {
        UnescapeChar(CodeAt(s, i).c, EscapeFrom(s, i + SequenceLength(s[i])).value);
      }
    }
  }

  /** Whether a NUL in two bytes follows. */
  lemma NulOn(s: seq<Byte>, i: nat)
    requires i < |s| && ValidFrom(s, i, true)
    ensures i + SequenceLength(s[i]) <= |s|
    ensures s[i] == 0xC0 ==> 0xC0 in s[i..]
    ensures s[i] != 0xC0 ==> (0xC0 in s[i..] <==> 0xC0 in s[i + SequenceLength(s[i])..])
    ensures CodeAt(s, i).Scalar? ==> IsScalar(CodeAt(s, i).c)
    ensures CodeAt(s, i).Scalar? ==> s[i..] == Encode(CodeAt(s, i).c) + s[i + SequenceLength(s[i])..]
  {
    ValidDecodes(s, i, true);
    EscapeOn(s, i);
    CutBytes(s, i, SequenceLength(s[i]));
    if CodeAt(s, i).Scalar? { NoC0(CodeAt(s, i).c); }
  }

  lemma UnescapeEmpty()
    ensures Unescape([]) == Some([])
  {
  }

  lemma CutBytes(s: seq<Byte>, i: nat, n: nat)
    requires 0 < n && i + n <= |s|
    ensures s[i..] == s[i..i + n] + s[i + n..] && s[i] in s[i..i + n]
    ensures 0xC0 in s[i..] <==> 0xC0 in s[i..i + n] || 0xC0 in s[i + n..]
  {
    assert s[i..i + n][0] == s[i];
    assert s[i..] == s[i..i + n] + s[i + n..];
  }

  /** Decoding character by character and encoding again. */
  function Recoded(s: seq<Byte>, i: nat): seq<Byte>
    requires i <= |s| && ValidFrom(s, i, true)
    decreases |s| - i
  {
    if i == |s| then []
    else
      ValidDecodes(s, i, true);
      Encode(CharAt(s, i)) + Recoded(s, i + SequenceLength(s[i]))
  }

  /** The character at i, written again. */
  method RecodeOne(s: seq<Byte>, i: nat, buf: array<Byte>) returns (bytes: seq<Byte>)
    requires i < |s| && ValidFrom(s, i, true) && buf.Length >= 6
    modifies buf
    ensures i + SequenceLength(s[i]) <= |s| && CharAt(s, i) <= 0x1F_FFFF && bytes == Encode(CharAt(s, i))
  {
    hide Encode, Word;
    ValidDecodes(s, i, true);
    var c := GetChar(s, i);
    var len := FromUnichar(c, buf);
    bytes := buf[..len];
  }

  /** Where the next character begins. */
  lemma RecodedGoesOn(s: seq<Byte>, i: nat)
    requires i < |s| && ValidFrom(s, i, true)
    ensures 0 < SequenceLength(s[i]) <= |s| - i && ValidFrom(s, i + SequenceLength(s[i]), true)
    ensures CharAt(s, i) <= 0x1F_FFFF
    ensures Recoded(s, i) == Encode(CharAt(s, i)) + Recoded(s, i + SequenceLength(s[i]))
  {
    ValidDecodes(s, i, true);
  }

  /** bson_utf8_get_char, bson_utf8_from_unichar and bson_utf8_next_char in a loop. */
  method Recode(s: seq<Byte>) returns (out: seq<Byte>)
    requires ValidFrom(s, 0, true)
    ensures out == Recoded(s, 0)
  {
    hide Encode, Recoded, ValidFrom, ValidAt, CharAt, SequenceLength;
    out := [];
    assert [] + Recoded(s, 0) == Recoded(s, 0);
    var buf := new Byte[6];
    var i := 0;
    while i < |s|
      invariant i <= |s| && ValidFrom(s, i, true)
      invariant out + Recoded(s, i) == Recoded(s, 0)
      decreases |s| - i
    {
      RecodedGoesOn(s, i);
      var bytes := RecodeOne(s, i, buf);
      Regroup(out, bytes, Recoded(s, i + SequenceLength(s[i])));
      out := out + bytes;
      i := i + SequenceLength(s[i]);
    }
    NothingRecoded(s);
    assert out + [] == out;
  }

  lemma NothingRecoded(s: seq<Byte>)
    ensures Recoded(s, |s|) == []
  {
  }

  lemma Regroup(a: seq<Byte>, b: seq<Byte>, c: seq<Byte>)
    ensures a + (b + c) == a + b + c
  {
  }

  lemma SameBehind(a: seq<Byte>, b: seq<Byte>, c: seq<Byte>)
    ensures a + b == a + c <==> b == c
  {
    assert (a + b)[|a|..] == b && (a + c)[|a|..] == c;
  }

  /** Re-encoding a text that goes on behind its first character; `nul` says that a NUL in two bytes follows. */
  lemma RecodedBehind(first: seq<Byte>, rest: seq<Byte>, recoded: seq<Byte>, nul: bool)
    requires RecodesAs(rest, recoded, nul)
    ensures RecodesAs(first + rest, first + recoded, nul)
  {
    SameBehind(first, recoded, rest);
  }

  /** A NUL in two bytes is written in one. */
  lemma ShorterBehind(whole: seq<Byte>, recoded: seq<Byte>, rest: seq<Byte>, restRecoded: seq<Byte>, nul: bool)
    requires RecodesAs(rest, restRecoded, nul) && |whole| == |rest| + 2 && |recoded| == |restRecoded| + 1
    ensures RecodesAs(whole, recoded, true)
  {
  }

  predicate NulAhead(s: seq<Byte>, i: nat)
    requires i <= |s|
  {
    0xC0 in s[i..]
  }

  predicate RecodesAs(rest: seq<Byte>, recoded: seq<Byte>, nul: bool) {
    (recoded == rest <==> !nul) && |recoded| <= |rest| && (nul ==> |recoded| < |rest|)
  }

  lemma NulAheadOn(s: seq<Byte>, i: nat)
    requires i < |s| && ValidFrom(s, i, true)
    ensures i + SequenceLength(s[i]) <= |s|
    ensures s[i] == 0xC0 ==> NulAhead(s, i)
    ensures s[i] != 0xC0 ==> NulAhead(s, i) == NulAhead(s, i + SequenceLength(s[i]))
  {
    NulOn(s, i);
  }

  lemma NothingAhead(s: seq<Byte>)
    ensures RecodesAs(s[|s|..], Recoded(s, |s|), NulAhead(s, |s|))
  {
  }

  /** The text goes on behind a scalar value. */
  lemma ScalarRecoded(s: seq<Byte>, i: nat)
    requires i < |s| && ValidFrom(s, i, true) && s[i] != 0xC0
    ensures i + SequenceLength(s[i]) <= |s| && ValidFrom(s, i + SequenceLength(s[i]), true)
    ensures var j := i + SequenceLength(s[i]);
            RecodesAs(s[j..], Recoded(s, j), NulAhead(s, j)) ==> RecodesAs(s[i..], Recoded(s, i), NulAhead(s, i))
  {
    RecodedFirst(s, i);
    NulOn(s, i);
    NulAheadOn(s, i);
    var j := i + SequenceLength(s[i]);
    hide ValidFrom, ValidAt, CharAt, CodeAt, Encode, Recoded, SequenceLength, NulAhead, RecodesAs;
    if RecodesAs(s[j..], Recoded(s, j), NulAhead(s, j)) {
      RecodedBehind(Encode(CodeAt(s, i).c), s[j..], Recoded(s, j), NulAhead(s, j));
    }
  }

  /** The text goes on behind a NUL in two bytes. */
  lemma LongNulRecoded(s: seq<Byte>, i: nat)
    requires i < |s| && ValidFrom(s, i, true) && s[i] == 0xC0
    ensures i + SequenceLength(s[i]) <= |s| && ValidFrom(s, i + SequenceLength(s[i]), true)
    ensures var j := i + SequenceLength(s[i]);
            RecodesAs(s[j..], Recoded(s, j), NulAhead(s, j)) ==> RecodesAs(s[i..], Recoded(s, i), NulAhead(s, i))
  {
    RecodedFirst(s, i);
    NulAheadOn(s, i);
    var j := i + SequenceLength(s[i]);
    hide ValidFrom, ValidAt, CharAt, CodeAt, Encode, Recoded, NulAhead, RecodesAs;
    if RecodesAs(s[j..], Recoded(s, j), NulAhead(s, j)) {
      ShorterBehind(s[i..], Recoded(s, i), s[j..], Recoded(s, j), NulAhead(s, j));
    }
  }

  lemma {:induction false} RecodedAs(s: seq<Byte>, i: nat)
    requires i <= |s| && ValidFrom(s, i, true)
    ensures RecodesAs(s[i..], Recoded(s, i), NulAhead(s, i))
    decreases |s| - i
  {
    hide ValidFrom, ValidAt, CharAt, Encode, Recoded, NulAhead, RecodesAs, SequenceLength;
    if i == |s| {
      NothingAhead(s);
    } else {
      if s[i] != 0xC0 { ScalarRecoded(s, i); } else { LongNulRecoded(s, i); }
      RecodedGoesOn(s, i);
      RecodedAs(s, i + SequenceLength(s[i]));
    }
  }

  /** Re-encoding gives the same bytes exactly when no NUL is written in two bytes. */
  lemma RecodeInverse(s: seq<Byte>, i: nat)
    requires i <= |s| && ValidFrom(s, i, true)
    ensures Recoded(s, i) == s[i..] <==> 0xC0 !in s[i..]
    ensures |Recoded(s, i)| <= |s| - i && (0xC0 in s[i..] ==> |Recoded(s, i)| < |s| - i)
  {
    RecodedAs(s, i);
    hide Recoded, ValidFrom;
  }

  lemma RecodedFirst(s: seq<Byte>, i: nat)
    requires i < |s| && ValidFrom(s, i, true)
    ensures i + SequenceLength(s[i]) <= |s| && ValidFrom(s, i + SequenceLength(s[i]), true)
    ensures s[i] == 0xC0 ==> |Recoded(s, i)| == 1 + |Recoded(s, i + SequenceLength(s[i]))| && SequenceLength(s[i]) == 2
    ensures s[i] != 0xC0 ==> CodeAt(s, i).Scalar? && IsScalar(CodeAt(s, i).c)
    ensures s[i] != 0xC0 ==> |Encode(CodeAt(s, i).c)| == SequenceLength(s[i])
    ensures s[i] != 0xC0 ==> Recoded(s, i) == Encode(CodeAt(s, i).c) + Recoded(s, i + SequenceLength(s[i]))
  {
    ValidDecodes(s, i, true);
    EscapeOn(s, i);
  }
}

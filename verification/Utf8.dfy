/**
 * UTF-8 (RFC 3629): the validator, the decoder and the encoder. The methods work on bits as the source does; their
 * contracts are arithmetic.
 */
module Utf8 {
  import opened BsonDocument
  import opened Utf8Bits

  /** The length of the sequence a byte begins; zero if none. */
  function SequenceLength(b: Byte): (n: nat)
    ensures n <= 4
  {
    if b < 0x80 then 1
    else if 0xC0 <= b < 0xE0 then 2
    else if 0xE0 <= b < 0xF0 then 3
    else if 0xF0 <= b < 0xF8 then 4
    else 0
  }

  /** The bits of the lead byte that belong to the character. */
  function LeadBits(b: Byte): (c: nat)
    ensures c < 128
  {
    match SequenceLength(b)
    case 1 => b
    case 2 => b % 32
    case 3 => b % 16
    case 4 => b % 8
    case _ => 0
  }

  /** The bits of the following bytes shifted in behind it. */
  function ShiftIn(c: nat, s: seq<Byte>): nat {
    if s == [] then c else ShiftIn(c, s[..|s| - 1]) * 64 + s[|s| - 1] % 64
  }

  /** bson_utf8_get_char on a sequence that is not cut off. */
  function CharAt(s: seq<Byte>, i: nat): nat
    requires i < |s| && i + SequenceLength(s[i]) <= |s|
  {
    var n := SequenceLength(s[i]);
    if n == 0 then 0 else ShiftIn(LeadBits(s[i]), s[i + 1..i + n])
  }

  predicate Continuation(b: Byte) { 0x80 <= b < 0xC0 }

  /** The checks of one round of the validator. */
  predicate ValidAt(s: seq<Byte>, i: nat, allowNull: bool)
    requires i < |s|
  {
    var n := SequenceLength(s[i]);
    && n != 0 && n <= |s| - i
    && (forall j :: i + 1 <= j < i + n ==> Continuation(s[j]))
    && (!allowNull ==> forall j :: i <= j < i + n ==> s[j] != 0)
    && var c := CharAt(s, i);
       && c <= 0x10FFFF && !(0xD800 <= c <= 0xDFFF)
       && (n == 2 ==> 0x80 <= c <= 0x7FF || (c == 0 && allowNull))
       && (n == 3 ==> 0x800 <= c <= 0xFFFF)
       && (n == 4 ==> 0x10000 <= c <= 0x10FFFF)
  }

  predicate ValidFrom(s: seq<Byte>, i: nat, allowNull: bool)
    decreases |s| - i
  {
    i >= |s| || (ValidAt(s, i, allowNull) && ValidFrom(s, i + SequenceLength(s[i]), allowNull))
  }

  /** _bson_utf8_get_sequence: the length of the sequence and the mask for the first byte. */
  method GetSequence(b: Byte) returns (n: nat, mask: bv8)
    ensures n == SequenceLength(b) && Octet(Bits(b) & mask) == LeadBits(b)
  {
    var c := Bits(b);
    BitsBack(b);
    LeadTests(c);
    LeadMasks(c);
    SmallMasks(c);
    hide Bits, Octet;
    if c & 0x80 == 0 {
      n, mask := 1, 0x7F;
    } else if c & 0xE0 == 0xC0 {
      n, mask := 2, 0x1F;
    } else if c & 0xF0 == 0xE0 {
      n, mask := 3, 0x0F;
    } else if c & 0xF8 == 0xF0 {
      n, mask := 4, 0x07;
    } else {
      n, mask := 0, 0;
    }
  }

  /** The first byte under its mask. */
  method FirstBits(b: Byte) returns (n: nat, c: bv32)
    ensures n == SequenceLength(b) && Word(c) == LeadBits(b)
  {
    hide Bits, Octet, Word;
    var mask;
    n, mask := GetSequence(b);
    Extended(Bits(b) & mask);
    c := (Bits(b) & mask) as bv32;
  }

  /** Shifting in fewer than three bytes leaves room for one more. */
  lemma RoomToShift(b: Byte, s: seq<Byte>)
    requires SequenceLength(b) >= 2 && |s| <= 2
    ensures ShiftIn(LeadBits(b), s) < 0x2_0000
  {
    if |s| == 2 {
      assert s[..1][..0] == [];
      assert ShiftIn(LeadBits(b), s[..1]) == LeadBits(b) * 64 + s[0] % 64;
    } else if |s| == 1 {
      assert s[..0] == [];
    }
  }

  /** _bson_utf8_get_sequence and the loop of bson_utf8_get_char. */
  method GetChar(s: seq<Byte>, i: nat) returns (c: bv32)
    requires i < |s| && i + SequenceLength(s[i]) <= |s|
    ensures Word(c) == CharAt(s, i)
  {
    hide Word, ShiftSix, Bits;
    var n;
    n, c := FirstBits(s[i]);
    var j := 1;
    while j < n
      invariant 1 <= j && (n == 0 || j <= n)
      invariant Word(c) == if n == 0 then 0 else ShiftIn(LeadBits(s[i]), s[i + 1..i + j])
    {
      assert s[i + 1..i + j + 1][..j - 1] == s[i + 1..i + j];
      RoomToShift(s[i], s[i + 1..i + j]);
      Shifted(c, s[i + j]);
      c := ShiftSix(c, Bits(s[i + j]));
      j := j + 1;
    }
  }

  /** The mark of a following byte. */
  method IsMarked(b: Byte) returns (marked: bool)
    ensures marked == Continuation(b)
  {
    BitsBack(b);
    LeadTests(Bits(b));
    marked := Bits(b) & 0xC0 == 0x80;
  }

  /** Shifts in the bytes behind a lead byte and checks their marks. */
  method ReadSequence(s: seq<Byte>, i: nat, n: nat, first: bv32) returns (ok: bool, c: bv32)
    requires i < |s| && n == SequenceLength(s[i]) && 0 < n <= |s| - i && Word(first) == LeadBits(s[i])
    ensures ok <==> forall j :: i + 1 <= j < i + n ==> Continuation(s[j])
    ensures ok ==> Word(c) == CharAt(s, i)
  {
    hide Word, ShiftSix, Bits;
    c := first;
    var j := i + 1;
    while j < i + n
      invariant i + 1 <= j <= i + n
      invariant Word(c) == ShiftIn(LeadBits(s[i]), s[i + 1..j])
      invariant forall k :: i + 1 <= k < j ==> Continuation(s[k])
    {
      assert s[i + 1..j + 1][..j - i - 1] == s[i + 1..j];
      RoomToShift(s[i], s[i + 1..j]);
      Shifted(c, s[j]);
      c := ShiftSix(c, Bits(s[j]));
      var marked := IsMarked(s[j]);
      if !marked {
        return false, c;
      }
      j := j + 1;
    }
    ok := true;
  }

  /** The check for NUL bytes. */
  method NulFree(s: seq<Byte>, i: nat, n: nat) returns (ok: bool)
    requires i + n <= |s|
    ensures ok <==> forall j :: i <= j < i + n ==> s[j] != 0
  {
    var j := 0;
    while j < n
      invariant 0 <= j <= n
      invariant forall k :: i <= k < i + j ==> s[k] != 0
    {
      if i + j > |s| || s[i + j] == 0 {
        return false;
      }
      j := j + 1;
    }
    ok := true;
  }

  /** bson_utf8_validate; its index is an unsigned int. */
  method Validate(s: seq<Byte>, allowNull: bool) returns (ok: bool)
    requires |s| < 0x1_0000_0000
    ensures ok == ValidFrom(s, 0, allowNull)
  {
    var i := 0;
    while i < |s|
      invariant i <= |s| && ValidFrom(s, 0, allowNull) == ValidFrom(s, i, allowNull)
      decreases |s| - i
    {
      var n, c := FirstBits(s[i]);
      if n == 0 {
        return false;
      }
      if |s| - i < n {
        return false;
      }
      ok, c := ReadSequence(s, i, n, c);
      if !ok {
        return;
      }
      if !allowNull {
        ok := NulFree(s, i, n);
        if !ok {
          return;
        }
      }
      ok := InShortestForm(c, n, allowNull);
      if !ok {
        return;
      }
      i := i + n;
    }
    return true;
  }

  /** The checks on a character that took n bytes. */
  method InShortestForm(c: bv32, n: nat, allowNull: bool) returns (ok: bool)
    requires 1 <= n <= 4
    ensures ok <==>
            && Word(c) <= 0x10FFFF && !(0xD800 <= Word(c) <= 0xDFFF)
            && (n == 1 ==> Word(c) <= 0x7F)
            && (n == 2 ==> 0x80 <= Word(c) <= 0x7FF || (Word(c) == 0 && allowNull))
            && (n == 3 ==> 0x800 <= Word(c) <= 0xFFFF)
            && (n == 4 ==> 0x10000 <= Word(c) <= 0x10FFFF)
  {
    Limits(c);
    Bounds(c);
    hide Word;
    if c > 0x10FFFF {
      return false;
    }
    if c & 0xFFFF_F800 == 0xD800 {
      return false;
    }
    match n {
      case 1 => ok := c <= 0x7F;
      case 2 => ok := (c >= 0x80 && c <= 0x7FF) || (c == 0 && allowNull);
      case 3 => ok := (c >= 0x800 && c <= 0x0FFF) || (c >= 0x1000 && c <= 0xFFFF);
      case _ =>
        ok := (c >= 0x10000 && c <= 0x3FFFF) || (c >= 0x40000 && c <= 0xFFFFF) || (c >= 0x100000 && c <= 0x10FFFF);
    }
  }

  /** The encoding of a character in one to four bytes. */
  function Encode(c: nat): (s: seq<Byte>)
    requires c <= 0x1F_FFFF
    ensures 1 <= |s| <= 4
  {
    if c <= 0x7F then [c]
    else if c <= 0x7FF then [0xC0 + c / 64, 0x80 + c % 64]
    else if c <= 0xFFFF then [0xE0 + c / 4096, 0x80 + c / 64 % 64, 0x80 + c % 64]
    else [0xF0 + c / 262144, 0x80 + c / 4096 % 64, 0x80 + c / 64 % 64, 0x80 + c % 64]
  }

  lemma Quotients(c: nat)
    ensures c / 64 / 64 == c / 4096 && c / 64 / 64 / 64 == c / 262144
  {
  }

  /** A mark and the bits behind it, as a byte. */
  method Stored(x: bv32) returns (b: Byte)
    requires Word(x) < 256
    ensures b == Word(x)
  {
    b := x as int;
  }

  /** bson_utf8_from_unichar: nothing is written for numbers that need more than four bytes. */
  method FromUnichar(c: bv32, utf8: array<Byte>) returns (len: nat)
    requires utf8.Length >= 6
    modifies utf8
    ensures len == if Word(c) <= 0x1F_FFFF then |Encode(Word(c))| else 0
    ensures Word(c) <= 0x1F_FFFF ==> utf8[..len] == Encode(Word(c))
  {
    hide Word;
    Limits(c);
    if c <= 0x7F {
      utf8[0] := Stored(c);
      len := 1;
    } else if c <= 0x7FF {
      len := 2;
      var lead, last := TwoBits(c);
      utf8[0] := Stored(lead);
      utf8[1] := Stored(last);
    } else if c <= 0xFFFF {
      len := 3;
      var lead, next, last := ThreeBits(c);
      utf8[0] := Stored(lead);
      utf8[1] := Stored(next);
      utf8[2] := Stored(last);
    } else if c <= 0x1F_FFFF {
      len := 4;
      var lead, next, third, last := FourBits(c);
      utf8[0] := Stored(lead);
      utf8[1] := Stored(next);
      utf8[2] := Stored(third);
      utf8[3] := Stored(last);
    } else {
      len := 0;
    }
  }

  predicate InTwo(c: nat, lead: nat, last: nat) { lead == 0xC0 + c / 64 && last == 0x80 + c % 64 }

  predicate InThree(c: nat, lead: nat, next: nat, last: nat) {
    lead == 0xE0 + c / 4096 && next == 0x80 + c / 64 % 64 && last == 0x80 + c % 64
  }

  predicate InFour(c: nat, lead: nat, next: nat, third: nat, last: nat) {
    lead == 0xF0 + c / 262144 && next == 0x80 + c / 4096 % 64 && third == 0x80 + c / 64 % 64 && last == 0x80 + c % 64
  }

  method TwoBits(c: bv32) returns (lead: bv32, last: bv32)
    requires c <= 0x7FF
    ensures InTwo(Word(c), Word(lead), Word(last))
  {
    hide Word, Upper, Lower;
    lead := 0xC0 | ((c >> 6) & 0x3F);
    last := 0x80 | (c & 0x3F);
    Uppers(c);
    Groups(c);
    Marks(Upper(c));
    Marks(Lower(c));
  }

  method ThreeBits(c: bv32) returns (lead: bv32, next: bv32, last: bv32)
    requires c <= 0xFFFF
    ensures InThree(Word(c), Word(lead), Word(next), Word(last))
  {
    hide Word, Upper, Lower;
    lead := 0xE0 | ((c >> 12) & 0xF);
    next := 0x80 | ((c >> 6) & 0x3F);
    last := 0x80 | (c & 0x3F);
    Uppers(c);
    Groups(c);
    Quotients(Word(c));
    Marks(Upper(Upper(c)));
    Marks(Lower(Upper(c)));
    Marks(Lower(c));
  }

  method FourBits(c: bv32) returns (lead: bv32, next: bv32, third: bv32, last: bv32)
    requires c <= 0x1F_FFFF
    ensures InFour(Word(c), Word(lead), Word(next), Word(third), Word(last))
  {
    hide Word, Upper, Lower;
    lead := 0xF0 | ((c >> 18) & 0x7);
    next := 0x80 | ((c >> 12) & 0x3F);
    third := 0x80 | ((c >> 6) & 0x3F);
    last := 0x80 | (c & 0x3F);
    Uppers(c);
    Groups(c);
    Quotients(Word(c));
    Marks(Upper(Upper(Upper(c))));
    Marks(Lower(Upper(Upper(c))));
    Marks(Lower(Upper(c)));
    Marks(Lower(c));
  }

  /** A character as it can stand in a text: a Unicode scalar value, or NUL written in two bytes. */
  datatype Code = Scalar(c: nat) | LongNul

  predicate IsScalar(c: nat) { c <= 0x10FFFF && !(0xD800 <= c <= 0xDFFF) }

  predicate Admitted(code: Code, allowNull: bool) {
    match code
    case Scalar(c) => IsScalar(c) && (c == 0 ==> allowNull)
    case LongNul => allowNull
  }

  function Bytes(code: Code): (s: seq<Byte>)
    requires code.Scalar? ==> IsScalar(code.c)
    ensures 1 <= |s| <= 4
  {
    match code
    case Scalar(c) => Encode(c)
    case LongNul => [0xC0, 0x80]
  }

  predicate AllAdmitted(codes: seq<Code>, allowNull: bool) {
    forall i :: 0 <= i < |codes| ==> Admitted(codes[i], allowNull)
  }

  function Text(codes: seq<Code>): seq<Byte>
    requires AllAdmitted(codes, true)
  {
    if codes == [] then [] else Bytes(codes[0]) + Text(codes[1..])
  }
}

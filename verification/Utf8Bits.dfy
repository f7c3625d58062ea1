/** Masks and shifts on bytes and 32-bit characters, as arithmetic. */
module Utf8Bits {
  import opened BsonDocument

  function Octet(b: bv8): nat { b as nat }

  function Word(c: bv32): nat { c as nat }

  /** The bits of a byte. */
  function Bits(b: Byte): bv8 {
    if b == 0 then 0 else if b % 2 == 1 then (Bits(b / 2) << 1) | 1 else Bits(b / 2) << 1
  }

  /** Six more bits behind the character read so far. */
  function ShiftSix(c: bv32, b: bv8): bv32 { (c << 6) | ((b & 0x3F) as bv32) }

  function Lower(c: bv32): bv32 { c & 0x3F }

  function Upper(c: bv32): bv32 { c >> 6 }

  lemma Doubled(b: bv8)
    requires b as nat < 128
    ensures (b << 1) as nat == 2 * b as nat && ((b << 1) | 1) as nat == 2 * b as nat + 1
  {
  }

  lemma {:induction false} BitsBack(b: Byte)
    ensures Octet(Bits(b)) == b
  {
    if b != 0 {
      BitsBack(b / 2);
      Doubled(Bits(b / 2));
    }
  }

  /** The tests on a lead byte. */
  lemma LeadTests(b: bv8)
    ensures (b & 0x80 == 0) <==> Octet(b) < 0x80
    ensures (b & 0xE0 == 0xC0) <==> 0xC0 <= Octet(b) < 0xE0
    ensures (b & 0xF0 == 0xE0) <==> 0xE0 <= Octet(b) < 0xF0
    ensures (b & 0xF8 == 0xF0) <==> 0xF0 <= Octet(b) < 0xF8
    ensures (b & 0xC0 == 0x80) <==> 0x80 <= Octet(b) < 0xC0
  {
  }

  lemma LeadMasks(b: bv8)
    ensures Octet(b & 0x1F) == Octet(b) % 32
    ensures Octet(b & 0x0F) == Octet(b) % 16
  {
  }

  lemma SmallMasks(b: bv8)
    ensures b & 0x80 == 0 ==> Octet(b & 0x7F) == Octet(b)
    ensures Octet(b & 0x07) == Octet(b) % 8
    ensures Octet(b & 0x00) == 0
  {
  }

  lemma SixBits(b: bv8)
    ensures Octet(b & 0x3F) == Octet(b) % 64
  {
  }

  lemma Extended(b: bv8)
    ensures Word(b as bv32) == Octet(b)
  {
  }

  lemma Glued(c: bv32, b: bv8)
    requires c < 0x40_0000
    ensures ((c << 6) | ((b & 0x3F) as bv32)) as nat == c as nat * 64 + (b & 0x3F) as nat
  {
  }

  lemma GluedWord(c: bv32, b: bv8)
    requires c < 0x40_0000
    ensures Word(ShiftSix(c, b)) == Word(c) * 64 + Octet(b & 0x3F)
  {
    Glued(c, b);
  }

  lemma InRange(c: bv32)
    ensures c < 0x40_0000 <==> Word(c) < 0x40_0000
  {
  }

  /** Shifting in the bits of a following byte. */
  lemma Shifted(c: bv32, b: Byte)
    requires Word(c) < 0x40_0000
    ensures Word(ShiftSix(c, Bits(b))) == Word(c) * 64 + b % 64
  {
    InRange(c);
    BitsBack(b);
    GluedWord(c, Bits(b));
    SixBits(Bits(b));
    hide Word, Octet, Bits, ShiftSix;
  }

  lemma Unglued(c: bv32) returns (b: bv8)
    requires c <= 0x1F_FFFF
    ensures Lower(c) == (b & 0x3F) as bv32 && ShiftSix(Upper(c), b) == c
    ensures Upper(c) < 0x40_0000
  {
    b := (c & 0xFF) as bv8;
  }

  lemma DividedBy64(c: nat, q: nat, r: nat)
    requires c == q * 64 + r && r < 64
    ensures q == c / 64 && r == c % 64
  {
  }

  /** Six bits off the lower end. */
  lemma SplitSix(c: bv32)
    requires c <= 0x1F_FFFF
    ensures Word(Upper(c)) == Word(c) / 64 && Word(Lower(c)) == Word(c) % 64
  {
    var b := Unglued(c);
    hide Word, Octet, ShiftSix, Upper, Lower;
    GluedWord(Upper(c), b);
    SixBits(b);
    Extended(b & 0x3F);
    DividedBy64(Word(c), Word(Upper(c)), Word(Lower(c)));
  }

  lemma Uppers(c: bv32)
    requires c <= 0x1F_FFFF
    ensures Upper(c) <= 0x1F_FFFF && Upper(Upper(c)) <= 0x1F_FFFF
    ensures c >> 6 == Upper(c) && c >> 12 == Upper(Upper(c)) && c >> 18 == Upper(Upper(Upper(c)))
    ensures c <= 0x7FF ==> (c >> 6) & 0x3F == Upper(c)
    ensures c <= 0xFFFF ==> (c >> 12) & 0xF == Upper(Upper(c))
    ensures (c >> 18) & 0x7 == Upper(Upper(Upper(c)))
    ensures Lower(c) < 64 && Lower(Upper(c)) < 64 && Lower(Upper(Upper(c))) < 64 && Upper(Upper(Upper(c))) < 8
    ensures (c <= 0x7FF ==> Upper(c) < 32) && (c <= 0xFFFF ==> Upper(Upper(c)) < 16)
    ensures (c >> 6) & 0x3F == Lower(Upper(c)) && (c >> 12) & 0x3F == Lower(Upper(Upper(c))) && c & 0x3F == Lower(c)
  {
  }

  /** Splitting a character into groups of six bits. */
  lemma Groups(c: bv32)
    requires c <= 0x1F_FFFF
    ensures Word(Lower(c)) == Word(c) % 64
    ensures Word(Upper(c)) == Word(c) / 64 && Word(Lower(Upper(c))) == Word(c) / 64 % 64
    ensures Word(Upper(Upper(c))) == Word(c) / 64 / 64 && Word(Lower(Upper(Upper(c)))) == Word(c) / 64 / 64 % 64
    ensures Word(Upper(Upper(Upper(c)))) == Word(c) / 64 / 64 / 64
  {
    Uppers(c);
    hide Word, Upper, Lower;
    SplitSix(c);
    SplitSix(Upper(c));
    SplitSix(Upper(Upper(c)));
  }

  /** The marks in front of the groups. */
  lemma Marks(x: bv32)
    ensures x < 64 ==> Word(0x80 | x) == 0x80 + Word(x)
    ensures x < 32 ==> Word(0xC0 | x) == 0xC0 + Word(x)
    ensures x < 16 ==> Word(0xE0 | x) == 0xE0 + Word(x)
    ensures x < 8 ==> Word(0xF0 | x) == 0xF0 + Word(x)
  {
  }

  /** The limits a character is compared with, and the surrogates. */
  lemma Limits(c: bv32)
    ensures c <= 0x7F <==> Word(c) <= 0x7F
    ensures c <= 0x7FF <==> Word(c) <= 0x7FF
    ensures c <= 0xFFFF <==> Word(c) <= 0xFFFF
    ensures c <= 0x1F_FFFF <==> Word(c) <= 0x1F_FFFF
    ensures c <= 0x10_FFFF <==> Word(c) <= 0x10_FFFF
    ensures c == 0 <==> Word(c) == 0
    ensures c & 0xFFFF_F800 == 0xD800 <==> 0xD800 <= Word(c) <= 0xDFFF
  {
  }

  lemma Bounds(c: bv32)
    ensures c >= 0x80 <==> Word(c) >= 0x80
    ensures c >= 0x800 <==> Word(c) >= 0x800
    ensures c <= 0xFFF <==> Word(c) <= 0xFFF
    ensures c >= 0x1000 <==> Word(c) >= 0x1000
    ensures c >= 0x1_0000 <==> Word(c) >= 0x1_0000
    ensures c <= 0x3_FFFF <==> Word(c) <= 0x3_FFFF
    ensures c >= 0x4_0000 <==> Word(c) >= 0x4_0000
    ensures c <= 0xF_FFFF <==> Word(c) <= 0xF_FFFF
    ensures c >= 0x10_0000 <==> Word(c) >= 0x10_0000
  {
  }
}

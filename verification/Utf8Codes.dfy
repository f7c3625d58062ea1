/** The validator accepts exactly the encodings of scalar values, and decoding is the inverse of encoding. */
module Utf8Codes {
  import opened BsonDocument
  import opened Utf8

  /** A piece of bytes stands at an offset. */
  predicate Stands(s: seq<Byte>, i: nat, piece: seq<Byte>) {
    i + |piece| <= |s| && s[i..i + |piece|] == piece
  }

  function Two(a: nat, b: nat): nat { a % 32 * 64 + b % 64 }

  function Three(a: nat, b: nat, d: nat): nat { (a % 16 * 64 + b % 64) * 64 + d % 64 }

  function Four(a: nat, b: nat, d: nat, e: nat): nat { ((a % 8 * 64 + b % 64) * 64 + d % 64) * 64 + e % 64 }

  lemma CharValue(s: seq<Byte>, i: nat)
    requires i < |s| && i + SequenceLength(s[i]) <= |s|
    ensures var n := SequenceLength(s[i]);
            && (n == 1 ==> CharAt(s, i) == s[i])
            && (n == 2 ==> CharAt(s, i) == Two(s[i], s[i + 1]))
            && (n == 3 ==> CharAt(s, i) == Three(s[i], s[i + 1], s[i + 2]))
            && (n == 4 ==> CharAt(s, i) == Four(s[i], s[i + 1], s[i + 2], s[i + 3]))
  {
    var n, c := SequenceLength(s[i]), LeadBits(s[i]);
    if n == 2 {
      ShiftFew(c, s[i + 1..i + 2]);
    } else if n == 3 {
      ShiftFew(c, s[i + 1..i + 3]);
    } else if n == 4 {
      ShiftFew(c, s[i + 1..i + 4]);
    }
  }

  lemma ShiftNone(c: nat)
    ensures ShiftIn(c, []) == c
  {
  }

  lemma ShiftFew(c: nat, s: seq<Byte>)
    ensures |s| == 1 ==> ShiftIn(c, s) == c * 64 + s[0] % 64
    ensures |s| == 2 ==> ShiftIn(c, s) == (c * 64 + s[0] % 64) * 64 + s[1] % 64
    ensures |s| == 3 ==> ShiftIn(c, s) == ((c * 64 + s[0] % 64) * 64 + s[1] % 64) * 64 + s[2] % 64
  {
    hide ShiftIn;
    if |s| == 1 {
      ShiftSnoc(c, [], s[0]);
      ShiftNone(c);
      assert [] + [s[0]] == s;
    } else if |s| == 2 {
      ShiftFew(c, s[..1]);
      ShiftSnoc(c, s[..1], s[1]);
      assert s[..1] + [s[1]] == s;
    } else if |s| == 3 {
      ShiftFew(c, s[..2]);
      ShiftSnoc(c, s[..2], s[2]);
      assert s[..2] + [s[2]] == s;
    }
  }

  lemma ShiftSnoc(c: nat, s: seq<Byte>, b: Byte)
    ensures ShiftIn(c, s + [b]) == ShiftIn(c, s) * 64 + b % 64
  {
    assert (s + [b])[..|s|] == s;
  }

  /** What the validator has seen at an offset. */
  function CodeAt(s: seq<Byte>, i: nat): Code
    requires i < |s| && i + SequenceLength(s[i]) <= |s|
  {
    if SequenceLength(s[i]) == 2 && CharAt(s, i) == 0 then LongNul else Scalar(CharAt(s, i))
  }

  lemma SixBits(a: nat, b: nat)
    requires b < 64
    ensures (a * 64 + b) % 64 == b && (a * 64 + b) / 64 == a
  {
  }

  lemma Split4(c: nat, x: nat, y: nat, z: nat, w: nat)
    requires c == ((x * 64 + y) * 64 + z) * 64 + w && y < 64 && z < 64 && w < 64
    ensures c % 64 == w && c / 64 % 64 == z && c / 4096 % 64 == y && c / 4096 == x * 64 + y && c / 262144 == x
  {
    SixBits((x * 64 + y) * 64 + z, w);
    SixBits(x * 64 + y, z);
    SixBits(x, y);
    assert c / 4096 == c / 64 / 64 && c / 262144 == c / 64 / 64 / 64;
  }

  lemma TwoEncodes(a: Byte, b: Byte)
    requires 0xC0 <= a < 0xE0 && Continuation(b)
    ensures Two(a, b) <= 0x7FF
    ensures if Two(a, b) >= 0x80 then Encode(Two(a, b)) == [a, b] else Two(a, b) == 0 ==> [a, b] == [0xC0, 0x80]
  {
    SixBits(a % 32, b % 64);
  }

  lemma ThreeEncodes(a: Byte, b: Byte, d: Byte)
    requires 0xE0 <= a < 0xF0 && Continuation(b) && Continuation(d)
    ensures Three(a, b, d) <= 0xFFFF && (Three(a, b, d) >= 0x800 ==> Encode(Three(a, b, d)) == [a, b, d])
  {
    Split4(Three(a, b, d), 0, a % 16, b % 64, d % 64);
  }

  lemma FourEncodes(a: Byte, b: Byte, d: Byte, e: Byte)
    requires 0xF0 <= a < 0xF8 && Continuation(b) && Continuation(d) && Continuation(e)
    ensures Four(a, b, d, e) <= 0x1F_FFFF && (Four(a, b, d, e) >= 0x10000 ==> Encode(Four(a, b, d, e)) == [a, b, d, e])
  {
    var c := Four(a, b, d, e);
    Split4(c, a % 8, b % 64, d % 64, e % 64);
    FourMarks(a, b, d, e);
    hide Four;
    if c >= 0x10000 {
      assert Encode(c) == [0xF0 + c / 262144, 0x80 + c / 4096 % 64, 0x80 + c / 64 % 64, 0x80 + c % 64];
    }
  }

  lemma FourMarks(a: Byte, b: Byte, d: Byte, e: Byte)
    requires 0xF0 <= a < 0xF8 && Continuation(b) && Continuation(d) && Continuation(e)
    ensures 0xF0 + a % 8 == a && 0x80 + b % 64 == b && 0x80 + d % 64 == d && 0x80 + e % 64 == e
    ensures Four(a, b, d, e) <= 0x1F_FFFF
  {
  }

  /** A valid sequence is the encoding of what it decodes to. */
  lemma ValidDecodes(s: seq<Byte>, i: nat, allowNull: bool)
    requires i < |s| && ValidAt(s, i, allowNull)
    ensures Admitted(CodeAt(s, i), allowNull)
    ensures SequenceLength(s[i]) == |Bytes(CodeAt(s, i))| && Stands(s, i, Bytes(CodeAt(s, i)))
  {
    hide Encode, Two, Three, Four;
    var n, c := SequenceLength(s[i]), CharAt(s, i);
    CharValue(s, i);
    if n == 1 {
      OneByte(s[i]);
      assert s[i..i + 1] == [s[i]];
    } else if n == 2 {
      TwoEncodes(s[i], s[i + 1]);
      assert s[i..i + 2] == [s[i], s[i + 1]];
    } else if n == 3 {
      ThreeEncodes(s[i], s[i + 1], s[i + 2]);
      assert s[i..i + 3] == [s[i], s[i + 1], s[i + 2]];
    } else {
      FourEncodes(s[i], s[i + 1], s[i + 2], s[i + 3]);
      assert s[i..i + 4] == [s[i], s[i + 1], s[i + 2], s[i + 3]];
    }
  }

  lemma OneByte(b: Byte)
    requires b < 0x80
    ensures Encode(b) == [b]
  {
  }

  lemma Digits64(c: nat)
    ensures c == c / 64 * 64 + c % 64 && c / 64 == c / 4096 * 64 + c / 64 % 64
    ensures c / 4096 == c / 262144 * 64 + c / 4096 % 64
  {
    assert c / 4096 == c / 64 / 64 && c / 262144 == c / 4096 / 64;
  }

  lemma Marked(q: nat)
    ensures q < 64 ==> (0x80 + q) % 64 == q
    ensures q < 32 ==> (0xC0 + q) % 32 == q
    ensures q < 16 ==> (0xE0 + q) % 16 == q
    ensures q < 8 ==> (0xF0 + q) % 8 == q
  {
  }

  lemma TwoBack(c: nat, x: nat, y: nat)
    requires c == x * 64 + y <= 0x7FF && y < 64
    ensures Two(0xC0 + x, 0x80 + y) == c
  {
    Marked(x);
    Marked(y);
  }

  lemma ThreeBack(c: nat, x: nat, y: nat, z: nat)
    requires c == (x * 64 + y) * 64 + z <= 0xFFFF && y < 64 && z < 64
    ensures Three(0xE0 + x, 0x80 + y, 0x80 + z) == c
  {
    Marked(x);
    Marked(y);
    Marked(z);
  }

  lemma FourBack(c: nat, x: nat, y: nat, z: nat, w: nat)
    requires c == ((x * 64 + y) * 64 + z) * 64 + w <= 0x1F_FFFF && y < 64 && z < 64 && w < 64
    ensures Four(0xF0 + x, 0x80 + y, 0x80 + z, 0x80 + w) == c
  {
    Marked(x);
    Marked(y);
    Marked(z);
    Marked(w);
  }

  /** The bytes of an encoding have the marks of a sequence and give the character back. */
  lemma EncodeDecodes(c: nat)
    requires IsScalar(c)
    ensures var p := Encode(c);
            && SequenceLength(p[0]) == |p|
            && (forall k :: 1 <= k < |p| ==> Continuation(p[k]))
            && (|p| == 1 ==> p[0] == c <= 0x7F)
            && (|p| == 2 ==> Two(p[0], p[1]) == c && 0x80 <= c <= 0x7FF)
            && (|p| == 3 ==> Three(p[0], p[1], p[2]) == c && 0x800 <= c <= 0xFFFF)
            && (|p| == 4 ==> Four(p[0], p[1], p[2], p[3]) == c && 0x10000 <= c)
  {
    if c <= 0x7F {
    } else if c <= 0x7FF {
      TwoBack(c, c / 64, c % 64);
    } else if c <= 0xFFFF {
      Digits64(c);
      ThreeBack(c, c / 4096, c / 64 % 64, c % 64);
    } else {
      Digits64(c);
      FourBack(c, c / 262144, c / 4096 % 64, c / 64 % 64, c % 64);
    }
  }

  /** The encoding of an admitted code is valid and decodes to it. */
  lemma EncodingValid(s: seq<Byte>, i: nat, code: Code, allowNull: bool)
    requires Admitted(code, allowNull) && Stands(s, i, Bytes(code))
    ensures i < |s| && SequenceLength(s[i]) == |Bytes(code)|
    ensures ValidAt(s, i, allowNull) && CodeAt(s, i) == code
  {
    var p := Bytes(code);
    assert forall k :: i <= k < i + |p| ==> s[k] == p[k - i];
    if code.Scalar? { EncodeDecodes(code.c); }
    hide Encode, Three, Four;
    CharValue(s, i);
  }

  lemma SplitText(s: seq<Byte>, i: nat, piece: seq<Byte>, rest: seq<Byte>)
    requires i <= |s| && s[i..] == piece + rest
    ensures Stands(s, i, piece) && s[i + |piece|..] == rest
  {
    assert s[i..i + |piece|] == s[i..][..|piece|] == piece;
    assert s[i + |piece|..] == s[i..][|piece|..] == rest;
  }

  lemma CutAt(s: seq<Byte>, i: nat, n: nat)
    requires i + n <= |s|
    ensures s[i..] == s[i..i + n] + s[i + n..]
  {
  }

  /** The codes of a text the validator accepts. */
  lemma {:induction false} Decodes(s: seq<Byte>, i: nat, allowNull: bool) returns (codes: seq<Code>)
    requires i <= |s| && ValidFrom(s, i, allowNull)
    ensures AllAdmitted(codes, allowNull) && AllAdmitted(codes, true) && Text(codes) == s[i..]
    decreases |s| - i
  {
    hide ValidAt, Bytes, CodeAt;
    codes := [];
    if i < |s| {
      ValidDecodes(s, i, allowNull);
      var n := SequenceLength(s[i]);
      var rest := Decodes(s, i + n, allowNull);
      codes := [CodeAt(s, i)] + rest;
      assert codes[1..] == rest;
      CutAt(s, i, n);
    }
  }

  /** A text made of admitted codes is accepted. */
  lemma {:induction false} Accepts(s: seq<Byte>, i: nat, codes: seq<Code>, allowNull: bool)
    requires AllAdmitted(codes, allowNull) && AllAdmitted(codes, true) && i <= |s| && s[i..] == Text(codes)
    ensures ValidFrom(s, i, allowNull)
    decreases codes
  {
    hide ValidAt, Bytes, CodeAt;
    if codes != [] {
      var piece := Bytes(codes[0]);
      SplitText(s, i, piece, Text(codes[1..]));
      EncodingValid(s, i, codes[0], allowNull);
      Accepts(s, i + |piece|, codes[1..], allowNull);
    }
  }

  /** The validator accepts a string exactly when it is a concatenation of encodings of admitted codes. */
  lemma ValidExactly(s: seq<Byte>, allowNull: bool)
    ensures ValidFrom(s, 0, allowNull)
       <==> exists codes: seq<Code> :: AllAdmitted(codes, allowNull) && AllAdmitted(codes, true) && Text(codes) == s
  {
    assert s[0..] == s;
    if ValidFrom(s, 0, allowNull) {
      var codes := Decodes(s, 0, allowNull);
    }
    if codes: seq<Code> :| AllAdmitted(codes, allowNull) && AllAdmitted(codes, true) && Text(codes) == s {
      Accepts(s, 0, codes, allowNull);
    }
  }
}

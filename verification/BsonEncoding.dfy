/** The byte form of documents, after the grammar of bsonspec.org (BSON 1.1). */
module BsonEncoding {
  import opened BsonDocument

  const TWO_32 := 0x1_0000_0000
  const INT_MAX := 0x7FFF_FFFF

  /** Four bytes, the least significant first. */
  function LE32(n: nat): (s: seq<Byte>)
    ensures |s| == 4
  {
    [n % 256, n / 256 % 256, n / 65536 % 256, n / 16777216 % 256]
  }

  /** memcpy of four bytes and BSON_UINT32_FROM_LE. */
  function U32(data: seq<Byte>, i: nat): (n: nat)
    requires i + 4 <= |data|
    ensures n < TWO_32
  {
    var b0: int, b1: int, b2: int, b3: int := data[i], data[i + 1], data[i + 2], data[i + 3];
    b0 + 256 * b1 + 65536 * b2 + 16777216 * b3
  }

  /** A piece of bytes stands at an offset. */
  ghost predicate At(data: seq<Byte>, o: nat, s: seq<Byte>) {
    o + |s| <= |data| && forall i :: 0 <= i < |s| ==> data[o + i] == s[i]
  }

  lemma {:induction false} AtSlice(data: seq<Byte>, o: nat, s: seq<Byte>)
    requires At(data, o, s)
    ensures data[o..o + |s|] == s
  {
  }

  lemma {:induction false} AtAppend(data: seq<Byte>, o: nat, a: seq<Byte>, b: seq<Byte>)
    requires At(data, o, a + b)
    ensures At(data, o, a) && At(data, o + |a|, b)
  {
    forall i | 0 <= i < |a| ensures data[o + i] == a[i] {
      assert (a + b)[i] == a[i];
    }
    forall i | 0 <= i < |b| ensures data[o + |a| + i] == b[i] {
      assert (a + b)[|a| + i] == b[i];
      assert data[o + (|a| + i)] == (a + b)[|a| + i];
    }
  }

  lemma {:induction false} DigitsOf256(n: nat)
    requires n < TWO_32
    ensures n % 256 + 256 * (n / 256 % 256) + 65536 * (n / 65536 % 256) + 16777216 * (n / 16777216 % 256) == n
  {
    assert n / 65536 == n / 256 / 256;
    assert n / 16777216 == n / 65536 / 256;
  }

  lemma {:induction false} AtU32(data: seq<Byte>, o: nat, n: nat)
    requires At(data, o, LE32(n)) && n < TWO_32
    ensures U32(data, o) == n
  {
    var s := LE32(n);
    assert data[o + 0] == s[0] && data[o + 1] == s[1] && data[o + 2] == s[2] && data[o + 3] == s[3];
    DigitsOf256(n);
  }

  /** The index of the first zero byte at or after i, or the length. */
  function FindNul(data: seq<Byte>, i: nat): (e: nat)
    requires i <= |data|
    ensures i <= e <= |data|
    ensures e < |data| ==> data[e] == 0
    decreases |data| - i
  {
    if i < |data| && data[i] != 0 then FindNul(data, i + 1) else i
  }

  lemma {:induction false} BeforeNul(data: seq<Byte>, i: nat)
    requires i <= |data|
    ensures forall k :: i <= k < FindNul(data, i) ==> data[k] != 0
    decreases |data| - i
  {
    if i < |data| && data[i] != 0 { BeforeNul(data, i + 1); }
  }

  lemma {:induction false} NulIs(data: seq<Byte>, i: nat, e: nat)
    requires i <= e < |data| && data[e] == 0
    requires forall k :: i <= k < e ==> data[k] != 0
    ensures FindNul(data, i) == e
    decreases e - i
  {
    if i < e { NulIs(data, i + 1, e); }
  }

  /** A C string and its terminator. */
  lemma {:induction false} AtString(data: seq<Byte>, o: nat, s: CString)
    requires At(data, o, s + [0])
    ensures FindNul(data, o) == o + |s| < |data| && data[o..o + |s|] == s
  {
    AtAppend(data, o, s, [0]);
    assert data[o + |s| + 0] == [0][0];
    forall k | o <= k < o + |s| ensures data[k] != 0 {
      assert data[o + (k - o)] == s[k - o];
    }
    NulIs(data, o, o + |s|);
  }

  /** string ::= int32 (byte*) "\x00" */
  function EncodeString(s: seq<Byte>): seq<Byte> { LE32(|s| + 1) + (s + [0]) }

  /** document ::= int32 e_list "\x00" */
  function EncodeDoc(doc: Doc): (b: seq<Byte>)
    ensures |b| == 5 + |EncodeElems(doc)|
    decreases doc, 1
  {
    LE32(|EncodeElems(doc)| + 5) + (EncodeElems(doc) + [0])
  }

  function EncodeElems(doc: Doc): seq<Byte>
    decreases doc, 0
  {
    if doc == [] then [] else EncodeElem(doc[0]) + EncodeElems(doc[1..])
  }

  /** element ::= type e_name payload */
  function EncodeElem(e: Elem): (b: seq<Byte>)
    ensures b != []
    decreases e
  {
    [TypeCode(e.value)] + ((e.key + [0]) + Payload(e.value))
  }

  function Payload(v: Value): seq<Byte>
    decreases v
  {
    match v
    case Double(bits) => bits
    case Utf8(s) => EncodeString(s)
    case Document(doc) => EncodeDoc(doc)
    case Array(doc) => EncodeDoc(doc)
    case Binary(subtype, data) =>
      if subtype == 2 then LE32(|data| + 4) + ([2] + (LE32(|data|) + data)) else LE32(|data|) + ([subtype] + data)
    case ObjectId(oid) => oid
    case Bool(b) => [if b then 1 else 0]
    case DateTime(millis) => millis
    case Regex(pattern, options) => (pattern + [0]) + (options + [0])
    case DbPointer(collection, id) => EncodeString(collection) + id
    case Code(s) => EncodeString(s)
    case Symbol(s) => EncodeString(s)
    case CodeWScope(s, scope) =>
      LE32(4 + |EncodeString(s)| + |EncodeDoc(scope)|) + (EncodeString(s) + EncodeDoc(scope))
    case Int32(bits) => bits
    case Timestamp(bits) => bits
    case Int64(bits) => bits
    case Decimal128(bits) => bits
    case Undefined => []
    case Null => []
    case MaxKey => []
    case MinKey => []
  }

  /** What an accessor hands out for an element: slices of the buffer. */
  datatype Content =
    | Fixed(bits: seq<Byte>)
    | Text(text: seq<Byte>)
    | Sub(bytes: seq<Byte>)
    | Bin(subtype: Byte, data: seq<Byte>)
    | Flag(truth: bool)
    | Pair(pattern: seq<Byte>, options: seq<Byte>)
    | Pointer(collection: seq<Byte>, id: seq<Byte>)
    | Scoped(code: seq<Byte>, scope: seq<Byte>)
    | Nothing

  function ContentOf(v: Value): Content {
    match v
    case Double(bits) => Fixed(bits)
    case Utf8(s) => Text(s)
    case Document(doc) => Sub(EncodeDoc(doc))
    case Array(doc) => Sub(EncodeDoc(doc))
    case Binary(subtype, data) => Bin(subtype, data)
    case ObjectId(oid) => Fixed(oid)
    case Bool(b) => Flag(b)
    case DateTime(millis) => Fixed(millis)
    case Regex(pattern, options) => Pair(pattern, options)
    case DbPointer(collection, id) => Pointer(collection, id)
    case Code(s) => Text(s)
    case Symbol(s) => Text(s)
    case CodeWScope(s, scope) => Scoped(s, EncodeDoc(scope))
    case Int32(bits) => Fixed(bits)
    case Timestamp(bits) => Fixed(bits)
    case Int64(bits) => Fixed(bits)
    case Decimal128(bits) => Fixed(bits)
    case Undefined => Nothing
    case Null => Nothing
    case MaxKey => Nothing
    case MinKey => Nothing
  }
}

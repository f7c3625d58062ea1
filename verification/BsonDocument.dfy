/** The abstract documents of the BSON 1.1 grammar (bsonspec.org), shared by the codecs. */
module BsonDocument {
  import opened Basics

  type Byte = x: int | 0 <= x < 256

  /** A byte string without an embedded NUL, as C strings and BSON keys are. */
  type CString = s: seq<Byte> | forall i :: 0 <= i < |s| ==> s[i] != 0

  type Bytes4 = s: seq<Byte> | |s| == 4 witness [0, 0, 0, 0]
  type Bytes8 = s: seq<Byte> | |s| == 8 witness [0, 0, 0, 0, 0, 0, 0, 0]
  type Bytes12 = s: seq<Byte> | |s| == 12 witness [0, 0, 0, 0, 0, 0, 0, 0, 0, 0, 0, 0]
  type Bytes16 = s: seq<Byte> | |s| == 16 witness [0, 0, 0, 0, 0, 0, 0, 0, 0, 0, 0, 0, 0, 0, 0, 0]

  datatype Value =
    | Double(bits: Bytes8)
    | Utf8(text: seq<Byte>)
    | Document(doc: Doc)
    | Array(doc: Doc)
    | Binary(subtype: Byte, data: seq<Byte>)
    | Undefined
    | ObjectId(oid: Bytes12)
    | Bool(truth: bool)
    | DateTime(millis: Bytes8)
    | Null
    | Regex(pattern: CString, options: CString)
    | DbPointer(collection: seq<Byte>, id: Bytes12)
    | Code(code: seq<Byte>)
    | Symbol(symbol: seq<Byte>)
    | CodeWScope(source: seq<Byte>, scope: Doc)
    | Int32(int32: Bytes4)
    | Timestamp(stamp: Bytes8)
    | Int64(int64: Bytes8)
    | Decimal128(decimal: Bytes16)
    | MaxKey
    | MinKey

  datatype Elem = Elem(key: CString, value: Value)

  type Doc = seq<Elem>

  /** The type byte of the grammar. */
  function TypeCode(v: Value): (t: Byte)
    ensures t != 0
  {
    match v
    case Double(_) => 0x01
    case Utf8(_) => 0x02
    case Document(_) => 0x03
    case Array(_) => 0x04
    case Binary(_, _) => 0x05
    case Undefined => 0x06
    case ObjectId(_) => 0x07
    case Bool(_) => 0x08
    case DateTime(_) => 0x09
    case Null => 0x0A
    case Regex(_, _) => 0x0B
    case DbPointer(_, _) => 0x0C
    case Code(_) => 0x0D
    case Symbol(_) => 0x0E
    case CodeWScope(_, _) => 0x0F
    case Int32(_) => 0x10
    case Timestamp(_) => 0x11
    case Int64(_) => 0x12
    case Decimal128(_) => 0x13
    case MaxKey => 0x7F
    case MinKey => 0xFF
  }

  /** The value of the first element with a given key. */
  function Lookup(doc: Doc, key: seq<Byte>): Option<Value> {
    if doc == [] then None
    else if doc[0].key == key then Some(doc[0].value)
    else Lookup(doc[1..], key)
  }

  /** Where the first element with a key stands; behind the last when there is none. */
  function Place(doc: Doc, key: seq<Byte>): (k: nat)
    ensures k <= |doc| && (k < |doc| ==> doc[k].key == key)
    ensures forall j :: 0 <= j < k ==> doc[j].key != key
  {
    if doc == [] || doc[0].key == key then 0 else 1 + Place(doc[1..], key)
  }

  /** That is where lookup finds its value. */
  lemma {:induction false} FindsPlace(doc: Doc, key: seq<Byte>)
    ensures Lookup(doc, key) == if Place(doc, key) < |doc| then Some(doc[Place(doc, key)].value) else None
  {
    if doc != [] && doc[0].key != key { FindsPlace(doc[1..], key); }
  }

  predicate DistinctKeys(doc: Doc) {
    forall i, j :: 0 <= i < j < |doc| ==> doc[i].key != doc[j].key
  }

  lemma {:induction false} LookupDistinct(doc: Doc, i: nat)
    requires DistinctKeys(doc) && i < |doc|
    ensures Lookup(doc, doc[i].key) == Some(doc[i].value)
  {
    if i > 0 {
      assert doc[0].key != doc[i].key;
      forall a, b | 0 <= a < b < |doc[1..]| ensures doc[1..][a].key != doc[1..][b].key {
        assert doc[1..][a] == doc[a + 1] && doc[1..][b] == doc[b + 1];
      }
      LookupDistinct(doc[1..], i - 1);
    }
  }

  /** The key of the i-th array element: i in decimal. */
  function ArrayKey(i: nat): (k: CString)
    ensures k != [] && forall j :: 0 <= j < |k| ==> 48 <= k[j] < 58
  {
    if i < 10 then [48 + i] else ArrayKey(i / 10) + [48 + i % 10]
  }

  lemma {:induction false} ArrayKeyInjective(i: nat, j: nat)
    requires ArrayKey(i) == ArrayKey(j)
    ensures i == j
    decreases i
  {
    var a, b := ArrayKey(i), ArrayKey(j);
    assert a[|a| - 1] == 48 + i % 10 && b[|b| - 1] == 48 + j % 10;
    if i >= 10 && j >= 10 {
      assert a[..|a| - 1] == ArrayKey(i / 10) && b[..|b| - 1] == ArrayKey(j / 10);
      ArrayKeyInjective(i / 10, j / 10);
    }
  }

  /** The number that a text of decimal digits denotes. */
  function Denoted(k: seq<Byte>): int {
    if k == [] then 0 else 10 * Denoted(k[..|k| - 1]) + (k[|k| - 1] as int - 48)
  }

  /** The key is the shortest decimal of its index. */
  lemma {:induction false} ArrayKeyDecimal(i: nat)
    ensures Denoted(ArrayKey(i)) == i && (ArrayKey(i)[0] == 48 ==> i == 0 && |ArrayKey(i)| == 1)
  {
    var k := ArrayKey(i);
    if i >= 10 {
      ArrayKeyDecimal(i / 10);
      assert k[..|k| - 1] == ArrayKey(i / 10);
    } else {
      assert k[..0] == [];
    }
  }

  /** An array document: its keys count up from zero. */
  predicate Numbered(doc: Doc) {
    forall i :: 0 <= i < |doc| ==> doc[i].key == ArrayKey(i)
  }

  lemma NumberedDistinct(doc: Doc)
    requires Numbered(doc)
    ensures DistinctKeys(doc)
  {
    forall i, j | 0 <= i < j < |doc| ensures doc[i].key != doc[j].key {
      if doc[i].key == doc[j].key { ArrayKeyInjective(i, j); }
    }
  }
}

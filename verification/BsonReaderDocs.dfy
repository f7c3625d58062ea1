/** The readers on streams of encoded documents, and what makes a piece of a stream a document. */
module BsonReaderDocs {
  import opened Basics
  import opened BsonDocument
  import opened BsonEncoding
  import BsonIter
  import opened BsonReader

  /** Encoded documents, each for itself. */
  function Encoded(docs: seq<Doc>): (r: seq<seq<Byte>>)
    ensures |r| == |docs| && forall i :: 0 <= i < |docs| ==> r[i] == EncodeDoc(docs[i])
  {
    if docs == [] then [] else [EncodeDoc(docs[0])] + Encoded(docs[1..])
  }

  /** The little-endian number in the first four bytes, byte by byte. */
  predicate Announces(data: seq<Byte>, at: nat, length: nat) {
    at + 4 <= |data|
    && data[at] as int + 0x100 * data[at + 1] as int + 0x1_0000 * data[at + 2] as int + 0x100_0000 * data[at + 3] as int
       == length
  }

  /** A document: the length that it announces, five bytes or more, and a final zero. */
  predicate IsDocument(doc: seq<Byte>) { 5 <= |doc| <= INT_MAX && Announces(doc, 0, |doc|) && doc[|doc| - 1] == 0 }

  lemma IteratorAccepts(doc: seq<Byte>)
    ensures IsDocument(doc) <==> BsonIter.Accepted(doc)
  {
  }

  lemma PrefixOfSlice(stream: seq<Byte>, at: nat, n: nat)
    requires 4 <= n && at + n <= |stream|
    ensures U32(stream[at..at + n], 0) == U32(stream, at)
  {
    var s := stream[at..at + n];
    assert s[0] == stream[at] && s[1] == stream[at + 1] && s[2] == stream[at + 2] && s[3] == stream[at + 3];
  }

  /** What is returned next is exactly the piece that the length at the position delimits, if it is a document. */
  lemma NextExactly(stream: seq<Byte>, at: nat, doc: seq<Byte>)
    requires at <= |stream|
    ensures NextDoc(stream, at) == Some(doc)
       <==> Announces(stream, at, |doc|) && at + |doc| <= |stream| && doc == stream[at..at + |doc|] && IsDocument(doc)
  {
    if at + 5 <= |stream| {
      var n := U32(stream, at);
      if 5 <= n <= INT_MAX && at + n <= |stream| { PrefixOfSlice(stream, at, n); }
    }
  }

  lemma LittleEndian(n: nat, rest: seq<Byte>)
    requires n < TWO_32
    ensures Announces(LE32(n) + rest, 0, n)
  {
    DigitsOf256(n);
  }

  lemma EncodedIsDocument(doc: Doc)
    requires |EncodeDoc(doc)| <= INT_MAX
    ensures IsDocument(EncodeDoc(doc))
  {
    LittleEndian(|EncodeElems(doc)| + 5, EncodeElems(doc) + [0]);
    assert EncodeDoc(doc) == LE32(|EncodeElems(doc)| + 5) + (EncodeElems(doc) + [0]);
  }

  lemma PrefixStays(first: seq<Byte>, rest: seq<Byte>, front: seq<Byte>, n: nat)
    requires 4 <= |first| && Announces(first, 0, n)
    ensures Announces(front + (first + rest), |front|, n)
  {
    var s := front + (first + rest);
    assert s[|front|] == first[0] && s[|front| + 1] == first[1] && s[|front| + 2] == first[2];
    assert s[|front| + 3] == first[3];
  }

  lemma Shape(doc: seq<Byte>)
    requires IsDocument(doc)
    ensures 5 <= |doc| && Announces(doc, 0, |doc|)
  {
  }

  lemma Announced(stream: seq<Byte>, at: nat, n: nat)
    requires Announces(stream, at, n) && n <= INT_MAX
    ensures Prefix(stream, at) == n
  {
  }

  lemma FirstOfEncoded(front: seq<Byte>, doc: Doc, rest: seq<Byte>)
    requires |EncodeDoc(doc)| < SIZE_LIMIT
    ensures var stream := front + (EncodeDoc(doc) + rest);
            && NextDoc(stream, |front|) == Some(EncodeDoc(doc))
            && |front| + 4 <= |stream| && Prefix(stream, |front|) == |EncodeDoc(doc)|
  {
    hide EncodeDoc, IsDocument, Announces, NextDoc, Prefix;
    var first := EncodeDoc(doc);
    var stream := front + (first + rest);
    EncodedIsDocument(doc);
    Shape(first);
    PrefixStays(first, rest, front, |first|);
    assert stream[|front|..|front| + |first|] == first;
    NextExactly(stream, |front|, first);
    Announced(stream, |front|, |first|);
  }

  lemma NothingLeft(stream: seq<Byte>)
    ensures Docs(stream, |stream|) == [] && SmallFrom(stream, |stream|)
  {
  }

  /** Behind any bytes, encoded documents are read as what they are. */
  lemma {:induction false} DocsOfEncoded(front: seq<Byte>, docs: seq<Doc>)
    requires forall i :: 0 <= i < |docs| ==> |EncodeDoc(docs[i])| < SIZE_LIMIT
    ensures Docs(front + Joined(Encoded(docs)), |front|) == Encoded(docs)
    ensures SmallFrom(front + Joined(Encoded(docs)), |front|)
    decreases docs
  {
    hide EncodeDoc, NextDoc, Prefix;
    var stream := front + Joined(Encoded(docs));
    if docs == [] {
      assert stream == front;
      NothingLeft(front);
    } else {
      var first, rest := EncodeDoc(docs[0]), Joined(Encoded(docs[1..]));
      Cut(first, Encoded(docs[1..]));
      assert stream == front + (first + rest) && stream == front + first + rest;
      FirstOfEncoded(front, docs[0], rest);
      DocsOfEncoded(front + first, docs[1..]);
    }
  }

  lemma AllOfThem(docs: seq<seq<Byte>>)
    ensures TotalLength(docs) == |Joined(docs)|
  {
  }

  /** Both readers on encoded documents: one returns them all, the other does if they take up less than 2^31 bytes. */
  method ReadEncoded(docs: seq<Doc>) returns (inMemory: seq<seq<Byte>>, streamed: seq<seq<Byte>>)
    requires forall i :: 0 <= i < |docs| ==> |EncodeDoc(docs[i])| < 0x4000_0000
    ensures streamed == Encoded(docs)
    ensures inMemory == Encoded(docs) <==> |Joined(Encoded(docs))| < 0x8000_0000
  {
    var stream := Joined(Encoded(docs));
    assert [] + stream == stream;
    DocsOfEncoded([], docs);
    AllOfThem(Encoded(docs));
    var at, tell;
    inMemory, streamed, at, tell := ReadBoth(stream);
  }
}

/** Reading documents from a stream through a sliding, growing buffer, and from memory. */
module BsonReader {
  import opened Basics
  import opened BsonDocument
  import opened BsonEncoding

  /** Documents below this size keep every length within an int32. */
  const SIZE_LIMIT := 0x4000_0000

  /** A uint32 or size_t value converted to int32_t. */
  function AsInt32(n: nat): (i: int)
    ensures -0x8000_0000 <= i <= INT_MAX
    ensures n <= INT_MAX ==> i == n
    ensures i <= n
  {
    if n % TWO_32 <= INT_MAX then n % TWO_32 else n % TWO_32 - TWO_32
  }

  /** The length prefix at a position. */
  function Prefix(data: seq<Byte>, at: nat): int
    requires at + 4 <= |data|
  {
    AsInt32(U32(data, at))
  }

  /** bson_init_static on a length taken from the data's own prefix: what is left to check is the final zero. */
  predicate InitStatic(doc: seq<Byte>) {
    5 <= |doc| <= INT_MAX && U32(doc, 0) == |doc| && doc[|doc| - 1] == 0
  }

  /** The document at a position of a whole stream. */
  function NextDoc(stream: seq<Byte>, at: nat): (doc: Option<seq<Byte>>)
    requires at <= |stream|
    ensures doc.Some? ==> 5 <= |doc.value| <= |stream| - at && doc.value == stream[at..at + |doc.value|]
  {
    if at + 4 >= |stream| || Prefix(stream, at) < 5 || Prefix(stream, at) > |stream| - at then None
    else if InitStatic(stream[at..at + Prefix(stream, at)]) then Some(stream[at..at + Prefix(stream, at)])
    else None
  }

  /** All documents from a position on, up to the first that is cut off or damaged. */
  function Docs(stream: seq<Byte>, at: nat): seq<seq<Byte>>
    requires at <= |stream|
    decreases |stream| - at
  {
    match NextDoc(stream, at)
    case None => []
    case Some(doc) => [doc] + Docs(stream, at + |doc|)
  }

  function TotalLength(docs: seq<seq<Byte>>): nat {
    if docs == [] then 0 else |docs[0]| + TotalLength(docs[1..])
  }

  /** No length prefix met on the way claims 2^30 bytes or more. */
  predicate SmallFrom(stream: seq<Byte>, at: nat)
    requires at <= |stream|
    decreases |stream| - at
  {
    && (at + 4 <= |stream| ==> Prefix(stream, at) < SIZE_LIMIT)
    && (NextDoc(stream, at).Some? ==> SmallFrom(stream, at + |NextDoc(stream, at).value|))
  }

  /** What the data reader returns: a document, unless the remaining length, as an int32, seems shorter. */
  function DataDoc(data: seq<Byte>, at: nat): (doc: Option<seq<Byte>>)
    requires at <= |data|
    ensures doc.Some? ==> doc == NextDoc(data, at)
  {
    match NextDoc(data, at)
    case None => None
    case Some(doc) => if |doc| <= AsInt32(|data| - at) then Some(doc) else None
  }

  /** What it returns when it is read until nothing comes. */
  function DataDocs(data: seq<Byte>, at: nat): seq<seq<Byte>>
    requires at <= |data|
    decreases |data| - at
  {
    match DataDoc(data, at)
    case None => []
    case Some(doc) => [doc] + DataDocs(data, at + |doc|)
  }

  /** The bytes behind a position, counted modulo 2^32 and read as an int32, are enough for these documents. */
  predicate Counted(data: seq<Byte>, at: nat, docs: seq<seq<Byte>>)
    requires at <= |data|
  {
    docs == [] || ((|data| - at) % TWO_32 <= INT_MAX && TotalLength(docs) <= (|data| - at) % TWO_32)
  }

  /** The first document is let through and the others are, or it is not. */
  lemma CountedStep(data: seq<Byte>, at: nat, doc: seq<Byte>, docs: seq<seq<Byte>>)
    requires at + |doc| <= |data| && doc != []
    ensures Counted(data, at, [doc] + docs)
       <==> |doc| <= AsInt32(|data| - at) && Counted(data, at + |doc|, docs)
  {
    Cut(doc, docs);
    var left, more := (|data| - at) % TWO_32, (|data| - at) / TWO_32;
    assert |data| - at == TWO_32 * more + left;
    if |doc| <= left {
      assert |data| - (at + |doc|) == TWO_32 * more + (left - |doc|);
      assert (|data| - (at + |doc|)) % TWO_32 == left - |doc|;
    }
  }

  /**
   * The data reader returns an initial part of the documents of its buffer. It returns them all exactly when the
   * remaining length, taken modulo 2^32, is an int32 that covers them: beyond 2^31 bytes it can lose documents.
   */
  lemma {:induction false} DataDocsExactly(data: seq<Byte>, at: nat)
    requires at <= |data|
    ensures DataDocs(data, at) <= Docs(data, at)
    ensures DataDocs(data, at) == Docs(data, at) <==> Counted(data, at, Docs(data, at))
    decreases |data| - at
  {
    hide NextDoc, AsInt32;
    match NextDoc(data, at)
    case None =>
    case Some(doc) =>
      CountedStep(data, at, doc, Docs(data, at + |doc|));
      Cut(doc, Docs(data, at + |doc|));
      if DataDoc(data, at).Some? {
        DataDocsExactly(data, at + |doc|);
        Cut(doc, DataDocs(data, at + |doc|));
      }
  }

  /** An empty document in front of zeros, 2^31 bytes in all: it is there, and the data reader returns nothing. */
  lemma DocumentLost()
    ensures var data := [5, 0, 0, 0, 0] + seq(0x7FFF_FFFB, _ => 0);
            SmallFrom(data, 0) && Docs(data, 0) == [[5, 0, 0, 0, 0]] && DataDocs(data, 0) == []
  {
    var data: seq<Byte> := [5, 0, 0, 0, 0] + seq(0x7FFF_FFFB, _ => 0);
    assert data[0..5] == [5, 0, 0, 0, 0];
    assert U32(data, 0) == 5 && U32(data[0..5], 0) == 5 && U32(data, 5) == 0;
    assert NextDoc(data, 5) == None;
    assert NextDoc(data, 0) == Some([5, 0, 0, 0, 0]);
    assert AsInt32(|data|) < 0;
  }

  /** The data reader: the whole stream is in memory. */
  class DataReader {
    const data: seq<Byte>
    var offset: nat

    predicate Valid()
      reads this
    {
      offset <= |data|
    }

    constructor (bytes: seq<Byte>)
      ensures Valid() && data == bytes && offset == 0
    {
      data, offset := bytes, 0;
    }

    method Read() returns (doc: Option<seq<Byte>>)
      requires Valid()
      modifies this
      ensures Valid() && doc == DataDoc(data, old(offset))
      ensures offset == old(offset) + if doc.Some? then |doc.value| else 0
    {
      if offset + 4 < |data| {
        var blen := Prefix(data, offset);
        if blen < 5 {
          return None;
        }
        if blen > AsInt32(|data| - offset) {
          return None;
        }
        if !InitStatic(data[offset..offset + blen]) {
          return None;
        }
        offset := offset + blen;
        return Some(data[offset - blen..offset]);
      }
      return None;
    }
  }

  /** The bytes `w` are the last ones read of the first `t` bytes of the stream. */
  ghost predicate Window(w: seq<Byte>, stream: seq<Byte>, t: nat, rest: seq<Byte>) {
    |w| <= t <= |stream| && rest == stream[t..] && w == stream[t - |w|..t]
  }

  lemma WindowSize(w: seq<Byte>, stream: seq<Byte>, t: nat, rest: seq<Byte>)
    requires Window(w, stream, t, rest)
    ensures |w| <= t <= |stream|
  {
  }

  /** Some more bytes are read behind it. */
  lemma WindowGrows(w: seq<Byte>, stream: seq<Byte>, t: nat, rest: seq<Byte>, n: nat)
    requires Window(w, stream, t, rest) && n <= |rest|
    ensures Window(w + rest[..n], stream, t + n, rest[n..])
  {
    NextBytes(stream, t, rest, n);
    Join(stream, t - |w|, t, t + n);
  }

  /** A read function over a stream: every call delivers some bytes, as many as it likes, until none are left. */
  class Source {
    var rest: seq<Byte>

    constructor (stream: seq<Byte>)
      ensures rest == stream
    {
      rest := stream;
    }

    method Read(buf: array<Byte>, at: nat, count: nat) returns (ret: nat)
      requires at + count <= buf.Length && count > 0
      modifies this, buf
      ensures ret <= count && ret <= |old(rest)| && (ret == 0 <==> old(rest) == [])
      ensures buf[at..at + ret] == old(rest)[..ret] && rest == old(rest)[ret..]
      ensures buf[..at] == old(buf[..at])
    {
      if rest == [] {
        return 0;
      }
      ret :| 1 <= ret <= count && ret <= |rest|;
      forall i | 0 <= i < ret {
        buf[at + i] := rest[i];
      }
      rest := rest[ret..];
    }
  }

  /** The handle reader: bytes `offset..end` of the buffer are still to be consumed. */
  class HandleReader {
    var data: array<Byte>
    var end: nat
    var offset: nat
    var bytesRead: nat
    var done: bool
    const source: Source
    ghost const stream: seq<Byte>

    /** The buffer holds exactly the part of the stream that is read but not yet returned. */
    ghost predicate Buffered()
      reads this, data, source
    {
      && 1024 <= data.Length <= INT_MAX && offset <= end <= data.Length
      && Window(data[offset..end], stream, bytesRead, source.rest)
    }

    ghost predicate Valid()
      reads this, data, source
    {
      Buffered() && (done ==> source.rest == [] && NextDoc(stream, Tell()) == None)
    }

    function Tell(): int
      reads this
    {
      bytesRead - end + offset
    }

    constructor (s: Source)
      ensures Valid() && fresh(data) && source == s && stream == s.rest && Tell() == 0 && !done
    {
      data := new Byte[1024];
      end, offset, bytesRead, done := 0, 0, 0, false;
      source := s;
      stream := s.rest;
    }

    /** memmove of the unconsumed bytes to the front. */
    method Slide()
      requires Buffered()
      modifies this`end, this`offset, data
      ensures Buffered() && Tell() == old(Tell()) && offset == 0 && end == old(end - offset)
    {
      ghost var kept := data[offset..end];
      forall i | 0 <= i < end - offset {
        data[i] := data[offset + i];
      }
      assert data[0..end - offset] == kept;
      end := end - offset;
      offset := 0;
    }

    /** Reads behind the bytes at the front; the end of the stream is remembered. */
    method ReadMore()
      requires Buffered() && !done && offset == 0 && end < data.Length
      requires source.rest == [] ==> NextDoc(stream, Tell()) == None
      modifies this`end, this`bytesRead, this`done, data, source
      ensures Valid() && Tell() == old(Tell())
      ensures done <==> old(source.rest) == []
      ensures !done ==> |source.rest| < |old(source.rest)|
    {
      hide NextDoc, Window;
      ghost var window, more := data[offset..end], source.rest;
      assert data[..end] == window;
      var ret := source.Read(data, end, data.Length - end);
      if ret == 0 {
        done := true;
        assert data[offset..end] == window && more[ret..] == more;
      } else {
        assert data[offset..end + ret] == window + more[..ret];
        WindowGrows(window, stream, bytesRead, more, ret);
        WindowSize(window, stream, bytesRead, more);
        bytesRead := bytesRead + ret;
        end := end + ret;
      }
    }

    /** The first read finds an empty buffer; later ones slide first. There is always room to read into. */
    method FillBuffer()
      requires Valid() && !done && end - offset < data.Length
      requires source.rest == [] ==> NextDoc(stream, Tell()) == None
      modifies this`end, this`offset, this`bytesRead, this`done, data, source
      ensures Valid() && Tell() == old(Tell())
      ensures done <==> old(source.rest) == []
      ensures !done ==> |source.rest| < |old(source.rest)|
    {
      if offset == 0 && end == 0 {
        ReadMore();
        return;
      }
      Slide();
      ReadMore();
    }

    /** Doubles the buffer. */
    method GrowBuffer()
      requires Valid() && data.Length < SIZE_LIMIT
      modifies this`data
      ensures Valid() && fresh(data) && data.Length == 2 * old(data.Length)
      ensures data[..old(data.Length)] == old(data[..])
    {
      var bigger := new Byte[2 * data.Length];
      forall i | 0 <= i < data.Length {
        bigger[i] := data[i];
      }
      data := bigger;
    }

    /** The length prefix in the buffer is the one in the stream. */
    lemma PrefixHere()
      requires Buffered() && end - offset >= 4
      ensures 0 <= Tell() && Tell() + 4 <= |stream| && Prefix(data[..], offset) == Prefix(stream, Tell())
    {
      SameWindow(data[..], offset, end, stream, Tell(), 4);
    }

    /** At the end of the stream, an incomplete document is no document. */
    lemma Starved()
      requires Buffered() && source.rest == []
      requires end - offset >= 4 ==> Prefix(stream, Tell()) > end - offset
      ensures 0 <= Tell() <= |stream| && NextDoc(stream, Tell()) == None
    {
      assert |stream[bytesRead..]| == 0;
    }

    /** Neither is one whose length is below the minimum. */
    lemma TooShort()
      requires Buffered() && end - offset >= 4 && Prefix(stream, Tell()) < 5
      ensures 0 <= Tell() <= |stream| && NextDoc(stream, Tell()) == None
    {
    }

    /** A document that lies in the buffer completely. */
    method Take(blen: nat) returns (doc: Option<seq<Byte>>)
      requires Valid() && !done && 5 <= blen <= end - offset && blen == Prefix(stream, Tell())
      modifies this`offset
      ensures Valid() && doc == NextDoc(stream, old(Tell()))
      ensures Tell() == old(Tell()) + if doc.Some? then |doc.value| else 0
    {
      SameWindow(data[..], offset, end, stream, Tell(), blen);
      if !InitStatic(data[offset..offset + blen]) {
        return None;
      }
      doc := Some(data[offset..offset + blen]);
      SuffixWindow(data[..], offset, end, stream, Tell(), blen);
      offset := offset + blen;
    }

    /** Returns the next document, reading and growing as needed. */
    method Read() returns (doc: Option<seq<Byte>>)
      requires Valid() && 0 <= Tell() <= |stream| && SmallFrom(stream, Tell())
      modifies this, data, source
      ensures Valid() && (data == old(data) || fresh(data))
      ensures doc == NextDoc(stream, old(Tell()))
      ensures Tell() == old(Tell()) + if doc.Some? then |doc.value| else 0
    {
      hide NextDoc, Docs, U32;
      assert Tell() + 4 <= |stream| ==> Prefix(stream, Tell()) < SIZE_LIMIT;
      while !done
        invariant Valid() && Tell() == old(Tell()) && (data == old(data) || fresh(data))
        decreases |source.rest|, !done
      {
        if end - offset < 4 {
          if source.rest == [] { Starved(); }
          FillBuffer();
          continue;
        }
        PrefixHere();
        var blen := Prefix(data[..], offset);
        if blen < 5 {
          TooShort();
          return None;
        }
        if blen > AsInt32(end - offset) {
          if source.rest == [] { Starved(); }
          if blen > AsInt32(data.Length) {
            GrowBuffer();
          }
          FillBuffer();
          continue;
        }
        doc := Take(blen);
        return;
      }
      return None;
    }
  }

  /** The documents of a stream lie one behind the other. */
  lemma {:induction false} DocsCover(stream: seq<Byte>, at: nat)
    requires at <= |stream|
    ensures at + TotalLength(Docs(stream, at)) <= |stream|
    ensures Joined(Docs(stream, at)) == stream[at..at + TotalLength(Docs(stream, at))]
    decreases |stream| - at
  {
    hide NextDoc;
    match NextDoc(stream, at)
    case None =>
    case Some(doc) =>
      DocsCover(stream, at + |doc|);
      Join(stream, at, at + |doc|, at + TotalLength(Docs(stream, at)));
  }

  lemma {:induction false} TotalSnoc(docs: seq<seq<Byte>>, doc: seq<Byte>)
    ensures TotalLength(docs + [doc]) == TotalLength(docs) + |doc|
  {
    if docs != [] {
      assert (docs + [doc])[1..] == docs[1..] + [doc];
      TotalSnoc(docs[1..], doc);
    }
  }

  /** No document is empty, so more of them take up more bytes. */
  lemma {:induction false} LongerInAll(stream: seq<Byte>, at: nat, docs: seq<seq<Byte>>)
    requires at <= |stream| && docs <= Docs(stream, at) && docs != Docs(stream, at)
    ensures TotalLength(docs) < TotalLength(Docs(stream, at))
    decreases |stream| - at
  {
    hide NextDoc;
    var doc := NextDoc(stream, at).value;
    Cut(doc, Docs(stream, at + |doc|));
    if docs != [] { LongerInAll(stream, at + |doc|, docs[1..]); }
  }

  /** One more document read from a stream. */
  lemma DocsOn(stream: seq<Byte>, at: nat, docs: seq<seq<Byte>>)
    requires at <= |stream|
    ensures NextDoc(stream, at) == None ==> docs + Docs(stream, at) == docs
    ensures NextDoc(stream, at).Some? ==>
              var doc := NextDoc(stream, at).value;
              docs + Docs(stream, at) == docs + [doc] + Docs(stream, at + |doc|)
  {
    hide NextDoc;
    if NextDoc(stream, at).Some? {
      var doc := NextDoc(stream, at).value;
      assert docs + ([doc] + Docs(stream, at + |doc|)) == docs + [doc] + Docs(stream, at + |doc|);
    }
  }

  /** One more document read from memory. */
  lemma DataDocsOn(data: seq<Byte>, at: nat, docs: seq<seq<Byte>>)
    requires at <= |data|
    ensures DataDoc(data, at) == None ==> docs + DataDocs(data, at) == docs
    ensures DataDoc(data, at).Some? ==>
              var doc := DataDoc(data, at).value;
              docs + DataDocs(data, at) == docs + [doc] + DataDocs(data, at + |doc|)
  {
    hide DataDoc;
    if DataDoc(data, at).Some? {
      var doc := DataDoc(data, at).value;
      assert docs + ([doc] + DataDocs(data, at + |doc|)) == docs + [doc] + DataDocs(data, at + |doc|);
    }
  }

  /** Reading until nothing comes, from memory. */
  method DrainData(reader: DataReader) returns (docs: seq<seq<Byte>>)
    requires reader.Valid()
    modifies reader
    ensures reader.Valid() && docs == DataDocs(reader.data, old(reader.offset))
    ensures reader.offset == old(reader.offset) + TotalLength(docs)
  {
    hide NextDoc, DataDoc, DataDocs;
    docs := [];
    ghost var all := DataDocs(reader.data, reader.offset);
    assert [] + all == all;
    var more := true;
    while more
      invariant reader.Valid() && reader.offset == old(reader.offset) + TotalLength(docs)
      invariant if more then docs + DataDocs(reader.data, reader.offset) == all else docs == all
      decreases more, |reader.data| - reader.offset
    {
      DataDocsOn(reader.data, reader.offset, docs);
      var doc := reader.Read();
      more := doc.Some?;
      if more {
        TotalSnoc(docs, doc.value);
        docs := docs + [doc.value];
      }
    }
  }

  lemma SmallOn(stream: seq<Byte>, at: nat)
    requires at <= |stream| && SmallFrom(stream, at)
    ensures NextDoc(stream, at).Some? ==> SmallFrom(stream, at + |NextDoc(stream, at).value|)
  {
  }

  lemma NoLength()
    ensures TotalLength([]) == 0
  {
  }

  /** Reading until nothing comes, from a source that cuts the stream as it likes. */
  method DrainHandle(reader: HandleReader) returns (docs: seq<seq<Byte>>)
    requires reader.Valid() && 0 <= reader.Tell() <= |reader.stream| && SmallFrom(reader.stream, reader.Tell())
    modifies reader, reader.data, reader.source
    ensures reader.Valid() && docs == Docs(reader.stream, old(reader.Tell()))
    ensures reader.Tell() == old(reader.Tell()) + TotalLength(docs)
  {
    hide NextDoc, Docs, SmallFrom, TotalLength;
    docs := [];
    NoLength();
    ghost var all := Docs(reader.stream, reader.Tell());
    assert [] + all == all;
    var more := true;
    while more
      invariant reader.Valid() && (reader.data == old(reader.data) || fresh(reader.data))
      invariant 0 <= reader.Tell() <= |reader.stream| && SmallFrom(reader.stream, reader.Tell())
      invariant reader.Tell() == old(reader.Tell()) + TotalLength(docs)
      invariant if more then docs + Docs(reader.stream, reader.Tell()) == all else docs == all
      decreases more, |reader.stream| - reader.Tell()
    {
      DocsOn(reader.stream, reader.Tell(), docs);
      SmallOn(reader.stream, reader.Tell());
      var doc := reader.Read();
      more := doc.Some?;
      if more {
        TotalSnoc(docs, doc.value);
        docs := docs + [doc.value];
      }
    }
  }

  /**
   * Both readers on one stream, however the source cuts it. The handle reader returns every document; the data reader
   * agrees with it, position included, exactly when the length of the stream as an int32 covers them, which it always
   * does below 2^31 bytes.
   */
  method ReadBoth(stream: seq<Byte>) returns (inMemory: seq<seq<Byte>>, streamed: seq<seq<Byte>>, at: nat, tell: nat)
    requires SmallFrom(stream, 0)
    ensures streamed == Docs(stream, 0) && tell == TotalLength(streamed)
    ensures inMemory <= streamed && at == TotalLength(inMemory)
    ensures inMemory == streamed <==> at == tell
    ensures inMemory == streamed
       <==> streamed == [] || (|stream| % TWO_32 <= INT_MAX && TotalLength(streamed) <= |stream| % TWO_32)
    ensures |stream| <= INT_MAX ==> inMemory == streamed
  {
    var memory := new DataReader(stream);
    inMemory := DrainData(memory);
    at := memory.offset;
    var source := new Source(stream);
    var handle := new HandleReader(source);
    streamed := DrainHandle(handle);
    tell := handle.Tell();
    DataDocsExactly(stream, 0);
    DocsCover(stream, 0);
    if inMemory != streamed { LongerInAll(stream, 0, inMemory); }
  }

  lemma NextBytes(stream: seq<Byte>, t: nat, more: seq<Byte>, ret: nat)
    requires t <= |stream| && more == stream[t..] && ret <= |more|
    ensures more[..ret] == stream[t..t + ret] && more[ret..] == stream[t + ret..]
  {
    forall k | 0 <= k < ret ensures more[..ret][k] == stream[t..t + ret][k] {
    }
    forall k | 0 <= k < |more| - ret ensures more[ret..][k] == stream[t + ret..][k] {
    }
  }

  lemma SameWindow(buf: seq<Byte>, o: nat, e: nat, stream: seq<Byte>, t: nat, n: nat)
    requires o <= e <= |buf| && t + (e - o) <= |stream| && buf[o..e] == stream[t..t + (e - o)] && n <= e - o
    ensures buf[o..o + n] == stream[t..t + n]
    ensures n >= 4 ==> U32(buf, o) == U32(stream, t)
  {
    assert buf[o..o + n] == buf[o..e][..n];
    assert stream[t..t + n] == stream[t..t + (e - o)][..n];
    if n >= 4 {
      assert buf[o..o + n][0] == stream[t..t + n][0] && buf[o..o + n][1] == stream[t..t + n][1];
      assert buf[o..o + n][2] == stream[t..t + n][2] && buf[o..o + n][3] == stream[t..t + n][3];
    }
  }

  lemma SuffixWindow(buf: seq<Byte>, o: nat, e: nat, stream: seq<Byte>, t: nat, n: nat)
    requires o <= e <= |buf| && t + (e - o) <= |stream| && buf[o..e] == stream[t..t + (e - o)] && n <= e - o
    ensures buf[o + n..e] == stream[t + n..t + (e - o)]
  {
    assert buf[o + n..e] == buf[o..e][n..];
    assert stream[t + n..t + (e - o)] == stream[t..t + (e - o)][n..];
  }
}

/** Collecting the text of a JSON token that may spread over any number of input chunks. */
module JsonText {
  import opened Basics
  import opened BsonDocument

  function NextPowerOfTwo(n: nat, power: nat): (p: nat)
    requires power > 0
    ensures p >= n
    decreases n - power
  {
    if power >= n then power else NextPowerOfTwo(n, 2 * power)
  }

  predicate IsPowerOfTwo(p: nat) { p == 1 || (p > 1 && p % 2 == 0 && IsPowerOfTwo(p / 2)) }

  /** bson_next_power_of_two: the smallest one that is enough. */
  lemma {:induction false} SmallestPower(n: nat, power: nat)
    requires IsPowerOfTwo(power) && (power == 1 || power / 2 < n)
    ensures var p := NextPowerOfTwo(n, power); IsPowerOfTwo(p) && p >= n && (p == 1 || p / 2 < n)
    decreases n - power
  {
    if power < n { SmallestPower(n, 2 * power); }
  }

  /** A growing buffer whose contents are followed by a NUL once something has been appended. */
  class Buffer {
    var buf: array<Byte>
    var len: nat

    ghost predicate Valid()
      reads this, buf
    {
      len < buf.Length || (len == 0 == buf.Length)
    }

    ghost function Contents(): (s: seq<Byte>)
      requires Valid()
      reads this, buf
      ensures |s| == len
    {
      buf[..len]
    }

    constructor ()
      ensures Valid() && fresh(buf) && Contents() == []
    {
      buf := new Byte[0];
      len := 0;
    }

    /** Frees a buffer that is too small and allocates one that is not. */
    method Ensure(size: nat)
      requires Valid() && len == 0
      modifies this`buf
      ensures buf.Length >= size && (buf == old(buf) || fresh(buf))
      ensures buf.Length == if old(buf.Length) < size then NextPowerOfTwo(size, 1) else old(buf.Length)
    {
      if buf.Length < size {
        buf := new Byte[NextPowerOfTwo(size, 1)];
      }
    }

    /** Reallocates, keeping the contents. */
    method Reallocate(size: nat)
      requires Valid() && size >= buf.Length
      modifies this`buf
      ensures buf.Length == size && fresh(buf) && buf[..old(buf.Length)] == old(buf[..])
    {
      var bigger := new Byte[size];
      forall i | 0 <= i < buf.Length {
        bigger[i] := buf[i];
      }
      buf := bigger;
    }

    method Append(from: seq<Byte>)
      requires Valid()
      modifies this, buf
      ensures Valid() && (buf == old(buf) || fresh(buf))
      ensures Contents() == old(Contents()) + from
      ensures len < buf.Length && buf[len] == 0
    {
      ghost var before, all := Contents(), buf[..];
      if len == 0 {
        Ensure(|from| + 1);
      } else if buf.Length < len + (|from| + 1) {
        Reallocate(NextPowerOfTwo(len + (|from| + 1), 1));
        assert before == all[..len] == buf[..|all|][..len];
      }
      assert buf[..len] == before;
      forall i | 0 <= i < |from| {
        buf[len + i] := from[i];
      }
      len := len + |from|;
      buf[len] := 0;
      assert buf[..len] == before + from;
    }

    method Clear()
      requires Valid()
      modifies this`len
      ensures Valid() && Contents() == []
    {
      len := 0;
    }
  }

  /** A token as the JSON lexer reports it: the positions of its first byte and of the byte after it. */
  datatype Token = Token(begin: nat, end: nat)

  /** Tokens in the order of the text, each ended by a byte of the stream. */
  predicate Ordered(tokens: seq<Token>, size: nat) {
    && (forall i :: 0 <= i < |tokens| ==> tokens[i].begin < tokens[i].end < size)
    && (forall i, j :: 0 <= i < j < |tokens| ==> tokens[i].end <= tokens[j].begin)
  }

  lemma SliceInside(stream: seq<Byte>, start: nat, chunk: seq<Byte>, begin: nat, end: nat)
    requires start + |chunk| <= |stream| && chunk == stream[start..start + |chunk|]
    requires start <= begin <= end <= start + |chunk|
    ensures chunk[begin - start..end - start] == stream[begin..end]
  {
    var piece := chunk[begin - start..end - start];
    forall k | 0 <= k < |piece| ensures piece[k] == stream[begin..end][k] {
      assert piece[k] == chunk[k + (begin - start)] == stream[start..start + |chunk|][k + (begin - start)];
    }
  }

  lemma SliceAcross(stream: seq<Byte>, start: nat, chunk: seq<Byte>, begin: nat, end: nat)
    requires start + |chunk| <= |stream| && chunk == stream[start..start + |chunk|]
    requires begin <= start <= end <= start + |chunk|
    ensures stream[begin..start] + chunk[..end - start] == stream[begin..end]
  {
    var piece := stream[begin..start] + chunk[..end - start];
    forall k | 0 <= k < |piece| ensures piece[k] == stream[begin..end][k] {
      if k >= start - begin {
        assert chunk[k - (start - begin)] == stream[start..start + |chunk|][k - (start - begin)];
      }
    }
  }

  /** The part of the reader that feeds chunks and hands out token texts. */
  class Collector {
    var textPos: int
    const accumulator: Buffer
    var startPos: nat
    var pos: nat
    ghost const stream: seq<Byte>

    /** Between chunks, the accumulator holds what has been seen of the open token. */
    ghost predicate Valid()
      reads this, accumulator, accumulator.buf
    {
      && accumulator.Valid() && -1 <= textPos && startPos <= pos <= |stream| && textPos < pos
      && accumulator.Contents() == (if textPos == -1 then [] else stream[textPos..pos])
    }

    /** While a chunk is being lexed, it still lacks the part inside the chunk. */
    ghost predicate Lexing(chunk: seq<Byte>)
      reads this, accumulator, accumulator.buf
    {
      && accumulator.Valid() && -1 <= textPos && startPos + |chunk| <= |stream| && textPos < startPos + |chunk|
      && chunk == stream[startPos..startPos + |chunk|]
      && accumulator.Contents() == (if 0 <= textPos < startPos then stream[textPos..startPos] else [])
    }

    constructor (ghost text: seq<Byte>)
      ensures Valid() && fresh(accumulator) && fresh(accumulator.buf) && stream == text && pos == 0 && textPos == -1
    {
      textPos, startPos, pos := -1, 0, 0;
      accumulator := new Buffer();
      stream := text;
    }

    /** The push callback of a key, string or special token. */
    method Push(chunk: seq<Byte>, begin: nat)
      requires Lexing(chunk) && textPos == -1 && startPos <= begin < startPos + |chunk|
      modifies this`textPos
      ensures Lexing(chunk) && textPos == begin
    {
      textPos := begin;
    }

    /** The text of a token that ends at `end` in the current chunk. */
    method GetText(chunk: seq<Byte>, begin: nat, end: nat) returns (text: seq<Byte>)
      requires Lexing(chunk) && textPos == begin < end && startPos <= end < startPos + |chunk|
      modifies accumulator, accumulator.buf
      ensures accumulator.Valid() && (accumulator.buf == old(accumulator.buf) || fresh(accumulator.buf))
      ensures text == stream[begin..end]
    {
      var len := end - begin;
      var available := end - startPos;
      if len <= available {
        SliceInside(stream, startPos, chunk, begin, end);
        return chunk[available - len..available];
      }
      if available > 0 {
        accumulator.Append(chunk[..available]);
      }
      text := accumulator.buf[..len];
      SliceAcross(stream, startPos, chunk, begin, end);
    }

    /** The pop callback: hands the text over and forgets it. */
    method Pop(chunk: seq<Byte>, begin: nat, end: nat) returns (text: seq<Byte>)
      requires Lexing(chunk) && textPos == begin < end && startPos <= end < startPos + |chunk|
      modifies this`textPos, accumulator, accumulator.buf
      ensures Lexing(chunk) && textPos == -1 && (accumulator.buf == old(accumulator.buf) || fresh(accumulator.buf))
      ensures text == stream[begin..end]
    {
      text := GetText(chunk, begin, end);
      textPos := -1;
      accumulator.Clear();
    }

    /** After a chunk: keep what belongs to an open token. */
    method Accumulate(chunk: seq<Byte>)
      requires Lexing(chunk) && pos == startPos + |chunk|
      modifies accumulator, accumulator.buf
      ensures Valid() && (accumulator.buf == old(accumulator.buf) || fresh(accumulator.buf))
    {
      if textPos != -1 && textPos < pos {
        var accum := if pos - textPos < |chunk| then pos - textPos else |chunk|;
        var offset := if textPos - startPos < 0 then 0 else textPos - startPos;
        accumulator.Append(chunk[offset..offset + accum]);
        if textPos < startPos {
          assert stream[textPos..startPos] + chunk == stream[textPos..pos];
        }
      }
    }

    /** The tokens whose end lies in the chunk are handed out, and the next one may be opened. */
    method Deliver(chunk: seq<Byte>, tokens: seq<Token>, k: nat) returns (texts: seq<seq<Byte>>, next: nat)
      requires Lexing(chunk) && startPos == pos && Ordered(tokens, |stream|) && Ahead(tokens, k)
      modifies this`textPos, accumulator, accumulator.buf
      ensures Lexing(chunk) && (accumulator.buf == old(accumulator.buf) || fresh(accumulator.buf))
      ensures k <= next && Ahead(tokens, next) && texts == Slices(stream, tokens[k..next])
      ensures next < |tokens| ==> (if textPos == -1 then tokens[next].begin else tokens[next].end) >= startPos + |chunk|
    {
      hide Slices;
      texts, next := [], k;
      SlicesNone(stream, tokens, k);
      while next < |tokens| && (if textPos == -1 then tokens[next].begin else tokens[next].end) < startPos + |chunk|
        invariant Lexing(chunk) && (accumulator.buf == old(accumulator.buf) || fresh(accumulator.buf))
        invariant k <= next && Ahead(tokens, next)
        invariant texts == Slices(stream, tokens[k..next])
        decreases |tokens| - next, textPos == -1
      {
        if textPos == -1 {
          Push(chunk, tokens[next].begin);
        } else {
          var text := Pop(chunk, tokens[next].begin, tokens[next].end);
          SlicesNext(stream, tokens, k, next);
          texts := texts + [text];
          next := next + 1;
        }
      }
    }

    /** Feeds one chunk; `k` counts the tokens handed out so far. */
    method Feed(chunk: seq<Byte>, tokens: seq<Token>, k: nat) returns (texts: seq<seq<Byte>>, next: nat)
      requires Valid() && pos + |chunk| <= |stream| && chunk == stream[pos..pos + |chunk|]
      requires Ordered(tokens, |stream|) && Due(tokens, k)
      modifies this, accumulator, accumulator.buf
      ensures Valid() && (accumulator.buf == old(accumulator.buf) || fresh(accumulator.buf))
      ensures pos == old(pos) + |chunk| && k <= next && Due(tokens, next)
      ensures texts == Slices(stream, tokens[k..next])
    {
      startPos := pos;
      texts, next := Deliver(chunk, tokens, k);
      if textPos == -1 && next < |tokens| { LaterTokens(tokens, |stream|, next); }
      pos := startPos + |chunk|;
      Accumulate(chunk);
    }

    /** The next token begins, or the open one ends, in this chunk or later. */
    predicate Ahead(tokens: seq<Token>, next: nat)
      reads this
    {
      && next <= |tokens|
      && (textPos != -1 ==> next < |tokens| && textPos == tokens[next].begin && startPos <= tokens[next].end)
      && (textPos == -1 && next < |tokens| ==> startPos <= tokens[next].begin)
    }

    /** The tokens from k on are still to come, or the k-th is open. */
    predicate Due(tokens: seq<Token>, k: nat)
      reads this
    {
      && k <= |tokens|
      && -1 <= textPos
      && (textPos == -1 ==> forall i :: k <= i < |tokens| ==> pos <= tokens[i].begin)
      && (textPos != -1 ==> k < |tokens| && textPos == tokens[k].begin && pos <= tokens[k].end)
    }
  }

  lemma LaterTokens(tokens: seq<Token>, size: nat, next: nat)
    requires Ordered(tokens, size) && next < |tokens|
    ensures forall i :: next <= i < |tokens| ==> tokens[next].begin <= tokens[i].begin
  {
    forall i | next < i < |tokens| ensures tokens[next].begin <= tokens[i].begin {
      assert tokens[next].begin < tokens[next].end <= tokens[i].begin;
    }
  }

  /** The texts of tokens in the whole stream. */
  function Slices(stream: seq<Byte>, tokens: seq<Token>): (r: seq<seq<Byte>>)
    requires forall i :: 0 <= i < |tokens| ==> tokens[i].begin < tokens[i].end < |stream|
    ensures |r| == |tokens|
  {
    if tokens == [] then []
    else [stream[tokens[0].begin..tokens[0].end]] + Slices(stream, tokens[1..])
  }

  lemma {:induction false} SlicesAppend(stream: seq<Byte>, a: seq<Token>, b: seq<Token>)
    requires forall i :: 0 <= i < |a| ==> a[i].begin < a[i].end < |stream|
    requires forall i :: 0 <= i < |b| ==> b[i].begin < b[i].end < |stream|
    ensures Slices(stream, a + b) == Slices(stream, a) + Slices(stream, b)
  {
    if a == [] {
      assert a + b == b;
    } else {
      assert (a + b)[1..] == a[1..] + b;
      SlicesAppend(stream, a[1..], b);
    }
  }

  lemma SlicesSnoc(stream: seq<Byte>, a: seq<Token>, t: Token)
    requires forall i :: 0 <= i < |a| ==> a[i].begin < a[i].end < |stream|
    requires t.begin < t.end < |stream|
    ensures Slices(stream, a + [t]) == Slices(stream, a) + [stream[t.begin..t.end]]
  {
    SlicesAppend(stream, a, [t]);
    assert Slices(stream, [t]) == [stream[t.begin..t.end]];
  }

  lemma SlicesNone(stream: seq<Byte>, tokens: seq<Token>, k: nat)
    requires k <= |tokens|
    ensures Slices(stream, tokens[k..k]) == []
  {
  }

  lemma SlicesNext(stream: seq<Byte>, tokens: seq<Token>, k: nat, next: nat)
    requires Ordered(tokens, |stream|) && k <= next < |tokens|
    ensures Slices(stream, tokens[k..next + 1])
         == Slices(stream, tokens[k..next]) + [stream[tokens[next].begin..tokens[next].end]]
  {
    hide Slices;
    assert tokens[k..next + 1] == tokens[k..next] + [tokens[next]];
    SlicesSnoc(stream, tokens[k..next], tokens[next]);
  }

  /** The texts of the next tokens go behind those of the earlier ones. */
  lemma SlicesJoin(stream: seq<Byte>, tokens: seq<Token>, k: nat, next: nat)
    requires Ordered(tokens, |stream|) && k <= next <= |tokens|
    ensures Slices(stream, tokens[..k]) + Slices(stream, tokens[k..next]) == Slices(stream, tokens[..next])
  {
    hide Slices;
    assert tokens[..next] == tokens[..k] + tokens[k..next];
    SlicesAppend(stream, tokens[..k], tokens[k..next]);
  }

  lemma JoinedNext(stream: seq<Byte>, chunks: seq<seq<Byte>>, c: nat, pos: nat)
    requires c < |chunks| && pos <= |stream| && stream[pos..] == Joined(chunks[c..])
    ensures pos + |chunks[c]| <= |stream| && stream[pos..pos + |chunks[c]|] == chunks[c]
    ensures stream[pos + |chunks[c]|..] == Joined(chunks[c + 1..])
  {
    var rest := stream[pos..];
    assert chunks[c..][1..] == chunks[c + 1..];
    assert rest == chunks[c] + Joined(chunks[c + 1..]);
    assert rest[..|chunks[c]|] == chunks[c] && rest[|chunks[c]|..] == Joined(chunks[c + 1..]);
  }

  /** Between chunks: what is left of the stream, and the texts handed out so far. */
  ghost predicate Reading(collector: Collector, rest: seq<seq<Byte>>, tokens: seq<Token>, k: nat, texts: seq<seq<Byte>>)
    requires Ordered(tokens, |collector.stream|)
    reads collector, collector.accumulator, collector.accumulator.buf
  {
    && collector.Valid() && collector.stream[collector.pos..] == Joined(rest) && collector.Due(tokens, k)
    && texts == Slices(collector.stream, tokens[..k])
  }

  /** One more chunk. */
  method ReadChunk(collector: Collector, chunk: seq<Byte>, ghost rest: seq<seq<Byte>>, tokens: seq<Token>, k: nat,
                   before: seq<seq<Byte>>)
    returns (texts: seq<seq<Byte>>, next: nat)
    requires Ordered(tokens, |collector.stream|) && Reading(collector, [chunk] + rest, tokens, k, before)
    modifies collector, collector.accumulator, collector.accumulator.buf
    ensures collector.accumulator.buf == old(collector.accumulator.buf) || fresh(collector.accumulator.buf)
    ensures Reading(collector, rest, tokens, next, texts)
  {
    hide Slices, Joined;
    JoinedNext(collector.stream, [chunk] + rest, 0, collector.pos);
    assert ([chunk] + rest)[1..] == rest && ([chunk] + rest)[0..] == [chunk] + rest;
    var more;
    more, next := collector.Feed(chunk, tokens, k);
    SlicesJoin(collector.stream, tokens, k, next);
    texts := before + more;
  }

  lemma NothingRead(tokens: seq<Token>, stream: seq<Byte>)
    requires Ordered(tokens, |stream|)
    ensures Slices(stream, tokens[..0]) == []
  {
    assert tokens[..0] == tokens[0..0];
    SlicesNone(stream, tokens, 0);
  }

  /** At the end of the stream every token has been handed out. */
  lemma EverythingRead(collector: Collector, tokens: seq<Token>, k: nat, texts: seq<seq<Byte>>)
    requires Ordered(tokens, |collector.stream|) && Reading(collector, [], tokens, k, texts)
    ensures texts == Slices(collector.stream, tokens)
  {
    assert |collector.stream[collector.pos..]| == 0;
    assert k == |tokens|;
    assert tokens[..k] == tokens;
  }

  /** Nothing has been read yet. */
  method Start(ghost chunks: seq<seq<Byte>>, ghost tokens: seq<Token>) returns (collector: Collector)
    requires Ordered(tokens, |Joined(chunks)|)
    ensures fresh(collector) && fresh(collector.accumulator) && fresh(collector.accumulator.buf)
    ensures collector.stream == Joined(chunks) && Reading(collector, chunks, tokens, 0, [])
  {
    ghost var stream := Joined(chunks);
    hide Slices, Joined;
    collector := new Collector(stream);
    NothingRead(tokens, stream);
    assert stream[0..] == stream;
  }

  /** Whatever the chunks, every token's text is its slice of the whole stream; an empty one would end the input. */
  method ReadChunks(chunks: seq<seq<Byte>>, tokens: seq<Token>) returns (texts: seq<seq<Byte>>)
    requires Ordered(tokens, |Joined(chunks)|) && [] !in chunks
    ensures texts == Slices(Joined(chunks), tokens)
  {
    hide Slices, Joined, Reading, Ordered;
    ghost var stream := Joined(chunks);
    var collector := Start(chunks, tokens);
    var k, left := 0, chunks;
    texts := [];
    while left != []
      invariant fresh(collector) && fresh(collector.accumulator) && fresh(collector.accumulator.buf)
      invariant collector.stream == stream && Ordered(tokens, |stream|)
      invariant Reading(collector, left, tokens, k, texts)
      decreases |left|
    {
      assert left == [left[0]] + left[1..];
      texts, k := ReadChunk(collector, left[0], left[1..], tokens, k, texts);
      left := left[1..];
    }
    EverythingRead(collector, tokens, k, texts);
  }
}

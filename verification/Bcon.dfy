/** BCON: the explicit-stack machine that turns a flat argument list into a nested document. */
module Bcon {
  import opened Basics
  import opened BsonDocument

  const STACK_MAX := 100

  /**
   * One entry of the variable argument list. After the magic mark come TypedText for the string type,
   * Bcon for a document to splice, and Typed for any other type (for an iterator, the value it stands on).
   */
  datatype Arg = Nil | Text(s: CString) | TypedText(s: CString) | Typed(v: Value) | Bcon(doc: Doc)

  datatype Token =
    End | DocStart | DocEnd | ArrayStart | ArrayEnd | Str(s: CString) | Single(v: Value) | Splice(doc: Doc)

  /** Only the first byte decides between a bracket and a string. */
  function Tokenize(a: Arg): Token {
    match a
    case Nil => End
    case Bcon(doc) => Splice(doc)
    case TypedText(s) => Str(s)
    case Typed(v) => Single(v)
    case Text(s) =>
      if s == [] then Str(s)
      else if s[0] == 0x7B then DocStart
      else if s[0] == 0x7D then DocEnd
      else if s[0] == 0x5B then ArrayStart
      else if s[0] == 0x5D then ArrayEnd
      else Str(s)
  }

  /** Strings that are not taken for brackets. */
  predicate Unbracketed(s: CString) {
    s == [] || (s[0] != 0x7B && s[0] != 0x7D && s[0] != 0x5B && s[0] != 0x5D)
  }

  /** A level of the stack: the document under construction and the key it will get in its parent. */
  datatype Frame = Frame(isArray: bool, i: nat, key: CString, elems: Doc)

  const ROOT := Frame(false, 0, [], [])

  datatype Outcome = Returned(frames: seq<Frame>, rest: seq<Token>) | Aborted

  function Tokens(args: seq<Arg>): (ts: seq<Token>)
    ensures |ts| == |args|
  {
    if args == [] then [] else [Tokenize(args[0])] + Tokens(args[1..])
  }

  /** The list ends with NULL, so no argument after the last is ever read. */
  predicate Terminated(ts: seq<Token>) {
    ts != [] && ts[|ts| - 1] == End
  }

  /** The renumbered elements of a spliced array. */
  function Renumber(doc: Doc, i: nat): (r: Doc)
    ensures |r| == |doc|
    ensures forall k :: 0 <= k < |doc| ==> r[k] == Elem(ArrayKey(i + k), doc[k].value)
  {
    seq(|doc|, k requires 0 <= k < |doc| => Elem(ArrayKey(i + k), doc[k].value))
  }

  function Top(frames: seq<Frame>): Frame
    requires frames != []
  {
    frames[|frames| - 1]
  }

  function SetTop(frames: seq<Frame>, f: Frame): (r: seq<Frame>)
    requires frames != []
    ensures |r| == |frames| && Top(r) == f
  {
    frames[|frames| - 1 := f]
  }

  function Append(f: Frame, elems: Doc): Frame { f.(elems := f.elems + elems) }

  /** What a finished level becomes. */
  function Built(f: Frame): Value { if f.isArray then Array(f.elems) else Document(f.elems) }

  /** Ends the top level and appends it to its parent. */
  function Pop(frames: seq<Frame>): (r: seq<Frame>)
    requires |frames| >= 2
    ensures |r| == |frames| - 1
  {
    var parent := frames[..|frames| - 1];
    SetTop(parent, Append(Top(parent), [Elem(Top(frames).key, Built(Top(frames)))]))
  }

  datatype Turn = Key(key: CString) | Again | Leave | Fail

  /** What the argument in place of a key does inside a document. */
  function KeyStep(frames: seq<Frame>, t: Token): (r: (seq<Frame>, Turn))
    requires frames != [] && !Top(frames).isArray
    ensures r.0 != [] && (r.1 == Leave ==> t == End) && (r.1.Key? ==> r.0 == frames)
    ensures t == End ==> r.1 == Leave
  {
    match t
    case End => (frames, Leave)
    case DocEnd => if |frames| > 1 then (Pop(frames), Again) else (frames, Fail)
    case Splice(doc) => (SetTop(frames, Append(Top(frames), doc)), Again)
    case Str(s) => (frames, Key(s))
    case _ => (frames, Fail)
  }

  /** What the argument after a key does to the stack; None is a failed assertion. */
  function ValueStep(frames: seq<Frame>, key: CString, t: Token): (r: Option<seq<Frame>>)
    requires frames != [] && (Top(frames).isArray ==> Top(frames).i > 0)
    ensures r.Some? ==> r.value != []
  {
    var top := Top(frames);
    match t
    case End => None
    case Splice(doc) =>
      if top.isArray
      then Some(SetTop(frames, Append(top, Renumber(doc, top.i - 1)).(i := top.i - 1 + |doc|)))
      else None
    case DocStart => if |frames| < STACK_MAX then Some(frames + [Frame(false, 0, key, [])]) else None
    case ArrayStart => if |frames| < STACK_MAX then Some(frames + [Frame(true, 0, key, [])]) else None
    case DocEnd => if !top.isArray && |frames| > 1 then Some(Pop(frames)) else None
    case ArrayEnd => if top.isArray && |frames| > 1 then Some(Pop(frames)) else None
    case Str(s) => Some(SetTop(frames, Append(top, [Elem(key, Utf8(s))])))
    case Single(v) => Some(SetTop(frames, Append(top, [Elem(key, v)])))
  }

  /** Everything the machine does with the rest of an argument list. */
  function Run(frames: seq<Frame>, ts: seq<Token>): Outcome
    requires frames != [] && Terminated(ts)
    decreases |ts|, 1
  {
    var top := Top(frames);
    if top.isArray then RunValue(SetTop(frames, top.(i := top.i + 1)), ArrayKey(top.i), ts)
    else
      var (after, turn) := KeyStep(frames, ts[0]);
      match turn
      case Key(key) => RunValue(after, key, ts[1..])
      case Again => Run(after, ts[1..])
      case Leave => Returned(after, ts[1..])
      case Fail => Aborted
  }

  function RunValue(frames: seq<Frame>, key: CString, ts: seq<Token>): Outcome
    requires frames != [] && Terminated(ts)
    requires Top(frames).isArray ==> Top(frames).i > 0
    decreases |ts|, 0
  {
    match ValueStep(frames, key, ts[0])
    case None => Aborted
    case Some(after) => Run(after, ts[1..])
  }

  lemma TakeFirst(args: seq<Arg>)
    requires Terminated(Tokens(args))
    ensures Tokens(args)[0] == Tokenize(args[0]) && Tokens(args)[1..] == Tokens(args[1..])
    ensures Tokenize(args[0]) != End ==> Terminated(Tokens(args[1..]))
  {
  }

  lemma IndexUnfold(frames: seq<Frame>, ts: seq<Token>)
    requires frames != [] && Top(frames).isArray && Terminated(ts)
    ensures Run(frames, ts)
         == RunValue(SetTop(frames, Top(frames).(i := Top(frames).i + 1)), ArrayKey(Top(frames).i), ts)
  {
  }

  /** The context that is passed in and handed back; slot 0 stands for the caller's own document. */
  class AppendContext {
    var n: nat
    var stack: array<Frame>

    predicate Valid()
      reads this
    {
      stack.Length == STACK_MAX && n < STACK_MAX
    }

    function Frames(): (f: seq<Frame>)
      requires Valid()
      reads this, stack
      ensures |f| == n + 1
    {
      stack[..n + 1]
    }

    constructor ()
      ensures Valid() && fresh(stack) && Frames() == [ROOT]
    {
      n := 0;
      stack := new Frame[STACK_MAX](_ => ROOT);
    }

    /** Overwrites the entry at the top of the stack. */
    method Put(f: Frame)
      requires Valid()
      modifies stack
      ensures Frames() == SetTop(old(Frames()), f)
    {
      stack[n] := f;
    }

    /** Appends the elements of an array, continuing the numbering after the current position. */
    method ConcatArray(src: Doc)
      requires Valid() && stack[n].isArray && stack[n].i > 0
      modifies stack
      ensures ValueStep(old(Frames()), [], Splice(src)) == Some(Frames())
    {
      ghost var frames, start := Frames(), stack[n].i - 1;
      Put(stack[n].(i := stack[n].i - 1));
      assert Top(frames).elems + Renumber(src, start)[..0] == Top(frames).elems;
      var k := 0;
      while k < |src|
        invariant 0 <= k <= |src|
        invariant Frames() == SetTop(frames, Append(Top(frames), Renumber(src, start)[..k]).(i := start + k))
      {
        var key := ArrayKey(stack[n].i);
        Put(stack[n].(i := stack[n].i + 1));
        Put(Append(stack[n], [Elem(key, src[k].value)]));
        AppendNext(Top(frames), Renumber(src, start), k);
        k := k + 1;
      }
      assert Renumber(src, start)[..k] == Renumber(src, start);
    }

    /** STACK_POP_DOC and STACK_POP_ARRAY, with their assertions. */
    method PopLevel(isArray: bool) returns (ok: bool)
      requires Valid()
      modifies this`n, stack
      ensures Valid() && ok == (old(stack[n].isArray) == isArray && old(n) > 0)
      ensures Frames() == if ok then Pop(old(Frames())) else old(Frames())
    {
      ok := stack[n].isArray == isArray && n > 0;
      if ok {
        var child := stack[n];
        n := n - 1;
        Put(Append(stack[n], [Elem(child.key, Built(child))]));
      }
    }

    /** STACK_PUSH_DOC and STACK_PUSH_ARRAY. */
    method PushLevel(isArray: bool, key: CString) returns (ok: bool)
      requires Valid()
      modifies this`n, stack
      ensures Valid() && ok == (old(n) < STACK_MAX - 1)
      ensures Frames() == if ok then old(Frames()) + [Frame(isArray, 0, key, [])] else old(Frames())
    {
      ok := n < STACK_MAX - 1;
      if ok {
        n := n + 1;
        stack[n] := Frame(isArray, 0, key, []);
      }
    }

    /** The switch over the token after a key; false stands for a failed assertion. */
    method AppendValue(key: CString, token: Token) returns (ok: bool)
      requires Valid() && (stack[n].isArray ==> stack[n].i > 0)
      modifies this`n, stack
      ensures Valid()
      ensures ok == ValueStep(old(Frames()), key, token).Some?
      ensures ok ==> ValueStep(old(Frames()), key, token) == Some(Frames())
    {
      ok := true;
      match token {
        case End => ok := false;
        case Splice(doc) =>
          if stack[n].isArray { ConcatArray(doc); } else { ok := false; }
        case DocStart => ok := PushLevel(false, key);
        case ArrayStart => ok := PushLevel(true, key);
        case DocEnd => ok := PopLevel(false);
        case ArrayEnd => ok := PopLevel(true);
        case Str(s) => Put(Append(stack[n], [Elem(key, Utf8(s))]));
        case Single(v) => Put(Append(stack[n], [Elem(key, v)]));
      }
    }

    /** The switch over the token in place of a key. */
    method AppendKey(token: Token) returns (turn: Turn)
      requires Valid() && !stack[n].isArray
      modifies this`n, stack
      ensures Valid() && (Frames(), turn) == KeyStep(old(Frames()), token)
    {
      match token {
        case End => turn := Leave;
        case DocEnd =>
          var ok := PopLevel(false);
          turn := if ok then Again else Fail;
        case Splice(doc) =>
          Put(Append(stack[n], doc));
          turn := Again;
        case Str(s) => turn := Key(s);
        case _ => turn := Fail;
      }
    }

    /** The first half of a round: the key, from the index of an array or the next argument of a document. */
    method TakeKey(args: seq<Arg>) returns (turn: Turn, ap: seq<Arg>)
      requires Valid() && Terminated(Tokens(args))
      modifies this`n, stack
      ensures Valid() && (stack[n].isArray && turn.Key? ==> stack[n].i > 0)
      ensures |ap| <= |args| && (turn.Again? ==> |ap| < |args|)
      ensures turn.Key? || turn.Again? ==> Terminated(Tokens(ap))
      ensures Run(old(Frames()), Tokens(args)) ==
              match turn
              case Key(key) => RunValue(Frames(), key, Tokens(ap))
              case Again => Run(Frames(), Tokens(ap))
              case Leave => Returned(Frames(), Tokens(ap))
              case Fail => Aborted
    {
      if stack[n].isArray {
        IndexUnfold(Frames(), Tokens(args));
        turn, ap := Key(ArrayKey(stack[n].i)), args;
        Put(stack[n].(i := stack[n].i + 1));
      } else {
        TakeFirst(args);
        turn := AppendKey(Tokenize(args[0]));
        ap := args[1..];
      }
    }

    /** The second half: the value. */
    method TakeValue(key: CString, args: seq<Arg>) returns (ok: bool, ap: seq<Arg>)
      requires Valid() && Terminated(Tokens(args))
      requires stack[n].isArray ==> stack[n].i > 0
      modifies this`n, stack
      ensures Valid()
      ensures ok ==> |ap| < |args| && Terminated(Tokens(ap))
      ensures ok ==> RunValue(old(Frames()), key, Tokens(args)) == Run(Frames(), Tokens(ap))
      ensures !ok ==> RunValue(old(Frames()), key, Tokens(args)) == Aborted
    {
      TakeFirst(args);
      ok := AppendValue(key, Tokenize(args[0]));
      ap := args[1..];
    }

    /** Consumes arguments up to a NULL in key position; false stands for a failed assertion. */
    method AppendCtxVa(args: seq<Arg>) returns (ok: bool, ap: seq<Arg>)
      requires Valid() && Terminated(Tokens(args))
      modifies this`n, stack
      ensures Valid()
      ensures ok == Run(old(Frames()), Tokens(args)).Returned?
      ensures ok ==> Run(old(Frames()), Tokens(args)) == Returned(Frames(), Tokens(ap))
    {
      ap := args;
      ghost var outcome := Run(Frames(), Tokens(args));
      while true
        invariant Valid() && Terminated(Tokens(ap))
        invariant Run(Frames(), Tokens(ap)) == outcome
        decreases |ap|
      {
        var turn;
        turn, ap := TakeKey(ap);
        match turn {
          case Key(key) =>
            ok, ap := TakeValue(key, ap);
            if !ok { return; }
          case Again =>
          case Leave => return true, ap;
          case Fail => return false, ap;
        }
      }
    }
  }

  lemma AppendNext(f: Frame, elems: Doc, k: nat)
    requires k < |elems|
    ensures Append(Append(f, elems[..k]), [elems[k]]) == Append(f, elems[..k + 1])
  {
    assert elems[..k + 1] == elems[..k] + [elems[k]];
    assert f.elems + elems[..k] + [elems[k]] == f.elems + (elems[..k] + [elems[k]]);
  }
}

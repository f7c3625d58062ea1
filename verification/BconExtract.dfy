/** BCON: the stack machine that matches a flat pattern against a document and captures its leaves. */
module BconExtract {
  import opened Basics
  import opened BsonDocument
  import Bcon

  const STACK_MAX := Bcon.STACK_MAX

  /** What a typed pattern argument asks of the value it meets: its type, its type and value, or just the value. */
  datatype Spec = Capture(t: Byte) | Skip(t: Byte) | Any

  datatype Pattern = NilPattern | TextPattern(s: CString) | Want(spec: Spec)

  datatype Probe = Stop | EnterDoc | LeaveDoc | EnterArray | LeaveArray | Raw(s: CString) | Typed(spec: Spec)

  function ProbeOf(p: Pattern): Probe {
    match p
    case NilPattern => Stop
    case Want(spec) => Probe.Typed(spec)
    case TextPattern(s) =>
      match Bcon.Tokenize(Bcon.Text(s))
      case DocStart => EnterDoc
      case DocEnd => LeaveDoc
      case ArrayStart => EnterArray
      case ArrayEnd => LeaveArray
      case _ => Raw(s)
  }

  function Probes(ps: seq<Pattern>): (ts: seq<Probe>)
    ensures |ts| == |ps|
  {
    if ps == [] then [] else [ProbeOf(ps[0])] + Probes(ps[1..])
  }

  predicate Stops(ts: seq<Probe>) { ts != [] && ts[|ts| - 1] == Stop }

  /** Types that hold no value capture nothing. */
  predicate Valueless(t: Byte) { t == 0x06 || t == 0x0A || t == 0x7F || t == 0xFF }

  /** The single-value check; None when the type does not match. */
  function Single(v: Value, spec: Spec): Option<seq<Value>> {
    match spec
    case Any => Some([v])
    case Skip(t) => if TypeCode(v) == t then Some([]) else None
    case Capture(t) => if TypeCode(v) != t then None else if Valueless(t) then Some([]) else Some([v])
  }

  /** A level of the stack: searches start over from the beginning of `doc`. */
  datatype Search = Search(isArray: bool, i: nat, doc: Doc)

  datatype Answer = Matched(stack: seq<Search>, rest: seq<Probe>, captured: seq<Value>) | Failed | Broken

  function Under(stack: seq<Search>): seq<Search>
    requires stack != []
  {
    stack[..|stack| - 1]
  }

  function Current(stack: seq<Search>): Search
    requires stack != []
  {
    stack[|stack| - 1]
  }

  function Bump(stack: seq<Search>): (r: seq<Search>)
    requires stack != []
    ensures |r| == |stack|
  {
    stack[|stack| - 1 := Current(stack).(i := Current(stack).i + 1)]
  }

  datatype Move = Go(stack: seq<Search>, captured: seq<Value>) | Mismatch | Assertion

  /** What the probe after a key does. */
  function ValueMove(stack: seq<Search>, key: CString, p: Probe): (m: Move)
    requires stack != []
    ensures m.Go? ==> m.stack != []
    ensures p == Stop ==> m == Assertion
  {
    if p == Stop then Assertion
    else if p == LeaveDoc then
      if !Current(stack).isArray && |stack| > 1 then Go(Under(stack), []) else Assertion
    else if p == LeaveArray then
      if Current(stack).isArray && |stack| > 1 then Go(Under(stack), []) else Assertion
    else
      match Lookup(Current(stack).doc, key)
      case None => Mismatch
      case Some(v) =>
        if p == EnterDoc || p == EnterArray then
          if (p == EnterDoc && !v.Document?) || (p == EnterArray && !v.Array?) then Mismatch
          else if |stack| >= STACK_MAX then Assertion
          else Go(stack + [Search(p == EnterArray, 0, v.doc)], [])
        else if p.Raw? then Assertion
        else match Single(v, p.spec) case None => Mismatch case Some(out) => Go(stack, out)
  }

  /** Everything the machine does with the rest of a pattern; `out` has been captured before. */
  function Run(stack: seq<Search>, ts: seq<Probe>, out: seq<Value>): Answer
    requires stack != [] && Stops(ts)
    decreases |ts|, 1
  {
    if Current(stack).isArray then RunValue(Bump(stack), ArrayKey(Current(stack).i), ts, out)
    else
      match ts[0]
      case Stop => Matched(stack, ts[1..], out)
      case LeaveDoc => if |stack| > 1 then Run(Under(stack), ts[1..], out) else Broken
      case Raw(key) => RunValue(stack, key, ts[1..], out)
      case _ => Broken
  }

  function RunValue(stack: seq<Search>, key: CString, ts: seq<Probe>, out: seq<Value>): Answer
    requires stack != [] && Stops(ts)
    decreases |ts|, 0
  {
    match ValueMove(stack, key, ts[0])
    case Go(after, captured) => Run(after, ts[1..], out + captured)
    case Mismatch => Failed
    case Assertion => Broken
  }

  lemma TakeFirst(ps: seq<Pattern>)
    requires Stops(Probes(ps))
    ensures Probes(ps)[0] == ProbeOf(ps[0]) && Probes(ps)[1..] == Probes(ps[1..])
    ensures ProbeOf(ps[0]) != Stop ==> Stops(Probes(ps[1..]))
  {
  }

  class ExtractContext {
    var n: nat
    var stack: array<Search>

    predicate Valid()
      reads this
    {
      stack.Length == STACK_MAX && n < STACK_MAX
    }

    function Levels(): (s: seq<Search>)
      requires Valid()
      reads this, stack
      ensures |s| == n + 1
    {
      stack[..n + 1]
    }

    /** A context on a document: slot 0 stands for the root iterator. */
    constructor (doc: Doc)
      ensures Valid() && fresh(stack) && Levels() == [Search(false, 0, doc)]
    {
      n := 0;
      stack := new Search[STACK_MAX](_ => Search(false, 0, doc));
    }

    /** The switch over the probe after a key. */
    method ExtractValue(key: CString, p: Probe) returns (move: Move)
      requires Valid()
      modifies this`n, stack
      ensures Valid()
      ensures move == ValueMove(old(Levels()), key, p)
      ensures move.Go? ==> Levels() == move.stack
    {
      ghost var before := Levels();
      move := Assertion;
      if p == Stop {
      } else if p == LeaveDoc || p == LeaveArray {
        if stack[n].isArray == (p == LeaveArray) && n > 0 {
          n := n - 1;
          assert Levels() == Under(before);
          move := Go(stack[..n + 1], []);
        }
      } else {
        var found := Lookup(stack[n].doc, key);
        if found.None? {
          move := Mismatch;
        } else if p == EnterDoc || p == EnterArray {
          if (p == EnterDoc && !found.value.Document?) || (p == EnterArray && !found.value.Array?) {
            move := Mismatch;
          } else if n < STACK_MAX - 1 {
            n := n + 1;
            stack[n] := Search(p == EnterArray, 0, found.value.doc);
            assert Levels() == before + [stack[n]];
            move := Go(stack[..n + 1], []);
          }
        } else if !p.Raw? {
          var out := Single(found.value, p.spec);
          move := if out.None? then Mismatch else Go(stack[..n + 1], out.value);
        }
      }
    }

    /** The first half of a round: the key. The result is None when the machine is done. */
    method TakeKey(ps: seq<Pattern>, ghost out: seq<Value>)
      returns (key: Option<CString>, end: Option<bool>, ap: seq<Pattern>)
      requires Valid() && Stops(Probes(ps))
      modifies this`n, stack
      ensures Valid() && |ap| <= |ps| && (key.None? && end.None? ==> |ap| < |ps|)
      ensures end.None? ==> Stops(Probes(ap))
      ensures Run(old(Levels()), Probes(ps), out) ==
              if end.Some? then (if end.value then Matched(Levels(), Probes(ap), out) else Broken)
              else if key.Some? then RunValue(Levels(), key.value, Probes(ap), out)
              else Run(Levels(), Probes(ap), out)
    {
      ghost var before := Levels();
      key, end, ap := None, None, ps;
      if stack[n].isArray {
        key := Some(ArrayKey(stack[n].i));
        stack[n] := stack[n].(i := stack[n].i + 1);
        assert Levels() == Bump(before);
      } else {
        TakeFirst(ps);
        var p := ProbeOf(ps[0]);
        ap := ps[1..];
        match p {
          case Stop => end := Some(true);
          case LeaveDoc =>
            if n > 0 {
              n := n - 1;
              assert Levels() == Under(before);
            } else {
              end := Some(false);
            }
          case Raw(s) => key := Some(s);
          case _ => end := Some(false);
        }
      }
    }

    /** The second half: the value. */
    method TakeValue(key: CString, ps: seq<Pattern>, ghost out: seq<Value>) returns (move: Move, ap: seq<Pattern>)
      requires Valid() && Stops(Probes(ps))
      modifies this`n, stack
      ensures Valid()
      ensures move.Go? ==> |ap| < |ps| && Stops(Probes(ap))
      ensures RunValue(old(Levels()), key, Probes(ps), out) ==
              match move
              case Go(_, captured) => Run(Levels(), Probes(ap), out + captured)
              case Mismatch => Failed
              case Assertion => Broken
    {
      TakeFirst(ps);
      move := ExtractValue(key, ProbeOf(ps[0]));
      ap := ps[1..];
    }

    /** Matches a pattern up to a NULL in key position; None stands for a failed assertion. */
    method ExtractCtxVa(ps: seq<Pattern>) returns (r: Option<bool>, out: seq<Value>, ap: seq<Pattern>)
      requires Valid() && Stops(Probes(ps))
      modifies this`n, stack
      ensures Valid()
      ensures match Run(old(Levels()), Probes(ps), [])
              case Matched(levels, rest, captured) =>
                r == Some(true) && Levels() == levels && Probes(ap) == rest && out == captured
              case Failed => r == Some(false)
              case Broken => r == None
    {
      ap, out := ps, [];
      ghost var answer := Run(Levels(), Probes(ps), []);
      while true
        invariant Valid() && Stops(Probes(ap))
        invariant Run(Levels(), Probes(ap), out) == answer
        decreases |ap|
      {
        var key, end;
        key, end, ap := TakeKey(ap, out);
        if end.Some? {
          return if end.value then Some(true) else None, out, ap;
        }
        if key.Some? {
          var move;
          move, ap := TakeValue(key.value, ap, out);
          match move {
            case Go(_, captured) => out := out + captured;
            case Mismatch => return Some(false), out, ap;
            case Assertion => return None, out, ap;
          }
        }
      }
    }
  }
}

/** The JSON reader object: callbacks that update the frame slots in place, and its destruction. */
module JsonReader {
  import opened Basics
  import F = JsonFrames

  class Reader {
    var n: int
    const tags: array<F.Tag>
    const live: array<bool>
    var rs: F.ReadState
    var lf: F.LookFor
    var bt: F.BsonType
    var inScope: bool
    var hasScope: bool
    var hasCode: bool
    var hasKey: bool

    predicate Sized()
      reads this
    {
      tags.Length == live.Length == F.STACK_MAX && -1 <= n < F.STACK_MAX && tags as object != live as object
    }

    function Abs(): F.Machine
      requires Sized()
      reads this, tags, live
    {
      F.Machine(F.Stack(n, tags[..], live[..]), rs, lf, bt, inScope, hasScope, hasCode, hasKey)
    }

    ghost predicate Valid()
      reads this, tags, live
    {
      Sized() && F.Inv(Abs())
    }

    constructor ()
      ensures Valid() && Abs() == F.FRESH && fresh(tags) && fresh(live)
    {
      n, rs, lf, bt := -1, F.Regular, F.LfRegex, F.NoType;
      inScope, hasScope, hasCode, hasKey := false, false, false, false;
      tags := new F.Tag[F.STACK_MAX](_ => F.Initial);
      live := new bool[F.STACK_MAX](_ => false);
      new;
      assert tags[..] == F.FRESH.s.tags && live[..] == F.FRESH.s.owned;
      F.FreshHolds();
    }

    /** bson_init: the slot must not hold a document. */
    method BsonInit(i: nat)
      requires i < live.Length && !live[i]
      modifies live
      ensures live[..] == old(live[..])[i := true]
    {
      live[i] := true;
    }

    /** bson_reinit: the slot must hold one. */
    method BsonReinit(i: nat)
      requires i < live.Length && live[i]
      modifies live
      ensures live[..] == old(live[..])
    {
      BsonDestroy(i);
      BsonInit(i);
    }

    /** bson_destroy: the slot must hold one. */
    method BsonDestroy(i: nat)
      requires i < live.Length && live[i]
      modifies live
      ensures live[..] == old(live[..])[i := false]
    {
      live[i] := false;
    }

    /** STACK_PUSH; false when the stack is full and the callback returns. */
    method Push(t: F.Tag) returns (ok: bool)
      requires Sized() && F.Owns(Abs())
      modifies this`n, tags, live
      ensures Sized() && ok == F.Push(old(Abs()), t).Some?
      ensures Abs() == if ok then F.Push(old(Abs()), t).value else old(Abs())
    {
      if n >= F.STACK_MAX - 1 {
        return false;
      }
      n := n + 1;
      if F.HasBson(tags[n]) {
        if F.HasBson(t) {
          BsonReinit(n);
        } else {
          BsonDestroy(n);
        }
      } else if F.HasBson(t) {
        BsonInit(n);
      }
      tags[n] := t;
      ok := true;
    }

    /** _bson_json_read_fixup_key. */
    method FixupKey()
      requires Sized()
      modifies this`hasKey
      ensures Sized() && Abs() == F.FixupKey(old(Abs()))
    {
      if n >= 0 && tags[n] == F.ArrayFrame && rs == F.Regular {
        hasKey := true;
      }
    }

    /** Pushes a frame and saves a key in it, unless the stack is full. */
    method Enter(t: F.Tag, saved: bool)
      requires Sized() && F.Owns(Abs())
      modifies this`n, this`hasKey, tags, live
      ensures Sized() && Abs() == F.Entered(old(Abs()), t, saved)
    {
      hide F.Push, F.SlotsOwned;
      var ok := Push(t);
      if ok && saved {
        hasKey := true;
      }
    }

    method ReadStartMap()
      requires Valid()
      modifies this, tags, live
      ensures Valid() && Abs() == F.StartMap(old(Abs())) && F.Opened(Abs())
    {
      F.StartMapKeeps(Abs());
      hide F.SlotsOwned, F.StartMap;
      EnterMap();
    }

    method EnterMap()
      requires Sized() && F.Owns(Abs())
      modifies this, tags, live
      ensures Sized() && Abs() == F.StartMap(old(Abs()))
    {
      hide F.SlotsOwned, F.Entered, F.Moved, F.FixupKey;
      FixupKey();
      if rs == F.InBsonType {
        if lf == F.LfDate {
          rs := F.DateNumberLong;
        } else if lf == F.LfBinary {
          rs := F.BinaryValues;
        } else if lf == F.LfType {
          rs := F.InStartMap;
          Enter(F.DocFrame, true);
        }
      } else if rs == F.TimestampStartMap {
        rs := F.TimestampValues;
      } else if rs == F.ScopeStartMap {
        rs := F.InScope;
      } else if rs == F.DbPointerStartMap {
        rs := F.InDbPointer;
      } else if rs == F.RegexStartMap {
        rs := F.RegexValues;
      } else {
        rs := F.InStartMap;
      }
    }

    method TypedKey(k: F.Key)
      requires Sized() && F.Owns(Abs())
      modifies this, tags, live
      ensures Sized() && Abs() == F.TypedKey(old(Abs()), k)
    {
      hide F.SlotsOwned, F.CodeOrScopeKey;
      if k == F.KTimestamp {
        bt, rs := F.TimestampType, F.TimestampStartMap;
      } else if k == F.KRegularExpression {
        bt, rs := F.RegexType, F.RegexStartMap;
      } else if k == F.KDbPointer {
        bt, rs := F.DbPointerType, F.DbPointerStartMap;
      } else if k == F.KCode || k == F.KScope {
        CodeOrScopeKey(k == F.KScope);
      } else {
        rs := F.Error;
      }
    }

    /** The second half of the key callback. */
    method KeyInState(k: F.Key)
      requires Valid()
      modifies this, tags, live
      ensures Valid() && Abs() == F.KeyInState(old(Abs()), k)
    {
      F.KeyKeeps(Abs(), k);
      hide F.SlotsOwned, F.KeyInState;
      TakeKey(k);
    }

    method TakeKey(k: F.Key)
      requires Sized() && F.Owns(Abs())
      modifies this, tags, live
      ensures Sized() && Abs() == F.KeyInState(old(Abs()), k)
    {
      hide F.SlotsOwned, F.OptionFor, F.TypedKey, F.Moved;
      var option := F.OptionFor(rs, k);
      if option.Some? {
        if bt != F.NoType && bt != option.value.0 {
          rs := F.Error;
        } else {
          bt, lf := option.value.0, option.value.1;
        }
      } else if rs == F.InBsonType {
        TypedKey(k);
      } else if rs == F.DateNumberLong || rs == F.TimestampValues || rs == F.RegexValues || rs == F.BinaryValues {
        rs := F.Error;
      } else {
        hasKey := true;
        if n > 0 && (k == F.KRef || k == F.KDb) {
          rs, lf := F.InBsonType, F.LfDbRef;
        }
      }
    }

    method CodeOrScopeKey(isScope: bool)
      requires Sized() && F.Owns(Abs())
      modifies this, tags, live
      ensures Sized() && Abs() == F.CodeOrScopeKey(old(Abs()), isScope)
    {
      if inScope {
        rs := F.Regular;
        Enter(F.DocFrame, true);
      } else if isScope {
        bt, rs, lf, hasScope := F.CodeWScopeType, F.ScopeStartMap, F.LfScope, true;
      } else {
        bt, lf, hasCode := F.CodeType, F.LfCode, true;
      }
    }

    /** The first half of the key callback: the frame a key opens. */
    method KeyState(k: F.Key) returns (go: bool)
      requires Sized() && F.Owns(Abs())
      modifies this, tags, live
      ensures Sized() && (Abs(), go) == F.KeyState(old(Abs()), k)
    {
      hide F.SlotsOwned, F.Push;
      go := true;
      if rs == F.InStartMap {
        if F.Known(k) && n >= 0 {
          rs, bt := F.InBsonType, F.NoType;
        } else {
          rs := F.Regular;
          go := Push(F.DocFrame);
        }
      } else if rs == F.InScope {
        go := EnterOwned(F.ScopeFrame);
      } else if rs == F.InDbPointer {
        go := EnterOwned(F.DbPointerFrame);
      }
    }

    /** The frame of a scope or a DBPointer, with its first key saved. */
    method EnterOwned(t: F.Tag) returns (ok: bool)
      requires Sized() && F.Owns(Abs()) && F.HasBson(t)
      modifies this, tags, live
      ensures Sized() && ok == F.Push(old(Abs()).(rs := F.Regular), t).Some?
      ensures !ok ==> Abs() == old(Abs()).(rs := F.Regular)
      ensures ok ==>
                var p := F.Push(old(Abs()).(rs := F.Regular), t).value;
                Abs() == if t == F.ScopeFrame then p.(hasKey := true, inScope := true) else p.(hasKey := true)
    {
      hide F.SlotsOwned, F.Push;
      rs := F.Regular;
      ok := Push(t);
      if ok {
        hasKey := true;
        if t == F.ScopeFrame {
          inScope := true;
        }
      }
    }

    method ReadMapKey(k: F.Key)
      requires Valid()
      modifies this, tags, live
      ensures Valid() && Abs() == F.MapKey(old(Abs()), k) && (old(F.Opened(Abs())) ==> F.Opened(Abs()))
    {
      F.KeyStateKeeps(Abs(), k);
      F.MapKeyKeeps(Abs(), k);
      hide F.SlotsOwned, F.KeyState, F.KeyInState;
      var go := KeyState(k);
      if go {
        KeyInState(k);
      }
    }

    /** The closing brace of a frame's own document. */
    method CloseFrame(fails: bool)
      requires Sized() && F.Owns(Abs()) && n >= 0
      modifies this
      ensures Sized() && Abs() == F.CloseFrame(old(Abs()), fails)
    {
      if tags[n] == F.ScopeFrame {
        rs, bt := F.InBsonType, F.CodeType;
        n := n - 1;
        inScope := false;
      } else if tags[n] == F.DbPointerFrame {
        rs := F.DbPointerStartMap;
        n := n - 1;
      } else {
        if fails {
          rs := F.Error;
        }
        if tags[n] == F.ArrayFrame {
          return;
        }
        n := n - 1;
        if n == -1 {
          rs := F.Done;
        }
      }
    }

    /** An empty document. */
    method OpenAndClose(t: F.Tag, fails: bool)
      requires Sized() && F.Owns(Abs()) && t != F.Initial && (F.HasBson(t) ==> n >= 0)
      modifies this, tags, live
      ensures Sized() && Abs() == F.OpenAndClose(old(Abs()), t, fails)
    {
      F.PushOwns(Abs(), t);
      hide F.SlotsOwned, F.Push, F.CloseFrame;
      var pushed := Push(t);
      if pushed {
        if t == F.ScopeFrame {
          inScope := true;
        }
        CloseFrame(fails);
      }
    }

    /** The closing brace; None when it gets through, otherwise the assertion that fails or the document it misses. */
    method ReadEndMap(fails: bool) returns (flaw: Option<F.Outcome>)
      requires Valid() && F.Opened(Abs())
      modifies this, tags, live
      ensures Sized() && flaw == F.Flaw(old(Abs()))
      ensures flaw.None? ==> Valid() && F.EndMap(old(Abs()), fails) == F.Next(Abs()) && F.Opened(Abs())
    {
      F.EndMapKeeps(Abs(), fails);
      F.BreaksOn(Abs(), F.OnEndMap(fails));
      hide F.SlotsOwned, F.EndMap, F.Flaw;
      flaw := EndMap(fails);
    }

    method EndMap(fails: bool) returns (flaw: Option<F.Outcome>)
      requires Valid() && F.Opened(Abs())
      modifies this, tags, live
      ensures Sized() && Tells(F.EndMap(old(Abs()), fails), flaw)
    {
      hide F.SlotsOwned, F.Push, F.CloseFrame, F.OpenAndClose, F.Moved, F.CloseTyped, F.CloseValues;
      flaw := None;
      if rs == F.InStartMap {
        rs := F.Regular;
        OpenAndClose(F.DocFrame, fails);
      } else if rs == F.ScopeStartMap {
        rs := F.Regular;
        OpenAndClose(F.ScopeFrame, fails);
      } else if rs == F.Regular {
        CloseFrame(fails);
      } else if rs == F.InScope {
        CloseEmptyScope();
      } else {
        flaw := CloseValue(fails);
      }
    }

    /** An empty scope: its frame is pushed and popped. */
    method CloseEmptyScope()
      requires Valid() && rs == F.InScope && hasScope
      modifies this, tags, live
      ensures Sized() && F.EndMap(old(Abs()), false) == F.Next(Abs())
      ensures F.EndMap(old(Abs()), true) == F.Next(Abs())
    {
      F.PushOwns(Abs(), F.ScopeFrame);
      hide F.SlotsOwned, F.Push;
      var pushed := Push(F.ScopeFrame);
      if pushed {
        n := n - 1;
        rs, bt, inScope := F.InBsonType, F.CodeType, false;
      }
    }

    /** STACK_BSON (1): whether there is a document in the slot above the top. */
    method BsonAbove() returns (found: bool)
      requires Sized() && n >= 0
      ensures found == F.Holds(Abs(), n + 1)
    {
      found := n + 1 < F.STACK_MAX && live[n + 1];
    }

    /** _bson_json_read_append_code. */
    method AppendCode(fails: bool) returns (flaw: Option<F.Outcome>)
      requires Sized() && n >= 0
      modifies this`rs, this`hasScope, this`hasCode
      ensures Sized() && Tells(F.AppendCode(old(Abs()), fails), flaw)
    {
      if inScope {
        return Some(F.Aborted);
      }
      if !hasCode {
        rs := F.Error;
        return None;
      }
      if hasScope {
        var found := BsonAbove();
        if !found {
          return Some(F.ScopeMissing);
        }
      }
      rs := if fails then F.Error else F.Regular;
      hasScope, hasCode, flaw := false, false, None;
    }

    /** The reader is in the next state, or the flaw is the outcome. */
    ghost predicate Tells(o: F.Outcome, flaw: Option<F.Outcome>)
      requires Sized()
      reads this, tags, live
    {
      match flaw
      case None => o == F.Next(Abs())
      case Some(why) => o == why && !o.Next?
    }

    /** The closing brace of a typed value, where frames do not change. */
    method CloseValue(fails: bool) returns (flaw: Option<F.Outcome>)
      requires Sized() && (F.NeedsFrame(rs) ==> n >= 0)
      requires rs != F.InStartMap && rs != F.ScopeStartMap && rs != F.Regular && rs != F.InScope
      modifies this`rs, this`hasScope, this`hasCode
      ensures Sized() && Tells(F.EndMap(old(Abs()), fails), flaw)
    {
      hide F.AppendCode, F.CloseTyped, F.CloseValues, F.Moved, F.CloseFrame, F.OpenAndClose, F.Push;
      flaw := None;
      if rs == F.DbPointerStartMap {
        var found := BsonAbove();
        if !found {
          return Some(F.PointerMissing);
        }
        rs := F.Regular;
      } else if rs == F.InBsonType {
        flaw := CloseTyped(fails);
      } else if rs == F.TimestampValues || rs == F.RegexValues || rs == F.BinaryValues || rs == F.DateNumberLong {
        CloseValues(fails);
      } else if rs == F.TimestampEndMap || rs == F.RegexEndMap || rs == F.BinaryEndMap || rs == F.DateEndMap {
        rs := F.Regular;
      } else {
        rs := F.Error;
      }
    }

    /** A value whose parts have been read is appended. */
    method CloseValues(fails: bool)
      requires Sized()
      requires rs == F.TimestampValues || rs == F.RegexValues || rs == F.BinaryValues || rs == F.DateNumberLong
      modifies this`rs
      ensures Sized()
      ensures Abs() == F.CloseValues(old(Abs()), fails,
                                     if old(rs) == F.TimestampValues then F.TimestampEndMap
                                     else if old(rs) == F.RegexValues then F.RegexEndMap
                                     else if old(rs) == F.BinaryValues then F.BinaryEndMap
                                     else F.DateEndMap)
    {
      if !hasKey || fails {
        rs := F.Error;
      } else {
        rs := if rs == F.TimestampValues then F.TimestampEndMap
              else if rs == F.RegexValues then F.RegexEndMap
              else if rs == F.BinaryValues then F.BinaryEndMap
              else F.DateEndMap;
      }
    }

    /** The switch over the type of a typed value. */
    method CloseTyped(fails: bool) returns (flaw: Option<F.Outcome>)
      requires Sized() && n >= 0
      modifies this`rs, this`hasScope, this`hasCode
      ensures Sized() && Tells(F.CloseTyped(old(Abs()), fails), flaw)
    {
      hide F.AppendCode;
      flaw := None;
      if !hasKey {
        rs := F.Error;
      } else if bt == F.CodeType || bt == F.CodeWScopeType {
        flaw := AppendCode(fails);
      } else if bt == F.DbPointerType || bt == F.TimestampType || bt == F.NoType || fails {
        rs := F.Error;
      } else {
        rs := F.Regular;
      }
    }

    method ReadStartArray()
      requires Valid()
      modifies this, tags, live
      ensures Valid() && Abs() == F.StartArray(old(Abs())) && F.Opened(Abs())
    {
      F.ArrayKeeps(Abs());
      if rs != F.Regular {
        rs := F.Error;
        return;
      }
      if n != -1 {
        FixupKey();
      }
      Enter(F.ArrayFrame, false);
    }

    method ReadEndArray()
      requires Valid() && F.Opened(Abs())
      modifies this
      ensures Valid() && Abs() == F.EndArray(old(Abs())) && F.Opened(Abs())
    {
      F.ArrayKeeps(Abs());
      if rs != F.Regular {
        rs := F.Error;
        return;
      }
      if tags[n] != F.ArrayFrame {
        return;
      }
      n := n - 1;
      if n == -1 {
        rs := F.Done;
      }
    }

    /** The start of bson_json_reader_read: frames keep their tags and documents. */
    method Start()
      requires Valid()
      modifies this`n, this`rs
      ensures Valid() && Abs() == F.Restart(old(Abs()))
    {
      F.RestartKeeps(Abs());
      n, rs := -1, F.Regular;
    }

    /** The frame loop of bson_json_reader_destroy: every slot's document is released, none twice. */
    method Destroy()
      requires Valid()
      modifies live
      ensures forall i :: 0 <= i < live.Length ==> !live[i]
    {
      var i := 1;
      while i < F.STACK_MAX && tags[i] != F.Initial
        invariant 1 <= i <= F.STACK_MAX
        invariant forall j :: 0 <= j < i ==> !live[j]
        invariant forall j :: i <= j < F.STACK_MAX ==> live[j] == old(live[j])
      {
        if F.HasBson(tags[i]) {
          BsonDestroy(i);
        }
        i := i + 1;
      }
    }
  }
}

/** Two documents on which the JSON reader breaks, as sequences of callbacks. */
module JsonFlaws {
  import opened Basics
  import opened JsonFrames

  /** One callback of a run. */
  lemma On(m: Machine, es: seq<Event>, i: nat, after: Machine)
    requires Inv(m) && i < |es| && Enabled(m, es[i]) && Step(m, es[i]) == Next(after)
    ensures Inv(after) && Run(m, es[i..]) == Run(after, es[i + 1..])
  {
    StepKeeps(m, es[i]);
    hide Inv, Step, Enabled;
    assert es[i..][0] == es[i] && es[i..][1..] == es[i + 1..];
  }

  lemma OnKey(m: Machine, es: seq<Event>, i: nat, k: Key, after: Machine)
    requires Inv(m) && i < |es| && es[i] == OnMapKey(k, false) && Shaped(m) && MapKey(m, k) == after
    ensures Inv(after) && Run(m, es[i..]) == Run(after, es[i + 1..])
  {
    hide Inv, MapKey;
    On(m, es, i, after);
  }

  lemma OnOpen(m: Machine, es: seq<Event>, i: nat, after: Machine)
    requires Inv(m) && i < |es| && es[i] == OnStartMap && Shaped(m) && StartMap(m) == after
    ensures Inv(after) && Run(m, es[i..]) == Run(after, es[i + 1..])
  {
    hide Inv, StartMap;
    On(m, es, i, after);
  }

  lemma OnClose(m: Machine, es: seq<Event>, i: nat, after: Machine)
    requires Inv(m) && i < |es| && es[i] == OnEndMap(false) && Shaped(m) && m.s.n >= 0
    requires EndMap(m, false) == Next(after)
    ensures Inv(after) && Run(m, es[i..]) == Run(after, es[i + 1..])
  {
    hide Inv, EndMap;
    On(m, es, i, after);
  }

  /** A value inside a typed value that leaves the reader as it is. */
  lemma OnValue(m: Machine, es: seq<Event>, i: nat)
    requires Inv(m) && i < |es| && Shaped(m)
    requires || (es[i] == OnScalar(false) && m.rs == TimestampValues)
             || (es[i] == OnString(false, false, false) && m.rs == InBsonType && m.lf == LfCode)
    ensures Run(m, es[i..]) == Run(m, es[i + 1..])
  {
    hide Inv;
    On(m, es, i, m);
  }

  /** "$code" as a key of a typed value, or as the first key of a document in a frame. */
  lemma CodeKey(m: Machine)
    requires Shaped(m) && m.s.n >= 0 && m.rs == InStartMap && !m.inScope
    ensures MapKey(m, KCode) == m.(rs := InBsonType, bt := CodeType, lf := LfCode, hasCode := true)
  {
  }

  lemma ScopeKey(m: Machine)
    requires Shaped(m) && m.s.n >= 0 && (m.rs == InStartMap || m.rs == InBsonType) && !m.inScope
    ensures MapKey(m, KScope) == m.(rs := ScopeStartMap, bt := CodeWScopeType, lf := LfScope, hasScope := true)
  {
  }

  lemma TimestampKey(m: Machine)
    requires Shaped(m) && m.rs == InBsonType
    ensures MapKey(m, KTimestamp) == m.(rs := TimestampStartMap, bt := TimestampType)
  {
  }

  lemma SecondsAndIncrement(m: Machine)
    requires Shaped(m) && m.rs == TimestampValues && m.bt == TimestampType
    ensures MapKey(m, KT) == m.(lf := LfTimestampT) && MapKey(m, KI) == m.(lf := LfTimestampI)
  {
  }

  lemma PlainKey(m: Machine)
    requires Shaped(m) && m.s.n >= -1
    ensures m.rs == Regular ==> MapKey(m, KOther) == m.(hasKey := true)
    ensures m.s.n < STACK_MAX - 1 ==> Push(m.(rs := Regular), DocFrame).Some?
    ensures m.rs == InStartMap && m.s.n < STACK_MAX - 1 ==>
              MapKey(m, KOther) == Push(m.(rs := Regular), DocFrame).value.(hasKey := true)
  {
    hide Moved;
  }

  lemma EmptyScopeCloses(m: Machine)
    requires Shaped(m) && m.rs == InScope && m.hasScope && 0 <= m.s.n < STACK_MAX - 1
    ensures Push(m, ScopeFrame).Some?
    ensures var p := Push(m, ScopeFrame).value;
            EndMap(m, false) == Next(p.(s := Pop(p.s), rs := InBsonType, bt := CodeType, inScope := false))
  {
    hide Moved;
  }

  /** "$ref" as the first key of a scope. */
  lemma ReferenceKey(m: Machine)
    requires Shaped(m) && m.rs == InScope && 0 <= m.s.n < STACK_MAX - 1
    ensures Push(m, ScopeFrame).Some?
    ensures MapKey(m, KRef)
         == Push(m, ScopeFrame).value.(rs := InBsonType, lf := LfDbRef, inScope := true, hasKey := true)
  {
    hide Moved;
  }

  lemma Braces(m: Machine)
    requires Shaped(m)
    ensures m.rs == Regular && (m.s.n < 0 || Top(m) != ArrayFrame) ==> StartMap(m) == m.(rs := InStartMap)
    ensures m.rs == TimestampStartMap ==> StartMap(m) == m.(rs := TimestampValues)
    ensures m.rs == ScopeStartMap ==> StartMap(m) == m.(rs := InScope)
    ensures m.rs == InBsonType && (m.lf == LfDbRef || m.lf == LfCode) ==> StartMap(m) == m
  {
  }

  lemma RegularBrace(m: Machine)
    requires Shaped(m) && m.rs == Regular && m.hasKey
    ensures StartMap(m) == m.(rs := InStartMap)
  {
  }

  /** The first key of a document, whose value is another document. */
  lemma Enters(es: seq<Event>) returns (m: Machine)
    requires |es| >= 3 && es[0] == OnStartMap && es[1] == OnMapKey(KOther, false) && es[2] == OnStartMap
    ensures Inv(FRESH) && Inv(m) && Run(FRESH, es) == Run(m, es[3..])
    ensures m == FRESH.(s := Stack(0, FRESH.s.tags[0 := DocFrame], FRESH.s.owned[0 := false]), rs := InStartMap,
                        hasKey := true)
  {
    hide SlotsOwned, Run, Moved;
    FreshHolds();
    OwnsShaped(FRESH);
    assert es[0..] == es;
    PlainKey(FRESH.(rs := InStartMap));
    Braces(FRESH);
    m := Push(FRESH, DocFrame).value.(hasKey := true);
    RegularBrace(m);
    hide MapKey, StartMap, Inv;
    OnOpen(FRESH, es, 0, FRESH.(rs := InStartMap));
    OnKey(FRESH.(rs := InStartMap), es, 1, KOther, m);
    OnOpen(m, es, 2, m.(rs := InStartMap));
    m := m.(rs := InStartMap);
  }

  /** {"a": {"$scope": {}, "$timestamp": {"t": 1, "i": 1}}, "b": {"c": {"$code": "x"}}} up to the brace after "x" */
  function StaleScopeText(): seq<Event> {
    [OnStartMap, OnMapKey(KOther, false), OnStartMap, OnMapKey(KScope, false), OnStartMap, OnEndMap(false)]
    + [OnMapKey(KTimestamp, false), OnStartMap, OnMapKey(KT, false), OnScalar(false), OnMapKey(KI, false),
       OnScalar(false), OnEndMap(false), OnEndMap(false)]
    + [OnMapKey(KOther, false), OnStartMap, OnMapKey(KOther, false), OnStartMap, OnMapKey(KCode, false),
       OnString(false, false, false), OnEndMap(false)]
  }

  lemma EmptyScope(m: Machine, es: seq<Event>) returns (after: Machine)
    requires |es| >= 6 && es[3] == OnMapKey(KScope, false) && es[4] == OnStartMap && es[5] == OnEndMap(false)
    requires Inv(m) && m.rs == InStartMap && m.s.n == 0 && !m.inScope && m.hasKey
    ensures Inv(after) && Run(m, es[3..]) == Run(after, es[6..])
    ensures after.s.n == 0 && after.rs == InBsonType && after.bt == CodeType && after.hasScope && after.hasKey
    ensures !after.inScope && after.s.tags == m.s.tags[1 := ScopeFrame]
  {
    OwnsShaped(m);
    hide Inv, Run, Moved, MapKey, StartMap, EndMap;
    ScopeKey(m);
    var m4 := m.(rs := ScopeStartMap, bt := CodeWScopeType, lf := LfScope, hasScope := true);
    Braces(m4);
    OnKey(m, es, 3, KScope, m4);
    OnOpen(m4, es, 4, m4.(rs := InScope));
    after := Push(m4, ScopeFrame).value.(rs := InBsonType, bt := CodeType);
    after := after.(s := Pop(after.s));
    EmptyScopeCloses(m4.(rs := InScope));
    OnClose(m4.(rs := InScope), es, 5, after);
  }

  lemma Timestamp(m: Machine, es: seq<Event>) returns (after: Machine)
    requires |es| >= 10 && es[6] == OnMapKey(KTimestamp, false) && es[7] == OnStartMap
    requires es[8] == OnMapKey(KT, false) && es[9] == OnScalar(false)
    requires Inv(m) && m.rs == InBsonType && m.s.n == 0 && m.hasKey
    ensures after == m.(rs := TimestampValues, bt := TimestampType, lf := LfTimestampT)
    ensures Inv(after) && Run(m, es[6..]) == Run(after, es[10..])
  {
    OwnsShaped(m);
    hide Inv, Run, Moved, MapKey, StartMap;
    var t := m.(bt := TimestampType);
    TimestampKey(m);
    Braces(t.(rs := TimestampStartMap));
    SecondsAndIncrement(t.(rs := TimestampValues));
    OnKey(m, es, 6, KTimestamp, t.(rs := TimestampStartMap));
    OnOpen(t.(rs := TimestampStartMap), es, 7, t.(rs := TimestampValues));
    after := t.(rs := TimestampValues, lf := LfTimestampT);
    OnKey(t.(rs := TimestampValues), es, 8, KT, after);
    OnValue(after, es, 9);
  }

  lemma TimestampEnd(m: Machine, es: seq<Event>) returns (after: Machine)
    requires |es| >= 14 && es[10] == OnMapKey(KI, false) && es[11] == OnScalar(false)
    requires es[12] == OnEndMap(false) && es[13] == OnEndMap(false)
    requires Inv(m) && m.rs == TimestampValues && m.bt == TimestampType && m.s.n == 0 && m.hasKey
    ensures after == m.(rs := Regular, lf := LfTimestampI)
    ensures Inv(after) && Run(m, es[10..]) == Run(after, es[14..])
  {
    OwnsShaped(m);
    hide Inv, Run, Moved, MapKey;
    var t := m.(lf := LfTimestampI);
    SecondsAndIncrement(m);
    OnKey(m, es, 10, KI, t);
    OnValue(t, es, 11);
    OnClose(t, es, 12, t.(rs := TimestampEndMap));
    after := t.(rs := Regular);
    OnClose(t.(rs := TimestampEndMap), es, 13, after);
  }

  /** A document in a document. */
  lemma Deeper(m: Machine, es: seq<Event>) returns (after: Machine)
    requires |es| >= 18 && es[14] == OnMapKey(KOther, false) && es[15] == OnStartMap
    requires es[16] == OnMapKey(KOther, false) && es[17] == OnStartMap
    requires Inv(m) && m.rs == Regular && m.s.n == 0 && m.hasKey
    ensures after == Push(m, DocFrame).value.(rs := InStartMap)
    ensures Inv(after) && Run(m, es[14..]) == Run(after, es[18..])
  {
    OwnsShaped(m);
    hide Inv, Run, Moved, MapKey, StartMap;
    PlainKey(m);
    RegularBrace(m);
    OnKey(m, es, 14, KOther, m);
    OnOpen(m, es, 15, m.(rs := InStartMap));
    PlainKey(m.(rs := InStartMap));
    after := Push(m, DocFrame).value;
    RegularBrace(after);
    OnKey(m.(rs := InStartMap), es, 16, KOther, after);
    OnOpen(after, es, 17, after.(rs := InStartMap));
    after := after.(rs := InStartMap);
  }

  lemma LaterCode(m: Machine, es: seq<Event>)
    requires |es| == 21 && es[18] == OnMapKey(KCode, false) && es[19] == OnString(false, false, false)
    requires es[20] == OnEndMap(false)
    requires Inv(m) && m.rs == InStartMap && m.s.n == 1 && m.hasKey && m.hasScope && !m.inScope
    requires !HasBson(m.s.tags[2])
    ensures Run(m, es[18..]) == Broke(ScopeMissing)
  {
    OwnsShaped(m);
    hide SlotsOwned, Moved, MapKey;
    CodeKey(m);
    var d := m.(rs := InBsonType, bt := CodeType, lf := LfCode, hasCode := true);
    OnKey(m, es, 18, KCode, d);
    OnValue(d, es, 19);
    assert es[20..][0] == OnEndMap(false) && Flaw(d) == Some(ScopeMissing);
    BreaksOn(d, OnEndMap(false));
  }

  lemma StaleScopeStarts()
    ensures var es := StaleScopeText();
            && |es| == 21 && es[0] == OnStartMap && es[1] == OnMapKey(KOther, false) && es[2] == OnStartMap
            && es[3] == OnMapKey(KScope, false) && es[4] == OnStartMap && es[5] == OnEndMap(false)
  {
  }

  lemma StaleScopeGoesOn()
    ensures var es := StaleScopeText();
            && |es| == 21 && es[6] == OnMapKey(KTimestamp, false) && es[7] == OnStartMap
            && es[8] == OnMapKey(KT, false) && es[9] == OnScalar(false) && es[10] == OnMapKey(KI, false)
            && es[11] == OnScalar(false) && es[12] == OnEndMap(false) && es[13] == OnEndMap(false)
  {
  }

  lemma StaleScopeEnds()
    ensures var es := StaleScopeText();
            && |es| == 21 && es[14] == OnMapKey(KOther, false) && es[15] == OnStartMap
            && es[16] == OnMapKey(KOther, false) && es[17] == OnStartMap && es[18] == OnMapKey(KCode, false)
            && es[19] == OnString(false, false, false) && es[20] == OnEndMap(false)
  {
  }

  lemma StaleScopeTexts()
    ensures Begins(StaleScopeText()) && Valued(StaleScopeText())
  {
    StaleScopeStarts();
    StaleScopeGoesOn();
    StaleScopeEnds();
    hide StaleScopeText;
    var es := StaleScopeText();
    forall i | 0 <= i < 7 ensures !es[i].OnRestart? && !(es[i].OnMapKey? && es[i + 1].OnEndMap?) {
    }
    forall i | 7 <= i < 14 ensures !es[i].OnRestart? && !(es[i].OnMapKey? && es[i + 1].OnEndMap?) {
    }
    forall i | 14 <= i < 20 ensures !es[i].OnRestart? && !(es[i].OnMapKey? && es[i + 1].OnEndMap?) {
    }
  }

  /**
   * A "$scope" whose value is then turned into a timestamp leaves its mark behind; a later code value, one frame
   * further in, reads a slot in which nothing has been initialized.
   */
  lemma StaleScope()
    ensures Begins(StaleScopeText()) && Valued(StaleScopeText())
    ensures Inv(FRESH) && Run(FRESH, StaleScopeText()) == Broke(ScopeMissing)
  {
    hide Inv, Run, Begins, Valued, Push, StaleScopeText;
    StaleScopeTexts();
    StaleScopeStarts();
    StaleScopeGoesOn();
    StaleScopeEnds();
    var scoped := ScopeMarked(StaleScopeText());
    var stamp := Stamped(scoped, StaleScopeText());
    CodeLater(stamp, StaleScopeText());
  }

  lemma ScopeMarked(es: seq<Event>) returns (m: Machine)
    requires |es| >= 6 && es[0] == OnStartMap && es[1] == OnMapKey(KOther, false) && es[2] == OnStartMap
    requires es[3] == OnMapKey(KScope, false) && es[4] == OnStartMap && es[5] == OnEndMap(false)
    ensures Inv(FRESH) && Inv(m) && Run(FRESH, es) == Run(m, es[6..])
    ensures m.s.n == 0 && m.rs == InBsonType && m.hasScope && m.hasKey && !m.inScope
    ensures Shaped(m) && m.s.tags[2] == Initial
  {
    hide Run, Push;
    m := Enters(es);
    m := EmptyScope(m, es);
  }

  lemma Stamped(m: Machine, es: seq<Event>) returns (after: Machine)
    requires |es| >= 14 && es[6] == OnMapKey(KTimestamp, false) && es[7] == OnStartMap
    requires es[8] == OnMapKey(KT, false) && es[9] == OnScalar(false)
    requires es[10] == OnMapKey(KI, false) && es[11] == OnScalar(false)
    requires es[12] == OnEndMap(false) && es[13] == OnEndMap(false)
    requires Inv(m) && m.rs == InBsonType && m.s.n == 0 && m.hasKey
    ensures Inv(after) && Run(m, es[6..]) == Run(after, es[14..])
    ensures after == m.(rs := Regular, bt := TimestampType, lf := LfTimestampI)
  {
    hide Inv, Run;
    after := Timestamp(m, es);
    after := TimestampEnd(after, es);
  }

  lemma CodeLater(m: Machine, es: seq<Event>)
    requires |es| == 21 && es[14] == OnMapKey(KOther, false) && es[15] == OnStartMap
    requires es[16] == OnMapKey(KOther, false) && es[17] == OnStartMap
    requires es[18] == OnMapKey(KCode, false) && es[19] == OnString(false, false, false) && es[20] == OnEndMap(false)
    requires Inv(m) && m.rs == Regular && m.s.n == 0 && m.hasKey && m.hasScope && !m.inScope
    requires Shaped(m) && m.s.tags[2] == Initial
    ensures Run(m, es[14..]) == Broke(ScopeMissing)
  {
    hide Inv, Run;
    var deep := Deeper(m, es);
    LaterCode(deep, es);
  }

  /** {"a": {"$code": "x", "$scope": {"$ref": {}}}} up to the first closing brace */
  function NestedCodeText(): seq<Event> {
    [OnStartMap, OnMapKey(KOther, false), OnStartMap, OnMapKey(KCode, false), OnString(false, false, false),
     OnMapKey(KScope, false), OnStartMap, OnMapKey(KRef, false), OnStartMap, OnEndMap(false)]
  }

  lemma CodeThenScope(m: Machine, es: seq<Event>) returns (after: Machine)
    requires |es| >= 7 && es[3] == OnMapKey(KCode, false) && es[4] == OnString(false, false, false)
    requires es[5] == OnMapKey(KScope, false) && es[6] == OnStartMap
    requires Inv(m) && m.rs == InStartMap && m.s.n == 0 && !m.inScope && m.hasKey
    ensures after == m.(rs := InScope, bt := CodeWScopeType, lf := LfScope, hasCode := true, hasScope := true)
    ensures Inv(after) && Run(m, es[3..]) == Run(after, es[7..])
  {
    OwnsShaped(m);
    hide Inv, Run, Moved, MapKey, StartMap;
    CodeKey(m);
    var c := m.(rs := InBsonType, bt := CodeType, lf := LfCode, hasCode := true);
    ScopeKey(c);
    OnKey(m, es, 3, KCode, c);
    OnValue(c, es, 4);
    after := c.(rs := InScope, bt := CodeWScopeType, lf := LfScope, hasScope := true);
    Braces(after.(rs := ScopeStartMap));
    OnKey(c, es, 5, KScope, after.(rs := ScopeStartMap));
    OnOpen(after.(rs := ScopeStartMap), es, 6, after);
  }

  lemma ReferenceInScope(m: Machine, es: seq<Event>)
    requires |es| == 10 && es[7] == OnMapKey(KRef, false) && es[8] == OnStartMap && es[9] == OnEndMap(false)
    requires Inv(m) && m.rs == InScope && m.bt == CodeWScopeType && m.s.n == 0
    ensures Run(m, es[7..]) == Broke(Aborted)
  {
    OwnsShaped(m);
    hide SlotsOwned, Moved, MapKey, StartMap;
    ReferenceKey(m);
    var p := Push(m, ScopeFrame).value.(rs := InBsonType, lf := LfDbRef, inScope := true, hasKey := true);
    Braces(p);
    OnKey(m, es, 7, KRef, p);
    OnOpen(p, es, 8, p);
    assert es[9..][0] == OnEndMap(false) && Flaw(p) == Some(Aborted);
    BreaksOn(p, OnEndMap(false));
  }

  lemma NestedCodeTexts()
    ensures Begins(NestedCodeText()) && Valued(NestedCodeText())
  {
  }

  /** A document where "$ref" in a scope expects a text is taken for the code value itself: an assertion fails. */
  lemma NestedCode()
    ensures Begins(NestedCodeText()) && Valued(NestedCodeText())
    ensures Inv(FRESH) && Run(FRESH, NestedCodeText()) == Broke(Aborted)
  {
    NestedCodeTexts();
    hide Inv, Run, Begins, Valued;
    var m := Enters(NestedCodeText());
    m := CodeThenScope(m, NestedCodeText());
    ReferenceInScope(m, NestedCodeText());
  }
}

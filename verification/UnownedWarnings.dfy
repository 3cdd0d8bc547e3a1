/**
 Warning, at most once per gap, about the collections that no member can expire.

 Times are nanoseconds of a clock that never goes back.
 */
module UnownedWarnings {
  const WARN_EVERY: nat := 30 * 60 * 1_000_000_000

  datatype Collection = Collection(name: string)

  /** When each collection was last said. */
  type Warned = map<Collection, nat>

  function Since(last: nat, now: nat): nat { if last < now then now - last else 0 }

  predicate Recent(warned: Warned, name: Collection, now: nat) {
    name in warned && Since(warned[name], now) < WARN_EVERY
  }

  function Pruned(warned: Warned, now: nat): Warned {
    map name | name in warned && Since(warned[name], now) < WARN_EVERY :: warned[name]
  }

  /** The names said, in the order of the view: each once, if it was not said recently. */
  function Said(warned: Warned, unowned: seq<Collection>, now: nat): seq<Collection> {
    if unowned == [] then []
    else
      var before, name := Said(warned, unowned[..|unowned| - 1], now), unowned[|unowned| - 1];
      if Recent(warned, name, now) || name in before then before else before + [name]
  }

  predicate Distinct(s: seq<Collection>) { forall i, j :: 0 <= i < j < |s| ==> s[i] != s[j] }

  lemma {:induction false} SaidIsExact(warned: Warned, unowned: seq<Collection>, now: nat)
    ensures Distinct(Said(warned, unowned, now))
    ensures forall name :: name in Said(warned, unowned, now) <==> name in unowned && !Recent(warned, name, now)
  {
    if unowned == [] {
    } else {
      SaidIsExact(warned, unowned[..|unowned| - 1], now);
      assert unowned == unowned[..|unowned| - 1] + [unowned[|unowned| - 1]];
    }
  }

  /** The names are said in the order of the view. */
  lemma {:induction false} SaidInOrder(warned: Warned, unowned: seq<Collection>, k: nat, now: nat)
    requires k <= |unowned|
    ensures Said(warned, unowned[..k], now) <= Said(warned, unowned, now)
    decreases |unowned|
  {
    if k == |unowned| {
      assert unowned[..k] == unowned;
    } else {
      assert unowned[..|unowned| - 1][..k] == unowned[..k];
      SaidInOrder(warned, unowned[..|unowned| - 1], k, now);
    }
  }

  /** What is remembered after a check. */
  function After(warned: Warned, said: seq<Collection>, now: nat): Warned {
    Pruned(warned, now) + map name | name in said :: now
  }

  lemma AfterKeys(warned: Warned, said: seq<Collection>, now: nat, name: Collection)
    ensures name in After(warned, said, now) <==> name in said || Recent(warned, name, now)
    ensures name in said ==> After(warned, said, now)[name] == now
    ensures name !in said && Recent(warned, name, now) ==> After(warned, said, now)[name] == warned[name]
  {
  }

  lemma AfterSnoc(warned: Warned, said: seq<Collection>, now: nat, name: Collection)
    ensures After(warned, said + [name], now) == After(warned, said, now)[name := now]
  {
  }

  lemma SaidNext(warned: Warned, unowned: seq<Collection>, i: nat, now: nat)
    requires i < |unowned|
    ensures var said := Said(warned, unowned[..i], now);
            Said(warned, unowned[..i + 1], now) ==
            if unowned[i] in After(warned, said, now) then said else said + [unowned[i]]
  {
    assert unowned[..i + 1][..i] == unowned[..i];
    AfterKeys(warned, Said(warned, unowned[..i], now), now, unowned[i]);
  }

  class Unowned {
    var warned: Warned

    constructor ()
      ensures warned == map[]
    {
      warned := map[];
    }

    /** Warns about each unowned collection that is due, and gives the names it said. */
    method Say(unowned: seq<Collection>, now: nat) returns (said: seq<Collection>)
      modifies this
      ensures said == Said(old(warned), unowned, now) && warned == After(old(warned), said, now)
      ensures Distinct(said)
      ensures forall name :: name in said <==> name in unowned && !Recent(old(warned), name, now)
    {
      said := [];
      ghost var before := warned;
      warned := Pruned(warned, now);
      for i := 0 to |unowned|
        invariant said == Said(before, unowned[..i], now) && warned == After(before, said, now)
      {
        SaidNext(before, unowned, i, now);
        if unowned[i] !in warned {
          AfterSnoc(before, said, now, unowned[i]);
          warned := warned[unowned[i] := now];
          said := said + [unowned[i]];
        }
      }
      assert unowned[..|unowned|] == unowned;
      SaidIsExact(before, unowned, now);
    }
  }

  // ---------------------------------------------------------------------------
  // Over a run of checks
  // ---------------------------------------------------------------------------

  datatype Check = Check(unowned: seq<Collection>, now: nat)

  datatype Warning = Warning(name: Collection, at: nat)

  function Memory(checks: seq<Check>): Warned {
    if checks == [] then map[]
    else
      var before, check := Memory(checks[..|checks| - 1]), checks[|checks| - 1];
      After(before, Said(before, check.unowned, check.now), check.now)
  }

  function Warnings(names: seq<Collection>, at: nat): (r: seq<Warning>)
    ensures |r| == |names| && forall i :: 0 <= i < |names| ==> r[i] == Warning(names[i], at)
  {
    seq(|names|, i requires 0 <= i < |names| => Warning(names[i], at))
  }

  /** Every warning of the run, in order. */
  function Log(checks: seq<Check>): seq<Warning> {
    if checks == [] then []
    else
      var before, check := checks[..|checks| - 1], checks[|checks| - 1];
      Log(before) + Warnings(Said(Memory(before), check.unowned, check.now), check.now)
  }

  /** The clock does not go back. */
  predicate Forward(checks: seq<Check>) {
    forall i :: 0 < i < |checks| ==> checks[i - 1].now <= checks[i].now
  }

  /** What is remembered is the last warning about each name warned about within the gap,
      and nothing else. */
  ghost predicate Remembers(log: seq<Warning>, warned: Warned, now: nat) {
    && (forall name :: name in warned ==> Warning(name, warned[name]) in log && Since(warned[name], now) < WARN_EVERY)
    && (forall w :: w in log ==> w.at <= now)
    && forall w :: w in log && now - w.at < WARN_EVERY ==> w.name in warned && w.at <= warned[w.name]
  }

  /** Two warnings about one name are at least the gap apart. */
  ghost predicate SpacedOut(log: seq<Warning>) {
    forall i, j :: 0 <= i < j < |log| && log[i].name == log[j].name ==> log[i].at + WARN_EVERY <= log[j].at
  }

  lemma SaidIsLogged(said: seq<Collection>, now: nat, name: Collection)
    requires name in said
    ensures Warning(name, now) in Warnings(said, now)
  {
    var i :| 0 <= i < |said| && said[i] == name;
    assert Warnings(said, now)[i] == Warning(name, now);
  }

  lemma StepRemembers(log: seq<Warning>, warned: Warned, last: nat, unowned: seq<Collection>, now: nat)
    requires Remembers(log, warned, last) && last <= now
    ensures var said := Said(warned, unowned, now);
            Remembers(log + Warnings(said, now), After(warned, said, now), now)
  {
    var said := Said(warned, unowned, now);
    var whole, memory := log + Warnings(said, now), After(warned, said, now);
    forall name | name in memory ensures Warning(name, memory[name]) in whole && Since(memory[name], now) < WARN_EVERY {
      AfterKeys(warned, said, now, name);
      if name in said { SaidIsLogged(said, now, name); }
    }
    forall w | w in whole
      ensures w.at <= now && (now - w.at < WARN_EVERY ==> w.name in memory && w.at <= memory[w.name])
    {
      AfterKeys(warned, said, now, w.name);
      if w !in log { assert w in Warnings(said, now); }
    }
  }

  lemma StepSpacesOut(log: seq<Warning>, warned: Warned, last: nat, unowned: seq<Collection>, now: nat)
    requires Remembers(log, warned, last) && last <= now && SpacedOut(log)
    ensures SpacedOut(log + Warnings(Said(warned, unowned, now), now))
  {
    var said := Said(warned, unowned, now);
    SaidIsExact(warned, unowned, now);
    var whole := log + Warnings(said, now);
    forall i, j | 0 <= i < j < |whole| && whole[i].name == whole[j].name
      ensures whole[i].at + WARN_EVERY <= whole[j].at
    {
      if j >= |log| {
        assert whole[j] == Warning(said[j - |log|], now);
        assert said[j - |log|] in said;
        if i < |log| { assert whole[i] in log; }
      }
    }
  }

  function LastCheck(checks: seq<Check>): nat { if checks == [] then 0 else checks[|checks| - 1].now }

  /** Over every run of checks at times that do not go back: two warnings about one
      collection are at least the gap apart, however its ownership flaps, and the map holds
      exactly the collections warned about within the gap. */
  lemma {:induction false} RunIsSpacedOut(checks: seq<Check>)
    requires Forward(checks)
    ensures SpacedOut(Log(checks)) && Remembers(Log(checks), Memory(checks), LastCheck(checks))
  {
    if checks == [] {
    } else {
      var before, check := checks[..|checks| - 1], checks[|checks| - 1];
      RunIsSpacedOut(before);
      assert LastCheck(before) <= check.now;
      StepRemembers(Log(before), Memory(before), LastCheck(before), check.unowned, check.now);
      StepSpacesOut(Log(before), Memory(before), LastCheck(before), check.unowned, check.now);
    }
  }

  /** At every check of such a run, an unowned collection is warned about exactly when no
      earlier warning about it is within the gap. */
  lemma DueIsWarned(checks: seq<Check>, check: Check, name: Collection)
    requires Forward(checks + [check]) && name in check.unowned
    ensures name in Said(Memory(checks), check.unowned, check.now)
            <==> forall w :: w in Log(checks) && w.name == name ==> w.at + WARN_EVERY <= check.now
  {
    assert checks == (checks + [check])[..|checks|];
    assert Forward(checks) by {
      forall i | 0 < i < |checks| ensures checks[i - 1].now <= checks[i].now {
        assert (checks + [check])[i - 1].now <= (checks + [check])[i].now;
      }
    }
    if checks != [] { assert (checks + [check])[|checks| - 1].now <= (checks + [check])[|checks|].now; }
    RunIsSpacedOut(checks);
    SaidIsExact(Memory(checks), check.unowned, check.now);
  }
}

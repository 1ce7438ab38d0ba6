/** `LightConfig.rescale` (app/domain/light-config.ts:62-95) as a
    specification: the durations of a light's phases are forced to sum to the
    crossing's cycle length by applying the signed difference in up to three
    passes over the phases, largest duration first. */
module Rescaling {
  import opened Phases
  import opened PhaseSort
  import opened StateDuration

  /** The three fix strategies, tried in this order until nothing remains:
      every fixable phase takes an even share of the difference; the fixable
      phases take the running remainder; any phase takes the running remainder. */
  datatype Strategy = EvenShare | FixableRemainder | AnyRemainder

  const FIX_STRATEGIES: seq<Strategy> := [EvenShare, FixableRemainder, AnyRemainder]

  /** A strategy's precondition: which phases it adjusts. */
  predicate Applies(st: Strategy, p: Phase) {
    st == AnyRemainder || IsFixable(p)
  }

  /** The phases a strategy may adjust. */
  function Absorbers(st: Strategy, ps: seq<Phase>): seq<Phase> {
    if st == AnyRemainder then ps else FixableOf(ps)
  }

  /** The even share of the difference each fixable phase takes first, rounded
      to whole seconds. With no fixable phase the share is never applied, so
      its value does not matter. */
  function PerPhaseShare(diff: int, fixableCount: nat): int {
    if fixableCount == 0 then 0 else RoundSeconds(diff, fixableCount)
  }

  /** One call of a pass's callback: the phase it returns and the remainder
      it leaves. The delta is clamped so the duration cannot drop below zero. */
  function Step(st: Strategy, share: int, p: Phase, rem: int): (Phase, int) {
    if !Applies(st, p) then (p, rem)
    else
      var applicable := Max(if st == EvenShare then share else rem, -p.duration);
      (Phase(p.state, p.duration + applicable), rem - applicable)
  }

  /** One pass of a strategy over the phases, threading the remainder from
      left to right. */
  function Pass(st: Strategy, share: int, ps: seq<Phase>, rem: int): (seq<Phase>, int) {
    if ps == [] then ([], rem)
    else
      var (p', rem') := Step(st, share, ps[0], rem);
      var rest := Pass(st, share, ps[1..], rem');
      ([p'] + rest.0, rest.1)
  }

  /** A pass over `ps` after the phases `mapped` already produced is one
      step on the first phase followed by a pass over the rest. */
  lemma {:induction false} PassStep(st: Strategy, share: int, ps: seq<Phase>, rem: int, mapped: seq<Phase>)
    requires ps != []
    ensures var (p', rem') := Step(st, share, ps[0], rem);
      mapped + Pass(st, share, ps, rem).0 == (mapped + [p']) + Pass(st, share, ps[1..], rem').0
      && Pass(st, share, ps, rem).1 == Pass(st, share, ps[1..], rem').1
  {
  }

  /** A pass keeps every phase's state in place, and what it adds to the
      durations it takes from the remainder. */
  lemma {:induction false} PassConserves(st: Strategy, share: int, ps: seq<Phase>, rem: int)
    ensures States(Pass(st, share, ps, rem).0) == States(ps)
    ensures |Pass(st, share, ps, rem).0| == |ps|
    ensures Sum(Pass(st, share, ps, rem).0) + Pass(st, share, ps, rem).1 == Sum(ps) + rem
  {
    if ps != [] {
      var (p', rem') := Step(st, share, ps[0], rem);
      var rest := Pass(st, share, ps[1..], rem').0;
      PassConserves(st, share, ps[1..], rem');
      assert ([p'] + rest)[1..] == rest;
    }
  }

  /** Every phase a pass adjusts ends with a non-negative duration; the
      phases it does not adjust keep theirs. */
  lemma {:induction false} PassClamps(st: Strategy, share: int, ps: seq<Phase>, rem: int)
    ensures forall i | 0 <= i < |Pass(st, share, ps, rem).0| ::
      Applies(st, Pass(st, share, ps, rem).0[i]) ==> Pass(st, share, ps, rem).0[i].duration >= 0
    ensures NonNegative(ps) ==> NonNegative(Pass(st, share, ps, rem).0)
  {
    if ps != [] {
      var (p', rem') := Step(st, share, ps[0], rem);
      var rest := Pass(st, share, ps[1..], rem').0;
      PassClamps(st, share, ps[1..], rem');
      var out := [p'] + rest;
      assert Pass(st, share, ps, rem).0 == out;
      forall i | 1 <= i < |out| ensures out[i] == rest[i - 1] { }
    }
  }

  /** The first two strategies touch only fixable phases: each unfixable
      phase occurs after the pass exactly as often as before it. */
  lemma {:induction false} PassKeepsUnfixable(st: Strategy, share: int, ps: seq<Phase>, rem: int)
    requires st != AnyRemainder
    ensures forall p | !IsFixable(p) :: multiset(Pass(st, share, ps, rem).0)[p] == multiset(ps)[p]
  {
    if ps != [] {
      var (p', rem') := Step(st, share, ps[0], rem);
      var rest := Pass(st, share, ps[1..], rem').0;
      PassKeepsUnfixable(st, share, ps[1..], rem');
      assert ps == [ps[0]] + ps[1..];
      assert Pass(st, share, ps, rem).0 == [p'] + rest;
      assert IsFixable(p') == IsFixable(ps[0]);
      forall p | !IsFixable(p)
        ensures multiset([p'] + rest)[p] == multiset([ps[0]] + ps[1..])[p]
      {
        assert p' == p <==> ps[0] == p;
      }
    }
  }

  /** No pass changes how many phases are fixable. */
  lemma {:induction false} PassKeepsFixableCount(st: Strategy, share: int, ps: seq<Phase>, rem: int)
    ensures |FixableOf(Pass(st, share, ps, rem).0)| == |FixableOf(ps)|
  {
    if ps != [] {
      var (p', rem') := Step(st, share, ps[0], rem);
      var rest := Pass(st, share, ps[1..], rem').0;
      PassKeepsFixableCount(st, share, ps[1..], rem');
      assert ps == [ps[0]] + ps[1..];
      assert ([p'] + rest)[1..] == rest;
      assert IsFixable(p') == IsFixable(ps[0]);
    }
  }

  /** The strategies from the `i`-th on, stopping as soon as the remainder is
      zero; the phases and the remainder they leave. */
  function RunStrategies(i: nat, share: int, ps: seq<Phase>, rem: int): (seq<Phase>, int)
    requires i <= |FIX_STRATEGIES|
    decreases |FIX_STRATEGIES| - i
  {
    if i < |FIX_STRATEGIES| && rem != 0 then
      var next := Pass(FIX_STRATEGIES[i], share, ps, rem);
      RunStrategies(i + 1, share, next.0, next.1)
    else
      (ps, rem)
  }

  /** The strategies keep every phase's state in place, move duration only
      between the phases and the remainder, and never make a duration
      negative. */
  lemma {:induction false} RunConserves(i: nat, share: int, ps: seq<Phase>, rem: int)
    requires i <= |FIX_STRATEGIES|
    ensures States(RunStrategies(i, share, ps, rem).0) == States(ps)
    ensures |RunStrategies(i, share, ps, rem).0| == |ps|
    ensures Sum(RunStrategies(i, share, ps, rem).0) + RunStrategies(i, share, ps, rem).1 == Sum(ps) + rem
    ensures NonNegative(ps) ==> NonNegative(RunStrategies(i, share, ps, rem).0)
    decreases |FIX_STRATEGIES| - i
  {
    if i < |FIX_STRATEGIES| && rem != 0 {
      var next := Pass(FIX_STRATEGIES[i], share, ps, rem);
      PassConserves(FIX_STRATEGIES[i], share, ps, rem);
      PassClamps(FIX_STRATEGIES[i], share, ps, rem);
      RunConserves(i + 1, share, next.0, next.1);
    }
  }

  /** The settings `rescale` returns for a crossing whose cycle length is
      `cycleLength`. */
  function Rescaled(cycleLength: int, settings: LightSettings): LightSettings {
    var diff := cycleLength - Sum(settings.phases);
    if diff == 0 then settings
    else LightSettings(settings.offset, AdjustedPhases(settings.phases, diff))
  }

  /** The phases `rescale` returns when it has a difference `diff` to apply:
      the fixed phases sorted by state order. */
  function AdjustedPhases(ps: seq<Phase>, diff: int): seq<Phase> {
    SortBy(ByOrder, Fixed(ps, diff).0)
  }

  /** The phases, sorted by duration (largest first), after the fix
      strategies have applied the difference `diff`, and the remainder they
      could not apply. */
  function Fixed(ps: seq<Phase>, diff: int): (seq<Phase>, int) {
    var share := PerPhaseShare(diff, |FixableOf(ps)|);
    RunStrategies(0, share, SortBy(ByDurationDescending, ps), diff)
  }

  lemma {:induction false} AbsorbersCons(st: Strategy, ps: seq<Phase>)
    requires ps != []
    ensures Sum(Absorbers(st, ps)) == (if Applies(st, ps[0]) then ps[0].duration else 0) + Sum(Absorbers(st, ps[1..]))
    ensures |Absorbers(st, ps)| == (if Applies(st, ps[0]) then 1 else 0) + |Absorbers(st, ps[1..])|
  {
    assert ps == [ps[0]] + ps[1..];
    var tail := Absorbers(st, ps[1..]);
    if Applies(st, ps[0]) {
      assert Absorbers(st, ps) == [ps[0]] + tail;
      assert ([ps[0]] + tail)[1..] == tail;
    } else {
      assert FixableOf(ps) == [] + FixableOf(ps[1..]);
      assert [] + tail == tail;
    }
  }

  lemma {:induction false} AbsorbersNonNegative(st: Strategy, ps: seq<Phase>)
    requires NonNegative(ps)
    ensures Sum(Absorbers(st, ps)) >= 0
  {
    if ps != [] {
      AbsorbersCons(st, ps);
      assert NonNegative(ps[1..]) by {
        forall i | 0 <= i < |ps[1..]| ensures ps[1..][i].duration >= 0 { assert ps[1..][i] == ps[i + 1]; }
      }
      AbsorbersNonNegative(st, ps[1..]);
    }
  }

  /** A strategy that takes the running remainder drives it to zero over
      non-negative phases, provided the phases it adjusts hold enough duration
      to give up and there is one to take a positive remainder. */
  lemma {:induction false} RemainderPassDrains(st: Strategy, share: int, ps: seq<Phase>, rem: int)
    requires st != EvenShare
    requires NonNegative(ps)
    requires Sum(Absorbers(st, ps)) + rem >= 0
    requires rem <= 0 || |Absorbers(st, ps)| > 0
    ensures Pass(st, share, ps, rem).1 == 0
  {
    if ps != [] {
      var p := ps[0];
      var (p', rem') := Step(st, share, p, rem);
      AbsorbersCons(st, ps);
      assert NonNegative(ps[1..]) by {
        forall i | 0 <= i < |ps[1..]| ensures ps[1..][i].duration >= 0 { assert ps[1..][i] == ps[i + 1]; }
      }
      AbsorbersNonNegative(st, ps[1..]);
      assert Sum(Absorbers(st, ps[1..])) + rem' >= 0;
      RemainderPassDrains(st, share, ps[1..], rem');
      assert Pass(st, share, ps, rem).1 == Pass(st, share, ps[1..], rem').1;
    }
  }

  /** Running the strategies from any of them on, a non-empty list of
      non-negative phases whose total and remainder are not negative ends
      with no remainder: the last strategy lets any phase absorb it. */
  lemma {:induction false} StrategiesDrain(i: nat, share: int, ps: seq<Phase>, rem: int)
    requires i <= 2
    requires NonNegative(ps) && |ps| > 0
    requires Sum(ps) + rem >= 0
    ensures RunStrategies(i, share, ps, rem).1 == 0
    decreases 2 - i
  {
    if rem != 0 {
      var next := Pass(FIX_STRATEGIES[i], share, ps, rem);
      PassConserves(FIX_STRATEGIES[i], share, ps, rem);
      PassClamps(FIX_STRATEGIES[i], share, ps, rem);
      if i < 2 {
        StrategiesDrain(i + 1, share, next.0, next.1);
      } else {
        RemainderPassDrains(AnyRemainder, share, ps, rem);
      }
    }
  }

  /** The fix strategies keep the total of the phases and the remainder, the
      number of phases in each state, and non-negative durations. */
  lemma {:induction false} FixedConserves(ps: seq<Phase>, diff: int)
    ensures Sum(Fixed(ps, diff).0) + Fixed(ps, diff).1 == Sum(ps) + diff
    ensures forall s :: StateCount(Fixed(ps, diff).0, s) == StateCount(ps, s)
    ensures |Fixed(ps, diff).0| == |ps|
    ensures NonNegative(ps) ==> NonNegative(Fixed(ps, diff).0)
  {
    var share := PerPhaseShare(diff, |FixableOf(ps)|);
    var sorted := SortBy(ByDurationDescending, ps);
    SortKeeps(ByDurationDescending, ps);
    RunConserves(0, share, sorted, diff);
    SameStatesSameCounts(RunStrategies(0, share, sorted, diff).0, sorted);
  }

  /** Over a non-empty list of non-negative phases, the fix strategies leave
      no remainder when the cycle length they aim at is not negative. */
  lemma {:induction false} FixedDrains(ps: seq<Phase>, diff: int)
    requires NonNegative(ps) && |ps| > 0
    requires Sum(ps) + diff >= 0
    ensures Fixed(ps, diff).1 == 0
  {
    var share := PerPhaseShare(diff, |FixableOf(ps)|);
    SortKeeps(ByDurationDescending, ps);
    StrategiesDrain(0, share, SortBy(ByDurationDescending, ps), diff);
  }

  /** `rescale` returns its input when the durations already sum to the
      cycle length. */
  lemma {:induction false} RescaleUnchanged(cycleLength: int, settings: LightSettings)
    requires Sum(settings.phases) == cycleLength
    ensures Rescaled(cycleLength, settings) == settings
  {
  }

  /** Otherwise it returns the adjusted phases under the same offset. */
  lemma {:induction false} RescaleAdjusted(cycleLength: int, settings: LightSettings)
    requires Sum(settings.phases) != cycleLength
    ensures Rescaled(cycleLength, settings).offset == settings.offset
    ensures Rescaled(cycleLength, settings).phases
      == AdjustedPhases(settings.phases, cycleLength - Sum(settings.phases))
  {
  }

  /** Adjusting neither adds nor removes a state, never makes a duration
      negative, and leaves the phases sorted by state order. */
  lemma {:induction false} AdjustedConserves(ps: seq<Phase>, diff: int)
    ensures forall s :: StateCount(AdjustedPhases(ps, diff), s) == StateCount(ps, s)
    ensures |AdjustedPhases(ps, diff)| == |ps|
    ensures NonNegative(ps) ==> NonNegative(AdjustedPhases(ps, diff))
    ensures Ordered(ByOrder, AdjustedPhases(ps, diff))
  {
    FixedConserves(ps, diff);
    SortKeeps(ByOrder, Fixed(ps, diff).0);
  }

  /** Adjusting non-negative phases by a difference that leaves a
      non-negative cycle length reaches that cycle length exactly, unless
      there is no phase to take a positive cycle length. */
  lemma {:induction false} AdjustedReaches(cycleLength: int, ps: seq<Phase>)
    requires NonNegative(ps)
    requires cycleLength >= 0
    requires Sum(ps) != cycleLength
    ensures Sum(AdjustedPhases(ps, cycleLength - Sum(ps))) == cycleLength
        <==> |ps| > 0
  {
    var diff := cycleLength - Sum(ps);
    var fixed := Fixed(ps, diff);
    FixedConserves(ps, diff);
    SortKeeps(ByOrder, fixed.0);
    if |ps| > 0 {
      FixedDrains(ps, diff);
    } else {
      assert fixed.0 == [];
    }
  }

  /** `rescale` keeps the offset, neither adds nor removes a state, never
      makes a duration negative, and when it adjusts anything it returns the
      phases sorted by state order. */
  lemma {:induction false} RescaleConserves(cycleLength: int, settings: LightSettings)
    ensures Rescaled(cycleLength, settings).offset == settings.offset
    ensures forall s :: StateCount(Rescaled(cycleLength, settings).phases, s) == StateCount(settings.phases, s)
    ensures NonNegative(settings.phases) ==> NonNegative(Rescaled(cycleLength, settings).phases)
    ensures Sum(settings.phases) != cycleLength ==> Ordered(ByOrder, Rescaled(cycleLength, settings).phases)
  {
    if Sum(settings.phases) == cycleLength {
      RescaleUnchanged(cycleLength, settings);
    } else {
      RescaleAdjusted(cycleLength, settings);
      AdjustedConserves(settings.phases, cycleLength - Sum(settings.phases));
    }
  }

  /** For non-negative durations and a non-negative cycle length, `rescale`
      makes the durations sum to exactly the cycle length, unless there is no
      phase to give a positive cycle length to. */
  lemma {:induction false} RescaleReachesCycleLength(cycleLength: int, settings: LightSettings)
    requires NonNegative(settings.phases)
    requires cycleLength >= 0
    ensures Sum(Rescaled(cycleLength, settings).phases) == cycleLength
        <==> |settings.phases| > 0 || cycleLength == 0
  {
    if Sum(settings.phases) == cycleLength {
      RescaleUnchanged(cycleLength, settings);
      if cycleLength != 0 {
        assert settings.phases != [];
      }
    } else {
      RescaleAdjusted(cycleLength, settings);
      AdjustedReaches(cycleLength, settings.phases);
    }
  }

  /** A pass of the first two strategies moves duration only between the
      fixable phases and the remainder. */
  lemma {:induction false} PassKeepsFixableBudget(st: Strategy, share: int, ps: seq<Phase>, rem: int)
    requires st != AnyRemainder
    ensures Sum(FixableOf(Pass(st, share, ps, rem).0)) + Pass(st, share, ps, rem).1
         == Sum(FixableOf(ps)) + rem
  {
    if ps != [] {
      var (p', rem') := Step(st, share, ps[0], rem);
      var rest := Pass(st, share, ps[1..], rem').0;
      PassKeepsFixableBudget(st, share, ps[1..], rem');
      assert ([p'] + rest)[1..] == rest;
      var head := if IsFixable(p') then [p'] else [];
      SumConcat(head, FixableOf(rest));
      SumConcat(if IsFixable(ps[0]) then [ps[0]] else [], FixableOf(ps[1..]));
    }
  }


  /** Over non-negative phases with a fixable one among them, the first two
      strategies absorb the whole remainder when the fixable phases hold
      enough duration to give up, leaving every unfixable phase as it is. */
  lemma {:induction false} FixableStrategiesSuffice(share: int, ps: seq<Phase>, rem: int)
    requires NonNegative(ps) && |FixableOf(ps)| > 0
    requires Sum(FixableOf(ps)) + rem >= 0
    ensures RunStrategies(0, share, ps, rem).1 == 0
    ensures forall p | !IsFixable(p) :: multiset(RunStrategies(0, share, ps, rem).0)[p] == multiset(ps)[p]
  {
    if rem != 0 {
      var first := Pass(EvenShare, share, ps, rem);
      assert RunStrategies(0, share, ps, rem) == RunStrategies(1, share, first.0, first.1);
      PassKeepsUnfixable(EvenShare, share, ps, rem);
      if first.1 != 0 {
        PassKeepsFixableCount(EvenShare, share, ps, rem);
        PassKeepsFixableBudget(EvenShare, share, ps, rem);
        PassClamps(EvenShare, share, ps, rem);
        RemainderPassDrains(FixableRemainder, share, first.0, first.1);
        PassKeepsUnfixable(FixableRemainder, share, first.0, first.1);
        var second := Pass(FixableRemainder, share, first.0, first.1);
        assert RunStrategies(1, share, first.0, first.1) == RunStrategies(2, share, second.0, second.1);
      }
    }
  }

  /** Every unfixable phase occurs in `a` exactly as often as in `b`. */
  ghost predicate SameUnfixable(a: seq<Phase>, b: seq<Phase>) {
    forall p | !IsFixable(p) :: Occurrences(a, p) == Occurrences(b, p)
  }

  /** When some phase is fixable and the cycle length leaves room for the
      unfixable phases as they are, the first two strategies already absorb
      the whole difference: every unfixable phase comes out unchanged and the
      durations sum to the cycle length. */
  lemma {:induction false} AdjustedKeepsUnfixable(cycleLength: int, ps: seq<Phase>)
    requires NonNegative(ps)
    requires |FixableOf(ps)| > 0
    requires cycleLength >= Sum(UnfixableOf(ps))
    ensures SameUnfixable(AdjustedPhases(ps, cycleLength - Sum(ps)), ps)
    ensures Sum(AdjustedPhases(ps, cycleLength - Sum(ps))) == cycleLength
  {
    var diff := cycleLength - Sum(ps);
    var share := PerPhaseShare(diff, |FixableOf(ps)|);
    var sorted := SortBy(ByDurationDescending, ps);
    var run := Fixed(ps, diff);
    assert run == RunStrategies(0, share, sorted, diff);
    SortKeeps(ByDurationDescending, ps);
    SortBySorts(ByDurationDescending, ps);
    FilterPermutation(sorted, ps);
    PermutationSum(FixableOf(sorted), FixableOf(ps));
    assert |FixableOf(sorted)| == |FixableOf(ps)| by {
      assert |multiset(FixableOf(sorted))| == |multiset(FixableOf(ps))|;
    }
    SplitByFixable(ps);
    FixableStrategiesSuffice(share, sorted, diff);
    FixedConserves(ps, diff);
    SortKeeps(ByOrder, run.0);
    SortBySorts(ByOrder, run.0);
    forall p | !IsFixable(p)
      ensures Occurrences(SortBy(ByOrder, run.0), p) == Occurrences(ps, p)
    {
      OccurrencesCount(SortBy(ByOrder, run.0), p);
      OccurrencesCount(ps, p);
    }
  }

  /** Under the same conditions `rescale` leaves every unfixable phase as it
      is and reaches the cycle length. */
  lemma {:induction false} RescaleKeepsUnfixable(cycleLength: int, settings: LightSettings)
    requires NonNegative(settings.phases)
    requires |FixableOf(settings.phases)| > 0
    requires cycleLength >= Sum(UnfixableOf(settings.phases))
    ensures SameUnfixable(Rescaled(cycleLength, settings).phases, settings.phases)
    ensures Sum(Rescaled(cycleLength, settings).phases) == cycleLength
  {
    if Sum(settings.phases) == cycleLength {
      RescaleUnchanged(cycleLength, settings);
    } else {
      RescaleAdjusted(cycleLength, settings);
      AdjustedKeepsUnfixable(cycleLength, settings.phases);
    }
  }

  /** Rescaling settings that `rescale` has already brought to the cycle
      length changes nothing: for non-negative durations and a non-negative
      cycle length that any phase can take, rescaling twice is rescaling once. */
  lemma {:induction false} RescaleIdempotent(cycleLength: int, settings: LightSettings)
    requires NonNegative(settings.phases)
    requires cycleLength >= 0
    requires |settings.phases| > 0 || cycleLength == 0
    ensures Rescaled(cycleLength, Rescaled(cycleLength, settings)) == Rescaled(cycleLength, settings)
  {
    RescaleReachesCycleLength(cycleLength, settings);
    RescaleUnchanged(cycleLength, Rescaled(cycleLength, settings));
  }

  /** The even-share pass adds the share to every fixable phase, clamped at
      zero, and passes every unfixable phase through unchanged. */
  lemma {:induction false} EvenSharePass(share: int, ps: seq<Phase>, rem: int)
    requires NonNegative(ps)
    ensures |Pass(EvenShare, share, ps, rem).0| == |ps|
    ensures forall i | 0 <= i < |ps| ::
      Pass(EvenShare, share, ps, rem).0[i]
      == if IsFixable(ps[i]) then Phase(ps[i].state, Max(0, ps[i].duration + share)) else ps[i]
  {
    if ps != [] {
      NonNegativeTail(ps);
      var (p', rem') := Step(EvenShare, share, ps[0], rem);
      assert p' == if IsFixable(ps[0]) then Phase(ps[0].state, Max(0, ps[0].duration + share)) else ps[0];
      EvenSharePass(share, ps[1..], rem');
      var r := Pass(EvenShare, share, ps, rem).0;
      assert r == [p'] + Pass(EvenShare, share, ps[1..], rem').0;
      forall i | 1 <= i < |ps|
        ensures r[i] == if IsFixable(ps[i]) then Phase(ps[i].state, Max(0, ps[i].duration + share)) else ps[i]
      {
        assert r[i] == Pass(EvenShare, share, ps[1..], rem').0[i - 1];
        assert ps[1..][i - 1] == ps[i];
      }
    }
  }

  /** Over non-negative phases, the pass of the last strategy is the
      shortening walk of `withStateDuration` applied to every phase: each
      phase takes the running remainder, clamped at zero, in the same order
      and leaving the same remainder. */
  lemma {:induction false} RemainderPassIsAbsorb(share: int, ps: seq<Phase>, rem: int)
    requires NonNegative(ps)
    ensures Pass(AnyRemainder, share, ps, rem) == Absorb(ps, rem)
  {
    if ps != [] {
      NonNegativeTail(ps);
      var p := ps[0];
      var (p', rem') := Step(AnyRemainder, share, p, rem);
      var next := if rem < 0 && p.duration < -rem then rem + p.duration else 0;
      assert p' == Phase(p.state, Max(0, p.duration + rem));
      assert rem' == next;
      RemainderPassIsAbsorb(share, ps[1..], rem');
    }
  }

  /** Over non-negative phases, the pass of the second strategy is that walk
      applied to the fixable phases alone: they end as `Absorb` leaves them,
      the unfixable phases keep their durations and order, and the remainder
      is the one `Absorb` leaves. */
  lemma {:induction false} FixablePassIsAbsorb(share: int, ps: seq<Phase>, rem: int)
    requires NonNegative(ps)
    ensures FixableOf(Pass(FixableRemainder, share, ps, rem).0) == Absorb(FixableOf(ps), rem).0
    ensures UnfixableOf(Pass(FixableRemainder, share, ps, rem).0) == UnfixableOf(ps)
    ensures Pass(FixableRemainder, share, ps, rem).1 == Absorb(FixableOf(ps), rem).1
  {
    if ps != [] {
      NonNegativeTail(ps);
      var p := ps[0];
      var (p', rem') := Step(FixableRemainder, share, p, rem);
      var rest := Pass(FixableRemainder, share, ps[1..], rem');
      var r := [p'] + rest.0;
      assert Pass(FixableRemainder, share, ps, rem) == (r, rest.1);
      assert r[0] == p' && r[1..] == rest.0;
      FixablePassIsAbsorb(share, ps[1..], rem');
      if IsFixable(p) {
        var next := if rem < 0 && p.duration < -rem then rem + p.duration else 0;
        assert p' == Phase(p.state, Max(0, p.duration + rem));
        assert rem' == next;
        assert IsFixable(p');
        var f := FixableOf(ps);
        assert f == [p] + FixableOf(ps[1..]);
        assert f[0] == p && f[1..] == FixableOf(ps[1..]);
        assert FixableOf(r) == [p'] + FixableOf(rest.0);
        assert UnfixableOf(r) == UnfixableOf(rest.0);
      } else {
        assert p' == p && rem' == rem;
        assert FixableOf(ps) == FixableOf(ps[1..]);
        assert FixableOf(r) == FixableOf(rest.0);
        assert UnfixableOf(r) == [p] + UnfixableOf(rest.0);
      }
    }
  }

  /** When there is a difference to apply and a fixable phase to take it,
      `rescale` starts with the even-share pass over the phases sorted by
      descending duration: each fixable phase receives the whole number of
      seconds nearest to the difference divided among the fixable phases
      (clamped at zero), and the remaining strategies work on what is left. */
  lemma {:induction false} FixedEvenShare(ps: seq<Phase>, diff: int)
    requires NonNegative(ps) && diff != 0 && FixableOf(ps) != []
    ensures var k := |FixableOf(ps)|;
      var share := PerPhaseShare(diff, k);
      share % 1000 == 0 && diff - 500 * k < share * k <= diff + 500 * k
    ensures var share := PerPhaseShare(diff, |FixableOf(ps)|);
      var sorted := SortBy(ByDurationDescending, ps);
      var first := Pass(EvenShare, share, sorted, diff);
      Fixed(ps, diff) == RunStrategies(1, share, first.0, first.1)
      && |first.0| == |sorted|
      && forall i | 0 <= i < |sorted| ::
        first.0[i] == if IsFixable(sorted[i]) then Phase(sorted[i].state, Max(0, sorted[i].duration + share)) else sorted[i]
  {
    var k := |FixableOf(ps)|;
    RoundSecondsNearest(diff, k);
    var share := PerPhaseShare(diff, k);
    var sorted := SortBy(ByDurationDescending, ps);
    SortKeeps(ByDurationDescending, ps);
    EvenSharePass(share, sorted, diff);
  }
}

/** Phases of a traffic light's cycle and the bookkeeping over them that the
    rescaling and editing operations share (app/domain/light-config.ts). */
module Phases {

  /** The signal states the light configuration names. */
  datatype State = Red | RedYellow | Green | Yellow

  /** The attributes the state table gives each state: its canonical position
      in a cycle and its editing priority (the lit segments are rendering only). */
  datatype StateAttributes = StateAttributes(order: int, priority: int)

  /** The state attribute table. Its contents are not part of this model: the
      constant is left unspecified, so every property proved below holds for
      whatever orders and priorities the table assigns. */
  const STATE_ATTRIBUTES: State -> StateAttributes

  /** One phase of a cycle: a state shown for `duration` milliseconds. */
  datatype Phase = Phase(state: State, duration: int)

  /** A light's settings: a time offset and its cycle of phases. */
  datatype LightSettings = LightSettings(offset: int, phases: seq<Phase>)

  /** The part of the crossing's settings that the light configuration reads. */
  datatype CrossingSettings = CrossingSettings(cycleLength: int)

  /** A phase may absorb automatic duration adjustments when its state's
      priority is at least 3. */
  predicate IsFixable(p: Phase) {
    STATE_ATTRIBUTES(p.state).priority >= 3
  }

  /** `Math.max` on two integers. */
  function Max(a: int, b: int): int {
    if a >= b then a else b
  }

  /** `Math.min` on two integers. */
  function Min(a: int, b: int): int {
    if a <= b then a else b
  }

  /** Total duration of a list of phases. */
  function Sum(ps: seq<Phase>): int {
    if ps == [] then 0 else ps[0].duration + Sum(ps[1..])
  }

  /** The states of a list of phases, position by position. */
  function States(ps: seq<Phase>): (r: seq<State>)
    ensures |r| == |ps|
  {
    if ps == [] then [] else [ps[0].state] + States(ps[1..])
  }

  /** How many phases of `ps` are in state `s`. */
  function StateCount(ps: seq<Phase>, s: State): nat {
    if ps == [] then 0 else (if ps[0].state == s then 1 else 0) + StateCount(ps[1..], s)
  }

  /** How many times `p` occurs in `ps`. */
  function Occurrences(ps: seq<Phase>, p: Phase): nat {
    if ps == [] then 0 else (if ps[0] == p then 1 else 0) + Occurrences(ps[1..], p)
  }

  predicate NonNegative(ps: seq<Phase>) {
    forall i | 0 <= i < |ps| :: ps[i].duration >= 0
  }

  predicate DistinctStates(ps: seq<Phase>) {
    forall i, j | 0 <= i < j < |ps| :: ps[i].state != ps[j].state
  }

  /** The fixable phases of `ps`, in their order (`filter(isFixable)`). */
  function FixableOf(ps: seq<Phase>): seq<Phase> {
    if ps == [] then []
    else (if IsFixable(ps[0]) then [ps[0]] else []) + FixableOf(ps[1..])
  }

  /** The unfixable phases of `ps`, in their order. */
  function UnfixableOf(ps: seq<Phase>): seq<Phase> {
    if ps == [] then []
    else (if IsFixable(ps[0]) then [] else [ps[0]]) + UnfixableOf(ps[1..])
  }

  /** The phases of `ps` whose state is not `state`, in their order. */
  function WithoutState(ps: seq<Phase>, state: State): seq<Phase> {
    if ps == [] then []
    else (if ps[0].state == state then [] else [ps[0]]) + WithoutState(ps[1..], state)
  }

  /** Filtering by fixability keeps exactly the phases that pass, as often
      as they occur. */
  lemma {:induction false} FilterCounts(ps: seq<Phase>)
    ensures forall p :: multiset(FixableOf(ps))[p] == if IsFixable(p) then multiset(ps)[p] else 0
    ensures forall p :: multiset(UnfixableOf(ps))[p] == if IsFixable(p) then 0 else multiset(ps)[p]
  {
    if ps != [] {
      FilterCounts(ps[1..]);
      assert ps == [ps[0]] + ps[1..];
    }
  }

  /** Dropping a state removes every phase of that state and nothing else. */
  lemma {:induction false} WithoutStateCounts(ps: seq<Phase>, state: State)
    ensures forall p :: multiset(WithoutState(ps, state))[p] == if p.state == state then 0 else multiset(ps)[p]
  {
    if ps != [] {
      WithoutStateCounts(ps[1..], state);
      assert ps == [ps[0]] + ps[1..];
    }
  }

  lemma {:induction false} SumConcat(a: seq<Phase>, b: seq<Phase>)
    ensures Sum(a + b) == Sum(a) + Sum(b)
  {
    if a == [] {
      assert a + b == b;
    } else {
      assert (a + b)[1..] == a[1..] + b;
      SumConcat(a[1..], b);
    }
  }

  lemma {:induction false} StatesConcat(a: seq<Phase>, b: seq<Phase>)
    ensures States(a + b) == States(a) + States(b)
  {
    if a == [] {
      assert a + b == b;
    } else {
      assert (a + b)[1..] == a[1..] + b;
      StatesConcat(a[1..], b);
    }
  }

  lemma {:induction false} StateCountConcat(a: seq<Phase>, b: seq<Phase>)
    ensures forall s :: StateCount(a + b, s) == StateCount(a, s) + StateCount(b, s)
  {
    if a == [] {
      assert a + b == b;
    } else {
      assert (a + b)[1..] == a[1..] + b;
      StateCountConcat(a[1..], b);
    }
  }

  /** Lists with the same states position by position hold each state
      equally often. */
  lemma {:induction false} SameStatesSameCounts(a: seq<Phase>, b: seq<Phase>)
    requires States(a) == States(b)
    ensures forall s :: StateCount(a, s) == StateCount(b, s)
  {
    if a != [] {
      assert States(a)[1..] == States(a[1..]);
      assert States(b)[1..] == States(b[1..]);
      SameStatesSameCounts(a[1..], b[1..]);
    }
  }

  /** Taking one phase out of a list takes its duration out of the total and
      its state out of the state counts. */
  lemma {:induction false} RemoveAt(b: seq<Phase>, j: int)
    requires 0 <= j < |b|
    ensures Sum(b) == b[j].duration + Sum(b[..j] + b[j + 1..])
    ensures forall s :: StateCount(b, s) == (if b[j].state == s then 1 else 0) + StateCount(b[..j] + b[j + 1..], s)
  {
    var left, right := b[..j], b[j + 1..];
    assert b == left + ([b[j]] + right);
    assert ([b[j]] + right)[1..] == right;
    SumConcat(left, [b[j]] + right);
    SumConcat(left, right);
    StateCountConcat(left, [b[j]] + right);
    StateCountConcat(left, right);
  }

  lemma {:induction false} MultisetRemoveAt(b: seq<Phase>, j: int)
    requires 0 <= j < |b|
    ensures multiset(b[..j] + b[j + 1..]) == multiset(b) - multiset{b[j]}
  {
    assert b == b[..j] + [b[j]] + b[j + 1..];
  }

  /** The total duration and the states present depend only on the multiset
      of phases, not on their order. */
  lemma {:induction false} PermutationSum(a: seq<Phase>, b: seq<Phase>)
    requires multiset(a) == multiset(b)
    ensures Sum(a) == Sum(b)
    ensures forall s :: StateCount(a, s) == StateCount(b, s)
  {
    if a == [] {
      assert b == [] by { assert |b| == |multiset(b)| == 0; }
    } else {
      var x := a[0];
      assert x in multiset(b);
      var j :| 0 <= j < |b| && b[j] == x;
      var rest := b[..j] + b[j + 1..];
      RemoveAt(b, j);
      assert a == [x] + a[1..];
      assert multiset(a) == multiset{x} + multiset(a[1..]);
      MultisetRemoveAt(b, j);
      assert multiset(rest) == multiset(a[1..]);
      PermutationSum(a[1..], rest);
    }
  }

  lemma {:induction false} SplitByFixablePermutes(ps: seq<Phase>)
    ensures multiset(FixableOf(ps) + UnfixableOf(ps)) == multiset(ps)
  {
    FilterCounts(ps);
    assert forall p :: multiset(FixableOf(ps) + UnfixableOf(ps))[p] == multiset(ps)[p];
  }

  /** Splitting a list into its fixable and unfixable phases loses no
      duration and no state. */
  lemma {:induction false} SplitByFixable(ps: seq<Phase>)
    ensures Sum(FixableOf(ps)) + Sum(UnfixableOf(ps)) == Sum(ps)
    ensures forall s :: StateCount(FixableOf(ps), s) + StateCount(UnfixableOf(ps), s) == StateCount(ps, s)
  {
    SplitByFixablePermutes(ps);
    PermutationSum(FixableOf(ps) + UnfixableOf(ps), ps);
    SumConcat(FixableOf(ps), UnfixableOf(ps));
    StateCountConcat(FixableOf(ps), UnfixableOf(ps));
  }

  /** Permuting a list permutes its fixable and its unfixable phases. */
  lemma {:induction false} FilterPermutation(a: seq<Phase>, b: seq<Phase>)
    requires multiset(a) == multiset(b)
    ensures multiset(FixableOf(a)) == multiset(FixableOf(b))
    ensures multiset(UnfixableOf(a)) == multiset(UnfixableOf(b))
  {
    FilterCounts(a);
    FilterCounts(b);
    assert forall p :: multiset(FixableOf(a))[p] == multiset(FixableOf(b))[p];
    assert forall p :: multiset(UnfixableOf(a))[p] == multiset(UnfixableOf(b))[p];
  }

  /** `Occurrences` counts what the multiset of a list counts. */
  lemma {:induction false} OccurrencesCount(ps: seq<Phase>, p: Phase)
    ensures Occurrences(ps, p) == multiset(ps)[p]
  {
    if ps != [] {
      OccurrencesCount(ps[1..], p);
      assert ps == [ps[0]] + ps[1..];
    }
  }

  /** Counting over a concatenation adds the counts of its parts. */
  lemma {:induction false} OccurrencesConcat(a: seq<Phase>, b: seq<Phase>, p: Phase)
    ensures Occurrences(a + b, p) == Occurrences(a, p) + Occurrences(b, p)
  {
    if a != [] {
      OccurrencesConcat(a[1..], b, p);
      assert (a + b)[0] == a[0] && (a + b)[1..] == a[1..] + b;
    } else {
      assert a + b == b;
    }
  }

  /** Splitting a list by fixability splits the count of every phase. */
  lemma {:induction false} SplitOccurrences(ps: seq<Phase>, p: Phase)
    ensures Occurrences(FixableOf(ps), p) + Occurrences(UnfixableOf(ps), p) == Occurrences(ps, p)
  {
    if ps != [] {
      SplitOccurrences(ps[1..], p);
      var head := if IsFixable(ps[0]) then [] else [ps[0]];
      var fixedHead := if IsFixable(ps[0]) then [ps[0]] else [];
      OccurrencesConcat(head, UnfixableOf(ps[1..]), p);
      OccurrencesConcat(fixedHead, FixableOf(ps[1..]), p);
    }
  }

  /** A phase not in a list occurs in it zero times. */
  lemma {:induction false} AbsentOccurrences(ps: seq<Phase>, p: Phase)
    requires p !in ps
    ensures Occurrences(ps, p) == 0
  {
    if ps != [] {
      assert p !in ps[1..];
      AbsentOccurrences(ps[1..], p);
    }
  }

  /** `UnfixableOf` keeps every copy of an unfixable phase, and a list of
      fixable phases holds none. */
  lemma {:induction false} UnfixableOccurrences(ps: seq<Phase>, p: Phase)
    requires !IsFixable(p)
    ensures Occurrences(UnfixableOf(ps), p) == Occurrences(ps, p)
    ensures Occurrences(FixableOf(ps), p) == 0
  {
    if ps != [] {
      UnfixableOccurrences(ps[1..], p);
      var head := if IsFixable(ps[0]) then [] else [ps[0]];
      var fixedHead := if IsFixable(ps[0]) then [ps[0]] else [];
      OccurrencesConcat(head, UnfixableOf(ps[1..]), p);
      OccurrencesConcat(fixedHead, FixableOf(ps[1..]), p);
    }
  }

  lemma {:induction false} StatesIndex(ps: seq<Phase>)
    ensures forall i | 0 <= i < |ps| :: States(ps)[i] == ps[i].state
  {
    if ps != [] {
      StatesIndex(ps[1..]);
    }
  }

  lemma {:induction false} NonNegativeTail(ps: seq<Phase>)
    requires NonNegative(ps) && ps != []
    ensures NonNegative(ps[1..]) && ps[0].duration >= 0
  {
    forall i | 0 <= i < |ps[1..]| ensures ps[1..][i].duration >= 0 {
      assert ps[1..][i] == ps[i + 1];
    }
  }

  lemma {:induction false} SumNonNegative(ps: seq<Phase>)
    requires NonNegative(ps)
    ensures Sum(ps) >= 0
  {
    if ps != [] {
      NonNegativeTail(ps);
      SumNonNegative(ps[1..]);
    }
  }

  lemma {:induction false} NonNegativeConcat(a: seq<Phase>, b: seq<Phase>)
    requires NonNegative(a) && NonNegative(b)
    ensures NonNegative(a + b)
  {
    forall i | 0 <= i < |a + b| ensures (a + b)[i].duration >= 0 {
      if i >= |a| {
        assert (a + b)[i] == b[i - |a|];
      }
    }
  }

  /** A phase is among the unfixable phases of a list exactly when it is
      in the list and unfixable. */
  lemma {:induction false} UnfixableMember(ps: seq<Phase>, p: Phase)
    ensures p in UnfixableOf(ps) <==> p in ps && !IsFixable(p)
  {
    if ps != [] {
      UnfixableMember(ps[1..], p);
      assert ps == [ps[0]] + ps[1..];
    }
  }

  /** A phase is among the fixable phases of a list exactly when it is in
      the list and fixable. */
  lemma {:induction false} FixableMember(ps: seq<Phase>, p: Phase)
    ensures p in FixableOf(ps) <==> p in ps && IsFixable(p)
  {
    if ps != [] {
      FixableMember(ps[1..], p);
      assert ps == [ps[0]] + ps[1..];
    }
  }

  /** Every phase kept by `FixableOf` is fixable. */
  lemma {:induction false} FixableOfFixable(ps: seq<Phase>)
    ensures forall i | 0 <= i < |FixableOf(ps)| :: IsFixable(FixableOf(ps)[i])
  {
    if ps != [] {
      var head := if IsFixable(ps[0]) then [ps[0]] else [];
      FixableOfFixable(ps[1..]);
      forall i | |head| <= i < |FixableOf(ps)|
        ensures FixableOf(ps)[i] == FixableOf(ps[1..])[i - |head|]
      { }
    }
  }

  /** A phase survives dropping `state` exactly when it is in the list and
      in another state. */
  lemma {:induction false} WithoutStateMember(ps: seq<Phase>, state: State, p: Phase)
    ensures p in WithoutState(ps, state) <==> p in ps && p.state != state
  {
    if ps != [] {
      WithoutStateMember(ps[1..], state, p);
      assert ps == [ps[0]] + ps[1..];
    }
  }

  /** Filtering keeps durations non-negative. */
  lemma {:induction false} FilterNonNegative(ps: seq<Phase>)
    requires NonNegative(ps)
    ensures NonNegative(FixableOf(ps))
    ensures NonNegative(UnfixableOf(ps))
  {
    if ps != [] {
      NonNegativeTail(ps);
      FilterNonNegative(ps[1..]);
      NonNegativeConcat(if IsFixable(ps[0]) then [ps[0]] else [], FixableOf(ps[1..]));
      NonNegativeConcat(if IsFixable(ps[0]) then [] else [ps[0]], UnfixableOf(ps[1..]));
    }
  }

  lemma {:induction false} WithoutStateNonNegative(ps: seq<Phase>, state: State)
    requires NonNegative(ps)
    ensures NonNegative(WithoutState(ps, state))
  {
    if ps != [] {
      NonNegativeTail(ps);
      WithoutStateNonNegative(ps[1..], state);
      NonNegativeConcat(if ps[0].state == state then [] else [ps[0]], WithoutState(ps[1..], state));
    }
  }

  /** `Math.round(ms / divisor / 1000) * 1000` on exact rationals. */
  function RoundSeconds(ms: int, divisor: int): int
    requires divisor > 0
  {
    (2 * ms + 1000 * divisor) / (2000 * divisor) * 1000
  }

  /** The rounded share is a whole number of seconds and the nearest one to
      `ms / divisor`, a tie rounding up. */
  lemma {:induction false} RoundSecondsNearest(ms: int, divisor: int)
    requires divisor > 0
    ensures RoundSeconds(ms, divisor) % 1000 == 0
    ensures ms - 500 * divisor < RoundSeconds(ms, divisor) * divisor <= ms + 500 * divisor
  {
  }

  /** The settings a new light starts from. */
  const DEFAULT_LIGHT_SETTINGS: LightSettings := LightSettings(0, [
    Phase(Red, 30_000),
    Phase(RedYellow, 2_000),
    Phase(Green, 26_000),
    Phase(Yellow, 2_000)
  ])

  lemma {:induction false} DefaultLightSettingsWellFormed()
    ensures Sum(DEFAULT_LIGHT_SETTINGS.phases) == 60_000
    ensures NonNegative(DEFAULT_LIGHT_SETTINGS.phases)
    ensures DistinctStates(DEFAULT_LIGHT_SETTINGS.phases)
    ensures DEFAULT_LIGHT_SETTINGS.offset == 0
  {
  }
}

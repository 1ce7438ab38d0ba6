/** `LightConfig.withStateDuration` (app/domain/light-config.ts:97-120) as a
    specification: one state's phase is set to a new duration and the
    difference is pushed onto the other fixable phases, highest priority
    first; what they cannot absorb goes back to the edited phase. */
module StateDuration {
  import opened Phases
  import opened PhaseSort

  /** `phases.find(p => p.state == state)?.duration || 0`: the duration of the
      first phase in `state`, or 0 when there is none. */
  function FindDuration(ps: seq<Phase>, state: State): int {
    if ps == [] then 0
    else if ps[0].state == state then ps[0].duration
    else FindDuration(ps[1..], state)
  }

  /** The phases other than the edited one, sorted by priority and reversed:
      highest priority first, equal priorities in reverse list order. */
  function Remaining(ps: seq<Phase>, state: State): seq<Phase> {
    Reverse(SortBy(ByPriority, WithoutState(ps, state)))
  }

  /** The loop over the fixable phases. Each phase takes the current `diff`,
      clamped so it cannot go below zero. The `diff` passed on to the next
      phase is what this one could not give up when the edited phase grows,
      and nothing otherwise. Returns the adjusted phases and the final `diff`. */
  function Absorb(ps: seq<Phase>, diff: int): (seq<Phase>, int) {
    if ps == [] then ([], diff)
    else
      var p := ps[0];
      var next := if diff < 0 && p.duration < -diff then diff + p.duration else 0;
      var rest := Absorb(ps[1..], next);
      ([Phase(p.state, Max(0, p.duration + diff))] + rest.0, rest.1)
  }

  /** The settings `withStateDuration(state, newDuration)` returns for a light
      whose settings are `settings`. */
  function DurationEdited(settings: LightSettings, state: State, newDuration: int): LightSettings {
    var ps := settings.phases;
    LightSettings(settings.offset,
      SortBy(ByOrder, Redistributed(Remaining(ps, state), state, FindDuration(ps, state), newDuration)))
  }

  /** The phases the edit produces from the other phases `remaining` before
      they are sorted by state order: the adjusted fixable phases, the edited
      phase, the unfixable phases. */
  function Redistributed(remaining: seq<Phase>, state: State, oldDuration: int, newDuration: int): seq<Phase> {
    var absorbed := Absorb(FixableOf(remaining), oldDuration - newDuration);
    absorbed.0 + [Phase(state, newDuration + absorbed.1)] + UnfixableOf(remaining)
  }

  /** Over non-negative phases, the `diff` left after the loop is the part of
      a lengthening the phases could not give up, and nothing when there was
      a phase to take a shortening. */
  lemma {:induction false} AbsorbLeaves(ps: seq<Phase>, diff: int)
    requires NonNegative(ps)
    ensures Absorb(ps, diff).1 == if ps == [] then diff else Min(0, diff + Sum(ps))
  {
    if ps != [] {
      var p := ps[0];
      var next := if diff < 0 && p.duration < -diff then diff + p.duration else 0;
      NonNegativeTail(ps);
      AbsorbLeaves(ps[1..], next);
      if ps[1..] != [] {
        SumNonNegative(ps[1..]);
      }
    }
  }

  /** Over non-negative phases, the loop moves duration only between the
      phases and `diff`. */
  lemma {:induction false} AbsorbConserves(ps: seq<Phase>, diff: int)
    requires NonNegative(ps)
    ensures Sum(Absorb(ps, diff).0) + Absorb(ps, diff).1 == Sum(ps) + diff
  {
    if ps != [] {
      var p := ps[0];
      var next := if diff < 0 && p.duration < -diff then diff + p.duration else 0;
      var rest := Absorb(ps[1..], next).0;
      NonNegativeTail(ps);
      AbsorbConserves(ps[1..], next);
      assert ([Phase(p.state, Max(0, p.duration + diff))] + rest)[1..] == rest;
    }
  }

  /** The loop keeps every phase's state in place. */
  lemma {:induction false} AbsorbStates(ps: seq<Phase>, diff: int)
    ensures States(Absorb(ps, diff).0) == States(ps)
  {
    if ps != [] {
      var p := ps[0];
      var next := if diff < 0 && p.duration < -diff then diff + p.duration else 0;
      var rest := Absorb(ps[1..], next).0;
      AbsorbStates(ps[1..], next);
      assert ([Phase(p.state, Max(0, p.duration + diff))] + rest)[1..] == rest;
    }
  }

  /** The loop never leaves a negative duration. */
  lemma {:induction false} AbsorbNonNegative(ps: seq<Phase>, diff: int)
    ensures NonNegative(Absorb(ps, diff).0)
  {
    if ps != [] {
      var p := ps[0];
      var next := if diff < 0 && p.duration < -diff then diff + p.duration else 0;
      var rest := Absorb(ps[1..], next).0;
      AbsorbNonNegative(ps[1..], next);
      var out := [Phase(p.state, Max(0, p.duration + diff))] + rest;
      forall i | 1 <= i < |out| ensures out[i] == rest[i - 1] { }
    }
  }

  /** When the edited phase shrinks (`diff >= 0`), only the first phase
      changes, growing by exactly `diff`; the rest keep their durations. */
  lemma {:induction false} AbsorbShortening(ps: seq<Phase>, diff: int)
    requires NonNegative(ps) && ps != []
    requires diff >= 0
    ensures Absorb(ps, diff).0 == [Phase(ps[0].state, ps[0].duration + diff)] + ps[1..]
    ensures Absorb(ps, diff).1 == 0
  {
    NonNegativeTail(ps);
    AbsorbUnchanged(ps[1..]);
  }

  /** Each phase of `ps` cut by what is still owed of `-diff` after the
      phases before it, and never below zero. */
  function Lengthened(ps: seq<Phase>, diff: int): seq<Phase> {
    seq(|ps|, i requires 0 <= i < |ps| => Phase(ps[i].state, Max(0, ps[i].duration + Min(0, diff + Sum(ps[..i])))))
  }

  /** When the edited phase grows (`diff <= 0`), the phases give up
      duration in list order: each phase loses what is still owed after the
      phases before it, at most all it has. */
  lemma {:induction false} AbsorbLengthening(ps: seq<Phase>, diff: int)
    requires NonNegative(ps) && diff <= 0
    ensures |Absorb(ps, diff).0| == |ps|
    ensures forall i | 0 <= i < |ps| ::
      Absorb(ps, diff).0[i] == Phase(ps[i].state, Max(0, ps[i].duration + Min(0, diff + Sum(ps[..i]))))
  {
    if ps != [] {
      var p := ps[0];
      var next := if diff < 0 && p.duration < -diff then diff + p.duration else 0;
      NonNegativeTail(ps);
      assert next == Min(0, diff + p.duration);
      AbsorbLengthening(ps[1..], next);
      assert Sum(ps[..0]) == 0;
      forall i | 1 <= i < |ps|
        ensures Absorb(ps, diff).0[i] == Phase(ps[i].state, Max(0, ps[i].duration + Min(0, diff + Sum(ps[..i]))))
      {
        var before := ps[1..][..i - 1];
        assert ps[..i][1..] == before;
        assert Sum(ps[..i]) == p.duration + Sum(before);
        assert NonNegative(before) by {
          forall j | 0 <= j < |before| ensures before[j].duration >= 0 {
            assert before[j] == ps[j + 1];
          }
        }
        SumNonNegative(before);
        assert ps[1..][i - 1] == ps[i];
      }
    }
  }

  /** `AbsorbLengthening` as one equation: the loop computes `Lengthened`. */
  lemma {:induction false} AbsorbLengthened(ps: seq<Phase>, diff: int)
    requires NonNegative(ps) && diff <= 0
    ensures Absorb(ps, diff).0 == Lengthened(ps, diff)
  {
    AbsorbLengthening(ps, diff);
    var l := Lengthened(ps, diff);
    assert forall i | 0 <= i < |ps| :: Absorb(ps, diff).0[i] == l[i];
  }

  /** A zero `diff` changes no non-negative phase. */
  lemma {:induction false} AbsorbUnchanged(ps: seq<Phase>)
    requires NonNegative(ps)
    ensures Absorb(ps, 0) == (ps, 0)
  {
    if ps != [] {
      NonNegativeTail(ps);
      AbsorbUnchanged(ps[1..]);
      assert ps == [Phase(ps[0].state, ps[0].duration)] + ps[1..];
    }
  }

  /** When the edited state occurs at most once, dropping it takes exactly
      the duration `find` returns out of the total; other states may
      repeat. */
  lemma {:induction false} WithoutStateSum(ps: seq<Phase>, state: State)
    requires StateCount(ps, state) <= 1
    ensures Sum(WithoutState(ps, state)) + FindDuration(ps, state) == Sum(ps)
  {
    if ps != [] {
      if ps[0].state == state {
        assert WithoutState(ps, state) == [] + WithoutState(ps[1..], state) == WithoutState(ps[1..], state);
        forall i | 0 <= i < |ps[1..]| ensures ps[1..][i].state != state {
          if ps[1..][i].state == state {
            StateCountMember(ps[1..], ps[1..][i]);
          }
        }
        WithoutStateAbsent(ps[1..], state);
      } else {
        WithoutStateSum(ps[1..], state);
      }
    }
  }

  /** Dropping a state that does not occur changes nothing. */
  lemma {:induction false} WithoutStateAbsent(ps: seq<Phase>, state: State)
    requires forall i | 0 <= i < |ps| :: ps[i].state != state
    ensures WithoutState(ps, state) == ps
  {
    if ps != [] {
      WithoutStateAbsent(ps[1..], state);
      assert ps == [ps[0]] + ps[1..];
    }
  }

  /** Dropping a state removes every phase in it and no other. */
  lemma {:induction false} WithoutStateStates(ps: seq<Phase>, state: State)
    ensures forall s :: StateCount(WithoutState(ps, state), s)
                       == if s == state then 0 else StateCount(ps, s)
  {
    if ps != [] {
      var head := if ps[0].state == state then [] else [ps[0]];
      WithoutStateStates(ps[1..], state);
      StateCountConcat(head, WithoutState(ps[1..], state));
    }
  }

  lemma {:induction false} FindDurationNonNegative(ps: seq<Phase>, state: State)
    requires NonNegative(ps)
    ensures FindDuration(ps, state) >= 0
  {
    if ps != [] {
      NonNegativeTail(ps);
      FindDurationNonNegative(ps[1..], state);
    }
  }

  /** The phases the edit redistributes over are the other phases, in another
      order. */
  lemma {:induction false} RemainingCounts(ps: seq<Phase>, state: State)
    ensures multiset(Remaining(ps, state)) == multiset(WithoutState(ps, state))
    ensures multiset(Remaining(ps, state)) <= multiset(ps)
  {
    var w := WithoutState(ps, state);
    SortBySorts(ByPriority, w);
    ReverseCounts(SortBy(ByPriority, w));
    WithoutStateCounts(ps, state);
  }

  /** The fixable and the unfixable other phases are non-negative when the
      input is. */
  lemma {:induction false} RemainingNonNegative(ps: seq<Phase>, state: State)
    requires NonNegative(ps)
    ensures NonNegative(Remaining(ps, state))
    ensures NonNegative(FixableOf(Remaining(ps, state)))
    ensures NonNegative(UnfixableOf(Remaining(ps, state)))
  {
    var w := WithoutState(ps, state);
    WithoutStateNonNegative(ps, state);
    SortKeeps(ByPriority, w);
    ReverseNonNegative(SortBy(ByPriority, w));
    FilterNonNegative(Remaining(ps, state));
  }

  /** The total after redistribution is the total of the other phases plus
      the old duration of the edited one. */
  lemma {:induction false} RedistributedSum(remaining: seq<Phase>, state: State, oldDuration: int, newDuration: int)
    requires NonNegative(FixableOf(remaining))
    ensures Sum(Redistributed(remaining, state, oldDuration, newDuration)) == Sum(remaining) + oldDuration
  {
    var fixable, unfixable := FixableOf(remaining), UnfixableOf(remaining);
    var absorbed := Absorb(fixable, oldDuration - newDuration);
    var edited := [Phase(state, newDuration + absorbed.1)];
    AbsorbConserves(fixable, oldDuration - newDuration);
    SplitByFixable(remaining);
    SumConcat(absorbed.0, edited);
    SumConcat(absorbed.0 + edited, unfixable);
  }

  /** When the edited state occurs at most once and the durations are
      non-negative, editing a phase's duration keeps the total duration of
      the cycle. Other states may repeat. */
  lemma {:induction false} EditKeepsTotal(settings: LightSettings, state: State, newDuration: int)
    requires StateCount(settings.phases, state) <= 1
    requires NonNegative(settings.phases)
    ensures Sum(DurationEdited(settings, state, newDuration).phases) == Sum(settings.phases)
  {
    var ps := settings.phases;
    var rem := Remaining(ps, state);
    RemainingNonNegative(ps, state);
    RedistributedSum(rem, state, FindDuration(ps, state), newDuration);
    RemainingCounts(ps, state);
    PermutationSum(rem, WithoutState(ps, state));
    WithoutStateSum(ps, state);
    SortKeeps(ByOrder, Redistributed(rem, state, FindDuration(ps, state), newDuration));
  }

  /** The edited phase ends with a non-negative duration when the old and
      new durations and the phases that absorb the difference are
      non-negative: it is the old duration when no phase absorbs, and
      otherwise the new duration cut to what the phases could give up. */
  lemma {:induction false} EditedDurationNonNegative(ps: seq<Phase>, oldDuration: int, newDuration: int)
    requires NonNegative(ps)
    requires oldDuration >= 0 && newDuration >= 0
    ensures newDuration + Absorb(ps, oldDuration - newDuration).1 >= 0
  {
    AbsorbLeaves(ps, oldDuration - newDuration);
    SumNonNegative(ps);
  }

  /** Redistributing non-negative phases with non-negative old and new
      durations leaves no negative duration. */
  lemma {:induction false} RedistributedNonNegative(remaining: seq<Phase>, state: State, oldDuration: int, newDuration: int)
    requires NonNegative(remaining)
    requires oldDuration >= 0 && newDuration >= 0
    ensures NonNegative(Redistributed(remaining, state, oldDuration, newDuration))
  {
    var fixable, unfixable := FixableOf(remaining), UnfixableOf(remaining);
    var absorbed := Absorb(fixable, oldDuration - newDuration);
    var edited := [Phase(state, newDuration + absorbed.1)];
    FilterNonNegative(remaining);
    AbsorbNonNegative(fixable, oldDuration - newDuration);
    EditedDurationNonNegative(fixable, oldDuration, newDuration);
    NonNegativeConcat(absorbed.0, edited);
    NonNegativeConcat(absorbed.0 + edited, unfixable);
  }

  /** With non-negative durations and a non-negative new duration, every
      duration after the edit is non-negative. */
  lemma {:induction false} EditNonNegative(settings: LightSettings, state: State, newDuration: int)
    requires NonNegative(settings.phases)
    requires newDuration >= 0
    ensures NonNegative(DurationEdited(settings, state, newDuration).phases)
  {
    var ps := settings.phases;
    var rem := Remaining(ps, state);
    RemainingNonNegative(ps, state);
    FindDurationNonNegative(ps, state);
    RedistributedNonNegative(rem, state, FindDuration(ps, state), newDuration);
    SortKeeps(ByOrder, Redistributed(rem, state, FindDuration(ps, state), newDuration));
  }

  /** Redistribution keeps the states of the other phases and adds the edited
      state once. */
  lemma {:induction false} RedistributedStates(remaining: seq<Phase>, state: State, oldDuration: int, newDuration: int)
    ensures forall s :: StateCount(Redistributed(remaining, state, oldDuration, newDuration), s)
                       == StateCount(remaining, s) + if s == state then 1 else 0
  {
    var fixable, unfixable := FixableOf(remaining), UnfixableOf(remaining);
    var absorbed := Absorb(fixable, oldDuration - newDuration);
    var edited := [Phase(state, newDuration + absorbed.1)];
    AbsorbStates(fixable, oldDuration - newDuration);
    SameStatesSameCounts(absorbed.0, fixable);
    SplitByFixable(remaining);
    StateCountConcat(absorbed.0, edited);
    StateCountConcat(absorbed.0 + edited, unfixable);
    forall s ensures StateCount(edited, s) == if s == state then 1 else 0 {
      assert edited[1..] == [];
    }
  }

  /** The edit keeps the offset, returns the phases sorted by state order,
      holds the edited state exactly once (adding it when it was missing) and
      every other state as often as before. */
  lemma {:induction false} EditStates(settings: LightSettings, state: State, newDuration: int)
    ensures DurationEdited(settings, state, newDuration).offset == settings.offset
    ensures Ordered(ByOrder, DurationEdited(settings, state, newDuration).phases)
    ensures StateCount(DurationEdited(settings, state, newDuration).phases, state) == 1
    ensures forall s | s != state ::
      StateCount(DurationEdited(settings, state, newDuration).phases, s) == StateCount(settings.phases, s)
  {
    var ps := settings.phases;
    var rem := Remaining(ps, state);
    RedistributedStates(rem, state, FindDuration(ps, state), newDuration);
    RemainingCounts(ps, state);
    PermutationSum(rem, WithoutState(ps, state));
    WithoutStateStates(ps, state);
    SortKeeps(ByOrder, Redistributed(rem, state, FindDuration(ps, state), newDuration));
  }

  /** Shrinking a phase while another fixable phase exists: the first
      fixable phase of `remaining` takes the whole difference, the edited
      phase gets exactly its new duration and nothing else changes. Over
      `Remaining`, that first phase has the highest priority
      (`ShorteningTarget`). */
  lemma {:induction false} RedistributedShortening(remaining: seq<Phase>, state: State, oldDuration: int, newDuration: int)
    requires NonNegative(FixableOf(remaining)) && FixableOf(remaining) != []
    requires newDuration <= oldDuration
    ensures var f := FixableOf(remaining);
      Redistributed(remaining, state, oldDuration, newDuration)
      == [Phase(f[0].state, f[0].duration + (oldDuration - newDuration))] + f[1..]
         + [Phase(state, newDuration)] + UnfixableOf(remaining)
  {
    AbsorbShortening(FixableOf(remaining), oldDuration - newDuration);
  }

  /** The edited phase follows the fixable phases. It gets the new duration
      as far as they can give it up, and keeps its old duration when there is
      no fixable phase to absorb the difference. */
  lemma {:induction false} RedistributedEditedDuration(remaining: seq<Phase>, state: State, oldDuration: int, newDuration: int)
    requires NonNegative(FixableOf(remaining))
    ensures var f := FixableOf(remaining);
      var r := Redistributed(remaining, state, oldDuration, newDuration);
      |f| < |r| &&
      r[|f|] == Phase(state, if f == [] then oldDuration else Min(newDuration, oldDuration + Sum(f)))
  {
    var f := FixableOf(remaining);
    AbsorbKeepsFixable(f, oldDuration - newDuration);
    AbsorbLeaves(f, oldDuration - newDuration);
  }

  /** Growing a phase: the fixable phases, in their order, each give up
      what is still owed after those before them, at most all they have
      (`Lengthened`). The edited phase follows them with the new duration
      as far as they could give it up, and the unfixable phases come last,
      unchanged. */
  lemma {:induction false} RedistributedLengthening(remaining: seq<Phase>, state: State, oldDuration: int, newDuration: int)
    requires NonNegative(FixableOf(remaining))
    requires oldDuration <= newDuration
    ensures var f := FixableOf(remaining);
      Redistributed(remaining, state, oldDuration, newDuration)
      == Lengthened(f, oldDuration - newDuration)
         + [Phase(state, if f == [] then oldDuration else Min(newDuration, oldDuration + Sum(f)))]
         + UnfixableOf(remaining)
  {
    var f := FixableOf(remaining);
    RedistributedLayout(remaining, state, oldDuration, newDuration);
    AbsorbLengthened(f, oldDuration - newDuration);
  }

  /** Over non-negative fixable phases, the edit's list before sorting is
      the absorbed fixable phases, the edited phase with its final duration,
      and the unfixable phases. */
  lemma {:induction false} RedistributedLayout(remaining: seq<Phase>, state: State, oldDuration: int, newDuration: int)
    requires NonNegative(FixableOf(remaining))
    ensures var f := FixableOf(remaining);
      Redistributed(remaining, state, oldDuration, newDuration)
      == Absorb(f, oldDuration - newDuration).0
         + [Phase(state, if f == [] then oldDuration else Min(newDuration, oldDuration + Sum(f)))]
         + UnfixableOf(remaining)
  {
    AbsorbLeaves(FixableOf(remaining), oldDuration - newDuration);
  }

  /** The fixable phases among the other phases are the same before and
      after they are ordered by priority. */
  lemma {:induction false} RemainingFixable(ps: seq<Phase>, state: State)
    ensures Sum(FixableOf(Remaining(ps, state))) == Sum(FixableOf(WithoutState(ps, state)))
    ensures FixableOf(Remaining(ps, state)) == [] <==> FixableOf(WithoutState(ps, state)) == []
  {
    var rem, w := Remaining(ps, state), WithoutState(ps, state);
    RemainingCounts(ps, state);
    FilterPermutation(rem, w);
    PermutationSum(FixableOf(rem), FixableOf(w));
    assert |multiset(FixableOf(rem))| == |multiset(FixableOf(w))|;
  }

  /** A phase is among the other phases exactly when it is in the input in
      another state. */
  lemma {:induction false} RemainingMember(ps: seq<Phase>, state: State, p: Phase)
    ensures p in Remaining(ps, state) <==> p in ps && p.state != state
  {
    RemainingCounts(ps, state);
    WithoutStateMember(ps, state, p);
    assert p in Remaining(ps, state) <==> p in multiset(Remaining(ps, state));
    assert p in WithoutState(ps, state) <==> p in multiset(WithoutState(ps, state));
  }

  lemma {:induction false} SortByMember(key: SortKey, ps: seq<Phase>, p: Phase)
    ensures p in SortBy(key, ps) <==> p in ps
  {
    SortBySorts(key, ps);
    assert p in SortBy(key, ps) <==> p in multiset(SortBy(key, ps));
  }

  /** A phase in a list whose state occurs once is the one `find` returns. */
  lemma {:induction false} FindUnique(ps: seq<Phase>, p: Phase)
    requires p in ps && StateCount(ps, p.state) == 1
    ensures FindDuration(ps, p.state) == p.duration
  {
    if ps[0] != p {
      assert p in ps[1..] by { assert ps == [ps[0]] + ps[1..]; }
      StateCountMember(ps[1..], p);
      FindUnique(ps[1..], p);
    }
  }

  lemma {:induction false} StateCountMember(ps: seq<Phase>, p: Phase)
    requires p in ps
    ensures StateCount(ps, p.state) >= 1
  {
    if ps[0] != p {
      assert p in ps[1..] by { assert ps == [ps[0]] + ps[1..]; }
      StateCountMember(ps[1..], p);
    }
  }

  /** The duration the edited state ends with: the new duration when the
      other fixable phases can give up enough (all of it when shrinking),
      the old duration plus all they have when they cannot, and the old
      duration unchanged when there is no other fixable phase. */
  lemma {:induction false} EditSetsDuration(settings: LightSettings, state: State, newDuration: int)
    requires NonNegative(settings.phases)
    ensures var ps := settings.phases;
      var others := FixableOf(WithoutState(ps, state));
      var oldDuration := FindDuration(ps, state);
      FindDuration(DurationEdited(settings, state, newDuration).phases, state)
      == if others == [] then oldDuration else Min(newDuration, oldDuration + Sum(others))
  {
    var ps := settings.phases;
    var rem := Remaining(ps, state);
    var oldDuration := FindDuration(ps, state);
    var red := Redistributed(rem, state, oldDuration, newDuration);
    var f := FixableOf(rem);
    RemainingNonNegative(ps, state);
    RemainingFixable(ps, state);
    RedistributedEditedDuration(rem, state, oldDuration, newDuration);
    var edited := red[|f|];
    SortByMember(ByOrder, red, edited);
    EditStates(settings, state, newDuration);
    FindUnique(DurationEdited(settings, state, newDuration).phases, edited);
  }

  /** The unfixable phases in other states come through the edit exactly
      as they were, each as often as before. */
  lemma {:induction false} EditKeepsUnfixable(settings: LightSettings, state: State, newDuration: int)
    ensures forall p | !IsFixable(p) && p.state != state ::
      Occurrences(DurationEdited(settings, state, newDuration).phases, p) == Occurrences(settings.phases, p)
  {
    forall p | !IsFixable(p) && p.state != state
      ensures Occurrences(DurationEdited(settings, state, newDuration).phases, p) == Occurrences(settings.phases, p)
    {
      EditKeepsUnfixableAt(settings, state, newDuration, p);
    }
  }

  lemma {:induction false} EditKeepsUnfixableAt(settings: LightSettings, state: State, newDuration: int, p: Phase)
    requires !IsFixable(p) && p.state != state
    ensures Occurrences(DurationEdited(settings, state, newDuration).phases, p) == Occurrences(settings.phases, p)
  {
    var ps := settings.phases;
    var rem := Remaining(ps, state);
    var red := Redistributed(rem, state, FindDuration(ps, state), newDuration);
    RedistributedKeepsUnfixable(rem, state, FindDuration(ps, state), newDuration, p);
    assert Occurrences(rem, p) == Occurrences(ps, p) by {
      RemainingCounts(ps, state);
      WithoutStateCounts(ps, state);
      OccurrencesCount(rem, p);
      OccurrencesCount(ps, p);
    }
    assert Occurrences(DurationEdited(settings, state, newDuration).phases, p) == Occurrences(red, p) by {
      SortBySorts(ByOrder, red);
      OccurrencesCount(red, p);
      OccurrencesCount(SortBy(ByOrder, red), p);
    }
  }

  /** Before sorting, the edit holds each unfixable phase of another state
      as often as the other phases do. */
  lemma {:induction false} RedistributedKeepsUnfixable(remaining: seq<Phase>, state: State, oldDuration: int, newDuration: int, p: Phase)
    requires !IsFixable(p) && p.state != state
    ensures Occurrences(Redistributed(remaining, state, oldDuration, newDuration), p) == Occurrences(remaining, p)
  {
    var absorbed := Absorb(FixableOf(remaining), oldDuration - newDuration);
    var edited := Phase(state, newDuration + absorbed.1);
    OccurrencesConcat(absorbed.0 + [edited], UnfixableOf(remaining), p);
    OccurrencesConcat(absorbed.0, [edited], p);
    assert Occurrences([edited], p) == 0;
    UnfixableOccurrences(remaining, p);
    AbsorbHoldsNoUnfixable(remaining, oldDuration - newDuration, p);
  }

  /** The phases `Absorb` returns for the fixable phases hold no unfixable
      phase. */
  lemma {:induction false} AbsorbHoldsNoUnfixable(remaining: seq<Phase>, diff: int, p: Phase)
    requires !IsFixable(p)
    ensures Occurrences(Absorb(FixableOf(remaining), diff).0, p) == 0
  {
    var absorbed := Absorb(FixableOf(remaining), diff).0;
    assert p !in absorbed by {
      AbsorbKeepsFixable(FixableOf(remaining), diff);
      FixableOfFixable(remaining);
      forall i | 0 <= i < |absorbed| ensures IsFixable(absorbed[i]) { }
    }
    AbsentOccurrences(absorbed, p);
  }

  /** `Absorb` turns fixable phases into fixable phases. */
  lemma {:induction false} AbsorbKeepsFixable(ps: seq<Phase>, diff: int)
    ensures |Absorb(ps, diff).0| == |ps|
    ensures forall i | 0 <= i < |ps| :: IsFixable(Absorb(ps, diff).0[i]) == IsFixable(ps[i])
  {
    AbsorbStates(ps, diff);
    StatesIndex(ps);
    StatesIndex(Absorb(ps, diff).0);
  }

  /** Priorities never increase along a list. */
  predicate PriorityDescending(ps: seq<Phase>) {
    forall i, j | 0 <= i < j < |ps| ::
      STATE_ATTRIBUTES(ps[i].state).priority >= STATE_ATTRIBUTES(ps[j].state).priority
  }

  /** The other phases come highest priority first, and phases of equal
      priority come in the reverse of their order in the input. */
  lemma {:induction false} RemainingOrder(ps: seq<Phase>, state: State)
    ensures PriorityDescending(Remaining(ps, state))
    ensures forall k :: WithKey(ByPriority, k, Remaining(ps, state))
                        == Reverse(WithKey(ByPriority, k, WithoutState(ps, state)))
  {
    var w := WithoutState(ps, state);
    var sorted := SortBy(ByPriority, w);
    SortBySorts(ByPriority, w);
    SortByStable(ByPriority, w);
    ReverseIndex(sorted);
    forall i, j | 0 <= i < j < |Reverse(sorted)|
      ensures STATE_ATTRIBUTES(Reverse(sorted)[i].state).priority >= STATE_ATTRIBUTES(Reverse(sorted)[j].state).priority
    {
      assert Key(ByPriority, sorted[|sorted| - 1 - j]) <= Key(ByPriority, sorted[|sorted| - 1 - i]);
    }
    forall k ensures WithKey(ByPriority, k, Reverse(sorted)) == Reverse(WithKey(ByPriority, k, w)) {
      ReverseWithKey(ByPriority, k, sorted);
    }
  }

  /** In a list ordered by descending priority, the first fixable phase has
      the highest priority of all fixable phases. */
  lemma {:induction false} FirstFixableHighest(rs: seq<Phase>)
    requires PriorityDescending(rs) && FixableOf(rs) != []
    ensures forall j | 0 <= j < |rs| && IsFixable(rs[j]) ::
      STATE_ATTRIBUTES(rs[j].state).priority <= STATE_ATTRIBUTES(FixableOf(rs)[0].state).priority
  {
    if IsFixable(rs[0]) {
      assert FixableOf(rs)[0] == rs[0];
    } else {
      assert FixableOf(rs) == FixableOf(rs[1..]);
      assert PriorityDescending(rs[1..]) by {
        forall i, j | 0 <= i < j < |rs[1..]|
          ensures STATE_ATTRIBUTES(rs[1..][i].state).priority >= STATE_ATTRIBUTES(rs[1..][j].state).priority
        {
          assert rs[1..][i] == rs[i + 1] && rs[1..][j] == rs[j + 1];
        }
      }
      FirstFixableHighest(rs[1..]);
      forall j | 1 <= j < |rs| ensures rs[j] == rs[1..][j - 1] { }
    }
  }

  /** When another phase is fixable, the phase that takes a shortening is a
      fixable phase in another state whose priority is the highest among
      them. */
  lemma {:induction false} ShorteningTarget(ps: seq<Phase>, state: State)
    requires FixableOf(WithoutState(ps, state)) != []
    ensures FixableOf(Remaining(ps, state)) != [] &&
      var f := FixableOf(Remaining(ps, state))[0];
      IsFixable(f) && f in WithoutState(ps, state) &&
      forall q | q in WithoutState(ps, state) && IsFixable(q) ::
        STATE_ATTRIBUTES(q.state).priority <= STATE_ATTRIBUTES(f.state).priority
  {
    var rem := Remaining(ps, state);
    RemainingFixable(ps, state);
    var f := FixableOf(rem)[0];
    FixableOfFixable(rem);
    FixableMember(rem, f);
    RemainingMember(ps, state, f);
    WithoutStateMember(ps, state, f);
    RemainingOrder(ps, state);
    FirstFixableHighest(rem);
    forall q | q in WithoutState(ps, state) && IsFixable(q)
      ensures STATE_ATTRIBUTES(q.state).priority <= STATE_ATTRIBUTES(f.state).priority
    {
      WithoutStateMember(ps, state, q);
      RemainingMember(ps, state, q);
      var j :| 0 <= j < |rem| && rem[j] == q;
    }
  }

  /** Shrinking a phase while another phase is fixable: the result holds
      the other phases with only the one named by `ShorteningTarget` grown
      by the whole difference, plus the edited phase with exactly its new
      duration. Counted phase by phase: the result plus that phase holds
      every phase as often as the other phases plus its grown copy and the
      edited phase do. */
  lemma {:induction false} EditShortening(settings: LightSettings, state: State, newDuration: int)
    requires NonNegative(settings.phases)
    requires newDuration <= FindDuration(settings.phases, state)
    requires FixableOf(WithoutState(settings.phases, state)) != []
    ensures FixableOf(Remaining(settings.phases, state)) != [] &&
      var f := FixableOf(Remaining(settings.phases, state))[0];
      var grown := Phase(f.state, f.duration + (FindDuration(settings.phases, state) - newDuration));
      forall p :: Occurrences(DurationEdited(settings, state, newDuration).phases, p) + (if p == f then 1 else 0)
                  == Occurrences(WithoutState(settings.phases, state), p)
                     + (if p == grown then 1 else 0) + (if p == Phase(state, newDuration) then 1 else 0)
  {
    assert FixableOf(Remaining(settings.phases, state)) != [] by {
      RemainingFixable(settings.phases, state);
    }
    forall p ensures
      var f := FixableOf(Remaining(settings.phases, state))[0];
      var grown := Phase(f.state, f.duration + (FindDuration(settings.phases, state) - newDuration));
      Occurrences(DurationEdited(settings, state, newDuration).phases, p) + (if p == f then 1 else 0)
      == Occurrences(WithoutState(settings.phases, state), p)
         + (if p == grown then 1 else 0) + (if p == Phase(state, newDuration) then 1 else 0)
    {
      EditShorteningAt(settings, state, newDuration, p);
    }
  }

  lemma {:induction false} EditShorteningAt(settings: LightSettings, state: State, newDuration: int, p: Phase)
    requires NonNegative(settings.phases)
    requires newDuration <= FindDuration(settings.phases, state)
    requires FixableOf(WithoutState(settings.phases, state)) != []
    ensures FixableOf(Remaining(settings.phases, state)) != [] &&
      var f := FixableOf(Remaining(settings.phases, state))[0];
      var grown := Phase(f.state, f.duration + (FindDuration(settings.phases, state) - newDuration));
      Occurrences(DurationEdited(settings, state, newDuration).phases, p) + (if p == f then 1 else 0)
      == Occurrences(WithoutState(settings.phases, state), p)
         + (if p == grown then 1 else 0) + (if p == Phase(state, newDuration) then 1 else 0)
  {
    var ps := settings.phases;
    var rem, w := Remaining(ps, state), WithoutState(ps, state);
    assert FixableOf(rem) != [] by {
      RemainingFixable(ps, state);
    }
    var red := Redistributed(rem, state, FindDuration(ps, state), newDuration);
    assert NonNegative(FixableOf(rem)) by {
      RemainingNonNegative(ps, state);
    }
    RedistributedShorteningCounts(rem, state, FindDuration(ps, state), newDuration, p);
    assert Occurrences(rem, p) == Occurrences(w, p) by {
      RemainingCounts(ps, state);
      OccurrencesCount(rem, p);
      OccurrencesCount(w, p);
    }
    assert Occurrences(DurationEdited(settings, state, newDuration).phases, p) == Occurrences(red, p) by {
      SortBySorts(ByOrder, red);
      OccurrencesCount(red, p);
      OccurrencesCount(SortBy(ByOrder, red), p);
    }
  }

  /** Before sorting, a shortening replaces the first fixable phase by its
      grown copy and adds the edited phase, counted phase by phase. */
  lemma {:induction false} RedistributedShorteningCounts(remaining: seq<Phase>, state: State, oldDuration: int, newDuration: int, p: Phase)
    requires NonNegative(FixableOf(remaining)) && FixableOf(remaining) != []
    requires newDuration <= oldDuration
    ensures var f := FixableOf(remaining)[0];
      var grown := Phase(f.state, f.duration + (oldDuration - newDuration));
      Occurrences(Redistributed(remaining, state, oldDuration, newDuration), p) + (if p == f then 1 else 0)
      == Occurrences(remaining, p) + (if p == grown then 1 else 0) + (if p == Phase(state, newDuration) then 1 else 0)
  {
    var fixable, unfixable := FixableOf(remaining), UnfixableOf(remaining);
    var f := fixable[0];
    var grown := Phase(f.state, f.duration + (oldDuration - newDuration));
    var edited := Phase(state, newDuration);
    RedistributedShortening(remaining, state, oldDuration, newDuration);
    OccurrencesConcat([grown] + fixable[1..] + [edited], unfixable, p);
    OccurrencesConcat([grown] + fixable[1..], [edited], p);
    OccurrencesConcat([grown], fixable[1..], p);
    assert fixable == [f] + fixable[1..];
    OccurrencesConcat([f], fixable[1..], p);
    SplitOccurrences(remaining, p);
    assert Occurrences([grown], p) == if p == grown then 1 else 0;
    assert Occurrences([edited], p) == if p == edited then 1 else 0;
    assert Occurrences([f], p) == if p == f then 1 else 0;
  }
}

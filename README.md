# Traffic-light phase arithmetic, in Dafny

This project models the phase-duration arithmetic of a traffic-light
simulator: the `LightConfig` class of `app/domain/light-config.ts`. It also
models the one-line cycle-boundary listener of the intersection view.

A light's cycle is a list of phases. Each phase pairs a signal state with a
duration in milliseconds. A `LightConfig` is built from the crossing's
settings (its cycle length) and a light's settings (an offset and the
phases). Its operations are:

- **rescale** forces the durations to sum to the cycle length. It takes the
  signed difference and works through up to three passes over the phases,
  largest duration first, stopping once nothing remains:
  1. every fixable phase takes an even share, rounded to whole seconds;
  2. the fixable phases take the running remainder;
  3. any phase takes the running remainder.

  Each delta is clamped so that no duration drops below zero. A phase is
  *fixable* when its state's priority is at least 3.
- **withStateDuration** sets one state's phase to a new duration. The
  difference is walked through the other fixable phases, highest priority
  first, each clamped at zero. What they cannot absorb is folded back into
  the edited phase. The result is sorted by state order.
- **withOffset** rounds an offset to the nearest whole second.
- **toLightSettings**, **cycleLength**, **isFixable**, **roundSeconds**, the
  two sort comparators and the default settings of a new light.

Modules:

- `Phases` (`phase.dfy`): states, phases, settings, sums, filters, exact
  rounding to seconds, the default settings.
- `PhaseSort` (`sorting.dfy`): the three comparators as a `SortKey`, the
  stable sort `toSorted` performs with them, and `reverse`.
- `Rescaling` (`rescale.dfy`): `rescale` as functions (`Pass`,
  `RunStrategies`, `Rescaled`) and the lemmas about them.
- `StateDuration` (`state_duration.dfy`): `withStateDuration` as functions
  (`Absorb`, `Redistributed`, `DurationEdited`) and the lemmas about them.
- `Config` (`light_config.dfy`): the `LightConfig` class.
  - Its fields are `const`, because the source assigns them only in the
    constructor.
  - The source's loops become methods with loop invariants: `Rescale` with
    its `map` pass `ApplyStrategy`, and `WithStateDuration` with its loop
    `AbsorbDifference`.
  - Each method is proved equal to the specification function above it.
- `Intersection` (`intersection.dfy`): the next cycle boundary after a
  timestamp.

The state table `STATE_ATTRIBUTES` lives in a file that is not part of this
model. It is an uninterpreted constant `STATE_ATTRIBUTES: State ->
StateAttributes`, so every property holds whatever orders and priorities the
table assigns. The four states are those that the default settings name.

JavaScript's float division in `Math.round(x / 1000) * 1000` is replaced by
exact integer rounding. `RoundSeconds(ms, k)` is the nearest whole second to
`ms / k`, with halves rounded up, as `Math.round` rounds them.

Four behaviours of `withStateDuration` need care:

- It walks the other fixable phases from the highest priority down. It sorts
  them by ascending priority and then reverses the list
  (`light-config.ts:98`), so phases of equal priority come in reverse list
  order. `Remaining` models that and `RemainingOrder` states it.
- When the edited phase shrinks, the first fixable phase takes the whole
  difference, even beyond any share, and nothing is passed on
  (`light-config.ts:110-114`). `AbsorbShortening`,
  `RedistributedShortening` and `EditShortening` state this.
- It keeps the total duration when the edited state occurs at most once,
  whether or not other states repeat. Every phase in the edited state is
  dropped, but only the first one's duration is counted
  (`light-config.ts:98,102`). So with a repeated edited state the total is
  kept only if its later copies last 0 ms. `WithoutStateSum` and
  `EditKeepsTotal` require the edited state to occur at most once.
- When the edited phase grows, the fixable phases give up duration in
  order, highest priority first. Each loses what is still owed after those
  before it, at most all it has (`light-config.ts:107-115`).
  `AbsorbLengthening` and `RedistributedLengthening` state this.

## Model

| member | source | states |
|---|---|---|
| Phases.RoundSecondsNearest | app/domain/light-config.ts:58-60 | `roundSeconds(ms / k)` is a whole number of seconds, and the nearest one to `ms / k`, a tie rounding up |
| Phases.SplitByFixable | app/domain/light-config.ts:99-100 | splitting phases into fixable and unfixable loses no duration and no state |
| Phases.DefaultLightSettingsWellFormed | app/domain/light-config.ts:123-131 | the default settings have offset 0, non-negative durations and distinct states, and fill a 60-second cycle |
| PhaseSort.SortBySorts | app/domain/light-config.ts:25-26 | `toSorted` with a comparator returns its input ordered on that comparator's key, as a permutation |
| PhaseSort.SortByStable | app/domain/light-config.ts:25-26 | `toSorted` is stable: for every key value, the phases with that key come out in the order they went in |
| PhaseSort.ReverseWithKey | app/domain/light-config.ts:98 | reversing a list reverses the order of the phases of each key value |
| PhaseSort.SortKeeps | app/domain/light-config.ts:74 | sorting keeps the total duration, the count of each state, the length and non-negativity |
| PhaseSort.ReverseIndex | app/domain/light-config.ts:98 | `reverse` puts element `n-1-i` at position `i` and keeps the length |
| Rescaling.PassConserves | app/domain/light-config.ts:84-91 | a pass keeps each phase's state in place, and what it adds to durations it takes from the remainder |
| Rescaling.PassClamps | app/domain/light-config.ts:88-90 | every phase a pass adjusts ends non-negative; a non-negative list stays non-negative |
| Rescaling.PassKeepsUnfixable | app/domain/light-config.ts:76-78 | the first two strategies leave every unfixable phase as it is |
| Rescaling.PassKeepsFixableBudget | app/domain/light-config.ts:76-78 | the first two strategies move duration only between the fixable phases and the remainder |
| Rescaling.EvenSharePass | app/domain/light-config.ts:76-77 | the first pass sets every fixable phase to its duration plus the even share, clamped at zero, and leaves every unfixable phase as it is |
| Rescaling.FixablePassIsAbsorb | app/domain/light-config.ts:78 | over non-negative phases the second pass gives the fixable phases exactly what the shortening walk of `withStateDuration` gives them, keeps the unfixable phases, and leaves the same remainder |
| Rescaling.RemainderPassIsAbsorb | app/domain/light-config.ts:79 | over non-negative phases the third pass is that walk applied to every phase, phase by phase and remainder for remainder |
| Rescaling.FixedEvenShare | app/domain/light-config.ts:70-90 | with a difference to apply and a fixable phase, the share each fixable phase receives in the first pass is the whole number of seconds nearest to the difference divided among the fixable phases, and the other two strategies work on what that pass leaves |
| Rescaling.RunConserves | app/domain/light-config.ts:82-92 | the strategy loop keeps states and length, conserves total plus remainder, and keeps durations non-negative |
| Rescaling.RemainderPassDrains | app/domain/light-config.ts:78-79 | a remainder pass empties the remainder when its phases can give up enough and one can take a positive remainder |
| Rescaling.StrategiesDrain | app/domain/light-config.ts:79-82 | running the strategies from any of them on, non-negative phases with a non-negative target always empty the remainder, because the last strategy lets any phase absorb it |
| Rescaling.FixableStrategiesSuffice | app/domain/light-config.ts:76-82 | with a fixable phase holding enough duration, the first two strategies empty the remainder and touch no unfixable phase |
| Rescaling.FixedConserves | app/domain/light-config.ts:70-92 | the fix strategies conserve total plus remainder, each state's count, the length and non-negativity |
| Rescaling.FixedDrains | app/domain/light-config.ts:70-92 | over a non-empty non-negative list with a non-negative target, no remainder is left |
| Rescaling.RescaleUnchanged | app/domain/light-config.ts:63-68 | settings whose durations already sum to the cycle length are returned unchanged |
| Rescaling.AdjustedConserves | app/domain/light-config.ts:84-94 | adjusting keeps each state's count, the length and non-negativity, and sorts by state order |
| Rescaling.AdjustedReaches | app/domain/light-config.ts:63-94 | adjusting non-negative phases towards a non-negative cycle length reaches it exactly iff there is a phase |
| Rescaling.RescaleConserves | app/domain/light-config.ts:62-95 | `rescale` keeps the offset and each state's count, never makes a duration negative, and sorts by order when it adjusts |
| Rescaling.RescaleReachesCycleLength | app/domain/light-config.ts:62-95 | for non-negative durations and cycle length, the result sums to the cycle length iff there is a phase or the cycle length is 0 |
| Rescaling.AdjustedKeepsUnfixable | app/domain/light-config.ts:70-94 | with a fixable phase and room for the unfixable ones, the unfixable phases are untouched and the cycle length is reached |
| Rescaling.RescaleKeepsUnfixable | app/domain/light-config.ts:62-95 | the same for `rescale` as a whole |
| Rescaling.RescaleIdempotent | app/domain/light-config.ts:63-68 | rescaling twice to the same cycle length is rescaling once |
| StateDuration.AbsorbLeaves | app/domain/light-config.ts:107-117 | the difference left after the loop is what the phases could not give up, and 0 when a phase took a shortening |
| StateDuration.AbsorbConserves | app/domain/light-config.ts:107-115 | the loop moves duration only between the phases and the difference |
| StateDuration.AbsorbStates | app/domain/light-config.ts:109 | the loop keeps each phase's state in place |
| StateDuration.AbsorbNonNegative | app/domain/light-config.ts:109 | the loop never leaves a negative duration |
| StateDuration.AbsorbShortening | app/domain/light-config.ts:107-114 | when the edited phase shrinks, only the first phase changes, growing by exactly the difference |
| StateDuration.AbsorbLengthening | app/domain/light-config.ts:107-115 | when the edited phase grows, phase `i` loses what is still owed after phases `0..i-1`, clamped at zero: its duration becomes `max(0, d_i + min(0, diff + sum of the earlier durations))` |
| StateDuration.AbsorbLengthened | app/domain/light-config.ts:107-115 | the same as one equation: the loop's phases are `Lengthened` of its input |
| StateDuration.AbsorbUnchanged | app/domain/light-config.ts:107-114 | a zero difference changes no non-negative phase |
| StateDuration.AbsorbKeepsFixable | app/domain/light-config.ts:109 | the loop keeps each phase's fixability |
| StateDuration.WithoutStateSum | app/domain/light-config.ts:98-102 | when the edited state occurs at most once, dropping it takes exactly the duration `find` returns out of the total |
| StateDuration.WithoutStateStates | app/domain/light-config.ts:98 | dropping a state removes every phase in it and no other |
| StateDuration.RemainingCounts | app/domain/light-config.ts:98 | the other phases are a permutation of the phases in other states, and a sub-multiset of the input |
| StateDuration.RemainingOrder | app/domain/light-config.ts:98 | the other phases come in descending priority, and phases of equal priority in the reverse of their input order |
| StateDuration.RemainingMember | app/domain/light-config.ts:98 | a phase is among the other phases iff it is in the input in another state |
| StateDuration.RemainingFixable | app/domain/light-config.ts:98-99 | ordering by priority keeps the fixable phases' total and whether there are any |
| StateDuration.FindUnique | app/domain/light-config.ts:102 | when a state occurs once, `find` returns that phase's duration |
| StateDuration.RedistributedSum | app/domain/light-config.ts:103-119 | the total after redistribution is the other phases' total plus the old duration |
| StateDuration.EditKeepsTotal | app/domain/light-config.ts:97-120 | when the edited state occurs at most once and durations are non-negative, the edit keeps the total duration, even if other states repeat |
| StateDuration.EditedDurationNonNegative | app/domain/light-config.ts:117 | the edited phase's duration is non-negative when the old and new durations are |
| StateDuration.RedistributedNonNegative | app/domain/light-config.ts:105-119 | redistribution leaves no negative duration |
| StateDuration.EditNonNegative | app/domain/light-config.ts:97-120 | with non-negative durations and new duration, every duration after the edit is non-negative |
| StateDuration.RedistributedStates | app/domain/light-config.ts:105-119 | redistribution keeps the other phases' states and adds the edited state once |
| StateDuration.EditStates | app/domain/light-config.ts:97-120 | the edit keeps the offset, sorts by state order, has the edited state exactly once, adding it if absent, and every other state as often as before |
| StateDuration.RedistributedShortening | app/domain/light-config.ts:107-117 | on shrinking, the first fixable phase of the list takes the whole difference, the edited phase gets exactly the new duration, and nothing else changes |
| StateDuration.RedistributedLengthening | app/domain/light-config.ts:105-119 | on growing, the list is the fixable phases cut in order (`Lengthened`), then the edited phase with the new duration capped by what they could give up, then the unfixable phases unchanged |
| StateDuration.ShorteningTarget | app/domain/light-config.ts:98-99 | the first fixable phase of the ordered other phases is a fixable phase in another state whose priority is highest among them |
| StateDuration.EditShortening | app/domain/light-config.ts:97-120 | on shrinking with another fixable phase, the result is the other phases with only `ShorteningTarget`'s phase grown by the whole difference, plus the edited phase at exactly its new duration, counted phase by phase |
| StateDuration.RedistributedEditedDuration | app/domain/light-config.ts:117 | the edited phase follows the fixable phases, with the new duration capped by what they can give up, or the old duration when there are none |
| StateDuration.EditSetsDuration | app/domain/light-config.ts:97-120 | the edited state ends with the new duration when the other fixable phases can give it up, the old duration plus all they have when they cannot, and its old duration when there is no other fixable phase |
| StateDuration.EditKeepsUnfixable | app/domain/light-config.ts:97-120 | every unfixable phase in another state occurs in the result exactly as often as in the input |
| Config.LightConfig.constructor | app/domain/light-config.ts:34-38 | keeps the crossing settings and the offset, and takes the rescaled phases, which fill the cycle and are non-negative under the conditions of `RescaleReachesCycleLength` |
| Config.LightConfig.ToLightSettings | app/domain/light-config.ts:46-48 | returns the offset and phases; once they fill the cycle, rescaling them changes nothing |
| Config.LightConfig.WithOffset | app/domain/light-config.ts:40-44 | the new offset is the multiple of 1000 nearest the requested one, halves rounded up; the phases are unchanged |
| Config.LightConfig.Rescale | app/domain/light-config.ts:62-95 | the loop over the strategies computes exactly `Rescaled` |
| Config.LightConfig.ApplyStrategy | app/domain/light-config.ts:84-91 | the `map` pass with its running remainder computes exactly `Pass` |
| Config.LightConfig.WithStateDuration | app/domain/light-config.ts:97-120 | the method computes exactly `DurationEdited` of the current settings |
| Config.LightConfig.AbsorbDifference | app/domain/light-config.ts:105-115 | the loop over the fixable phases computes exactly `Absorb` |
| Intersection.NextCycleBoundary | app/components/Intersection.tsx:100-102 | the result is a multiple of the cycle length; for a positive cycle length it is the first one strictly after the timestamp |

## Left out

- The contents of `STATE_ATTRIBUTES` and the lit segments of each state: the state table is not part of this model. Orders and priorities are uninterpreted, and `State` has the four states the default settings use.
- Floating-point division. `diff / fixableCount` and `offset / 1000` are rounded exactly (`RoundSeconds`), so the model ignores any float rounding error before `Math.round`.
- The `±Infinity` share when no phase is fixable. `PerPhaseShare` uses 0 instead; the share is never applied then, because passes 1 and 2 only adjust fixable phases.
- `CrossingSettings` fields other than `cycleLength`: the crossing-settings file is not part of this model.
- Intersection.NextCycleBoundary: a cycle length of 0 is excluded (the source computes `NaN` there); negative cycle lengths are covered.
- The rest of the intersection view: React state, URL query parsing and serialisation, the time-sync request with its fallback to 0, and timer registration with the clock. These are UI plumbing, I/O and asynchronous timing.
- `Clock`, `TrafficLight` and `Failure` (the phase lookup, the wake scheduler and the fault generator): those files are not part of this model.
- Object identity: `LightConfig` fields are `const`, since no method reassigns them, and the returned settings are values, so aliasing of the phase arrays is not modelled.

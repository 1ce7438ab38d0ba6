/** The `LightConfig` class of app/domain/light-config.ts: a light's settings
    fitted to its crossing's cycle length. Its fields are set once, by the
    constructor; the other operations return new settings. */
module Config {
  import opened Phases
  import opened PhaseSort
  import opened Rescaling
  import opened StateDuration

  class LightConfig {
    const crossingSettings: CrossingSettings
    const offset: int
    const phases: seq<Phase>

    /** Takes the offset as given and the phases rescaled to the crossing's
        cycle length. With non-negative durations, a non-negative cycle
        length and a phase to carry it, the phases then fill the cycle
        exactly, and none of them is negative. */
    constructor(crossingSettings: CrossingSettings, lightSettings: LightSettings)
      ensures this.crossingSettings == crossingSettings
      ensures offset == lightSettings.offset
      ensures phases == Rescaled(crossingSettings.cycleLength, lightSettings).phases
      ensures NonNegative(lightSettings.phases) ==> NonNegative(phases)
      ensures NonNegative(lightSettings.phases) && crossingSettings.cycleLength >= 0
              && (|lightSettings.phases| > 0 || crossingSettings.cycleLength == 0)
              ==> Sum(phases) == crossingSettings.cycleLength
    {
      var rescaled := Rescale(crossingSettings, lightSettings);
      this.crossingSettings := crossingSettings;
      offset := lightSettings.offset;
      phases := rescaled.phases;
      RescaleConserves(crossingSettings.cycleLength, lightSettings);
      if NonNegative(lightSettings.phases) && crossingSettings.cycleLength >= 0 {
        RescaleReachesCycleLength(crossingSettings.cycleLength, lightSettings);
      }
    }

    function CycleLength(): int {
      crossingSettings.cycleLength
    }

    /** The settings this configuration stands for. Once the phases fill the
        cycle, building a configuration from them again gives the same
        settings back. */
    function ToLightSettings(): (r: LightSettings)
      ensures r.offset == offset && r.phases == phases
      ensures Sum(phases) == CycleLength() ==> Rescaled(CycleLength(), r) == r
    {
      LightSettings(offset, phases)
    }

    /** The settings with the offset moved to `newOffset` rounded to the
        nearest whole second, halves rounded up; the phases stay as they
        are. */
    function WithOffset(newOffset: int): (r: LightSettings)
      ensures r.offset % 1000 == 0
      ensures newOffset - 500 < r.offset <= newOffset + 500
      ensures r.phases == phases
    {
      RoundSecondsNearest(newOffset, 1);
      LightSettings(RoundSeconds(newOffset, 1), phases)
    }

    /** `rescale`: the difference between the cycle length and the current
        total is applied by up to three passes of the fix strategies over
        the phases sorted by descending duration. Each pass threads the
        running remainder through the phases in order, as the source's
        `map` callback does. */
    static method Rescale(crossingSettings: CrossingSettings, lightSettings: LightSettings) returns (r: LightSettings)
      ensures r == Rescaled(crossingSettings.cycleLength, lightSettings)
    {
      var ps := lightSettings.phases;
      var diff := crossingSettings.cycleLength - Sum(ps);
      if diff == 0 {
        return lightSettings;
      }
      var share := PerPhaseShare(diff, |FixableOf(ps)|);
      var remainder := diff;
      var fixedPhases := SortBy(ByDurationDescending, ps);
      var i := 0;
      while i < |FIX_STRATEGIES| && remainder != 0
        invariant 0 <= i <= |FIX_STRATEGIES|
        invariant RunStrategies(i, share, fixedPhases, remainder) == Fixed(ps, diff)
      {
        ghost var before, remainderBefore := fixedPhases, remainder;
        fixedPhases, remainder := ApplyStrategy(FIX_STRATEGIES[i], share, fixedPhases, remainder);
        assert RunStrategies(i, share, before, remainderBefore) == RunStrategies(i + 1, share, fixedPhases, remainder);
        i := i + 1;
      }
      r := LightSettings(lightSettings.offset, SortBy(ByOrder, fixedPhases));
    }

    /** One pass of a fix strategy: `fixedPhases.map(...)` whose callback
        adjusts each phase the strategy applies to and subtracts what it
        applied from the running remainder. */
    static method ApplyStrategy(strategy: Strategy, share: int, fixedPhases: seq<Phase>, remainder: int)
      returns (mapped: seq<Phase>, remainderAfter: int)
      ensures (mapped, remainderAfter) == Pass(strategy, share, fixedPhases, remainder)
    {
      mapped, remainderAfter := [], remainder;
      var j := 0;
      while j < |fixedPhases|
        invariant 0 <= j <= |fixedPhases|
        invariant mapped + Pass(strategy, share, fixedPhases[j..], remainderAfter).0
                  == Pass(strategy, share, fixedPhases, remainder).0
        invariant Pass(strategy, share, fixedPhases[j..], remainderAfter).1
                  == Pass(strategy, share, fixedPhases, remainder).1
      {
        var phase := fixedPhases[j];
        ghost var remainderBefore := remainderAfter;
        var fixedPhase := phase;
        if Applies(strategy, phase) {
          var applicableDiff := Max(if strategy == EvenShare then share else remainderAfter, -phase.duration);
          remainderAfter := remainderAfter - applicableDiff;
          fixedPhase := Phase(phase.state, phase.duration + applicableDiff);
        }
        assert (fixedPhase, remainderAfter) == Step(strategy, share, phase, remainderBefore);
        PassStep(strategy, share, fixedPhases[j..], remainderBefore, mapped);
        assert fixedPhases[j..][1..] == fixedPhases[j + 1..];
        mapped := mapped + [fixedPhase];
        j := j + 1;
      }
      assert fixedPhases[j..] == [];
      assert mapped + Pass(strategy, share, fixedPhases[j..], remainderAfter).0 == mapped;
    }

    /** `withStateDuration`: the phase in `state` gets `newDuration`, and the
        difference is walked through the other fixable phases, highest
        priority first, each clamped at zero; what they cannot absorb is
        folded back into the edited phase. */
    method WithStateDuration(state: State, newDuration: int) returns (r: LightSettings)
      ensures r == DurationEdited(ToLightSettings(), state, newDuration)
    {
      var remainingPhases := Remaining(phases, state);
      var fixablePhases := FixableOf(remainingPhases);
      var unfixablePhases := UnfixableOf(remainingPhases);
      var oldDuration := FindDuration(phases, state);
      var diff := oldDuration - newDuration;
      var fixedRemaining;
      fixedRemaining, diff := AbsorbDifference(fixablePhases, diff);
      fixedRemaining := fixedRemaining + [Phase(state, newDuration + diff)];
      r := LightSettings(offset, SortBy(ByOrder, fixedRemaining + unfixablePhases));
    }

    /** The loop of `withStateDuration` over the fixable phases: each is
        pushed with the current difference applied, clamped at zero, and
        the difference passed on is what this phase could not give up when
        the edited phase grows, and nothing otherwise. */
    static method AbsorbDifference(fixablePhases: seq<Phase>, diff: int)
      returns (fixedRemaining: seq<Phase>, diffAfter: int)
      ensures (fixedRemaining, diffAfter) == Absorb(fixablePhases, diff)
    {
      fixedRemaining, diffAfter := [], diff;
      var k := 0;
      while k < |fixablePhases|
        invariant 0 <= k <= |fixablePhases|
        invariant fixedRemaining + Absorb(fixablePhases[k..], diffAfter).0 == Absorb(fixablePhases, diff).0
        invariant Absorb(fixablePhases[k..], diffAfter).1 == Absorb(fixablePhases, diff).1
      {
        var p := fixablePhases[k];
        assert fixablePhases[k..][1..] == fixablePhases[k + 1..];
        var durationBeforeFix := p.duration;
        fixedRemaining := fixedRemaining + [Phase(p.state, Max(0, p.duration + diffAfter))];
        if diffAfter < 0 && durationBeforeFix < -diffAfter {
          diffAfter := diffAfter + durationBeforeFix;
        } else {
          diffAfter := 0;
        }
        k := k + 1;
      }
      assert fixablePhases[k..] == [];
      assert fixedRemaining + Absorb(fixablePhases[k..], diffAfter).0 == fixedRemaining;
    }
  }
}

/** Cleanup in the interleaved token protocol: what a run would have been
    without it. */
module TokenCleanup {
  import opened Text
  import opened RefreshTokens
  import opened TokenProtocol

  /** The cleanup names no time past the clock. */
  predicate Timely(s: System, step: Step) {
    step.Cleanup? ==> step.before <= s.clock + 1
  }

  ghost predicate TimelyRun(steps: seq<Step>)
    requires Legal(steps)
  {
    steps == [] || (TimelyRun(Init(steps)) && Timely(After(Init(steps)), Last(steps)))
  }

  /** The token of this Refresh was deleted after it was read. */
  predicate Overtaken(s: System, step: Step) {
    step.RotateTx? && step.call in s.calls && s.calls[step.call].Checked? && s.calls[step.call].id !in s.tokens
  }

  /** The step in a run without cleanup: a Refresh that a cleanup has overtaken
      does not commit there either. */
  function Kept(s: System, step: Step): seq<Step> {
    if step.Cleanup? then []
    else if Overtaken(s, step) then [step.(commits := false)]
    else [step]
  }

  ghost function Erased(steps: seq<Step>): seq<Step>
    requires Legal(steps)
  {
    if steps == [] then [] else Erased(Init(steps)) + Kept(After(Init(steps)), Last(steps))
  }

  /** The same, but for tokens that are of no use any more. */
  ghost predicate Alike(full: System, cleaned: System) {
    && full == cleaned.(tokens := full.tokens)
    && Cleaned(full.tokens, cleaned.tokens, cleaned.clock)
  }

  lemma RotationAlike(full: System, cleaned: System, step: Step)
    requires Alike(full, cleaned) && Enabled(cleaned, step) && step.RotateTx? && Known(full) && FamiliesKnown(full)
    ensures var step' := if Overtaken(cleaned, step) then step.(commits := false) else step;
            Enabled(full, step') && Alike(Apply(full, step'), Apply(cleaned, step))
  {
    assert step.newId !in full.tokens;
  }

  lemma StepAlike(full: System, cleaned: System, step: Step)
    requires Alike(full, cleaned) && Enabled(cleaned, step) && !step.Cleanup? && Known(full) && FamiliesKnown(full)
    ensures var step' := if Overtaken(cleaned, step) then step.(commits := false) else step;
            Enabled(full, step') && Alike(Apply(full, step'), Apply(cleaned, step))
  {
    if step.RotateTx? {
      hide Apply, Enabled, Alike;
      RotationAlike(full, cleaned, step);
    }
  }

  lemma CleanupAlike(full: System, cleaned: System, step: Step)
    requires Alike(full, cleaned) && Enabled(cleaned, step) && step.Cleanup? && Timely(cleaned, step)
    ensures Alike(full, Apply(cleaned, step))
  {
    CleanupGivesCleaned(cleaned.tokens, step.before, step.size, step.batch, cleaned.clock);
  }

  /** Erasing every cleanup from an interleaved run leaves a run in which every
      call has come equally far, the same tokens were issued and replaced, and the
      table differs in tokens that no Refresh accepts any more. */
  lemma {:induction false} CleanupCanBeErased(steps: seq<Step>)
    requires Legal(steps) && TimelyRun(steps)
    ensures Legal(Erased(steps)) && Alike(After(Erased(steps)), After(steps))
  {
    if steps != [] {
      hide Apply, Enabled, Alike, Overtaken, Inv;
      CleanupCanBeErased(Init(steps));
      var full, cleaned, step := After(Erased(Init(steps))), After(Init(steps)), Last(steps);
      if step.Cleanup? {
        CleanupAlike(full, cleaned, step);
        assert Erased(steps) == Erased(Init(steps));
      } else {
        assert Known(full) && FamiliesKnown(full) by { ReachableInv(Erased(Init(steps))); }
        StepAlike(full, cleaned, step);
        Extend(Erased(Init(steps)), Kept(cleaned, step)[0]);
      }
    }
  }

  lemma {:induction false} ErasedHasNoCleanup(steps: seq<Step>)
    requires Legal(steps)
    ensures forall i :: 0 <= i < |Erased(steps)| ==> !Erased(steps)[i].Cleanup?
  {
    hide Apply, Enabled;
    if steps != [] { ErasedHasNoCleanup(Init(steps)); }
  }

  /** A Refresh that starts after the last cleanup is never overtaken: its steps
      stay as they are. */
  lemma {:induction false} LaterRefreshIsKept(steps: seq<Step>, i: nat, call: CallId)
    requires Legal(steps) && i <= |steps| && Legal(steps[..i]) && call !in After(steps[..i]).calls
    requires forall j :: i <= j < |steps| ==> !steps[j].Cleanup?
    ensures call in After(steps).calls && !After(steps).calls[call].Finished? ==>
              After(steps).calls[call].id in After(steps).tokens
    ensures forall step: Step :: step.RotateTx? && step.call == call && Enabled(After(steps), step) ==>
              Kept(After(steps), step) == [step]
  {
    if i < |steps| {
      assert steps[..i] == Init(steps)[..i];
      LaterRefreshIsKept(Init(steps), i, call);
      assert Last(steps) == steps[|steps| - 1];
    } else {
      assert steps[..i] == steps;
    }
  }
}

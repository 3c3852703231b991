/** Which way the Write calls and the pacer of paced mode turn where the code branches. */
module PacedChoices {
  import opened Bytes
  import opened Framing
  import opened PacedShaper
  import opened PacedTheorems
  import opened PacedRuns

  // ---------- a Write after the sticky error ----------

  /** A Write that began after the error: still at its start, or refused with it, or empty. */
  ghost predicate RefusedWith(k: Call, e: nat) {
    && k.sent == 0
    && (k.p != [] ==> k.phase == Entered || k.phase == Returned(BaseErr(e)))
    && (k.p == [] ==> k.phase == Returned(Ok))
  }

  /** Every call from the n-th on began after the error e was set. */
  ghost predicate AllRefused(s: State, n: nat, e: nat) {
    s.paceErr == Some(e) && n <= |s.calls| && forall i :: n <= i < |s.calls| ==> RefusedWith(s.calls[i], e)
  }

  lemma RefusedCall(c: Config, s: State, n: nat, e: nat, ev: Event)
    requires AllRefused(s, n, e) && Enabled(c, s, ev) && CallEvent(ev)
    ensures AllRefused(Apply(c, s, ev), n, e)
  {
  }

  lemma RefusedStep(c: Config, s: State, n: nat, e: nat, ev: Event)
    requires AllRefused(s, n, e) && Enabled(c, s, ev)
    ensures AllRefused(Apply(c, s, ev), n, e)
  {
    if CallEvent(ev) {
      RefusedCall(c, s, n, e, ev);
    } else {
      var s' := Apply(c, s, ev);
      assert s'.calls == s.calls && s'.paceErr == s.paceErr;
    }
  }

  lemma {:induction false} RefusedRun(c: Config, s: State, n: nat, e: nat, more: seq<Event>)
    requires AllRefused(s, n, e) && From(c, s, more).Some?
    ensures AllRefused(From(c, s, more).value, n, e)
    decreases |more|
  {
    if more != [] {
      RefusedStep(c, s, n, e, more[0]);
      RefusedRun(c, Apply(c, s, more[0]), n, e, more[1..]);
    }
  }

  /**
   * Once the sticky error is set, no later Write enqueues a cell, and if it returns at all it
   * returns that error; only an empty one still succeeds.
   */
  lemma ErrorIsSticky(c: Config, run: seq<Event>, more: seq<Event>, i: nat)
    requires Exec(c, run).Some? && Exec(c, run).value.paceErr.Some? && Exec(c, run + more).Some?
    requires |Exec(c, run).value.calls| <= i < |Exec(c, run + more).value.calls|
    ensures RefusedWith(Exec(c, run + more).value.calls[i], Exec(c, run).value.paceErr.value)
  {
    var s := Exec(c, run).value;
    ExecFrom(c, run, more);
    RefusedRun(c, s, |s.calls|, s.paceErr.value, more);
  }

  // ---------- the surge clock restarts on a drained queue only ----------

  /** Call i is past the choice and did not choose to restart. */
  predicate Past(s: State, i: nat) {
    i < |s.calls| && (s.calls[i].phase.Sending? || s.calls[i].phase.Returned?)
  }

  lemma PastStep(c: Config, s: State, i: nat, e: Event)
    requires Past(s, i) && Enabled(c, s, e)
    ensures e != ResetSurge(i) && Past(Apply(c, s, e), i)
  {
    if !CallEvent(e) {
      assert Apply(c, s, e).calls == s.calls;
    }
  }

  lemma {:induction false} PastRun(c: Config, s: State, i: nat, more: seq<Event>)
    requires Past(s, i) && From(c, s, more).Some?
    ensures ResetSurge(i) !in more
    decreases |more|
  {
    if more != [] {
      PastStep(c, s, i, more[0]);
      PastRun(c, Apply(c, s, more[0]), i, more[1..]);
      assert more == [more[0]] + more[1..];
    }
  }

  /** Call i has chosen to restart and not done so yet. */
  predicate Due(s: State, i: nat) {
    At(s, i, Resetting) && s.calls[i].sent == 0
  }

  lemma DueStep(c: Config, s: State, i: nat, e: Event)
    requires Due(s, i) && Enabled(c, s, e) && e != ResetSurge(i)
    ensures Due(Apply(c, s, e), i)
  {
    if !CallEvent(e) {
      assert Apply(c, s, e).calls == s.calls;
    }
  }

  lemma {:induction false} DueRun(c: Config, s: State, i: nat, more: seq<Event>)
    requires Due(s, i) && From(c, s, more).Some? && ResetSurge(i) !in more
    ensures Due(From(c, s, more).value, i)
    decreases |more|
  {
    if more != [] {
      assert more[0] in more;
      DueStep(c, s, i, more[0]);
      assert forall e :: e in more[1..] ==> e in more;
      DueRun(c, Apply(c, s, more[0]), i, more[1..]);
    }
  }

  /**
   * A Write that looks at a queue still holding cells never restarts the surge clock; one that
   * finds it drained has restarted it before it enqueues anything or returns.
   */
  lemma BurstRestarts(c: Config, run: seq<Event>, i: nat, more: seq<Event>)
    requires Exec(c, run).Some? && Enabled(c, Exec(c, run).value, Look(i)) && Exec(c, run + [Look(i)] + more).Some?
    requires c.Valid()
    ensures var (s, t) := (Exec(c, run).value, Exec(c, run + [Look(i)] + more).value);
            && (s.queue != [] ==> ResetSurge(i) !in more)
            && (s.queue == [] && i < |t.calls| && !Due(t, i) ==> ResetSurge(i) in more)
  {
    var s := Exec(c, run).value;
    ExecSnoc(c, run, Look(i));
    ExecFrom(c, run + [Look(i)], more);
    var u := Apply(c, s, Look(i));
    PacedTheorems.RunInv(c, run);
    assert CallOrder(s, i);
    if s.queue != [] {
      PastRun(c, u, i, more);
    } else if ResetSurge(i) !in more {
      DueRun(c, u, i, more);
    }
  }

  // ---------- no cover without padding ----------

  /** Whatever is or was written carries data. */
  ghost predicate NoCover(s: State) {
    && (forall k :: 0 <= k < |s.log| ==> s.log[k].src.Some?)
    && (Hand(s).Some? ==> Hand(s).value.src.Some?)
  }

  lemma NoCoverStep(c: Config, s: State, e: Event)
    requires c.pace.noPad && NoCover(s) && CloserInv(s) && Enabled(c, s, e)
    ensures NoCover(Apply(c, s, e))
  {
    if Quiet(s, e) {
      NoCoverQuiet(c, s, e);
    }
  }

  lemma NoCoverQuiet(c: Config, s: State, e: Event)
    requires c.pace.noPad && NoCover(s) && CloserInv(s) && Enabled(c, s, e) && Quiet(s, e)
    ensures NoCover(Apply(c, s, e))
  {
    QuietLeavesCells(c, s, e);
    if CallEvent(e) {
      assert Hand(Apply(c, s, e)) == Hand(s);
    }
  }

  /** With NoPad, every cell ever written is a data cell: an idle pacer sends nothing. */
  lemma {:induction false} NoPadSendsNoCover(c: Config, run: seq<Event>)
    requires c.Valid() && c.pace.noPad && Exec(c, run).Some?
    ensures NoCover(Exec(c, run).value)
  {
    if run != [] {
      NoPadSendsNoCover(c, run[..|run| - 1]);
      PacedTheorems.RunInv(c, run[..|run| - 1]);
      NoCoverStep(c, Exec(c, run[..|run| - 1]).value, run[|run| - 1]);
    }
  }
}

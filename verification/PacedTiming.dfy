/**
 * The wire schedule of paced mode with ideal timers: what it depends on, and its rate.
 * Everything here is about the time up to Close and the first base error.
 */
module PacedTiming {
  import opened Bytes
  import opened Framing
  import opened PacedShaper
  import PacedTheorems

  // ---------- the schedule as a function of the surge resets ----------

  /** The surge clock the pacer reads when it has computed j delays. */
  function SurgeAt(resets: seq<Reset>, j: nat): nat {
    if resets == [] then 0
    else
      var last := resets[|resets| - 1];
      if last.seen <= j then last.at else SurgeAt(resets[..|resets| - 1], j)
  }

  /** When the pacer's k-th wakeup is due; nothing of the application but `resets` enters. */
  function Due(c: Config, resets: seq<Reset>, k: nat): int {
    if k == 0 then 0
    else
      var t := Due(c, resets, k - 1);
      t + Interval(c, if t >= SurgeAt(resets, k - 1) then t - SurgeAt(resets, k - 1) else 0)
  }

  /** A reset made after j delays were computed leaves the first j wakeups where they were. */
  lemma {:induction false} DueStable(c: Config, resets: seq<Reset>, r: Reset, k: nat)
    requires k <= r.seen
    ensures Due(c, resets + [r], k) == Due(c, resets, k)
  {
    if k > 0 {
      DueStable(c, resets, r, k - 1);
      assert (resets + [r])[..|resets|] == resets;
    }
  }

  predicate Busy(p: Pacer) {
    p.Awake? || p.Writing?
  }

  /** The pacer is where the schedule says it is, and with padding every wakeup wrote a cell. */
  ghost predicate TimeInv(c: Config, s: State) {
    && (s.pacer.Ready? || s.pacer.Sleeping? || Busy(s.pacer))
    && s.paceStart == SurgeAt(s.resets, s.computes) && s.paceStart <= s.now
    && (forall j :: 0 <= j < |s.resets| ==> s.resets[j].seen <= s.computes)
    && (s.pacer.Ready? ==> s.now == Due(c, s.resets, s.computes))
    && (s.pacer.Sleeping? ==>
          s.computes > 0 && Due(c, s.resets, s.computes - 1) <= s.now <= s.pacer.until == Due(c, s.resets, s.computes))
    && (Busy(s.pacer) ==> s.computes > 0 && s.now == Due(c, s.resets, s.computes))
    && (!c.pace.noPad ==> LogTimed(c, s) && |s.log| == if s.pacer.Ready? then s.computes else s.computes - 1)
  }

  ghost predicate LogTimed(c: Config, s: State) {
    forall j :: 0 <= j < |s.log| ==> s.log[j].time == Due(c, s.resets, j + 1)
  }

  lemma TimeReset(c: Config, s: State, i: nat)
    requires TimeInv(c, s) && !s.done && Enabled(c, s, ResetSurge(i))
    ensures TimeInv(c, Apply(c, s, ResetSurge(i)))
  {
    var r := Reset(s.now, s.computes);
    DueStable(c, s.resets, r, s.computes);
    if s.computes > 0 {
      DueStable(c, s.resets, r, s.computes - 1);
    }
    forall j | 0 <= j < |s.log| && !c.pace.noPad
      ensures s.log[j].time == Due(c, s.resets + [r], j + 1)
    {
      DueStable(c, s.resets, r, j + 1);
    }
  }

  lemma SurgeSame(resets: seq<Reset>, j: nat)
    requires forall k :: 0 <= k < |resets| ==> resets[k].seen <= j
    ensures SurgeAt(resets, j + 1) == SurgeAt(resets, j)
  {
  }

  lemma TimeCompute(c: Config, s: State)
    requires TimeInv(c, s) && s.pacer.Ready?
    requires Interval(c, s.now - s.paceStart) >= 0
    ensures TimeInv(c, Apply(c, s, Compute))
  {
    SurgeSame(s.resets, s.computes);
  }

  /** A step that leaves the schedule and the log alone. */
  lemma TimeKept(c: Config, s: State, s': State)
    requires TimeInv(c, s)
    requires s'.resets == s.resets && s'.computes == s.computes && s'.paceStart == s.paceStart
    requires s'.pacer == s.pacer && s'.log == s.log
    requires s.now == s'.now || (s.pacer.Sleeping? && s.now <= s'.now <= s.pacer.until)
    ensures TimeInv(c, s')
  {
  }

  lemma TimePacer(c: Config, s: State, e: Event)
    requires c.Valid() && TimeInv(c, s) && Enabled(c, s, e) && CloserInv(s) && !s.done
    requires e.Wake? || e.Take? || e.WriteOk?
    ensures TimeInv(c, Apply(c, s, e))
  {
  }

  lemma TimeStep(c: Config, s: State, e: Event)
    requires c.Valid() && c.ideal && TimeInv(c, s) && !s.done && Enabled(c, s, e) && PacedTheorems.Inv(c, s)
    requires !Apply(c, s, e).failed && !Apply(c, s, e).done
    ensures TimeInv(c, Apply(c, s, e))
  {
    if e.ResetSurge? {
      TimeReset(c, s, e.i);
    } else if e.Compute? {
      IntervalBounds(c, s.now - s.paceStart);
      TimeCompute(c, s);
    } else if e.Wake? || e.Take? || e.WriteOk? {
      TimePacer(c, s, e);
    } else {
      TimeKept(c, s, Apply(c, s, e));
    }
  }

  lemma {:induction false} RunTimes(c: Config, run: seq<Event>)
    requires c.Valid() && c.ideal
    requires Exec(c, run).Some? && !Exec(c, run).value.failed && !Exec(c, run).value.done
    ensures TimeInv(c, Exec(c, run).value)
  {
    if run != [] {
      var (s, e) := (Exec(c, run[..|run| - 1]).value, run[|run| - 1]);
      StaysUp(c, s, e);
      RunTimes(c, run[..|run| - 1]);
      PacedTheorems.RunInv(c, run[..|run| - 1]);
      TimeStep(c, s, e);
    }
  }

  lemma StaysUp(c: Config, s: State, e: Event)
    requires Enabled(c, s, e) && !Apply(c, s, e).failed && !Apply(c, s, e).done
    ensures !s.failed && !s.done
  {
    DoneStays(c, s, e);
  }

  lemma DoneStays(c: Config, s: State, e: Event)
    requires Enabled(c, s, e)
    ensures s.done ==> Apply(c, s, e).done
    ensures s.failed ==> Apply(c, s, e).failed
  {
  }

  // ---------- rates ----------

  function TopRate(c: Config): real {
    if c.pace.rate < c.pace.minRate then c.pace.minRate else c.pace.rate
  }

  lemma ScaleDown(rate: real, d: real, floor: real)
    requires rate > 0.0 && d <= 1.0
    ensures (if rate * d < floor then floor else rate * d) <= (if rate < floor then floor else rate)
  {
    assert rate * (1.0 - d) >= 0.0;
  }

  lemma RateBounds(c: Config, elapsed: nat)
    requires c.Valid()
    ensures 0.0 < c.pace.minRate <= RateAfter(c, elapsed) <= TopRate(c)
  {
    if c.pace.decay < 1.0 {
      var d := c.pow(c.pace.decay, elapsed);
      assert 0.0 < d <= 1.0;
      ScaleDown(c.pace.rate, d, c.pace.minRate);
    }
  }

  lemma DelayAntitone(a: real, b: real)
    requires 0.0 < a <= b
    ensures 0 <= Delay(b) <= Delay(a)
  {
    var (n, x, y) := (1000000000.0, 1000000000.0 / a, 1000000000.0 / b);
    assert x * a == n && y * b == n && y >= 0.0;
    assert y * (b - a) >= 0.0;
    assert (x - y) * a >= 0.0;
    Cancel(x, y, a);
  }

  lemma Cancel(x: real, y: real, a: real)
    requires a > 0.0 && (x - y) * a >= 0.0
    ensures x >= y
  {
  }

  /** Every delay lies between those of max(Rate, MinRate) and of MinRate. */
  lemma IntervalBounds(c: Config, elapsed: nat)
    requires c.Valid()
    ensures 0.0 < c.pace.minRate <= TopRate(c)
    ensures 0 <= Delay(TopRate(c)) <= Interval(c, elapsed) <= Delay(c.pace.minRate)
  {
    RateBounds(c, elapsed);
    DelayAntitone(RateAfter(c, elapsed), TopRate(c));
    DelayAntitone(c.pace.minRate, RateAfter(c, elapsed));
  }

  /** d is the whole nanoseconds of a cell at this rate. */
  predicate WholeDelay(d: int, rate: real) {
    1000000000.0 - rate < d as real * rate <= 1000000000.0
  }

  lemma FloorTimes(x: real, d: real, rate: real)
    requires rate > 0.0 && d <= x < d + 1.0
    ensures x * rate - rate < d * rate <= x * rate
  {
    Ordered(d, x, rate);
    StrictlyOrdered(x - d, 1.0, rate);
    assert (x - d) * rate == x * rate - d * rate;
  }

  lemma Ordered(a: real, b: real, rate: real)
    requires rate > 0.0 && a <= b
    ensures a * rate <= b * rate
  {
    var more := b - a;
    assert more * rate >= 0.0;
    assert b * rate == (a + more) * rate == a * rate + more * rate;
  }

  lemma StrictlyOrdered(a: real, b: real, rate: real)
    requires rate > 0.0 && a < b
    ensures a * rate < b * rate
  {
    var more := b - a;
    assert more * rate > 0.0;
    assert b * rate == (a + more) * rate == a * rate + more * rate;
  }

  /** The exact delay, of which Delay is the whole part. */
  lemma ExactDelay(rate: real) returns (x: real)
    requires rate > 0.0
    ensures x * rate == 1000000000.0 && Delay(rate) as real <= x < Delay(rate) as real + 1.0
  {
    x := 1000000000.0 / rate;
  }

  lemma DelayIs(rate: real)
    requires rate > 0.0
    ensures WholeDelay(Delay(rate), rate)
  {
    var x := ExactDelay(rate);
    WholePart(x, Delay(rate), rate);
  }

  lemma WholePart(x: real, d: int, rate: real)
    requires rate > 0.0 && x * rate == 1000000000.0 && d as real <= x < d as real + 1.0
    ensures WholeDelay(d, rate)
  {
    FloorTimes(x, d as real, rate);
    Replaced(d as real * rate, x * rate, 1000000000.0, rate);
  }

  lemma Replaced(a: real, b: real, n: real, rate: real)
    requires b - rate < a <= b && b == n
    ensures n - rate < a <= n
  {
  }

  lemma RateIs(c: Config, elapsed: nat, decayed: real)
    requires c.Valid()
    requires decayed == if c.pace.decay == 1.0 then c.pace.rate else c.pace.rate * c.pow(c.pace.decay, elapsed)
    ensures RateAfter(c, elapsed) == if decayed > c.pace.minRate then decayed else c.pace.minRate
  {
    assert 0.0 < c.pace.decay <= 1.0;
  }

  /**
   * What the delay is, from the settings: the whole nanoseconds of one cell at the rate decayed
   * since the last surge, or at MinRate if that is larger.
   */
  lemma DelayExactly(c: Config, elapsed: nat, decayed: real, r: real)
    requires c.Valid()
    requires decayed == if c.pace.decay == 1.0 then c.pace.rate else c.pace.rate * c.pow(c.pace.decay, elapsed)
    requires r == if decayed > c.pace.minRate then decayed else c.pace.minRate
    ensures r > 0.0 && 1000000000.0 - r < Interval(c, elapsed) as real * r <= 1000000000.0
  {
    RateIs(c, elapsed, decayed);
    DelayFloors(c, elapsed, r);
  }

  lemma DelayFloors(c: Config, elapsed: nat, r: real)
    requires c.Valid() && r == RateAfter(c, elapsed)
    ensures r > 0.0 && Interval(c, elapsed) == Delay(r) && WholeDelay(Interval(c, elapsed), r)
  {
    RateBounds(c, elapsed);
    DelayIs(r);
  }

  /** The largest rate is the larger of Rate and MinRate. */
  lemma TopRateExactly(c: Config)
    ensures TopRate(c) >= c.pace.rate && TopRate(c) >= c.pace.minRate
    ensures TopRate(c) == c.pace.rate || TopRate(c) == c.pace.minRate
  {
  }

  /** Where a longer decay is a deeper one, delays never shrink until the next surge. */
  lemma DelaysNeverShrink(c: Config, t: nat, u: nat)
    requires c.Valid() && t <= u && c.pow(c.pace.decay, u) <= c.pow(c.pace.decay, t)
    ensures Interval(c, t) <= Interval(c, u)
  {
    RateFalls(c, t, u);
    DelayFloors(c, t, RateAfter(c, t));
    DelayFloors(c, u, RateAfter(c, u));
    DelayAntitone(RateAfter(c, u), RateAfter(c, t));
  }

  lemma RateFalls(c: Config, t: nat, u: nat)
    requires c.Valid() && c.pow(c.pace.decay, u) <= c.pow(c.pace.decay, t)
    ensures RateAfter(c, u) <= RateAfter(c, t)
  {
    var (d, e) := (c.pow(c.pace.decay, u), c.pow(c.pace.decay, t));
    ScaleBoth(c.pace.rate, d, e, c.pace.minRate);
  }

  lemma ScaleBoth(rate: real, d: real, e: real, floor: real)
    requires rate > 0.0 && d <= e
    ensures (if rate * d < floor then floor else rate * d) <= (if rate * e < floor then floor else rate * e)
  {
    Ordered(d, e, rate);
    assert rate * d == d * rate && rate * e == e * rate;
  }

  /** Between two wakeups lie that many delays. */
  lemma {:induction false} DueSpan(c: Config, resets: seq<Reset>, k: nat, m: nat)
    requires c.Valid() && k <= m
    ensures TopRate(c) > 0.0 && c.pace.minRate > 0.0
    ensures 0 <= (m - k) * Delay(TopRate(c)) <= Due(c, resets, m) - Due(c, resets, k) <= (m - k) * Delay(c.pace.minRate)
    decreases m
  {
    IntervalBounds(c, 0);
    if k < m {
      var (t, surge) := (Due(c, resets, m - 1), SurgeAt(resets, m - 1));
      DueSpan(c, resets, k, m - 1);
      IntervalBounds(c, if t >= surge then t - surge else 0);
      assert (m - k) * Delay(TopRate(c)) == (m - 1 - k) * Delay(TopRate(c)) + Delay(TopRate(c));
      assert (m - k) * Delay(c.pace.minRate) == (m - 1 - k) * Delay(c.pace.minRate) + Delay(c.pace.minRate);
    }
  }

  lemma DueGrows(c: Config, resets: seq<Reset>, k: nat, m: nat)
    requires c.Valid() && k <= m
    ensures Due(c, resets, k) <= Due(c, resets, m)
  {
    DueSpan(c, resets, k, m);
  }

  // ---------- trace independence ----------

  /** A run with ideal timers that is still open and saw no base error. */
  ghost predicate Good(c: Config, run: seq<Event>) {
    c.ideal && Exec(c, run).Some? && !Exec(c, run).value.failed && !Exec(c, run).value.done
  }

  /** What an observer of the wire sees: when each write happened and how long it was. */
  function Trace(s: State): seq<(int, nat)> {
    seq(|s.log|, i requires 0 <= i < |s.log| => (s.log[i].time, |s.log[i].cell|))
  }

  /** The first n wakeups, each sending one cell of the fixed size. */
  function Schedule(c: Config, resets: seq<Reset>, n: nat): seq<(int, nat)>
    requires c.f.Fixed?
  {
    seq(n, i requires 0 <= i < n => (Due(c, resets, i + 1), c.f.cellSize))
  }

  /** The pacer sleeps and its next wakeup is still ahead. */
  predicate Settled(s: State) {
    s.pacer.Sleeping? && s.now < s.pacer.until
  }

  /** In fixed framing with padding the trace is the schedule, whatever was written. */
  lemma TraceIsSchedule(c: Config, run: seq<Event>)
    requires c.Valid() && c.f.Fixed? && !c.pace.noPad && Good(c, run)
    ensures var s := Exec(c, run).value;
            Trace(s) == Schedule(c, s.resets, |s.log|)
  {
    RunTimes(c, run);
    PacedTheorems.RunInv(c, run);
    TimedTrace(c, Exec(c, run).value);
  }

  lemma TimedTrace(c: Config, s: State)
    requires c.f.Fixed? && LogTimed(c, s) && EntryInv(c, s)
    ensures Trace(s) == Schedule(c, s.resets, |s.log|)
  {
    forall j | 0 <= j < |s.log|
      ensures Trace(s)[j] == Schedule(c, s.resets, |s.log|)[j]
    {
      EntrySize(c, s.enq, s.log[j]);
    }
  }

  lemma EntrySize(c: Config, enq: seq<Item>, e: Entry)
    requires c.f.Fixed? && EntryOk(c, enq, e)
    ensures |e.cell| == c.f.cellSize
  {
  }

  lemma {:induction false} ConstantRate(c: Config, a: seq<Reset>, b: seq<Reset>, k: nat)
    requires c.pace.decay == 1.0
    ensures Due(c, a, k) == Due(c, b, k)
  {
    if k > 0 {
      ConstantRate(c, a, b, k - 1);
    }
  }

  lemma SettledCount(c: Config, s: State, s': State)
    requires c.Valid() && !c.pace.noPad && TimeInv(c, s) && TimeInv(c, s') && Settled(s) && Settled(s')
    requires s.now == s'.now
    requires SameDues(c, s.resets, s'.resets)
    ensures |s.log| >= |s'.log|
  {
    var (a, b) := (s.computes, s'.computes);
    assert s.now < Due(c, s.resets, a);
    assert Due(c, s.resets, b - 1) == Due(c, s'.resets, b - 1) <= s.now;
    if a < b {
      DueSpan(c, s.resets, a, b - 1);
      assert false;
    }
  }

  /** When each write happened. */
  function Times(s: State): seq<int> {
    seq(|s.log|, i requires 0 <= i < |s.log| => s.log[i].time)
  }

  /** In either framing, with padding the k-th write happens at the k-th wakeup due. */
  lemma TimesAreDue(c: Config, run: seq<Event>)
    requires c.Valid() && !c.pace.noPad && Good(c, run)
    ensures var s := Exec(c, run).value;
            forall j :: 0 <= j < |s.log| ==> s.log[j].time == Due(c, s.resets, j + 1)
  {
    RunTimes(c, run);
  }

  ghost predicate SameDues(c: Config, a: seq<Reset>, b: seq<Reset>) {
    forall k: nat :: Due(c, a, k) == Due(c, b, k)
  }

  /** One of the two is a prefix of the other, and both are the same once settled. */
  ghost predicate Indistinguishable<T>(s: State, s': State, a: seq<T>, b: seq<T>) {
    (a <= b || b <= a) && (s.now == s'.now && Settled(s) && Settled(s') ==> a == b)
  }

  lemma TimesAgree(c: Config, s: State, s': State)
    requires LogTimed(c, s) && LogTimed(c, s') && SameDues(c, s.resets, s'.resets)
    requires s.now == s'.now && Settled(s) && Settled(s') ==> |s.log| == |s'.log|
    ensures Indistinguishable(s, s', Times(s), Times(s'))
  {
    var n := Min(|s.log|, |s'.log|);
    forall j | 0 <= j < n
      ensures Times(s)[j] == Times(s')[j]
    {
      assert s.log[j].time == Due(c, s.resets, j + 1) == Due(c, s'.resets, j + 1);
    }
    assert Times(s)[..n] == Times(s')[..n];
  }

  lemma TracesAgree(c: Config, s: State, s': State)
    requires c.f.Fixed? && SameDues(c, s.resets, s'.resets)
    requires Trace(s) == Schedule(c, s.resets, |s.log|) && Trace(s') == Schedule(c, s'.resets, |s'.log|)
    requires s.now == s'.now && Settled(s) && Settled(s') ==> |s.log| == |s'.log|
    ensures Indistinguishable(s, s', Trace(s), Trace(s'))
  {
    var n := Min(|s.log|, |s'.log|);
    assert Schedule(c, s.resets, n) == Schedule(c, s'.resets, n);
    assert Trace(s)[..n] == Trace(s')[..n];
  }

  /** What an observer sees is decided by the wakeups due. */
  lemma DuesDecide(c: Config, run: seq<Event>, run': seq<Event>)
    requires c.Valid() && !c.pace.noPad && Good(c, run) && Good(c, run')
    requires SameDues(c, Exec(c, run).value.resets, Exec(c, run').value.resets)
    ensures var (s, s') := (Exec(c, run).value, Exec(c, run').value);
            && Indistinguishable(s, s', Times(s), Times(s'))
            && (c.f.Fixed? ==> Indistinguishable(s, s', Trace(s), Trace(s')))
  {
    var (s, s') := (Exec(c, run).value, Exec(c, run').value);
    RunTimes(c, run);
    RunTimes(c, run');
    if s.now == s'.now && Settled(s) && Settled(s') {
      SettledCount(c, s, s');
      SettledCount(c, s', s);
    }
    TimesAgree(c, s, s');
    if c.f.Fixed? {
      TraceIsSchedule(c, run);
      TraceIsSchedule(c, run');
      TracesAgree(c, s, s');
    }
  }

  /**
   * Two runs of the same configuration, with any two behaviours of the application: at a
   * constant rate, or when their surge clocks restarted alike, an observer sees the same
   * write times and, in fixed framing, the same writes. Either trace is a prefix of the other
   * at every moment, and they are equal when both runs have reached the same time and their
   * pacers sleep.
   */
  lemma TraceIndependence(c: Config, run: seq<Event>, run': seq<Event>)
    requires c.Valid() && !c.pace.noPad && Good(c, run) && Good(c, run')
    requires c.pace.decay == 1.0 || Exec(c, run).value.resets == Exec(c, run').value.resets
    ensures var (s, s') := (Exec(c, run).value, Exec(c, run').value);
            && Indistinguishable(s, s', Times(s), Times(s'))
            && (c.f.Fixed? ==> Indistinguishable(s, s', Trace(s), Trace(s')))
  {
    var (s, s') := (Exec(c, run).value, Exec(c, run').value);
    forall k: nat
      ensures Due(c, s.resets, k) == Due(c, s'.resets, k)
    {
      if c.pace.decay == 1.0 {
        ConstantRate(c, s.resets, s'.resets, k);
      }
    }
    DuesDecide(c, run, run');
  }

  // ---------- the reset times alone decide ----------

  function ResetTimes(resets: seq<Reset>): seq<nat> {
    seq(|resets|, i requires 0 <= i < |resets| => resets[i].at)
  }

  /**
   * No surge restarted at the very instant a wakeup was due, where the order would be a race.
   * At time 0 the surge clock reads 0 anyway, and the order does not matter.
   */
  ghost predicate Untied(c: Config, resets: seq<Reset>) {
    forall j, k: nat :: 0 <= j < |resets| && resets[j].at > 0 ==> resets[j].at != Due(c, resets[..j], k)
  }

  /** A restart falls between the last delay computed and the next, and after the one before. */
  ghost predicate ResetPlaced(c: Config, before: seq<Reset>, r: Reset) {
    && r.at <= Due(c, before, r.seen)
    && (r.seen == 0 ==> r.at == Due(c, before, 0))
    && (r.seen > 0 ==> Due(c, before, r.seen - 1) <= r.at)
    && (before != [] ==> before[|before| - 1].at <= r.at)
  }

  ghost predicate ResetsPlaced(c: Config, resets: seq<Reset>) {
    forall j :: 0 <= j < |resets| ==> ResetPlaced(c, resets[..j], resets[j])
  }

  lemma PlacedSnoc(c: Config, resets: seq<Reset>, r: Reset)
    requires ResetsPlaced(c, resets) && ResetPlaced(c, resets, r)
    ensures ResetsPlaced(c, resets + [r])
  {
    var all := resets + [r];
    forall j | 0 <= j < |all|
      ensures ResetPlaced(c, all[..j], all[j])
    {
      assert all[..j] == resets[..j];
      if j == |resets| {
        assert resets[..j] == resets;
      }
    }
  }

  lemma {:induction false} RunPlaced(c: Config, run: seq<Event>)
    requires c.Valid() && Good(c, run)
    ensures ResetsPlaced(c, Exec(c, run).value.resets)
  {
    if run != [] {
      var (s, e) := (Exec(c, run[..|run| - 1]).value, run[|run| - 1]);
      StaysUp(c, s, e);
      RunPlaced(c, run[..|run| - 1]);
      RunTimes(c, run[..|run| - 1]);
      PlacedStep(c, s, e);
    }
  }

  lemma PlacedNow(c: Config, s: State)
    requires c.Valid() && TimeInv(c, s)
    ensures ResetPlaced(c, s.resets, Reset(s.now, s.computes))
  {
    if s.computes > 0 {
      DueSpan(c, s.resets, s.computes - 1, s.computes);
    }
    if s.resets != [] {
      assert s.resets[|s.resets| - 1].seen <= s.computes;
      assert SurgeAt(s.resets, s.computes) == s.resets[|s.resets| - 1].at;
    }
  }

  lemma PlacedStep(c: Config, s: State, e: Event)
    requires c.Valid() && TimeInv(c, s) && ResetsPlaced(c, s.resets) && Enabled(c, s, e)
    ensures ResetsPlaced(c, Apply(c, s, e).resets)
  {
    if e.ResetSurge? {
      PlacedNow(c, s);
      PlacedSnoc(c, s.resets, Reset(s.now, s.computes));
    }
    assert Apply(c, s, e).resets == if e.ResetSurge? then s.resets + [Reset(s.now, s.computes)] else s.resets;
  }

  lemma SamePlace(c: Config, before: seq<Reset>, r: Reset, r': Reset)
    requires c.Valid() && r.at == r'.at && ResetPlaced(c, before, r) && ResetPlaced(c, before, r')
    requires forall k: nat :: r.at != Due(c, before, k)
    ensures r.seen >= r'.seen
  {
    assert r'.seen > 0 ==> Due(c, before, r'.seen - 1) < r.at;
    assert r.at < Due(c, before, r.seen);
    if r.seen < r'.seen {
      DueSpan(c, before, r.seen, r'.seen - 1);
      assert false;
    }
  }

  /** The surge clock reads the same after any number of delays. */
  ghost predicate SameSurges(a: seq<Reset>, b: seq<Reset>) {
    forall j: nat :: SurgeAt(a, j) == SurgeAt(b, j)
  }

  lemma {:induction false} SurgesToDues(c: Config, a: seq<Reset>, b: seq<Reset>, k: nat)
    requires SameSurges(a, b)
    ensures Due(c, a, k) == Due(c, b, k)
  {
    if k > 0 {
      SurgesToDues(c, a, b, k - 1);
      assert SurgeAt(a, k - 1) == SurgeAt(b, k - 1);
    }
  }

  /** While every restart was at time 0 the surge clock reads 0. */
  lemma {:induction false} ZeroSurges(c: Config, a: seq<Reset>, j: nat)
    requires ResetsPlaced(c, a) && (a != [] ==> a[|a| - 1].at == 0)
    ensures SurgeAt(a, j) == 0
  {
    if a != [] {
      var n := |a| - 1;
      assert ResetPlaced(c, a[..n], a[n]);
      Shorter(c, a, n);
      ZeroSurges(c, a[..n], j);
    }
  }

  lemma {:induction false} SameTimesSameSurges(c: Config, a: seq<Reset>, b: seq<Reset>)
    requires c.Valid() && ResetsPlaced(c, a) && ResetsPlaced(c, b) && Untied(c, a)
    requires ResetTimes(a) == ResetTimes(b)
    ensures SameSurges(a, b)
  {
    assert |ResetTimes(a)| == |a| && |ResetTimes(b)| == |b|;
    if a != [] {
      var n := |a| - 1;
      TimesPrefix(a, n);
      TimesPrefix(b, n);
      Shorter(c, a, n);
      Shorter(c, b, n);
      SameTimesSameSurges(c, a[..n], b[..n]);
      if a[n].at == 0 {
        forall j: nat
          ensures SurgeAt(a, j) == SurgeAt(b, j)
        {
          ZeroSurges(c, a, j);
          ZeroSurges(c, b, j);
        }
      } else {
        LastToo(c, a, b, n);
      }
    }
  }

  lemma LastToo(c: Config, a: seq<Reset>, b: seq<Reset>, n: nat)
    requires c.Valid() && ResetsPlaced(c, a) && ResetsPlaced(c, b) && Untied(c, a)
    requires |a| == |b| == n + 1 && SameSurges(a[..n], b[..n]) && a[n].at == b[n].at > 0
    ensures SameSurges(a, b)
  {
    assert ResetPlaced(c, a[..n], a[n]) && ResetPlaced(c, b[..n], b[n]);
    forall k: nat
      ensures Due(c, a[..n], k) == Due(c, b[..n], k)
    {
      SurgesToDues(c, a[..n], b[..n], k);
    }
    SameLast(c, a[..n], b[..n], a[n], b[n]);
    forall j: nat
      ensures SurgeAt(a, j) == SurgeAt(b, j)
    {
      assert SurgeAt(a[..n], j) == SurgeAt(b[..n], j);
    }
  }

  lemma SameLast(c: Config, x: seq<Reset>, y: seq<Reset>, r: Reset, r': Reset)
    requires c.Valid() && r.at == r'.at && ResetPlaced(c, x, r) && ResetPlaced(c, y, r') && SameDues(c, x, y)
    requires forall k: nat :: r.at != Due(c, x, k)
    ensures r == r'
  {
    var (p, q) := (r.(seen := r'.seen), r);
    assert Due(c, x, r'.seen) == Due(c, y, r'.seen) && Due(c, x, 0) == Due(c, y, 0);
    assert r'.seen > 0 ==> Due(c, x, r'.seen - 1) == Due(c, y, r'.seen - 1);
    assert ResetPlaced(c, x, p);
    SamePlace(c, x, p, q);
    SamePlace(c, x, q, p);
  }

  lemma TimesPrefix(a: seq<Reset>, n: nat)
    requires n < |a|
    ensures ResetTimes(a[..n]) == ResetTimes(a)[..n] && ResetTimes(a)[n] == a[n].at
  {
  }

  lemma Shorter(c: Config, a: seq<Reset>, n: nat)
    requires n <= |a| && ResetsPlaced(c, a)
    ensures ResetsPlaced(c, a[..n])
    ensures Untied(c, a) ==> Untied(c, a[..n])
  {
    forall j | 0 <= j < n
      ensures a[..n][..j] == a[..j]
    {
    }
    forall j | 0 <= j < n
      ensures ResetPlaced(c, a[..n][..j], a[..n][j])
    {
      assert ResetPlaced(c, a[..j], a[j]);
    }
  }

  /** With decay, the trace is a function of the times at which the surge clock restarted. */
  lemma TraceOfResetTimes(c: Config, run: seq<Event>, run': seq<Event>)
    requires c.Valid() && !c.pace.noPad && Good(c, run) && Good(c, run')
    requires var (s, s') := (Exec(c, run).value, Exec(c, run').value);
             ResetTimes(s.resets) == ResetTimes(s'.resets) && Untied(c, s.resets)
    ensures var (s, s') := (Exec(c, run).value, Exec(c, run').value);
            && Indistinguishable(s, s', Times(s), Times(s'))
            && (c.f.Fixed? ==> Indistinguishable(s, s', Trace(s), Trace(s')))
  {
    var (a, b) := (Exec(c, run).value.resets, Exec(c, run').value.resets);
    RunPlaced(c, run);
    RunPlaced(c, run');
    SameTimesSameSurges(c, a, b);
    forall k: nat
      ensures Due(c, a, k) == Due(c, b, k)
    {
      SurgesToDues(c, a, b, k);
    }
    DuesDecide(c, run, run');
  }

  // ---------- rate bounds ----------

  /** The i-th to the (i+n-1)-th write are exactly those in the window [from, to]. */
  ghost predicate Window(s: State, i: nat, n: nat, from: nat, to: nat) {
    && i + n <= |s.log| && from <= to <= s.now
    && (forall j :: i <= j < i + n ==> from <= s.log[j].time <= to)
    && (i > 0 ==> s.log[i - 1].time < from)
    && (i + n < |s.log| ==> to < s.log[i + n].time)
  }

  lemma WindowEdges(c: Config, s: State, i: nat, n: nat, from: nat, to: nat)
    requires c.Valid() && !c.pace.noPad && TimeInv(c, s) && Window(s, i, n, from, to)
    ensures Due(c, s.resets, i) <= from && to <= Due(c, s.resets, i + n + 1)
    ensures n > 0 ==> from <= Due(c, s.resets, i + 1) && Due(c, s.resets, i + n) <= to
  {
    if i > 0 {
      assert s.log[i - 1].time == Due(c, s.resets, i);
    }
    if n > 0 {
      assert s.log[i].time == Due(c, s.resets, i + 1) && s.log[i + n - 1].time == Due(c, s.resets, i + n);
    }
    if i + n < |s.log| {
      assert s.log[i + n].time == Due(c, s.resets, i + n + 1);
    } else {
      DueSpan(c, s.resets, s.computes, i + n + 1);
    }
  }

  /**
   * A window with n cells is long enough for n - 1 shortest delays and too short for more
   * than n + 1 longest ones: the number of cells in any window is bounded on both sides.
   */
  lemma CellsInWindow(c: Config, run: seq<Event>, i: nat, n: nat, from: nat, to: nat)
    requires c.Valid() && !c.pace.noPad && Good(c, run) && Window(Exec(c, run).value, i, n, from, to)
    ensures TopRate(c) > 0.0 && c.pace.minRate > 0.0
    ensures n > 0 ==> (n - 1) * Delay(TopRate(c)) <= to - from
    ensures to - from <= (n + 1) * Delay(c.pace.minRate)
  {
    var s := Exec(c, run).value;
    RunTimes(c, run);
    WindowEdges(c, s, i, n, from, to);
    WindowBounds(c, s.resets, i, n, from, to);
  }

  lemma WindowBounds(c: Config, resets: seq<Reset>, i: nat, n: nat, from: nat, to: nat)
    requires c.Valid()
    requires Due(c, resets, i) <= from && to <= Due(c, resets, i + n + 1)
    requires n > 0 ==> from <= Due(c, resets, i + 1) && Due(c, resets, i + n) <= to
    ensures TopRate(c) > 0.0 && c.pace.minRate > 0.0
    ensures n > 0 ==> (n - 1) * Delay(TopRate(c)) <= to - from
    ensures to - from <= (n + 1) * Delay(c.pace.minRate)
  {
    if n > 0 {
      SpanOf(c, resets, i + 1, i + n, n - 1);
    }
    SpanOf(c, resets, i, i + n + 1, n + 1);
  }

  lemma SpanOf(c: Config, resets: seq<Reset>, k: nat, m: nat, n: nat)
    requires c.Valid() && m == k + n
    ensures TopRate(c) > 0.0 && c.pace.minRate > 0.0
    ensures n * Delay(TopRate(c)) <= Due(c, resets, m) - Due(c, resets, k) <= n * Delay(c.pace.minRate)
  {
    DueSpan(c, resets, k, m);
    assert m - k == n;
  }

  /** Any two writes are as many shortest delays apart as there are writes between them. */
  ghost predicate Apart(d: int, log: seq<Entry>) {
    forall j, k :: 0 <= j < k < |log| ==> log[k].time - log[j].time >= (k - j) * d
  }

  /** The pacer is at least a shortest delay behind its last write when it wakes. */
  ghost predicate SpacedInv(c: Config, s: State)
    requires TopRate(c) > 0.0
  {
    var d := Delay(TopRate(c));
    && Apart(d, s.log)
    && (s.log != [] ==>
          var last := s.log[|s.log| - 1].time;
          && last <= s.now
          && (s.pacer.Sleeping? ==> last + d <= s.pacer.until)
          && (Busy(s.pacer) ==> last + d <= s.now))
  }

  lemma ApartSnoc(d: int, log: seq<Entry>, e: Entry)
    requires Apart(d, log) && (log != [] ==> log[|log| - 1].time + d <= e.time)
    ensures Apart(d, log + [e])
  {
    var (n, all) := (|log|, log + [e]);
    forall j, k | 0 <= j < k < |all|
      ensures all[k].time - all[j].time >= (k - j) * d
    {
      if k == n && j < n - 1 {
        assert log[n - 1].time - log[j].time >= (n - 1 - j) * d;
        assert (n - j) * d == (n - 1 - j) * d + d;
      }
    }
  }

  lemma SpacedStep(c: Config, s: State, e: Event)
    requires c.Valid() && TopRate(c) > 0.0 && SpacedInv(c, s) && CloserInv(s) && Enabled(c, s, e) && !Apply(c, s, e).done
    ensures SpacedInv(c, Apply(c, s, e))
  {
    if e.Compute? {
      IntervalBounds(c, Elapsed(s.now, s.paceStart));
    } else if e.WriteOk? {
      ApartSnoc(Delay(TopRate(c)), s.log, s.pacer.hand.(time := s.now));
    } else {
      SpacedQuiet(c, s, e);
    }
  }

  lemma SpacedQuiet(c: Config, s: State, e: Event)
    requires TopRate(c) > 0.0 && SpacedInv(c, s) && CloserInv(s) && Enabled(c, s, e) && !Apply(c, s, e).done
    requires !e.Compute? && !e.WriteOk?
    ensures SpacedInv(c, Apply(c, s, e))
  {
    var s' := Apply(c, s, e);
    assert s'.log == s.log;
  }

  lemma {:induction false} RunSpaced(c: Config, run: seq<Event>)
    requires c.Valid() && Exec(c, run).Some? && !Exec(c, run).value.done
    ensures TopRate(c) > 0.0 && SpacedInv(c, Exec(c, run).value)
  {
    IntervalBounds(c, 0);
    if run != [] {
      var (s, e) := (Exec(c, run[..|run| - 1]).value, run[|run| - 1]);
      DoneStays(c, s, e);
      RunSpaced(c, run[..|run| - 1]);
      PacedTheorems.RunInv(c, run[..|run| - 1]);
      SpacedStep(c, s, e);
    }
  }

  /**
   * In every run while open, timers ideal or late, padding or not: writes are never closer
   * than the shortest delay, so a window with n cells lasts at least n - 1 of them.
   */
  lemma NeverFaster(c: Config, run: seq<Event>, i: nat, n: nat, from: nat, to: nat)
    requires c.Valid() && Exec(c, run).Some? && !Exec(c, run).value.done
    requires Window(Exec(c, run).value, i, n, from, to) && n > 0
    ensures TopRate(c) > 0.0 && (n - 1) * Delay(TopRate(c)) <= to - from
  {
    RunSpaced(c, run);
    var log := Exec(c, run).value.log;
    if n > 1 {
      assert log[i + n - 1].time - log[i].time >= (i + n - 1 - i) * Delay(TopRate(c));
    }
  }

  // ---------- draining ----------

  /** How many times the pacer has looked at the queue. */
  function Takes(s: State): int {
    if s.pacer.Ready? || s.pacer.Writing? then s.computes else s.computes - 1
  }

  /** From s on: each look at the queue took one more of the cells queued at s, if any was left. */
  ghost predicate Drains(c: Config, s: State, s': State) {
    && Takes(s) >= 0 && Takes(s') >= Takes(s) && s'.computes >= s.computes
    && Due(c, s'.resets, Takes(s)) == Due(c, s.resets, Takes(s))
    && |s'.enq| >= |s.enq|
    && (s'.head >= |s.enq| || s'.head >= s.head + (Takes(s') - Takes(s)))
  }

  lemma DrainStep(c: Config, s: State, t: State, e: Event)
    requires c.Valid() && Drains(c, s, t) && Enabled(c, t, e) && TimeInv(c, s) && TimeInv(c, t)
    requires PacedTheorems.Inv(c, t) && !Apply(c, t, e).failed && !Apply(c, t, e).done && !t.done
    ensures Drains(c, s, Apply(c, t, e))
  {
    if e.ResetSurge? {
      DueStable(c, t.resets, Reset(t.now, t.computes), Takes(s));
    } else if CallEvent(e) {
      CallsLeaveCells(c, t, e);
      assert Takes(Apply(c, t, e)) == Takes(t);
    } else {
      DrainPacer(c, s, t, e);
    }
  }

  lemma DrainPacer(c: Config, s: State, t: State, e: Event)
    requires c.Valid() && Drains(c, s, t) && Enabled(c, t, e) && TimeInv(c, s) && TimeInv(c, t) && !CallEvent(e)
    requires PacedTheorems.Inv(c, t) && !Apply(c, t, e).failed && !Apply(c, t, e).done && !t.done
    ensures Drains(c, s, Apply(c, t, e))
  {
    var t' := Apply(c, t, e);
    assert t'.resets == t.resets && t'.enq == t.enq;
  }

  lemma {:induction false} DrainRun(c: Config, run: seq<Event>, more: seq<Event>)
    requires c.Valid() && Good(c, run + more)
    ensures Good(c, run) && Drains(c, Exec(c, run).value, Exec(c, run + more).value)
  {
    if more == [] {
      assert run + more == run;
      RunTimes(c, run);
    } else {
      var (n, all) := (|more| - 1, run + more);
      var mid := run + more[..n];
      assert all[..|all| - 1] == mid && all[|all| - 1] == more[n];
      StaysUp(c, Exec(c, mid).value, more[n]);
      DrainRun(c, run, more[..n]);
      RunTimes(c, run);
      RunTimes(c, mid);
      PacedTheorems.RunInv(c, mid);
      DrainStep(c, Exec(c, run).value, Exec(c, mid).value, more[n]);
    }
  }

  /**
   * More than q longest delays after a moment with q queued cells, all of them have left the
   * queue, padding or not, whatever was enqueued behind them.
   */
  lemma QueueDrains(c: Config, run: seq<Event>, more: seq<Event>)
    requires c.Valid() && Good(c, run + more)
    ensures Good(c, run) && c.pace.minRate > 0.0
    ensures var (s, s') := (Exec(c, run).value, Exec(c, run + more).value);
            s'.now > s.now + |s.queue| * Delay(c.pace.minRate) ==> s'.head >= s.head + |s.queue|
  {
    DrainRun(c, run, more);
    RunTimes(c, run);
    RunTimes(c, run + more);
    PacedTheorems.RunInv(c, run);
    IntervalBounds(c, 0);
    DrainClock(c, Exec(c, run).value, Exec(c, run + more).value);
  }

  lemma DrainClock(c: Config, s: State, s': State)
    requires c.Valid() && TimeInv(c, s) && TimeInv(c, s') && Drains(c, s, s') && QueueInv(c, s)
    requires c.pace.minRate > 0.0 && Delay(c.pace.minRate) >= 0
    ensures s'.now > s.now + |s.queue| * Delay(c.pace.minRate) ==> s'.head >= s.head + |s.queue|
  {
    TakesClock(c, s);
    TakesClock(c, s');
    var (d, q) := (Takes(s') - Takes(s), |s.queue|);
    SpanOf(c, s'.resets, Takes(s), Takes(s') + 1, d + 1);
    if d < q {
      LessTimes(d + 1, q, Delay(c.pace.minRate));
    }
  }

  lemma LessTimes(a: nat, b: nat, x: int)
    requires a <= b && x >= 0
    ensures a * x <= b * x
  {
    assert (b - a) * x >= 0;
  }

  /** The clock is at or past the last look at the queue, and not past the next. */
  lemma TakesClock(c: Config, s: State)
    requires c.Valid() && TimeInv(c, s)
    ensures Takes(s) >= 0
    ensures Due(c, s.resets, Takes(s)) <= s.now <= Due(c, s.resets, Takes(s) + 1)
  {
    DueSpan(c, s.resets, Takes(s), Takes(s) + 1);
  }
}

/**
 * Direct (unpaced) mode as a step relation: concurrent Write calls, the idle-cover loop,
 * the FRONT loop and Close share one mutex and one base connection; a peer reads the wire.
 * Each step is one atomic action of one goroutine, so every interleaving is a step list.
 */
module DirectShaper {
  import opened Bytes
  import opened Framing

  /**
   * `ideal` restricts the clock only: ticks are taken on time and no time passes while a
   * goroutine is runnable. Nothing but CoverGaps depends on it.
   */
  datatype Config = Config(f: Framing, cover: bool, interval: nat, front: seq<nat>, ideal: bool) {
    predicate Valid() {
      && f.Valid()
      && (f.Fixed? ==> f.cellSize <= 65537)  // every length fits its field, see FixedRoundTripExactly
      && interval > 0
    }
  }

  datatype Phase = Delayed | Critical | Returned(ok: bool)

  /** One Write call: its payload, the framed flush, and how far it got. */
  datatype Call = Call(p: seq<byte>, flush: seq<byte>, phase: Phase)

  datatype Owner = ByCall(id: nat) | ByCover | ByFront

  /** The write mutex; `wrote` is set between the base write and the update of lastWrite. */
  datatype Lock = Free | Held(owner: Owner, wrote: bool)

  datatype Loop = Waiting | Woken | InLock | Exited

  datatype Entry = Entry(time: nat, owner: Owner)

  datatype State = State(
    now: nat, lastWrite: nat, lock: Lock, calls: seq<Call>,
    cover: Loop, nextTick: nat,
    front: Loop,
    fired: nat, frontLost: nat,  // FRONT times that came, and cells for them that failed
    done: bool, baseClosed: bool, failed: bool,
    wire: seq<byte>,
    log: seq<Entry>,             // successful base writes
    order: seq<nat>,             // calls in the order they wrote under the lock
    sent: seq<seq<byte>>,        // their payloads
    unread: seq<byte>,           // the part of the wire the peer has not taken off yet
    pending: seq<byte>, delivered: seq<byte>)

  datatype Event =
    | Advance(d: nat)
    | Write(p: seq<byte>, cells: seq<seq<byte>>, ds: seq<seq<byte>>)
    | LockCall(i: nat) | FlushOk(i: nat) | FlushErr(i: nat, part: seq<byte>) | Unlock(i: nat)
    | Tick | LockCover | Skip | CoverOk(c: seq<byte>) | CoverErr(c: seq<byte>, part: seq<byte>) | UnlockCover | ExitCover
    | Fire | LockFront | FrontOk(c: seq<byte>) | FrontErr(c: seq<byte>, part: seq<byte>) | UnlockFront | ExitFront
    | CloseBegin | CloseEnd
    | Fetch | Deliver(k: nat)

  function Init(c: Config): State {
    State(0, 0, Free, [], if c.cover then Waiting else Exited, c.interval,
          if c.front != [] then Waiting else Exited, 0, 0,
          false, false, false, [], [], [], [], [], [], [])
  }

  ghost predicate Holds(s: State, o: Owner, wrote: bool) {
    s.lock == Held(o, wrote)
  }

  ghost predicate Enabled(c: Config, s: State, e: Event)
    requires c.f.Valid()
  {
    match e
    case Advance(d) =>
      c.ideal ==>
        && s.lock.Free? && s.cover != Woken && s.front != Woken
        && (s.cover.Waiting? ==> s.now + d <= s.nextTick)
    case Write(p, cells, ds) =>
      Framed(c.f, p, cells, ds)
    case LockCall(i) => s.lock.Free? && i < |s.calls| && s.calls[i].phase.Delayed?
    case FlushOk(i) => Holds(s, ByCall(i), false) && i < |s.calls| && !s.baseClosed
    case FlushErr(i, part) =>
      Holds(s, ByCall(i), false) && i < |s.calls| && part <= s.calls[i].flush && (s.baseClosed ==> part == [])
    case Unlock(i) => Holds(s, ByCall(i), true) && i < |s.calls|
    case Tick => s.cover.Waiting? && s.now >= s.nextTick
    case LockCover => s.lock.Free? && s.cover.Woken?
    case Skip => Holds(s, ByCover, false) && s.now - s.lastWrite < c.interval
    case CoverOk(cell) =>
      Holds(s, ByCover, false) && s.now - s.lastWrite >= c.interval && CellOf(c.f, cell, []) && !s.baseClosed
    case CoverErr(cell, part) =>
      Holds(s, ByCover, false) && s.now - s.lastWrite >= c.interval && CellOf(c.f, cell, []) && part <= cell
    case UnlockCover => Holds(s, ByCover, true)
    case ExitCover => s.cover.Waiting? && s.done
    case Fire => s.front.Waiting? && s.fired < |c.front| && s.now >= c.front[s.fired]
    case LockFront => s.lock.Free? && s.front.Woken?
    case FrontOk(cell) => Holds(s, ByFront, false) && CellOf(c.f, cell, []) && !s.baseClosed
    case FrontErr(cell, part) => Holds(s, ByFront, false) && CellOf(c.f, cell, []) && part <= cell
    case UnlockFront => Holds(s, ByFront, true)
    case ExitFront => s.front.Waiting? && (s.done || s.fired >= |c.front|)
    case CloseBegin => !s.done
    case CloseEnd => s.done && s.cover.Exited? && s.front.Exited? && !s.baseClosed
    case Fetch => s.pending == [] && Next(c.f, s.unread).Cell?
    case Deliver(k) => 0 < k <= |s.pending|
  }

  function SetPhase(s: State, i: nat, ph: Phase): seq<Call>
    requires i < |s.calls|
  {
    s.calls[i := s.calls[i].(phase := ph)]
  }

  /** A successful base write of w by the lock holder o. */
  function Wrote(s: State, o: Owner, w: seq<byte>): State {
    s.(lock := Held(o, true), wire := s.wire + w, unread := s.unread + w, log := s.log + [Entry(s.now, o)])
  }

  /** A failed base write: some prefix may have gone out, and the lock is released. */
  function Lost(s: State, part: seq<byte>): State {
    s.(lock := Free, wire := s.wire + part, unread := s.unread + part, failed := true)
  }

  ghost function Apply(c: Config, s: State, e: Event): State
    requires c.f.Valid() && Enabled(c, s, e)
  {
    match e
    case Advance(d) => s.(now := s.now + d)
    case Write(p, cells, _) =>
      s.(calls := s.calls + [Call(p, Flatten(cells), if p == [] then Returned(true) else Delayed)])
    case LockCall(i) => s.(lock := Held(ByCall(i), false), calls := SetPhase(s, i, Critical))
    case FlushOk(i) =>
      Wrote(s, ByCall(i), s.calls[i].flush).(order := s.order + [i], sent := s.sent + [s.calls[i].p])
    case FlushErr(i, part) => Lost(s, part).(calls := SetPhase(s, i, Returned(false)))
    case Unlock(i) => s.(lock := Free, lastWrite := s.now, calls := SetPhase(s, i, Returned(true)))
    case Tick => s.(cover := Woken, nextTick := s.nextTick + c.interval)
    case LockCover => s.(lock := Held(ByCover, false), cover := InLock)
    case Skip => s.(lock := Free, cover := Waiting)
    case CoverOk(cell) => Wrote(s, ByCover, cell)
    case CoverErr(_, part) => Lost(s, part).(cover := Waiting)
    case UnlockCover => s.(lock := Free, lastWrite := s.now, cover := Waiting)
    case ExitCover => s.(cover := Exited)
    case Fire => s.(front := Woken, fired := s.fired + 1)
    case LockFront => s.(lock := Held(ByFront, false), front := InLock)
    case FrontOk(cell) => Wrote(s, ByFront, cell)
    case FrontErr(_, part) => Lost(s, part).(front := Waiting, frontLost := s.frontLost + 1)
    case UnlockFront => s.(lock := Free, lastWrite := s.now, front := Waiting)
    case ExitFront => s.(front := Exited)
    case CloseBegin => s.(done := true)
    case CloseEnd => s.(baseClosed := true)
    case Fetch =>
      var n := Next(c.f, s.unread);
      s.(unread := n.rest, pending := n.data)
    case Deliver(k) => s.(pending := s.pending[k..], delivered := s.delivered + s.pending[..k])
  }

  /** The state after a list of steps, if each was enabled in turn. */
  ghost function Exec(c: Config, run: seq<Event>): Option<State>
    requires c.f.Valid()
  {
    if run == [] then Some(Init(c))
    else
      match Exec(c, run[..|run| - 1])
      case None => None
      case Some(s) => if Enabled(c, s, run[|run| - 1]) then Some(Apply(c, s, run[|run| - 1])) else None
  }

  // ---------- transparency ----------

  /** A stretch of whole cells w completes what was got to the payload. */
  ghost predicate Brings(f: Framing, w: seq<byte>, got: seq<byte>, payload: seq<byte>)
    requires f.Valid()
  {
    Whole(f, w) && got + Decode(f, w).bytes == payload
  }

  /** The wire carries what was sent, and so does what the peer got with what it has not read. */
  ghost predicate StreamInv(c: Config, s: State)
    requires c.f.Valid()
  {
    && Brings(c.f, s.wire, [], Flatten(s.sent))
    && Brings(c.f, s.unread, s.delivered + s.pending, Flatten(s.sent))
  }

  /** Appending whole cells w appends exactly their payload. */
  lemma BringsMore(f: Framing, a: seq<byte>, got: seq<byte>, payload: seq<byte>, w: seq<byte>)
    requires f.Valid() && Brings(f, a, got, payload) && Whole(f, w)
    ensures Brings(f, a + w, got, payload + Decode(f, w).bytes)
  {
    DecodeConcat(f, a, w);
    ResidueConcat(f, a, w);
    PrependData(got, Decode(f, a).bytes, Decode(f, w).bytes);
  }

  /** Taking the next cell off. */
  lemma BringsNext(f: Framing, w: seq<byte>, got: seq<byte>, payload: seq<byte>)
    requires f.Valid() && Brings(f, w, got, payload) && Next(f, w).Cell?
    ensures Brings(f, Next(f, w).rest, got + Next(f, w).data, payload)
  {
    PrependData(got, Next(f, w).data, Decode(f, Next(f, w).rest).bytes);
  }

  /** A framed flush decodes to its payload. */
  ghost predicate FlushInv(c: Config, s: State)
    requires c.f.Valid()
  {
    forall i :: 0 <= i < |s.calls| ==>
      Whole(c.f, s.calls[i].flush) && Decode(c.f, s.calls[i].flush).bytes == s.calls[i].p
  }

  lemma FlushStep(c: Config, s: State, e: Event)
    requires c.Valid() && FlushInv(c, s) && Enabled(c, s, e)
    ensures FlushInv(c, Apply(c, s, e))
  {
    if e.Write? {
      FlushDecodes(c.f, e.cells, e.ds);
    }
  }

  lemma StreamFlush(c: Config, s: State, i: nat)
    requires c.Valid() && StreamInv(c, s) && FlushInv(c, s) && Enabled(c, s, FlushOk(i))
    ensures StreamInv(c, Apply(c, s, FlushOk(i)))
  {
    FlattenSnoc(s.sent, s.calls[i].p);
    BringsMore(c.f, s.wire, [], Flatten(s.sent), s.calls[i].flush);
    BringsMore(c.f, s.unread, s.delivered + s.pending, Flatten(s.sent), s.calls[i].flush);
  }

  lemma StreamRead(c: Config, s: State, e: Event)
    requires c.Valid() && StreamInv(c, s) && Enabled(c, s, e) && (e.Fetch? || e.Deliver?)
    ensures StreamInv(c, Apply(c, s, e))
  {
    var got := s.delivered + s.pending;
    if e.Fetch? {
      BringsNext(c.f, s.unread, got, Flatten(s.sent));
      assert got == s.delivered;
    } else {
      assert s.delivered + s.pending[..e.k] + s.pending[e.k..] == got;
    }
  }

  lemma StreamStep(c: Config, s: State, e: Event)
    requires c.Valid() && StreamInv(c, s) && FlushInv(c, s) && Enabled(c, s, e)
    requires !Apply(c, s, e).failed
    ensures StreamInv(c, Apply(c, s, e))
  {
    if e.FlushOk? {
      StreamFlush(c, s, e.i);
    } else if e.CoverOk? || e.FrontOk? {
      CoverCarries(c, s, e.c);
    } else if e.Fetch? || e.Deliver? {
      StreamRead(c, s, e);
    } else {
      var s' := Apply(c, s, e);
      assert s'.wire == s.wire && s'.unread == s.unread && s'.sent == s.sent;
      assert s'.delivered == s.delivered && s'.pending == s.pending;
    }
  }

  /** A cover cell adds nothing to the stream. */
  lemma CoverCarries(c: Config, s: State, cell: seq<byte>)
    requires c.Valid() && StreamInv(c, s) && CellOf(c.f, cell, [])
    ensures StreamInv(c, s.(wire := s.wire + cell, unread := s.unread + cell))
  {
    OneCell(c.f, cell, []);
    BringsMore(c.f, s.wire, [], Flatten(s.sent), cell);
    BringsMore(c.f, s.unread, s.delivered + s.pending, Flatten(s.sent), cell);
    assert Flatten(s.sent) + [] == Flatten(s.sent);
  }

  // ---------- calls and the lock ----------

  /** Each call writes at most once, and a call that reported success has written. */
  ghost predicate CallInv(s: State) {
    && |s.order| == |s.sent|
    && (forall k :: 0 <= k < |s.order| ==> s.order[k] < |s.calls| && s.calls[s.order[k]].p == s.sent[k])
    && (forall j, k :: 0 <= j < k < |s.order| ==> s.order[j] != s.order[k])
    && (forall i :: 0 <= i < |s.calls| ==> CallPhase(s, i))
    && (s.lock.Held? && s.lock.owner.ByCall? ==> s.lock.owner.id < |s.calls|)
  }

  ghost predicate CallPhase(s: State, i: nat)
    requires i < |s.calls|
  {
    var mine := s.lock.Held? && s.lock.owner == ByCall(i);
    match s.calls[i].phase
    case Delayed => i !in s.order && !mine && s.calls[i].p != []
    case Critical => mine && (i in s.order <==> s.lock.wrote) && s.calls[i].p != []
    case Returned(ok) => !mine && (i in s.order <==> ok && s.calls[i].p != [])
  }

  lemma CallStepFlush(c: Config, s: State, i: nat)
    requires c.f.Valid() && CallInv(s) && Enabled(c, s, FlushOk(i))
    ensures CallInv(Apply(c, s, FlushOk(i)))
  {
    var s' := Apply(c, s, FlushOk(i));
    assert CallPhase(s, i);
    forall j | 0 <= j < |s'.calls|
      ensures CallPhase(s', j)
    {
      assert CallPhase(s, j);
      assert j in s'.order <==> j in s.order || j == i;
    }
  }

  lemma CallStep(c: Config, s: State, e: Event)
    requires c.f.Valid() && CallInv(s) && Enabled(c, s, e)
    ensures CallInv(Apply(c, s, e))
  {
    if e.FlushOk? {
      CallStepFlush(c, s, e.i);
    } else {
      var s' := Apply(c, s, e);
      assert s'.order == s.order && s'.sent == s.sent;
      forall j | 0 <= j < |s'.calls|
        ensures CallPhase(s', j)
      {
        if j < |s.calls| {
          assert CallPhase(s, j);
        }
      }
    }
  }

  // ---------- the lock, Close and FRONT ----------

  /** Nobody is in the critical section without the lock, and the loops end before the base does. */
  ghost predicate LockInv(s: State) {
    && (s.cover.InLock? <==> s.lock.Held? && s.lock.owner.ByCover?)
    && (s.front.InLock? <==> s.lock.Held? && s.lock.owner.ByFront?)
    && (s.baseClosed ==> s.done && s.cover.Exited? && s.front.Exited?)
  }

  lemma LockStep(c: Config, s: State, e: Event)
    requires c.f.Valid() && LockInv(s) && Enabled(c, s, e)
    ensures LockInv(Apply(c, s, e))
  {
  }

  lemma {:induction false} RunLock(c: Config, run: seq<Event>)
    requires c.Valid()
    ensures Exec(c, run).Some? ==> LockInv(Exec(c, run).value)
  {
    if run != [] && Exec(c, run).Some? {
      RunLock(c, run[..|run| - 1]);
      LockStep(c, Exec(c, run[..|run| - 1]).value, run[|run| - 1]);
    }
  }

  /** A step with which whoever holds the lock writes, gives up, or gives the lock back. */
  function WayOut(c: Config, s: State): Event
    requires c.f.Valid() && s.lock.Held?
  {
    match s.lock.owner
    case ByCall(i) => if s.lock.wrote then Unlock(i) else FlushErr(i, [])
    case ByCover =>
      if s.lock.wrote then UnlockCover
      else if s.now - s.lastWrite < c.interval then Skip
      else CoverErr(CoverCell(c.f), [])
    case ByFront => if s.lock.wrote then UnlockFront else FrontErr(CoverCell(c.f), [])
  }

  /**
   * In every run: at most one goroutine is between taking the lock and giving it back, exactly
   * the holder, and the holder always has a step that frees the lock.
   */
  lemma LockIsFreed(c: Config, run: seq<Event>, i: nat)
    requires c.Valid() && Exec(c, run).Some?
    ensures var s := Exec(c, run).value;
            && (s.cover.InLock? <==> s.lock.Held? && s.lock.owner == ByCover)
            && (s.front.InLock? <==> s.lock.Held? && s.lock.owner == ByFront)
            && (i < |s.calls| ==> (s.calls[i].phase.Critical? <==> s.lock.Held? && s.lock.owner == ByCall(i)))
            && (s.lock.Held? ==> Enabled(c, s, WayOut(c, s)) && Apply(c, s, WayOut(c, s)).lock.Free?)
  {
    RunInv(c, run);
    RunLock(c, run);
    CoverCarriesNothing(c.f);
    if i < |Exec(c, run).value.calls| {
      assert CallPhase(Exec(c, run).value, i);
    }
  }

  /** After Close has closed the base no cover goes out, and nothing else reaches the wire. */
  lemma ClosedStep(c: Config, s: State, e: Event)
    requires c.f.Valid() && LockInv(s) && s.baseClosed && Enabled(c, s, e)
    ensures var s' := Apply(c, s, e);
            s'.baseClosed && s'.wire == s.wire && s'.log == s.log && s'.sent == s.sent
  {
  }

  /** Close closes the base only after both loops have ended, and from then on the wire is still. */
  lemma {:induction false} ClosedForGood(c: Config, run: seq<Event>, more: seq<Event>)
    requires c.Valid() && Exec(c, run + more).Some?
    ensures Exec(c, run).Some?
    ensures var (s, t) := (Exec(c, run).value, Exec(c, run + more).value);
            s.baseClosed ==>
              && s.cover.Exited? && s.front.Exited?
              && t.baseClosed && t.wire == s.wire && t.log == s.log && t.sent == s.sent
  {
    RunLock(c, run);
    if more == [] {
      assert run + more == run;
    } else {
      var n := |more| - 1;
      var mid := run + more[..n];
      assert (run + more)[..|run + more| - 1] == mid && (run + more)[|run + more| - 1] == more[n];
      ClosedForGood(c, run, more[..n]);
      RunLock(c, run);
      RunLock(c, mid);
      if Exec(c, mid).value.baseClosed {
        ClosedStep(c, Exec(c, mid).value, more[n]);
      }
    }
  }

  /** The next step, without an error, of the lock holder, a loop that has work, or Close. */
  function CloseMove(c: Config, s: State): Event
    requires c.f.Valid()
  {
    if s.lock.Held? then
      match s.lock.owner
      case ByCall(i) => if s.lock.wrote then Unlock(i) else FlushOk(i)
      case ByCover =>
        if s.lock.wrote then UnlockCover
        else if s.now - s.lastWrite < c.interval then Skip
        else CoverOk(CoverCell(c.f))
      case ByFront => if s.lock.wrote then UnlockFront else FrontOk(CoverCell(c.f))
    else if s.cover.Woken? then LockCover
    else if s.front.Woken? then LockFront
    else if s.cover.Waiting? then ExitCover
    else if s.front.Waiting? then ExitFront
    else CloseEnd
  }

  function LoopRank(l: Loop): nat {
    if l.Woken? then 3 else if l.InLock? then 2 else if l.Waiting? then 1 else 0
  }

  function LockRank(l: Lock): nat {
    if l.Free? then 0 else if l.wrote then 1 else 2
  }

  ghost predicate Closing(s: State) {
    s.done && !s.baseClosed && LockInv(s) && CallInv(s)
  }

  /** Less is left to do before the base is closed. */
  predicate Nearer(s: State, t: State) {
    || t.baseClosed
    || LoopRank(t.cover) < LoopRank(s.cover)
    || (LoopRank(t.cover) == LoopRank(s.cover)
        && (|| LoopRank(t.front) < LoopRank(s.front)
            || (LoopRank(t.front) == LoopRank(s.front) && LockRank(t.lock) < LockRank(s.lock))))
  }

  lemma CloseMoves(c: Config, s: State)
    requires c.f.Valid() && Closing(s)
    ensures Enabled(c, s, CloseMove(c, s))
    ensures var t := Apply(c, s, CloseMove(c, s));
            t.done && t.failed == s.failed && |t.calls| == |s.calls| && Nearer(s, t)
  {
    if s.lock.Held? {
      HolderMoves(c, s);
    } else {
      LoopMoves(c, s);
    }
  }

  lemma HolderMoves(c: Config, s: State)
    requires c.f.Valid() && Closing(s) && s.lock.Held?
    ensures Enabled(c, s, CloseMove(c, s))
    ensures var t := Apply(c, s, CloseMove(c, s));
            t.done && t.failed == s.failed && |t.calls| == |s.calls| && Nearer(s, t)
  {
    CoverCarriesNothing(c.f);
  }

  lemma LoopMoves(c: Config, s: State)
    requires c.f.Valid() && Closing(s) && s.lock.Free?
    ensures Enabled(c, s, CloseMove(c, s))
    ensures var t := Apply(c, s, CloseMove(c, s));
            t.done && t.failed == s.failed && |t.calls| == |s.calls| && Nearer(s, t)
  {
    assert !s.cover.InLock? && !s.front.InLock?;
  }

  lemma {:induction false} Finish(c: Config, run: seq<Event>, s: State) returns (all: seq<Event>, t: State)
    requires c.Valid() && Exec(c, run) == Some(s) && Closing(s)
    ensures run <= all && Exec(c, all) == Some(t)
    ensures t.baseClosed && t.failed == s.failed && |t.calls| == |s.calls|
    decreases LoopRank(s.cover), LoopRank(s.front), LockRank(s.lock)
  {
    var e := CloseMove(c, s);
    CloseMoves(c, s);
    LockStep(c, s, e);
    CallStep(c, s, e);
    var u := Apply(c, s, e);
    ExecSnoc(c, run, s, e, u);
    if u.baseClosed {
      all, t := run + [e], u;
    } else {
      all, t := Finish(c, run + [e], u);
    }
  }

  /**
   * Once begun, Close can always come to its end: without a base error and without a further
   * Write there is a continuation in which both loops end and the base is closed.
   */
  lemma CloseCanFinish(c: Config, run: seq<Event>) returns (all: seq<Event>, t: State)
    requires c.Valid() && Exec(c, run).Some? && Exec(c, run).value.done && !Exec(c, run).value.baseClosed
    ensures run <= all && Exec(c, all) == Some(t) && t.baseClosed
    ensures t.failed == Exec(c, run).value.failed && |t.calls| == |Exec(c, run).value.calls|
  {
    RunInv(c, run);
    RunLock(c, run);
    all, t := Finish(c, run, Exec(c, run).value);
  }

  /** The times of the FRONT cells written. */
  function FrontTimes(log: seq<Entry>): seq<nat> {
    if log == [] then []
    else
      var last := log[|log| - 1];
      FrontTimes(log[..|log| - 1]) + (if last.owner == ByFront then [last.time] else [])
  }

  /** The FRONT loop is behind its schedule by the firing it is busy with. */
  function Busy(s: State): nat {
    if s.front.Woken? || (s.front.InLock? && !(s.lock.Held? && s.lock.wrote)) then 1 else 0
  }

  ghost predicate FrontInv(c: Config, s: State) {
    var ts := FrontTimes(s.log);
    && |ts| + s.frontLost + Busy(s) == s.fired <= |c.front|
    && (s.frontLost > 0 ==> s.failed)
    && (s.front.Exited? ==> s.done || s.fired == |c.front|)
    && (s.front.Woken? || s.front.InLock? ==> s.fired > 0 && s.now >= c.front[s.fired - 1])
    && (forall j :: 0 <= j < |ts| ==> ts[j] >= c.front[j])
  }

  ghost predicate Sorted(ts: seq<nat>) {
    forall i, j :: 0 <= i <= j < |ts| ==> ts[i] <= ts[j]
  }

  lemma FrontTimesSnoc(log: seq<Entry>, e: Entry)
    ensures FrontTimes(log + [e]) == FrontTimes(log) + (if e.owner == ByFront then [e.time] else [])
  {
    assert (log + [e])[..|log|] == log;
  }

  lemma FrontStep(c: Config, s: State, e: Event)
    requires c.f.Valid() && Sorted(c.front) && LockInv(s) && FrontInv(c, s) && Enabled(c, s, e)
    ensures FrontInv(c, Apply(c, s, e))
  {
    if e.FlushOk? || e.CoverOk? || e.FrontOk? {
      FrontTimesSnoc(s.log, Entry(s.now, s.lock.owner));
      FrontWrite(c, s, e);
    } else {
      FrontQuiet(c, s, e);
    }
  }

  lemma FrontWrite(c: Config, s: State, e: Event)
    requires c.f.Valid() && Sorted(c.front) && LockInv(s) && FrontInv(c, s) && Enabled(c, s, e)
    requires e.FlushOk? || e.CoverOk? || e.FrontOk?
    requires FrontTimes(s.log + [Entry(s.now, s.lock.owner)])
               == FrontTimes(s.log) + (if s.lock.owner == ByFront then [s.now] else [])
    ensures FrontInv(c, Apply(c, s, e))
  {
    var s' := Apply(c, s, e);
    assert s'.log == s.log + [Entry(s.now, s.lock.owner)];
  }

  /** Steps of the FRONT loop other than a successful write. */
  predicate FrontEvent(e: Event) {
    e.Fire? || e.LockFront? || e.FrontErr? || e.UnlockFront? || e.ExitFront?
  }

  lemma FrontOwn(c: Config, s: State, e: Event)
    requires c.f.Valid() && LockInv(s) && FrontInv(c, s) && Enabled(c, s, e) && FrontEvent(e)
    ensures FrontInv(c, Apply(c, s, e))
  {
    var s' := Apply(c, s, e);
    assert s'.log == s.log;
  }

  lemma FrontKept(c: Config, s: State, s': State)
    requires FrontInv(c, s) && s'.log == s.log && s'.front == s.front && s'.fired == s.fired && s'.frontLost == s.frontLost
    requires Busy(s') == Busy(s) && s'.now >= s.now && (s.failed ==> s'.failed) && (s.done ==> s'.done)
    ensures FrontInv(c, s')
  {
  }

  lemma OthersLeaveFront(c: Config, s: State, e: Event)
    requires c.f.Valid() && LockInv(s) && Enabled(c, s, e) && !FrontEvent(e)
    requires !e.FlushOk? && !e.CoverOk? && !e.FrontOk?
    ensures var s' := Apply(c, s, e);
            && s'.log == s.log && s'.front == s.front && s'.fired == s.fired && s'.frontLost == s.frontLost
            && Busy(s') == Busy(s) && s'.now >= s.now && (s.failed ==> s'.failed) && (s.done ==> s'.done)
  {
  }

  lemma FrontQuiet(c: Config, s: State, e: Event)
    requires c.f.Valid() && LockInv(s) && FrontInv(c, s) && Enabled(c, s, e)
    requires !e.FlushOk? && !e.CoverOk? && !e.FrontOk?
    ensures FrontInv(c, Apply(c, s, e))
  {
    if FrontEvent(e) {
      FrontOwn(c, s, e);
    } else {
      OthersLeaveFront(c, s, e);
      FrontKept(c, s, Apply(c, s, e));
    }
  }

  /**
   * In every run: FRONT sends no more cells than were drawn, and, the times being sorted, its
   * j-th cell not before the j-th time; and when its loop has ended with the connection open
   * and no base error, it has sent them all.
   */
  lemma {:induction false} FrontBudget(c: Config, run: seq<Event>)
    requires c.Valid() && Sorted(c.front) && Exec(c, run).Some?
    ensures FrontInv(c, Exec(c, run).value)
    ensures var ts := FrontTimes(Exec(c, run).value.log);
            && |ts| <= |c.front| && (forall j :: 0 <= j < |ts| ==> ts[j] >= c.front[j])
            && (var s := Exec(c, run).value; s.front.Exited? && !s.done && !s.failed ==> |ts| == |c.front|)
  {
    if run != [] {
      FrontBudget(c, run[..|run| - 1]);
      RunLock(c, run[..|run| - 1]);
      FrontStep(c, Exec(c, run[..|run| - 1]).value, run[|run| - 1]);
    }
  }

  // ---------- every run ----------

  ghost predicate Inv(c: Config, s: State)
    requires c.f.Valid()
  {
    CallInv(s) && FlushInv(c, s) && (!s.failed ==> StreamInv(c, s))
  }

  lemma InitStream(c: Config)
    requires c.Valid()
    ensures Inv(c, Init(c))
  {
    assert Next(c.f, []) == Halt(Eof);
    assert Residue(c.f, []) == [] && Decode(c.f, []).bytes == [];
  }

  lemma {:induction false} RunInv(c: Config, run: seq<Event>)
    requires c.Valid()
    ensures Exec(c, run).Some? ==> Inv(c, Exec(c, run).value)
  {
    if run == [] {
      InitStream(c);
    } else if Exec(c, run).Some? {
      var (s, e) := (Exec(c, run[..|run| - 1]).value, run[|run| - 1]);
      RunInv(c, run[..|run| - 1]);
      CallStep(c, s, e);
      FlushStep(c, s, e);
      if !Apply(c, s, e).failed {
        StreamStep(c, s, e);
      }
    }
  }

  /** Every byte the peer could still obtain has been obtained. */
  ghost predicate Drained(s: State) {
    s.pending == [] && s.unread == []
  }

  /**
   * In every interleaving without a base write error, what the peer has read is a prefix of
   * the payloads in the order their calls held the lock, each payload contiguous, and all of
   * it once the wire is drained.
   */
  lemma Transparency(c: Config, run: seq<Event>)
    requires c.Valid() && Exec(c, run).Some? && !Exec(c, run).value.failed
    ensures var s := Exec(c, run).value;
            && s.delivered <= Flatten(s.sent)
            && (Drained(s) ==> s.delivered == Flatten(s.sent))
  {
    RunInv(c, run);
    var s := Exec(c, run).value;
    if Drained(s) {
      assert Decode(c.f, []).bytes == [];
    }
  }

  /** The stream is made of each successful call's payload exactly once, and nothing else. */
  lemma SentExactlyOnce(c: Config, run: seq<Event>, i: nat)
    requires c.Valid() && Exec(c, run).Some? && i < |Exec(c, run).value.calls|
    ensures var s := Exec(c, run).value;
            && |s.order| == |s.sent|
            && (forall k :: 0 <= k < |s.order| && s.order[k] == i ==> s.sent[k] == s.calls[i].p)
            && (forall j, k :: 0 <= j < k < |s.order| ==> s.order[j] != s.order[k])
            && (s.calls[i].phase == Returned(true) && s.calls[i].p != [] ==> i in s.order)
            && (s.calls[i].phase == Returned(false) ==> i !in s.order)
  {
    RunInv(c, run);
    assert CallPhase(Exec(c, run).value, i);
  }

  // ---------- idle cover timing ----------

  /** The time of the write before the k-th, or of the connection start. */
  function Before(log: seq<Entry>, k: nat): nat
    requires k <= |log|
  {
    if k == 0 then 0 else log[k - 1].time
  }

  function LastWrite(s: State): nat {
    Before(s.log, |s.log|)
  }

  /** The ticker fires at the multiples of the interval. */
  predicate OnTick(c: Config, t: nat)
    requires c.interval > 0
  {
    t == 0 || (t >= c.interval && OnTick(c, t - c.interval))
  }

  lemma {:induction false} TicksAreMultiples(c: Config, t: nat)
    requires c.interval > 0
    ensures OnTick(c, t) <==> t % c.interval == 0
  {
    var n := c.interval;
    if t >= n {
      TicksAreMultiples(c, t - n);
      DivStep(t, n);
      assert (t / n) * n == (t - n) / n * n + n;
    }
  }

  lemma {:induction false} TicksApart(c: Config, a: nat, b: nat)
    requires c.interval > 0 && OnTick(c, a) && OnTick(c, b) && a < b
    ensures b - a >= c.interval
  {
    if a > 0 {
      TicksApart(c, a - c.interval, b - c.interval);
    }
  }

  /** The write e after a write (or the connection start) at time prev. */
  predicate GapOk(c: Config, prev: nat, e: Entry)
    requires c.interval > 0
  {
    && prev <= e.time < prev + 2 * c.interval
    && (e.owner == ByCover ==> e.time >= prev + c.interval && OnTick(c, e.time))
  }

  ghost predicate GapsBounded(c: Config, log: seq<Entry>)
    requires c.interval > 0
  {
    forall k :: 0 <= k < |log| ==> GapOk(c, Before(log, k), log[k])
  }

  /** With ideal ticks: the loop is never late, so no gap can reach two intervals. */
  ghost predicate TimeInv(c: Config, s: State)
    requires c.interval > 0
  {
    && s.nextTick >= c.interval && OnTick(c, s.nextTick)
    && LastWrite(s) <= s.now
    && GapsBounded(c, s.log)
    && (if s.lock.Held? && s.lock.wrote then LastWrite(s) == s.now else s.lastWrite == LastWrite(s))
    && (s.cover.InLock? <==> s.lock.Held? && s.lock.owner.ByCover?)
    && !s.cover.Exited?
    && (s.cover.Waiting? ==> s.now <= s.nextTick < LastWrite(s) + 2 * c.interval)
    && (!s.cover.Waiting? ==> s.now == s.nextTick - c.interval && s.now < LastWrite(s) + 2 * c.interval)
  }

  lemma LogGrows(c: Config, log: seq<Entry>, e: Entry)
    requires c.interval > 0 && GapsBounded(c, log)
    requires GapOk(c, Before(log, |log|), e)
    ensures GapsBounded(c, log + [e])
  {
    forall k | 0 <= k < |log + [e]|
      ensures GapOk(c, Before(log + [e], k), (log + [e])[k])
    {
      if k < |log| {
        assert GapOk(c, Before(log, k), log[k]);
      }
    }
  }

  /** Steps in which the lock holder writes, or gives the lock back. */
  predicate HolderEvent(e: Event) {
    e.FlushOk? || e.CoverOk? || e.FrontOk? || e.Unlock? || e.UnlockCover? || e.UnlockFront? || e.Skip?
  }

  lemma TimeHolder(c: Config, s: State, e: Event)
    requires c.Valid() && c.ideal && TimeInv(c, s) && Enabled(c, s, e) && HolderEvent(e)
    ensures TimeInv(c, Apply(c, s, e))
  {
    if e.FlushOk? || e.CoverOk? || e.FrontOk? {
      LogGrows(c, s.log, Entry(s.now, s.lock.owner));
    } else {
      assert Apply(c, s, e).log == s.log;
    }
  }

  lemma TimeStep(c: Config, s: State, e: Event)
    requires c.Valid() && c.ideal && TimeInv(c, s) && Enabled(c, s, e)
    requires !Apply(c, s, e).failed && !Apply(c, s, e).done && !e.ExitCover?
    ensures TimeInv(c, Apply(c, s, e))
  {
    if HolderEvent(e) {
      TimeHolder(c, s, e);
    } else {
      assert Apply(c, s, e).log == s.log;
    }
  }

  lemma {:induction false} RunTimes(c: Config, run: seq<Event>)
    requires c.Valid() && c.ideal && c.cover
    requires Exec(c, run).Some? && !Exec(c, run).value.failed && !Exec(c, run).value.done
    ensures TimeInv(c, Exec(c, run).value)
  {
    if run != [] {
      RunTimes(c, run[..|run| - 1]);
      TimeStep(c, Exec(c, run[..|run| - 1]).value, run[|run| - 1]);
    }
  }

  /**
   * With ideal ticks, while open and without a base error: writes on the wire are strictly
   * less than two cover intervals apart (and so is the silence right now), and an idle-cover
   * cell goes out only after a full interval of silence, however other writes interleave.
   */
  lemma CoverGaps(c: Config, run: seq<Event>)
    requires c.Valid() && c.ideal && c.cover
    requires Exec(c, run).Some? && !Exec(c, run).value.failed && !Exec(c, run).value.done
    ensures var s := Exec(c, run).value;
            GapsBounded(c, s.log) && s.now < LastWrite(s) + 2 * c.interval
  {
    RunTimes(c, run);
  }

  /** t is the first tick a full interval after prev. */
  ghost predicate FirstTick(c: Config, prev: nat, t: nat)
    requires c.interval > 0
  {
    && OnTick(c, t) && t >= prev + c.interval
    && (forall u: nat :: OnTick(c, u) && u >= prev + c.interval ==> t <= u)
  }

  lemma FirstTickIs(c: Config, prev: nat, t: nat)
    requires c.interval > 0 && OnTick(c, t) && prev + c.interval <= t < prev + 2 * c.interval
    ensures FirstTick(c, prev, t)
    ensures t == prev + c.interval <==> OnTick(c, prev)
  {
    forall u: nat | OnTick(c, u) && u >= prev + c.interval
      ensures t <= u
    {
      if u < t {
        TicksApart(c, u, t);
      }
    }
    assert OnTick(c, prev + c.interval) <==> OnTick(c, prev);
  }

  /**
   * The instant of an idle-cover cell: the first tick that is a full interval after the write
   * before it. So the silence lasts one interval exactly when that write fell on a tick.
   */
  lemma CoverInstant(c: Config, run: seq<Event>, k: nat)
    requires c.Valid() && c.ideal && c.cover
    requires Exec(c, run).Some? && !Exec(c, run).value.failed && !Exec(c, run).value.done
    requires k < |Exec(c, run).value.log| && Exec(c, run).value.log[k].owner == ByCover
    ensures var (prev, t) := (Before(Exec(c, run).value.log, k), Exec(c, run).value.log[k].time);
            FirstTick(c, prev, t) && (t == prev + c.interval <==> OnTick(c, prev))
  {
    RunTimes(c, run);
    var log := Exec(c, run).value.log;
    assert GapOk(c, Before(log, k), log[k]);
    FirstTickIs(c, Before(log, k), log[k].time);
  }

  lemma ExecSnoc(c: Config, run: seq<Event>, s: State, e: Event, t: State)
    requires c.Valid() && Exec(c, run) == Some(s) && Enabled(c, s, e) && Apply(c, s, e) == t
    ensures Exec(c, run + [e]) == Some(t)
  {
    assert (run + [e])[..|run|] == run;
  }

  /** A write at time 1. */
  lemma WriteAtOne(c: Config, p: seq<byte>, cells: seq<seq<byte>>, ds: seq<seq<byte>>) returns (run: seq<Event>, s: State)
    requires c.Valid() && c.ideal && c.cover && Framed(c.f, p, cells, ds) && p != []
    ensures Exec(c, run) == Some(s) && !s.failed && !s.done && s.lock.Free? && s.cover.Waiting? && !s.front.Woken? && !s.baseClosed
    ensures s.now == s.lastWrite == 1 && s.nextTick == c.interval && s.log == [Entry(1, ByCall(0))]
  {
    var (e0, e1, e2, e3, e4) := (Advance(1), Write(p, cells, ds), LockCall(0), FlushOk(0), Unlock(0));
    var s0 := Apply(c, Init(c), e0);
    var s1 := Apply(c, s0, e1);
    var s2 := Apply(c, s1, e2);
    var s3 := Apply(c, s2, e3);
    s := Apply(c, s3, e4);
    ExecSnoc(c, [], Init(c), e0, s0);
    ExecSnoc(c, [] + [e0], s0, e1, s1);
    ExecSnoc(c, [] + [e0] + [e1], s1, e2, s2);
    ExecSnoc(c, [] + [e0] + [e1] + [e2], s2, e3, s3);
    ExecSnoc(c, [] + [e0] + [e1] + [e2] + [e3], s3, e4, s);
    run := [] + [e0] + [e1] + [e2] + [e3] + [e4];
  }

  /** At the next tick the idle-cover loop takes the lock. */
  lemma TickLocks(c: Config, start: seq<Event>, s: State, d: nat) returns (run: seq<Event>, t: State)
    requires c.Valid() && Exec(c, start) == Some(s)
    requires s.lock.Free? && s.cover.Waiting? && !s.front.Woken? && s.now + d == s.nextTick
    ensures Exec(c, run) == Some(t)
    ensures t == s.(now := s.nextTick, nextTick := s.nextTick + c.interval, cover := InLock, lock := Held(ByCover, false))
  {
    var s0 := Apply(c, s, Advance(d));
    var s1 := Apply(c, s0, Tick);
    t := Apply(c, s1, LockCover);
    ExecSnoc(c, start, s, Advance(d), s0);
    ExecSnoc(c, start + [Advance(d)], s0, Tick, s1);
    ExecSnoc(c, start + [Advance(d)] + [Tick], s1, LockCover, t);
    run := start + [Advance(d)] + [Tick] + [LockCover];
  }

  /** A tick that finds the connection busy. */
  lemma TickSkips(c: Config, start: seq<Event>, s: State, d: nat) returns (run: seq<Event>, t: State)
    requires c.Valid() && Exec(c, start) == Some(s)
    requires s.lock.Free? && s.cover.Waiting? && !s.front.Woken?
    requires s.now + d == s.nextTick && s.nextTick < s.lastWrite + c.interval
    ensures Exec(c, run) == Some(t) && t == s.(now := s.nextTick, nextTick := s.nextTick + c.interval)
  {
    var a, u := TickLocks(c, start, s, d);
    t := Apply(c, u, Skip);
    ExecSnoc(c, a, u, Skip, t);
    run := a + [Skip];
  }

  /** A tick that finds it idle. */
  lemma TickCovers(c: Config, start: seq<Event>, s: State, d: nat) returns (run: seq<Event>, t: State)
    requires c.Valid() && Exec(c, start) == Some(s) && !s.baseClosed
    requires s.lock.Free? && s.cover.Waiting? && !s.front.Woken?
    requires s.now + d == s.nextTick && s.nextTick >= s.lastWrite + c.interval
    ensures Exec(c, run) == Some(t) && t.failed == s.failed && t.done == s.done
    ensures t.log == s.log + [Entry(s.nextTick, ByCover)]
  {
    var a, u := TickLocks(c, start, s, d);
    var e := CoverOk(CoverCell(c.f));
    CoverCarriesNothing(c.f);
    t := Apply(c, u, e);
    ExecSnoc(c, a, u, e, t);
    run := a + [e];
  }

  /** The bound of two intervals is reached: silence can last one instant less than that. */
  lemma LateCover(c: Config, p: seq<byte>, cells: seq<seq<byte>>, ds: seq<seq<byte>>) returns (run: seq<Event>, s: State)
    requires c.Valid() && c.ideal && c.cover && Framed(c.f, p, cells, ds) && p != []
    ensures Exec(c, run) == Some(s) && !s.failed && !s.done
    ensures |s.log| == 2 && s.log[1].owner == ByCover && s.log[1].time - s.log[0].time == 2 * c.interval - 1
  {
    var a, s0 := WriteAtOne(c, p, cells, ds);
    var b, s1 := TickSkips(c, a, s0, c.interval - 1);
    run, s := TickCovers(c, b, s1, c.interval);
  }
}

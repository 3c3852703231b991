/**
 * Paced mode as a step relation: Write calls enqueue cells into a bounded channel, the
 * pacer goroutine releases one cell per wakeup, and Close stops it, flushes the channel and
 * closes the base. Each step is one atomic action of one goroutine.
 */
module PacedShaper {
  import opened Bytes
  import opened Framing

  /** PacedConfig as the application wrote it. */
  datatype Settings = Settings(rate: real, decay: real, minRate: real, queue: int, noPad: bool)

  function WithDefaults(s: Settings): (r: Settings)
    ensures 0.0 < r.decay <= 1.0 && r.minRate > 0.0 && r.queue > 0
    ensures r.rate == s.rate && r.noPad == s.noPad
    ensures 0.0 < s.decay <= 1.0 ==> r.decay == s.decay
    ensures s.minRate > 0.0 ==> r.minRate == s.minRate
    ensures s.queue > 0 ==> r.queue == s.queue
    ensures !(0.0 < s.decay <= 1.0) ==> r.decay == 1.0  // a constant rate
    ensures s.minRate <= 0.0 ==> r.minRate == 1.0
    ensures s.queue <= 0 ==> r.queue == 1024
  {
    s.(decay := if s.decay <= 0.0 || s.decay > 1.0 then 1.0 else s.decay,
       minRate := if s.minRate <= 0.0 then 1.0 else s.minRate,
       queue := if s.queue <= 0 then 1024 else s.queue)
  }

  /**
   * `pow(d, t)` is d raised to t nanoseconds. `ideal` restricts the clock only (see
   * Enabled), and `single` the application: one Write at a time.
   */
  datatype Config = Config(f: Framing, pace: Settings, pow: (real, nat) -> real, ideal: bool, single: bool) {
    ghost predicate Valid() {
      && f.Valid()
      && (f.Fixed? ==> f.cellSize <= 65537)  // every length fits its field, see FixedRoundTripExactly
      && pace.rate > 0.0                      // otherwise the connection is not paced
      && pace == WithDefaults(pace)
      && (forall d: real, t: nat :: 0.0 < d <= 1.0 ==> 0.0 < pow(d, t) <= 1.0)
    }
  }

  /** The decayed rate, floored at MinRate. */
  function RateAfter(c: Config, elapsed: nat): real {
    var decayed := if c.pace.decay < 1.0 then c.pace.rate * c.pow(c.pace.decay, elapsed) else c.pace.rate;
    if decayed < c.pace.minRate then c.pace.minRate else decayed
  }

  /** time.Duration(float64(time.Second) / rate): whole nanoseconds. */
  function Delay(rate: real): int
    requires rate > 0.0
  {
    (1000000000.0 / rate).Floor
  }

  /** currentInterval: the delay `elapsed` after the last surge. */
  function Interval(c: Config, elapsed: nat): int {
    var rate := RateAfter(c, elapsed);
    if rate > 0.0 then Delay(rate) else 0
  }

  function Elapsed(now: nat, start: nat): nat {
    if now >= start then now - start else 0
  }

  datatype Result = Ok | BaseErr(e: nat) | ErrClosed

  datatype Phase = Entered | Checked | Resetting | Sending | Returned(r: Result)

  /** One Write call; `sent` counts the cells it has enqueued. */
  datatype Call = Call(p: seq<byte>, cells: seq<seq<byte>>, ds: seq<seq<byte>>, sent: nat, phase: Phase)

  /** A queued cell, with the call it belongs to and the payload it carries. */
  datatype Item = Item(call: nat, cell: seq<byte>, data: seq<byte>)

  datatype Pacer =
    | Ready | Sleeping(until: int) | Awake | Writing(hand: Entry)
    | Failing(e: nat) | ErrSet | Dead | Stopped

  datatype Closer = Open | Joining | Flushing | FlushHand(item: Entry) | Flushed | Closed

  /** A cell handed to the base; src is its position in the enqueue order, if not cover. */
  datatype Entry = Entry(time: nat, cell: seq<byte>, data: seq<byte>, src: Option<nat>)

  /** A restart of the surge clock, and how many delays the pacer had computed by then. */
  datatype Reset = Reset(at: nat, seen: nat)

  /** A failed base write: after how many successful ones, and the bytes it left on the wire. */
  datatype Cut = Cut(at: nat, part: seq<byte>)

  datatype State = State(
    now: nat, calls: seq<Call>, queue: seq<Item>, pacer: Pacer, paceStart: nat,
    done: bool, paceDead: bool, paceErr: Option<nat>, closer: Closer,
    enq: seq<Item>,            // every cell ever enqueued, in order
    head: nat,                 // how many of them left the queue
    log: seq<Entry>,           // successful base writes
    lost: nat,                 // dequeued cells whose base write failed
    lostAt: Option<nat>,       // |log| when the first of them was lost
    failed: bool,              // some base write failed
    cuts: seq<Cut>,            // those that did
    wire: seq<byte>,           // every byte written to the base
    firstErr: Option<nat>,     // the pacer's base error
    closeMark: nat,            // |enq| when Close began
    resets: seq<Reset>, computes: nat)

  datatype Event =
    | Advance(d: nat)
    | Write(p: seq<byte>, cells: seq<seq<byte>>, ds: seq<seq<byte>>)
    | Check(i: nat) | Look(i: nat) | ResetSurge(i: nat) | Send(i: nat) | SendDead(i: nat) | SendDone(i: nat)
    | Compute | Wake | Stop | Take(cover: seq<byte>) | WriteOk | WriteErr(e: nat, part: seq<byte>) | SetErr | CloseDead
    | CloseBegin | Join | FlushTake | FlushOk | FlushErr(part: seq<byte>) | FlushEnd | CloseBase

  /** Steps of Write calls, and of Close; the others are the pacer's and the clock's. */
  predicate CallEvent(e: Event) {
    e.Write? || e.Check? || e.Look? || e.ResetSurge? || e.Send? || e.SendDead? || e.SendDone?
  }

  predicate CloserEvent(e: Event) {
    e.CloseBegin? || e.Join? || e.FlushTake? || e.FlushOk? || e.FlushErr? || e.FlushEnd? || e.CloseBase?
  }

  function Init(c: Config): State {
    State(0, [], [], Ready, 0, false, false, None, Open, [], 0, [], 0, None, false, [], [], None, 0, [], 0)
  }

  predicate At(s: State, i: nat, ph: Phase) {
    i < |s.calls| && s.calls[i].phase == ph
  }

  ghost predicate Enabled(c: Config, s: State, e: Event) {
    match e
    case Advance(d) =>
      c.ideal ==> s.pacer.Dead? || s.pacer.Stopped? || (s.pacer.Sleeping? && s.now + d <= s.pacer.until)
    case Write(p, cells, ds) =>
      && Framed(c.f, p, cells, ds)
      && (c.single ==> forall i :: 0 <= i < |s.calls| ==> s.calls[i].phase.Returned?)
    case Check(i) => At(s, i, Entered)
    case Look(i) => At(s, i, Checked)
    case ResetSurge(i) => At(s, i, Resetting)
    case Send(i) => At(s, i, Sending) && |s.queue| < c.pace.queue && s.calls[i].sent < |s.calls[i].cells| == |s.calls[i].ds|
    case SendDead(i) => At(s, i, Sending) && s.paceDead
    case SendDone(i) => At(s, i, Sending) && s.done
    case Compute => s.pacer.Ready?
    case Wake => s.pacer.Sleeping? && s.now >= s.pacer.until
    case Stop => s.pacer.Sleeping? && s.done
    case Take(cover) => s.pacer.Awake? && CellOf(c.f, cover, [])
    case WriteOk => s.pacer.Writing?
    case WriteErr(_, part) => s.pacer.Writing? && part <= s.pacer.hand.cell
    case SetErr => s.pacer.Failing?
    case CloseDead => s.pacer.ErrSet?
    case CloseBegin => !s.done
    case Join => s.closer.Joining? && (s.pacer.Dead? || s.pacer.Stopped?)
    case FlushTake => s.closer.Flushing? && s.queue != []
    case FlushOk => s.closer.FlushHand?
    case FlushErr(part) => s.closer.FlushHand? && part <= s.closer.item.cell
    case FlushEnd => s.closer.Flushing? && s.queue == []
    case CloseBase => s.closer.Flushed?
  }

  function SetPhase(s: State, i: nat, ph: Phase): seq<Call>
    requires i < |s.calls|
  {
    s.calls[i := s.calls[i].(phase := ph)]
  }

  /** Receiving from the channel: the oldest queued cell, due at the base. */
  function Oldest(s: State): Entry
    requires s.queue != []
  {
    Entry(s.now, s.queue[0].cell, s.queue[0].data, Some(s.head))
  }

  function Dequeued(s: State): State
    requires s.queue != []
  {
    s.(queue := s.queue[1..], head := s.head + 1)
  }

  /** The base write of the data cell in hand fails. */
  function Lost(s: State): State {
    s.(lost := s.lost + 1, lostAt := if s.lostAt.None? then Some(|s.log|) else s.lostAt)
  }

  /** A successful base write of the cell in hand. */
  function Wrote(s: State, e: Entry): State {
    s.(log := s.log + [e.(time := s.now)], wire := s.wire + e.cell)
  }

  /** A failed one: some part of the cell may have gone out. */
  function CutShort(s: State, part: seq<byte>): State {
    s.(failed := true, cuts := s.cuts + [Cut(|s.log|, part)], wire := s.wire + part)
  }

  ghost function Apply(c: Config, s: State, e: Event): State
    requires Enabled(c, s, e)
  {
    match e
    case Advance(d) => s.(now := s.now + d)
    case Write(p, cells, ds) =>
      s.(calls := s.calls + [Call(p, cells, ds, 0, if p == [] then Returned(Ok) else Entered)])
    case Check(i) =>
      s.(calls := SetPhase(s, i, if s.paceErr.Some? then Returned(BaseErr(s.paceErr.value)) else Checked))
    case Look(i) => s.(calls := SetPhase(s, i, if s.queue == [] then Resetting else Sending))
    case ResetSurge(i) =>
      s.(calls := SetPhase(s, i, Sending), paceStart := s.now, resets := s.resets + [Reset(s.now, s.computes)])
    case Send(i) =>
      var k := s.calls[i];
      var item := Item(i, k.cells[k.sent], k.ds[k.sent]);
      var k' := k.(sent := k.sent + 1, phase := if k.sent + 1 == |k.cells| then Returned(Ok) else Sending);
      s.(queue := s.queue + [item], enq := s.enq + [item], calls := s.calls[i := k'])
    case SendDead(i) =>
      s.(calls := SetPhase(s, i, Returned(if s.paceErr.Some? then BaseErr(s.paceErr.value) else ErrClosed)))
    case SendDone(i) => s.(calls := SetPhase(s, i, Returned(ErrClosed)))
    case Compute =>
      s.(pacer := Sleeping(s.now + Interval(c, Elapsed(s.now, s.paceStart))), computes := s.computes + 1)
    case Wake => s.(pacer := Awake)
    case Stop => s.(pacer := Stopped)
    case Take(cover) =>
      if s.queue != [] then Dequeued(s).(pacer := Writing(Oldest(s)))
      else if c.pace.noPad then s.(pacer := Ready)
      else s.(pacer := Writing(Entry(s.now, cover, [], None)))
    case WriteOk => Wrote(s, s.pacer.hand).(pacer := Ready)
    case WriteErr(err, part) =>
      CutShort(if s.pacer.hand.src.Some? then Lost(s) else s, part).(pacer := Failing(err), firstErr := Some(err))
    case SetErr =>
      s.(pacer := ErrSet, paceErr := if s.paceErr.None? then Some(s.pacer.e) else s.paceErr)
    case CloseDead => s.(pacer := Dead, paceDead := true)
    case CloseBegin => s.(done := true, closer := Joining, closeMark := |s.enq|)
    case Join => s.(closer := Flushing)
    case FlushTake => Dequeued(s).(closer := FlushHand(Oldest(s)))
    case FlushOk => Wrote(s, s.closer.item).(closer := Flushing)
    case FlushErr(part) => CutShort(Lost(s), part).(closer := Flushed)
    case FlushEnd => s.(closer := Flushed)
    case CloseBase => s.(closer := Closed)
  }

  ghost function Exec(c: Config, run: seq<Event>): Option<State> {
    if run == [] then Some(Init(c))
    else
      match Exec(c, run[..|run| - 1])
      case None => None
      case Some(s) => if Enabled(c, s, run[|run| - 1]) then Some(Apply(c, s, run[|run| - 1])) else None
  }

  // ---------- the queue ----------

  /** The cell between the channel and the base, if any. */
  function Hand(s: State): Option<Entry> {
    if s.pacer.Writing? then Some(s.pacer.hand)
    else if s.closer.FlushHand? then Some(s.closer.item)
    else None
  }

  /** A data cell on its way carries what was enqueued at its position; others carry nothing. */
  ghost predicate EntryOk(c: Config, enq: seq<Item>, e: Entry) {
    && CellOf(c.f, e.cell, e.data)
    && match e.src
       case None => e.data == []
       case Some(k) => k < |enq| && e.cell == enq[k].cell && e.data == enq[k].data
  }

  /** The channel is bounded, and holds exactly what was enqueued and not yet received. */
  ghost predicate QueueInv(c: Config, s: State) {
    && |s.queue| <= c.pace.queue
    && s.head <= |s.enq| && s.queue == s.enq[s.head..]
    && (forall k :: 0 <= k < |s.enq| ==> CellOf(c.f, s.enq[k].cell, s.enq[k].data) && |s.enq[k].data| < 65536)
  }

  ghost predicate EntryInv(c: Config, s: State) {
    && (Hand(s).Some? ==> EntryOk(c, s.enq, Hand(s).value))
    && (forall k :: 0 <= k < |s.log| ==> EntryOk(c, s.enq, s.log[k]))
  }

  /** Close and the pacer never write at the same time. */
  ghost predicate CloserInv(s: State) {
    && (s.closer.FlushHand? ==> s.closer.item.src.Some?)
    && (s.closer.Open? <==> !s.done)
    && (s.closer.Open? || s.closer.Joining? || s.pacer.Dead? || s.pacer.Stopped?)
  }

  lemma EntryOkGrows(c: Config, enq: seq<Item>, item: Item, e: Entry)
    requires EntryOk(c, enq, e)
    ensures EntryOk(c, enq + [item], e)
  {
  }

  ghost predicate CallCells(c: Config, k: Call) {
    Framed(c.f, k.p, k.cells, k.ds)
  }

  ghost predicate CellsInv(c: Config, s: State) {
    forall i :: 0 <= i < |s.calls| ==> CallCells(c, s.calls[i])
  }

  lemma QueueSend(c: Config, s: State, i: nat)
    requires QueueInv(c, s) && CellsInv(c, s) && Enabled(c, s, Send(i))
    ensures QueueInv(c, Apply(c, s, Send(i)))
  {
    var s' := Apply(c, s, Send(i));
    assert CallCells(c, s.calls[i]);
    assert s'.enq[s.head..] == s.enq[s.head..] + s'.enq[|s.enq|..];
  }

  lemma QueueStep(c: Config, s: State, e: Event)
    requires QueueInv(c, s) && CellsInv(c, s) && Enabled(c, s, e)
    ensures QueueInv(c, Apply(c, s, e))
  {
    if e.Send? {
      QueueSend(c, s, e.i);
    } else {
      var s' := Apply(c, s, e);
      assert s'.enq == s.enq;
    }
  }

  lemma EntrySend(c: Config, s: State, i: nat)
    requires EntryInv(c, s) && Enabled(c, s, Send(i))
    ensures EntryInv(c, Apply(c, s, Send(i)))
  {
    var s' := Apply(c, s, Send(i));
    var item := s'.enq[|s.enq|];
    if Hand(s).Some? {
      EntryOkGrows(c, s.enq, item, Hand(s).value);
    }
    forall k | 0 <= k < |s'.log|
      ensures EntryOk(c, s'.enq, s'.log[k])
    {
      EntryOkGrows(c, s.enq, item, s.log[k]);
    }
  }

  lemma EntryStep(c: Config, s: State, e: Event)
    requires QueueInv(c, s) && EntryInv(c, s) && CloserInv(s) && Enabled(c, s, e)
    ensures EntryInv(c, Apply(c, s, e))
  {
    if e.Send? {
      EntrySend(c, s, e.i);
    } else if CallEvent(e) {
      assert Hand(Apply(c, s, e)) == Hand(s);
    } else if CloserEvent(e) {
      EntryCloser(c, s, e);
    } else {
      EntryPacer(c, s, e);
    }
  }

  lemma EntryCloser(c: Config, s: State, e: Event)
    requires QueueInv(c, s) && EntryInv(c, s) && CloserInv(s) && Enabled(c, s, e) && CloserEvent(e)
    ensures EntryInv(c, Apply(c, s, e))
  {
    if e.FlushTake? {
      EntryFlushTake(c, s);
    } else if e.FlushOk? {
      assert EntryOk(c, s.enq, s.closer.item);
    } else {
      var s' := Apply(c, s, e);
      assert s'.log == s.log && s'.enq == s.enq;
    }
  }

  lemma EntryFlushTake(c: Config, s: State)
    requires QueueInv(c, s) && EntryInv(c, s) && Enabled(c, s, FlushTake)
    ensures EntryInv(c, Apply(c, s, FlushTake))
  {
  }

  lemma EntryTake(c: Config, s: State, cover: seq<byte>)
    requires QueueInv(c, s) && EntryInv(c, s) && Enabled(c, s, Take(cover))
    ensures EntryInv(c, Apply(c, s, Take(cover)))
  {
  }

  lemma EntryPacer(c: Config, s: State, e: Event)
    requires QueueInv(c, s) && EntryInv(c, s) && CloserInv(s) && Enabled(c, s, e)
    requires !CallEvent(e) && !CloserEvent(e)
    ensures EntryInv(c, Apply(c, s, e))
  {
    if e.Take? {
      EntryTake(c, s, e.cover);
    } else if e.WriteOk? {
      assert EntryOk(c, s.enq, s.pacer.hand);
    } else {
      var s' := Apply(c, s, e);
      assert s'.log == s.log && s'.enq == s.enq;
    }
  }

  lemma CloserStep(c: Config, s: State, e: Event)
    requires CloserInv(s) && Enabled(c, s, e)
    ensures CloserInv(Apply(c, s, e))
  {
  }

  lemma CellsStep(c: Config, s: State, e: Event)
    requires CellsInv(c, s) && Enabled(c, s, e)
    ensures CellsInv(c, Apply(c, s, e))
  {
    var s' := Apply(c, s, e);
    forall i | 0 <= i < |s'.calls|
      ensures CallCells(c, s'.calls[i])
    {
      if i < |s.calls| {
        assert CallCells(c, s.calls[i]);
        assert s'.calls[i].cells == s.calls[i].cells && s'.calls[i].ds == s.calls[i].ds && s'.calls[i].p == s.calls[i].p;
      }
    }
  }

  // ---------- conservation ----------

  /** The enqueue positions of the data cells written, in wire order. */
  function Sources(log: seq<Entry>): seq<nat> {
    if log == [] then []
    else Sources(log[..|log| - 1]) + (match log[|log| - 1].src case None => [] case Some(k) => [k])
  }

  function Datas(log: seq<Entry>): seq<seq<byte>> {
    seq(|log|, i requires 0 <= i < |log| => log[i].data)
  }

  function ItemDatas(items: seq<Item>): seq<seq<byte>> {
    seq(|items|, i requires 0 <= i < |items| => items[i].data)
  }

  function InHand(s: State): nat {
    if Hand(s).Some? && Hand(s).value.src.Some? then 1 else 0
  }

  /**
   * In every state: data cells reach the wire in enqueue order, never twice, and those that
   * left the queue are on the wire, in hand, or were lost to a failed base write: at most one
   * of the pacer's and one of the flush's.
   */
  ghost predicate OrderInv(s: State) {
    var n := |Sources(s.log)|;
    && (forall j, k :: 0 <= j < k < n ==> Sources(s.log)[j] < Sources(s.log)[k])
    && (forall j :: 0 <= j < n ==> Sources(s.log)[j] + InHand(s) < s.head)
    && (InHand(s) == 1 ==> Hand(s).value.src.value + 1 == s.head)
    && n + InHand(s) + s.lost == s.head
    && s.lost <= (if s.firstErr.Some? then 1 else 0) + (if s.closer.Flushed? || s.closer.Closed? then 1 else 0)
    && (!s.failed ==> s.lost == 0 && s.firstErr.None?)
  }

  lemma SourcesSnoc(log: seq<Entry>, e: Entry)
    ensures Sources(log + [e]) == Sources(log) + (match e.src case None => [] case Some(k) => [k])
  {
    assert (log + [e])[..|log|] == log;
  }

  /** A base write of the cell in hand succeeds: s' has it on the wire and nothing in hand. */
  lemma OrderLogged(s: State, s': State)
    requires OrderInv(s) && Hand(s).Some? && Hand(s').None?
    requires s'.log == s.log + [Hand(s).value.(time := s.now)]
    requires s'.head == s.head && s'.lost == s.lost && s'.failed == s.failed && s'.firstErr == s.firstErr
    requires s.closer.Flushed? || s.closer.Closed? ==> s'.closer.Flushed? || s'.closer.Closed?
    ensures OrderInv(s')
  {
    SourcesSnoc(s.log, Hand(s).value.(time := s.now));
  }

  /** The oldest queued cell comes into hand. */
  lemma OrderTaken(s: State, s': State)
    requires OrderInv(s) && Hand(s).None? && s.queue != []
    requires Hand(s') == Some(Oldest(s)) && s'.log == s.log && s'.head == s.head + 1
    requires s'.lost == s.lost && s'.failed == s.failed && s'.firstErr == s.firstErr
    requires s.closer.Flushed? || s.closer.Closed? ==> s'.closer.Flushed? || s'.closer.Closed?
    ensures OrderInv(s')
  {
  }

  /** A base write fails: what was in hand is lost. */
  lemma OrderFailed(c: Config, s: State, e: Event)
    requires OrderInv(s) && FailInv(s) && CloserInv(s) && Enabled(c, s, e) && (e.WriteErr? || e.FlushErr?)
    ensures OrderInv(Apply(c, s, e))
  {
  }

  /** Steps that neither move nor lose a cell. */
  ghost predicate SameCells(s: State, s': State) {
    && s'.log == s.log && s'.head == s.head && s'.lost == s.lost
    && s'.wire == s.wire && s'.cuts == s.cuts && s'.lostAt == s.lostAt
    && s'.failed == s.failed && s'.firstErr == s.firstErr && InHand(s') == InHand(s)
    && (InHand(s) == 1 ==> Hand(s') == Hand(s))
    && (s.closer.Flushed? || s.closer.Closed? ==> s'.closer.Flushed? || s'.closer.Closed?)
  }

  /** Steps that take no data cell and finish no base write. */
  predicate Quiet(s: State, e: Event) {
    && !e.WriteOk? && !e.WriteErr? && !e.FlushTake? && !e.FlushOk? && !e.FlushErr?
    && !(e.Take? && s.queue != [])
  }

  /** Steps of Write calls touch neither the pacer, the closer nor the wire. */
  lemma CallsLeaveCells(c: Config, s: State, e: Event)
    requires CallEvent(e) && Enabled(c, s, e)
    ensures SameCells(s, Apply(c, s, e))
  {
  }

  lemma CloserLeavesCells(c: Config, s: State, e: Event)
    requires CloserEvent(e) && Quiet(s, e) && CloserInv(s) && Enabled(c, s, e)
    ensures SameCells(s, Apply(c, s, e))
  {
  }

  lemma QuietLeavesCells(c: Config, s: State, e: Event)
    requires Quiet(s, e) && CloserInv(s) && Enabled(c, s, e)
    ensures SameCells(s, Apply(c, s, e))
  {
    if CallEvent(e) {
      CallsLeaveCells(c, s, e);
    } else if CloserEvent(e) {
      CloserLeavesCells(c, s, e);
    } else {
      PacerLeavesCells(c, s, e);
    }
  }

  lemma PacerLeavesCells(c: Config, s: State, e: Event)
    requires !CallEvent(e) && !CloserEvent(e) && Quiet(s, e) && CloserInv(s) && Enabled(c, s, e)
    ensures SameCells(s, Apply(c, s, e))
  {
  }

  lemma OrderQuiet(c: Config, s: State, e: Event)
    requires OrderInv(s) && CloserInv(s) && Enabled(c, s, e) && Quiet(s, e)
    ensures OrderInv(Apply(c, s, e))
  {
    QuietLeavesCells(c, s, e);
  }

  lemma OrderBusy(c: Config, s: State, e: Event)
    requires OrderInv(s) && CloserInv(s) && Enabled(c, s, e)
    requires !Quiet(s, e) && !e.WriteErr? && !e.FlushErr?
    ensures OrderInv(Apply(c, s, e))
  {
    var s' := Apply(c, s, e);
    if e.WriteOk? || e.FlushOk? {
      OrderLogged(s, s');
    } else {
      OrderTaken(s, s');
    }
  }

  lemma OrderStep(c: Config, s: State, e: Event)
    requires OrderInv(s) && CloserInv(s) && FailInv(s) && Enabled(c, s, e)
    ensures OrderInv(Apply(c, s, e))
  {
    if Quiet(s, e) {
      OrderQuiet(c, s, e);
    } else if e.WriteErr? || e.FlushErr? {
      OrderFailed(c, s, e);
    } else {
      OrderBusy(c, s, e);
    }
  }

  // ---------- the failure protocol ----------

  /** The pacer's error is set before paceDead closes, and only Writes that saw it report it. */
  ghost predicate FailInv(s: State) {
    && (s.paceDead <==> s.pacer.Dead?)
    && (s.paceErr.Some? <==> s.pacer.ErrSet? || s.pacer.Dead?)
    && (s.paceErr.Some? ==> s.paceErr == s.firstErr)
    && (s.firstErr.Some? <==> s.pacer.Failing? || s.pacer.ErrSet? || s.pacer.Dead?)
    && (s.pacer.Failing? ==> s.firstErr == Some(s.pacer.e))
    && (forall i :: 0 <= i < |s.calls| ==> CallResult(s, s.calls[i].phase))
  }

  ghost predicate CallResult(s: State, ph: Phase) {
    ph.Returned? ==>
      match ph.r
      case Ok => true
      case BaseErr(e) => s.firstErr == Some(e)
      case ErrClosed => s.done
  }

  lemma FailStep(c: Config, s: State, e: Event)
    requires FailInv(s) && Enabled(c, s, e)
    ensures FailInv(Apply(c, s, e))
  {
    var s' := Apply(c, s, e);
    forall i | 0 <= i < |s'.calls|
      ensures CallResult(s', s'.calls[i].phase)
    {
      if i < |s.calls| {
        assert CallResult(s, s.calls[i].phase);
      }
    }
  }

  // ---------- per-call order ----------

  /** The items of call i among those enqueued, in enqueue order. */
  function ItemsOf(enq: seq<Item>, i: nat): seq<Item> {
    if enq == [] then []
    else
      var last := enq[|enq| - 1];
      ItemsOf(enq[..|enq| - 1], i) + (if last.call == i then [last] else [])
  }

  /** The first n cells of call i as items. */
  function CallItems(i: nat, k: Call, n: nat): seq<Item>
    requires n <= |k.cells| == |k.ds|
  {
    seq(n, j requires 0 <= j < n => Item(i, k.cells[j], k.ds[j]))
  }

  ghost predicate CallOrder(s: State, i: nat)
    requires i < |s.calls|
  {
    var k := s.calls[i];
    && k.sent <= |k.cells| == |k.ds|
    && ItemsOf(s.enq, i) == CallItems(i, k, k.sent)
    && (k.phase == Returned(Ok) ==> k.sent == |k.cells|)
    && (k.phase.Entered? || k.phase.Checked? || k.phase.Resetting? ==> k.sent == 0)
    && (!k.phase.Returned? ==> k.sent < |k.cells|)
  }

  ghost predicate CallsInv(s: State) {
    && (forall i :: 0 <= i < |s.calls| ==> CallOrder(s, i))
    && (forall j :: 0 <= j < |s.enq| ==> s.enq[j].call < |s.calls|)
  }

  lemma ItemsOfSnoc(enq: seq<Item>, item: Item, i: nat)
    ensures ItemsOf(enq + [item], i) == ItemsOf(enq, i) + (if item.call == i then [item] else [])
  {
    assert (enq + [item])[..|enq|] == enq;
  }

  lemma {:induction false} NoItems(enq: seq<Item>, i: nat)
    requires forall j :: 0 <= j < |enq| ==> enq[j].call < i
    ensures ItemsOf(enq, i) == []
  {
    if enq != [] {
      NoItems(enq[..|enq| - 1], i);
    }
  }

  /** A Send adds the next item of its own call, and no item of any other. */
  lemma CallSent(c: Config, s: State, i: nat, j: nat)
    requires CallsInv(s) && Enabled(c, s, Send(i)) && j < |s.calls|
    ensures CallOrder(Apply(c, s, Send(i)), j)
  {
    assert CallOrder(s, j) && CallOrder(s, i);
    var (k, k') := (s.calls[j], Apply(c, s, Send(i)).calls[j]);
    var item := Apply(c, s, Send(i)).enq[|s.enq|];
    ItemsOfSnoc(s.enq, item, j);
    if j == i {
      assert CallItems(i, k', k'.sent) == CallItems(i, k, k.sent) + [item];
    }
  }

  lemma CallsSend(c: Config, s: State, i: nat)
    requires CallsInv(s) && Enabled(c, s, Send(i))
    ensures CallsInv(Apply(c, s, Send(i)))
  {
    var s' := Apply(c, s, Send(i));
    assert |s'.calls| == |s.calls|;
    forall j | 0 <= j < |s'.calls|
      ensures CallOrder(s', j)
    {
      CallSent(c, s, i, j);
    }
  }

  lemma CallKept(s: State, s': State, i: nat)
    requires i < |s.calls| && i < |s'.calls| && CallOrder(s, i) && s'.enq == s.enq
    requires var (a, b) := (s.calls[i], s'.calls[i]);
             && b == a.(phase := b.phase)
             && (b.phase == a.phase || b.phase.Checked? || b.phase.Resetting? || b.phase.Sending? || b.phase.Returned?)
             && (b.phase != a.phase ==> b.phase != Returned(Ok) && !a.phase.Returned?)
             && (b.phase.Checked? || b.phase.Resetting? ==> a.sent == 0)
    ensures CallOrder(s', i)
  {
    assert CallItems(i, s.calls[i], s.calls[i].sent) == CallItems(i, s'.calls[i], s'.calls[i].sent);
  }

  lemma CallAdded(c: Config, s: State, e: Event)
    requires CallsInv(s) && Enabled(c, s, e) && e.Write?
    ensures CallOrder(Apply(c, s, e), |s.calls|)
  {
    NoItems(s.enq, |s.calls|);
    assert e.ds != [] ==> Flatten(e.ds) != [];
  }

  lemma CallsWrite(c: Config, s: State, e: Event)
    requires CallsInv(s) && Enabled(c, s, e) && e.Write?
    ensures CallsInv(Apply(c, s, e))
  {
    var s' := Apply(c, s, e);
    forall i | 0 <= i < |s'.calls|
      ensures CallOrder(s', i)
    {
      if i < |s.calls| {
        assert CallOrder(s, i);
        CallKept(s, s', i);
      } else {
        CallAdded(c, s, e);
      }
    }
  }

  lemma CallsMoved(c: Config, s: State, e: Event)
    requires CallsInv(s) && Enabled(c, s, e) && CallEvent(e) && !e.Write? && !e.Send?
    ensures CallsInv(Apply(c, s, e))
  {
    var s' := Apply(c, s, e);
    forall i | 0 <= i < |s'.calls|
      ensures CallOrder(s', i)
    {
      assert CallOrder(s, i);
      CallKept(s, s', i);
    }
  }

  lemma CallsStep(c: Config, s: State, e: Event)
    requires CallsInv(s) && Enabled(c, s, e)
    ensures CallsInv(Apply(c, s, e))
  {
    if e.Send? {
      CallsSend(c, s, e.i);
    } else if e.Write? {
      CallsWrite(c, s, e);
    } else if CallEvent(e) {
      CallsMoved(c, s, e);
    } else {
      CallsUntouched(c, s, e);
    }
  }

  lemma CallsUntouched(c: Config, s: State, e: Event)
    requires CallsInv(s) && Enabled(c, s, e) && !CallEvent(e)
    ensures CallsInv(Apply(c, s, e))
  {
    var s' := Apply(c, s, e);
    assert s'.calls == s.calls && s'.enq == s.enq;
    forall i | 0 <= i < |s'.calls|
      ensures CallOrder(s', i)
    {
      assert CallOrder(s, i);
      CallKept(s, s', i);
    }
  }
}

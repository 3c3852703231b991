/**
 * The three fan-in listeners as one step relation. In hop each accept loop offers its own
 * connection over an unbuffered channel; in reality and xreality the one loop spawns a
 * handler per connection, which decides from what the connection brings, passes it through,
 * or offers it. Accept and Close run concurrently with all of them.
 */
module FanIn {
  import opened Bytes
  import opened Auth
  import opened PeekReplay
  import HelloGrammar
  import HelloMeaning

  /** Which listener it is, and what it was configured with. */
  datatype Kind =
    | Hop
    | XReality(cr: Crypto, sv: Server)
    | Reality(checkNames: bool, allowed: seq<byte> -> bool, token: seq<byte>)

  /**
   * What a connection brings: its bytes, the stream they decrypt to if the TLS handshake
   * succeeds, the keys its proof over that channel verifies under, and the reading of the
   * server's clock when its hello is judged.
   */
  datatype Peer = Peer(stream: seq<byte>, plain: Option<seq<byte>>, proves: seq<byte> -> bool, now: int)

  /** What xreality makes of a connection. */
  function Judged(cr: Crypto, sv: Server, p: Peer): Route {
    RouteOf(cr, sv.(now := p.now), p.stream)
  }

  datatype Config = Config(loops: nat, kind: Kind, peer: nat -> Peer)

  /** Where a handler is; authKey and plain are its local variables. */
  datatype Stage =
    | Handling | Handshaking(authKey: Option<seq<byte>>) | Proving(key: seq<byte>) | Opening(plain: seq<byte>)
    | Passing | Offered(via: Option<nat>) | Finished

  /** An inner connection, and what became of it. */
  datatype Conn = Conn(
    stage: Stage,
    from: nat,        // the accept loop it came by
    given: seq<nat>,  // the Accepts that got it
    closes: nat,      // how often its handling ended in closing it; a splice that closes the
                      // same connection on both of its ways out ends once
    passed: bool,     // it was spliced to the other site or the fallback
    broken: bool,     // a deadline or a dead peer cut its handler short
    dropped: bool)    // nobody took it before the listener was closed

  datatype Loop = Accepting | Holding(conn: nat) | Failing | Exited

  datatype Call = Waiting | Got(conn: nat) | GotErr(loop: nat) | ErrClosed

  datatype State = State(conns: seq<Conn>, loops: seq<Loop>, calls: seq<Call>, done: bool)

  datatype Event =
    | InnerAccept(l: nat) | InnerError(l: nat)
    | CallAccept | AcceptDone(a: nat)
    | HandConn(c: nat, a: nat) | DropConn(c: nat)
    | HandErr(l: nat, a: nat) | DropErr(l: nat)
    | Decide(c: nat) | Handshake(c: nat) | Prove(c: nat) | Open(c: nat)
    | Break(c: nat) | GiveUp(c: nat) | EndPass(c: nat)
    | CloseAll

  function Init(c: Config): State {
    State([], seq(c.loops, _ => Accepting), [], false)
  }

  predicate StageIs(s: State, c: nat, g: Stage) {
    c < |s.conns| && s.conns[c].stage == g
  }

  predicate Offering(s: State, c: nat) {
    c < |s.conns| && s.conns[c].stage.Offered?
      && (s.conns[c].stage.via.Some? ==> s.conns[c].stage.via.value < |s.loops|)
  }

  predicate Enabled(c: Config, s: State, e: Event) {
    match e
    case InnerAccept(l) => l < |s.loops| && s.loops[l].Accepting?
    case InnerError(l) => l < |s.loops| && s.loops[l].Accepting?
    case CallAccept => true
    case AcceptDone(a) => a < |s.calls| && s.calls[a].Waiting? && s.done
    case HandConn(i, a) => Offering(s, i) && a < |s.calls| && s.calls[a].Waiting?
    case DropConn(i) => Offering(s, i) && s.done
    case HandErr(l, a) => l < |s.loops| && s.loops[l].Failing? && a < |s.calls| && s.calls[a].Waiting?
    case DropErr(l) => l < |s.loops| && s.loops[l].Failing? && s.done
    case Decide(i) => StageIs(s, i, Handling)
    case Handshake(i) => i < |s.conns| && s.conns[i].stage.Handshaking?
    case Prove(i) => i < |s.conns| && s.conns[i].stage.Proving?
    case Open(i) => i < |s.conns| && s.conns[i].stage.Opening?
    // a deadline or a dead peer: before the token is read the connection is closed, while it is
    // being read the fallback takes over
    case Break(i) => i < |s.conns| && (s.conns[i].stage.Handshaking? || s.conns[i].stage.Proving?)
    case GiveUp(i) => i < |s.conns| && s.conns[i].stage.Opening?
    case EndPass(i) => StageIs(s, i, Passing)
    case CloseAll => true
  }

  function Pass(k: Conn): Conn {
    k.(stage := Passing, passed := true)
  }

  function Stop(k: Conn): Conn {
    k.(stage := Finished, closes := k.closes + 1)
  }

  /** The loop that offered a connection, if one did, moves on. */
  function Release(s: State, g: Stage, next: Loop): seq<Loop> {
    if g.Offered? && g.via.Some? && g.via.value < |s.loops| then s.loops[g.via.value := next] else s.loops
  }

  /** The first decision of a handler, on the peeked record. */
  function Decided(kind: Kind, p: Peer): Stage {
    match kind
    case Hop => Handling
    case XReality(cr, sv) =>
      (match Judged(cr, sv, p)
       case Terminate(key) => Handshaking(Some(key))
       case Passthrough => Passing)
    case Reality(checkNames, allowed, _) =>
      if SplicedAway(checkNames, allowed, p.stream) then Passing else Handshaking(None)
  }

  /** The connection after one more stage of its handler. */
  function Advanced(c: Config, k: Conn, p: Peer): Conn {
    match k.stage
    case Handling => if Decided(c.kind, p).Passing? then Pass(k) else k.(stage := Decided(c.kind, p))
    case Handshaking(authKey) =>
      if p.plain.None? then Stop(k)
      else k.(stage := if authKey.Some? then Proving(authKey.value) else Opening(p.plain.value))
    case Proving(key) => if p.proves(key) then k.(stage := Offered(None)) else Stop(k)
    case Opening(plain) =>
      if c.kind.Reality? && TokenOpens(c.kind.token, plain) then k.(stage := Offered(None)) else Pass(k)
    case _ => k
  }

  function Apply(c: Config, s: State, e: Event): State
    requires Enabled(c, s, e)
  {
    match e
    case InnerAccept(l) =>
      var i := |s.conns|;
      if c.kind.Hop? then s.(conns := s.conns + [Conn(Offered(Some(l)), l, [], 0, false, false, false)], loops := s.loops[l := Holding(i)])
      else s.(conns := s.conns + [Conn(Handling, l, [], 0, false, false, false)])
    case InnerError(l) => s.(loops := s.loops[l := Failing])
    case CallAccept => s.(calls := s.calls + [Waiting])
    case AcceptDone(a) => s.(calls := s.calls[a := ErrClosed])
    case HandConn(i, a) =>
      var k := s.conns[i];
      s.(conns := s.conns[i := k.(stage := Finished, given := k.given + [a])],
         loops := Release(s, k.stage, Accepting), calls := s.calls[a := Got(i)])
    case DropConn(i) =>
      s.(conns := s.conns[i := Stop(s.conns[i]).(dropped := true)], loops := Release(s, s.conns[i].stage, Exited))
    case HandErr(l, a) => s.(loops := s.loops[l := Exited], calls := s.calls[a := GotErr(l)])
    case DropErr(l) => s.(loops := s.loops[l := Exited])
    case Decide(i) => s.(conns := s.conns[i := Advanced(c, s.conns[i], c.peer(i))])
    case Handshake(i) => s.(conns := s.conns[i := Advanced(c, s.conns[i], c.peer(i))])
    case Prove(i) => s.(conns := s.conns[i := Advanced(c, s.conns[i], c.peer(i))])
    case Open(i) => s.(conns := s.conns[i := Advanced(c, s.conns[i], c.peer(i))])
    case Break(i) => s.(conns := s.conns[i := Stop(s.conns[i]).(broken := true)])
    case GiveUp(i) => s.(conns := s.conns[i := Pass(s.conns[i]).(broken := true)])
    case EndPass(i) => s.(conns := s.conns[i := Stop(s.conns[i])])
    case CloseAll => s.(done := true)
  }

  function Exec(c: Config, run: seq<Event>): Option<State> {
    if run == [] then Some(Init(c))
    else
      match Exec(c, run[..|run| - 1])
      case None => None
      case Some(s) => if Enabled(c, s, run[|run| - 1]) then Some(Apply(c, s, run[|run| - 1])) else None
  }

  // ---------- who is authentic ----------

  /** What the whole of a handler demands of a connection before it may be delivered. */
  predicate Authentic(kind: Kind, p: Peer) {
    match kind
    case Hop => true
    case XReality(cr, sv) =>
      Judged(cr, sv, p).Terminate? && p.plain.Some? && p.proves(Judged(cr, sv, p).authKey)
    case Reality(checkNames, allowed, token) =>
      !SplicedAway(checkNames, allowed, p.stream) && p.plain.Some? && TokenOpens(token, p.plain.value)
  }

  /** What the handler has established about the connection so far. */
  ghost predicate Established(kind: Kind, p: Peer, g: Stage) {
    match g
    case Handling => !kind.Hop?
    case Handshaking(authKey) =>
      if authKey.Some? then kind.XReality? && Judged(kind.cr, kind.sv, p) == Terminate(authKey.value)
      else kind.Reality? && !SplicedAway(kind.checkNames, kind.allowed, p.stream)
    case Proving(key) =>
      kind.XReality? && Judged(kind.cr, kind.sv, p) == Terminate(key) && p.plain.Some?
    case Opening(plain) =>
      kind.Reality? && !SplicedAway(kind.checkNames, kind.allowed, p.stream) && p.plain == Some(plain)
    case Passing => kind.Reality? || (kind.XReality? && Judged(kind.cr, kind.sv, p).Passthrough?)
    case Offered(_) => Authentic(kind, p)
    case Finished => true
  }

  /** Turned away: closed by its handler, or spliced to somewhere else. */
  predicate Refused(k: Conn) {
    k.closes > 0 || k.stage.Passing?
  }

  /** What is not ours goes to the borrowed site, or after TLS to the fallback. */
  predicate Foreign(kind: Kind, p: Peer) {
    match kind
    case Hop => false
    case XReality(cr, sv) => Judged(cr, sv, p).Passthrough?
    case Reality(checkNames, allowed, token) =>
      SplicedAway(checkNames, allowed, p.stream) || (p.plain.Some? && !TokenOpens(token, p.plain.value))
  }

  /** It was not authentic, and was spliced if it is foreign and closed if it is not. */
  predicate RefusedRightly(kind: Kind, p: Peer, k: Conn) {
    !Authentic(kind, p) && (k.passed <==> Foreign(kind, p))
  }

  lemma AdvancedEstablishes(c: Config, k: Conn, p: Peer)
    requires Established(c.kind, p, k.stage) && !k.stage.Finished? && !k.stage.Offered? && !Refused(k) && !k.passed
    ensures Established(c.kind, p, Advanced(c, k, p).stage)
    ensures Advanced(c, k, p).stage.Offered? ==> Advanced(c, k, p).stage.via.None?
    ensures Refused(Advanced(c, k, p)) ==> RefusedRightly(c.kind, p, Advanced(c, k, p))
    ensures var k' := Advanced(c, k, p);
            (k'.passed ==> k'.stage.Passing?) && (k'.stage.Passing? ==> k'.passed)
  {
  }

  // ---------- one fate ----------

  /** A connection is in exactly one of: still handled, given to one Accept, closed once. */
  ghost predicate ConnOk(c: Config, s: State, i: nat)
    requires i < |s.conns|
  {
    var k := s.conns[i];
    && Established(c.kind, c.peer(i), k.stage)
    && (Refused(k) ==> RefusedRightly(c.kind, c.peer(i), k) || k.broken || (k.dropped && s.done))
    && (k.passed ==> Refused(k)) && (k.stage.Passing? ==> k.passed)
    && (k.dropped && c.kind.Hop? ==> k.from < |s.loops| && s.loops[k.from].Exited?)
    && match k.stage
       case Offered(via) =>
         && k.given == [] && k.closes == 0
         && (!c.kind.Hop? ==> via == None)
         && (c.kind.Hop? ==> via == Some(k.from) && k.from < |s.loops| && s.loops[k.from] == Holding(i))
       case Finished =>
         || (|k.given| == 1 && k.closes == 0 && Authentic(c.kind, c.peer(i))
             && k.given[0] < |s.calls| && s.calls[k.given[0]] == Got(i))
         || (k.given == [] && k.closes == 1)
       case _ => k.given == [] && k.closes == 0
  }

  ghost predicate Inv(c: Config, s: State) {
    && (forall i :: 0 <= i < |s.conns| ==> ConnOk(c, s, i))
    && (forall l :: 0 <= l < |s.loops| && s.loops[l].Holding? ==>
          StageIs(s, s.loops[l].conn, Offered(Some(l))))
    && (forall a :: 0 <= a < |s.calls| && s.calls[a].Got? ==>
          s.calls[a].conn < |s.conns| && s.conns[s.calls[a].conn].given == [a])
    && ErrorsOnce(s)
  }

  /** The error that ended a loop was given to one Accept. */
  ghost predicate ErrorsOnce(s: State) {
    && (forall a :: 0 <= a < |s.calls| && s.calls[a].GotErr? ==>
          s.calls[a].loop < |s.loops| && s.loops[s.calls[a].loop].Exited?)
    && (forall a, b :: 0 <= a < |s.calls| && 0 <= b < |s.calls| && s.calls[a].GotErr? && s.calls[a] == s.calls[b] ==> a == b)
  }

  /** The connection an event is about, if it is about one. */
  function Subject(e: Event): Option<nat> {
    match e
    case HandConn(i, _) => Some(i)
    case DropConn(i) => Some(i)
    case Decide(i) => Some(i)
    case Handshake(i) => Some(i)
    case Prove(i) => Some(i)
    case Open(i) => Some(i)
    case Break(i) => Some(i)
    case GiveUp(i) => Some(i)
    case EndPass(i) => Some(i)
    case _ => None
  }

  /** Steps that run one more stage of a handler. */
  predicate HandlerEvent(e: Event) {
    e.Decide? || e.Handshake? || e.Prove? || e.Open?
  }

  lemma StepHandler(c: Config, s: State, e: Event)
    requires Inv(c, s) && Enabled(c, s, e) && HandlerEvent(e)
    ensures Inv(c, Apply(c, s, e))
  {
    var (s', i) := (Apply(c, s, e), Subject(e).value);
    assert ConnOk(c, s, i);
    forall j | 0 <= j < |s'.conns|
      ensures ConnOk(c, s', j)
    {
      if j != i {
        ConnKept(c, s, s', j);
      } else {
        ConnAdvanced(c, s, s', i);
      }
    }
  }

  lemma ConnKept(c: Config, s: State, s': State, j: nat)
    requires j < |s.conns| == |s'.conns| && ConnOk(c, s, j)
    requires s'.conns[j] == s.conns[j] && s'.loops == s.loops && s'.calls == s.calls && s'.done == s.done
    ensures ConnOk(c, s', j)
  {
  }

  lemma ConnAdvanced(c: Config, s: State, s': State, i: nat)
    requires i < |s.conns| == |s'.conns| && ConnOk(c, s, i)
    requires !s.conns[i].stage.Finished? && !s.conns[i].stage.Offered? && !s.conns[i].stage.Passing?
    requires s'.conns[i] == Advanced(c, s.conns[i], c.peer(i)) && s'.loops == s.loops && s'.calls == s.calls && s'.done == s.done
    ensures ConnOk(c, s', i)
  {
    AdvancedEstablishes(c, s.conns[i], c.peer(i));
  }

  /** Steps that take a connection off its handler. */
  predicate LeavesHandler(e: Event) {
    e.HandConn? || e.DropConn?
  }

  lemma StepLeaving(c: Config, s: State, e: Event, i: nat)
    requires Inv(c, s) && Enabled(c, s, e) && LeavesHandler(e) && i < |s.conns|
    ensures ConnOk(c, Apply(c, s, e), i)
  {
    assert ConnOk(c, s, Subject(e).value) && ConnOk(c, s, i);
  }

  lemma StepConn(c: Config, s: State, e: Event, i: nat)
    requires Inv(c, s) && Enabled(c, s, e) && !HandlerEvent(e) && !LeavesHandler(e) && i < |s.conns|
    ensures ConnOk(c, Apply(c, s, e), i)
  {
    assert ConnOk(c, s, i);
  }

  lemma StepConns(c: Config, s: State, e: Event)
    requires Inv(c, s) && Enabled(c, s, e) && !HandlerEvent(e)
    ensures forall i :: 0 <= i < |Apply(c, s, e).conns| ==> ConnOk(c, Apply(c, s, e), i)
  {
    var s' := Apply(c, s, e);
    forall i | 0 <= i < |s'.conns|
      ensures ConnOk(c, s', i)
    {
      if i >= |s.conns| {
        assert e.InnerAccept?;
      } else if LeavesHandler(e) {
        StepLeaving(c, s, e, i);
      } else {
        StepConn(c, s, e, i);
      }
    }
  }

  lemma StepLoops(c: Config, s: State, e: Event)
    requires Inv(c, s) && Enabled(c, s, e) && !HandlerEvent(e)
    ensures var s' := Apply(c, s, e);
            forall l :: 0 <= l < |s'.loops| && s'.loops[l].Holding? ==> StageIs(s', s'.loops[l].conn, Offered(Some(l)))
  {
    var s' := Apply(c, s, e);
    if Subject(e).Some? {
      assert ConnOk(c, s, Subject(e).value);
    }
    forall l | 0 <= l < |s'.loops| && s'.loops[l].Holding?
      ensures StageIs(s', s'.loops[l].conn, Offered(Some(l)))
    {
      if s.loops[l].Holding? {
        assert StageIs(s, s.loops[l].conn, Offered(Some(l)));
      }
    }
  }

  lemma StepCalls(c: Config, s: State, e: Event)
    requires Inv(c, s) && Enabled(c, s, e) && !HandlerEvent(e)
    ensures var s' := Apply(c, s, e);
            forall a :: 0 <= a < |s'.calls| && s'.calls[a].Got? ==>
              s'.calls[a].conn < |s'.conns| && s'.conns[s'.calls[a].conn].given == [a]
  {
    if Subject(e).Some? {
      assert ConnOk(c, s, Subject(e).value);
    }
  }

  /** A loop that has exited does not come back. */
  lemma ExitedStays(c: Config, s: State, e: Event)
    requires Inv(c, s) && Enabled(c, s, e)
    ensures var s' := Apply(c, s, e);
            |s'.loops| == |s.loops| && forall l :: 0 <= l < |s.loops| && s.loops[l].Exited? ==> s'.loops[l].Exited?
  {
    if Subject(e).Some? {
      assert ConnOk(c, s, Subject(e).value);
    }
  }

  lemma StepErrors(c: Config, s: State, e: Event)
    requires Inv(c, s) && Enabled(c, s, e)
    ensures ErrorsOnce(Apply(c, s, e))
  {
    ExitedStays(c, s, e);
    var s' := Apply(c, s, e);
    assert forall a :: 0 <= a < |s'.calls| && s'.calls[a].GotErr? ==>
                         (a < |s.calls| && s.calls[a] == s'.calls[a]) || (e.HandErr? && e.a == a && s'.calls[a] == GotErr(e.l));
  }

  lemma StepInv(c: Config, s: State, e: Event)
    requires Inv(c, s) && Enabled(c, s, e)
    ensures Inv(c, Apply(c, s, e))
  {
    if HandlerEvent(e) {
      StepHandler(c, s, e);
    } else {
      StepConns(c, s, e);
      StepLoops(c, s, e);
      StepCalls(c, s, e);
      StepErrors(c, s, e);
    }
  }

  lemma {:induction false} RunInv(c: Config, run: seq<Event>)
    ensures Exec(c, run).Some? ==> Inv(c, Exec(c, run).value)
  {
    if run != [] && Exec(c, run).Some? {
      RunInv(c, run[..|run| - 1]);
      StepInv(c, Exec(c, run[..|run| - 1]).value, run[|run| - 1]);
    }
  }

  /** Every handler has returned: each loop exited and no connection is still being handled. */
  ghost predicate AllReturned(c: Config, s: State) {
    && (forall l :: 0 <= l < |s.loops| ==> s.loops[l].Exited?)
    && (!c.kind.Hop? ==> forall i :: 0 <= i < |s.conns| ==> s.conns[i].stage.Finished?)
  }

  lemma ReturnedMeansFinished(c: Config, s: State, i: nat)
    requires Inv(c, s) && AllReturned(c, s) && i < |s.conns|
    ensures s.conns[i].stage.Finished?
  {
    assert ConnOk(c, s, i);
  }

  /** Some Accept returned connection i. */
  predicate Delivered(s: State, i: nat) {
    exists a :: 0 <= a < |s.calls| && s.calls[a] == Got(i)
  }

  /**
   * In every run of any of the listeners: no connection is handed to two Accepts, a delivered
   * one is never closed by its handler, and it is one whose own bytes pass all the listener
   * demands. Once all handlers have returned every connection was delivered or closed, not
   * both and not neither.
   */
  lemma OneFate(c: Config, run: seq<Event>, i: nat)
    requires Exec(c, run).Some? && i < |Exec(c, run).value.conns|
    ensures var s := Exec(c, run).value;
            && (forall a, b :: 0 <= a < |s.calls| && 0 <= b < |s.calls| && s.calls[a] == s.calls[b] == Got(i) ==> a == b)
            && (Delivered(s, i) ==> s.conns[i].closes == 0 && Authentic(c.kind, c.peer(i)))
            && (AllReturned(c, s) ==> (Delivered(s, i) <==> s.conns[i].closes == 0))
            && s.conns[i].closes <= 1
  {
    RunInv(c, run);
    var s := Exec(c, run).value;
    assert ConnOk(c, s, i);
    if AllReturned(c, s) {
      ReturnedMeansFinished(c, s, i);
      assert s.conns[i].given != [] ==> s.calls[s.conns[i].given[0]] == Got(i);
    }
  }

  /**
   * In every run: a connection that was closed by its handler or spliced elsewhere did not pass
   * what its listener demands, and was spliced exactly if it is foreign; or its handler was cut
   * short, or nobody took it before the listener was closed.
   */
  lemma RefusedOnlyIf(c: Config, run: seq<Event>, i: nat)
    requires Exec(c, run).Some? && i < |Exec(c, run).value.conns| && Refused(Exec(c, run).value.conns[i])
    ensures var (s, k) := (Exec(c, run).value, Exec(c, run).value.conns[i]);
            || (!Authentic(c.kind, c.peer(i)) && (k.passed <==> Foreign(c.kind, c.peer(i))))
            || k.broken || (k.dropped && s.done)
  {
    RunInv(c, run);
    assert ConnOk(c, Exec(c, run).value, i);
  }

  /**
   * In every run: the error of an accept loop goes to at most one Accept and ends that loop, and
   * a hop loop whose connection was dropped has ended too.
   */
  lemma LoopsEnd(c: Config, run: seq<Event>)
    requires Exec(c, run).Some?
    ensures var s := Exec(c, run).value;
            && ErrorsOnce(s)
            && (c.kind.Hop? ==> forall i :: 0 <= i < |s.conns| && s.conns[i].dropped ==>
                  s.conns[i].from < |s.loops| && s.loops[s.conns[i].from].Exited?)
  {
    RunInv(c, run);
    var s := Exec(c, run).value;
    forall i | 0 <= i < |s.conns| && s.conns[i].dropped && c.kind.Hop?
      ensures s.conns[i].from < |s.loops| && s.loops[s.conns[i].from].Exited?
    {
      assert ConnOk(c, s, i);
    }
  }

  lemma ExecSnoc(c: Config, run: seq<Event>, e: Event)
    requires Exec(c, run).Some? && Enabled(c, Exec(c, run).value, e)
    ensures Exec(c, run + [e]) == Some(Apply(c, Exec(c, run).value, e))
  {
    assert (run + [e])[..|run|] == run;
  }

  /** What the last stage of a handler is. */
  function LastStage(kind: Kind, i: nat): Event {
    if kind.Reality? then Open(i) else Prove(i)
  }

  /**
   * From every state of a run a connection that passes what its listener demands is offered by
   * its handler's own three steps, whatever the others do meanwhile, and then can be handed to
   * every waiting Accept.
   */
  lemma AuthenticIsOffered(c: Config, run: seq<Event>, i: nat)
    requires Exec(c, run).Some? && StageIs(Exec(c, run).value, i, Handling) && Authentic(c.kind, c.peer(i))
    ensures var after := Exec(c, run + [Decide(i)] + [Handshake(i)] + [LastStage(c.kind, i)]);
            var s := Exec(c, run).value;
            && after.Some?
            && after.value == s.(conns := s.conns[i := s.conns[i].(stage := Offered(None))])
            && (forall a :: 0 <= a < |s.calls| && s.calls[a].Waiting? ==> Enabled(c, after.value, HandConn(i, a)))
  {
    RunInv(c, run);
    var s := Exec(c, run).value;
    var k := s.conns[i];
    assert ConnOk(c, s, i);
    StagesOffer(c, k, c.peer(i));
    var s1 := OneStage(c, s, Decide(i), i);
    ExecSnoc(c, run, Decide(i));
    var s2 := OneStage(c, s1, Handshake(i), i);
    ExecSnoc(c, run + [Decide(i)], Handshake(i));
    var s3 := OneStage(c, s2, LastStage(c.kind, i), i);
    ExecSnoc(c, run + [Decide(i)] + [Handshake(i)], LastStage(c.kind, i));
  }

  /** One stage of handler i changes nothing but connection i. */
  lemma OneStage(c: Config, s: State, e: Event, i: nat) returns (t: State)
    requires Enabled(c, s, e) && HandlerEvent(e) && Subject(e) == Some(i) && i < |s.conns|
    ensures t == Apply(c, s, e) == s.(conns := s.conns[i := Advanced(c, s.conns[i], c.peer(i))])
  {
    t := Apply(c, s, e);
  }

  lemma StagesOffer(c: Config, k: Conn, p: Peer)
    requires k.stage.Handling? && !c.kind.Hop? && Authentic(c.kind, p)
    ensures var k1 := Advanced(c, k, p);
            var k2 := Advanced(c, k1, p);
            && k1.stage.Handshaking? && (if c.kind.Reality? then k2.stage.Opening? else k2.stage.Proving?)
            && Advanced(c, k2, p) == k.(stage := Offered(None))
  {
    var k1 := Advanced(c, k, p);
    if c.kind.Reality? {
      assert k1 == k.(stage := Handshaking(None));
    } else {
      assert k1 == k.(stage := Handshaking(Some(Judged(c.kind.cr, c.kind.sv, p).authKey)));
    }
  }

  /** What xreality splices to the borrowed site is what its decision turns away. */
  lemma SplicedOnlyIfRefused(c: Config, run: seq<Event>, i: nat)
    requires Exec(c, run).Some? && i < |Exec(c, run).value.conns|
    requires c.kind.XReality? && Exec(c, run).value.conns[i].stage.Passing?
    ensures Judged(c.kind.cr, c.kind.sv, c.peer(i)).Passthrough?
  {
    RunInv(c, run);
    assert ConnOk(c, Exec(c, run).value, i);
  }

  /**
   * End to end: whatever follows its hello, an honest client is never delivered by xreality
   * unless its shortId is configured and its time accepted when it was judged, and the proof it then gave was
   * over the key that its own token sealed.
   */
  lemma DeliveredHonestClient(c: Config, run: seq<Event>, i: nat, ephemeral: seq<byte>, shortID: seq<byte>, seconds: int,
                              sh: HelloGrammar.Shape, ss: seq<HelloMeaning.Share>, j: nat)
    requires Exec(c, run).Some? && i < |Exec(c, run).value.conns| && Delivered(Exec(c, run).value, i)
    requires c.kind.XReality? && c.kind.cr.Laws() && |shortID| <= SHORT_ID_LEN && IsInt64(seconds)
    requires |sh.random| == 32 && c.kind.cr.ecdh(ephemeral, c.kind.cr.pub(c.kind.sv.priv)).Some?
    requires var token := ClientSessionID(c.kind.cr, c.kind.cr.pub(c.kind.sv.priv), ephemeral, sh.random, shortID, seconds);
             token.Some? && HonestHello(c.kind.cr, sh, ss, j, ephemeral, token.value)
    requires |HelloGrammar.Payload(sh)| <= 16384 && c.peer(i).stream == HelloGrammar.Print(sh)
    ensures Accepts(c.kind.sv.ids, Pad8(shortID)) && InWindow(c.kind.sv.skew, c.peer(i).now, seconds)
    ensures var token := ClientSessionID(c.kind.cr, c.kind.cr.pub(c.kind.sv.priv), ephemeral, sh.random, shortID, seconds);
            c.peer(i).proves(token.value.authKey)
  {
    OneFate(c, run, i);
    HonestStreamRouted(c.kind.cr, c.kind.sv.(now := c.peer(i).now), ephemeral, shortID, seconds, sh, ss, j);
  }

  // ---------- what later states keep ----------

  /** What has ended stays so. */
  ghost predicate Later(s: State, t: State) {
    && (s.done ==> t.done)
    && |s.loops| == |t.loops| && |s.calls| <= |t.calls| && |s.conns| <= |t.conns|
    && (forall l :: 0 <= l < |s.loops| && Ending(s.loops[l]) ==> Ending(t.loops[l]))
    && (forall a :: 0 <= a < |s.calls| && !s.calls[a].Waiting? ==> t.calls[a] == s.calls[a])
  }

  /** The loop has met an error or is over. */
  predicate Ending(l: Loop) {
    l.Failing? || l.Exited?
  }

  lemma StepLater(c: Config, s: State, e: Event)
    requires Inv(c, s) && Enabled(c, s, e)
    ensures Later(s, Apply(c, s, e))
  {
    if Subject(e).Some? {
      assert ConnOk(c, s, Subject(e).value);
    }
  }

  lemma {:induction false} RunLater(c: Config, run: seq<Event>, more: seq<Event>)
    requires Exec(c, run + more).Some?
    ensures Exec(c, run).Some? && Later(Exec(c, run).value, Exec(c, run + more).value)
  {
    if more == [] {
      assert run + more == run;
    } else {
      var n := |more| - 1;
      var mid := run + more[..n];
      assert (run + more)[..|run + more| - 1] == mid && (run + more)[|run + more| - 1] == more[n];
      RunLater(c, run, more[..n]);
      RunInv(c, mid);
      StepLater(c, Exec(c, mid).value, more[n]);
    }
  }

  /**
   * What each step brings about for good: an inner connection or an Accept is there, Close
   * closes, an inner error ends its loop, an Accept has one result, a splice or a handler that
   * breaks off ends in a closed connection, and a token that does not come is a foreign one.
   */
  lemma EndsForGood(c: Config, run: seq<Event>, e: Event, more: seq<Event>)
    requires Exec(c, run + [e] + more).Some?
    ensures Exec(c, run).Some? && Enabled(c, Exec(c, run).value, e)
    ensures var (s, t) := (Exec(c, run).value, Exec(c, run + [e] + more).value);
            && (e.InnerAccept? ==> |t.conns| > |s.conns|) && (e.CallAccept? ==> |t.calls| > |s.calls|)
            && (e.CloseAll? ==> t.done)
            && (e.InnerError? ==> e.l < |t.loops| && Ending(t.loops[e.l]))
            && (e.AcceptDone? ==> e.a < |t.calls| && t.calls[e.a] == ErrClosed)
            && (e.HandConn? ==> e.a < |t.calls| && t.calls[e.a] == Got(e.c))
            && (e.HandErr? ==> e.a < |t.calls| && t.calls[e.a] == GotErr(e.l))
            && (e.GiveUp? ==> Apply(c, s, e).conns[e.c].stage.Passing? && Apply(c, s, e).conns[e.c].broken)
            && (e.EndPass? || e.Break? ==>
                  Apply(c, s, e).conns[e.c].stage.Finished? && Apply(c, s, e).conns[e.c].closes == 1)
  {
    RunLater(c, run + [e], more);
    assert (run + [e])[..|run|] == run;
    RunInv(c, run);
    if e.EndPass? || e.Break? {
      assert ConnOk(c, Exec(c, run).value, e.c);
    }
  }

  /**
   * After Close every offer, every failing loop and every blocked Accept has a way out, and it
   * leads out: to a closed connection, the end of the loop, and a closed listener.
   */
  lemma CloseUnblocks(c: Config, run: seq<Event>)
    requires Exec(c, run).Some? && Exec(c, run).value.done
    ensures var s := Exec(c, run).value;
            && (forall i :: 0 <= i < |s.conns| && s.conns[i].stage.Offered? ==>
                  Enabled(c, s, DropConn(i)) && Apply(c, s, DropConn(i)).conns[i].stage.Finished?)
            && (forall l :: 0 <= l < |s.loops| && s.loops[l].Failing? ==>
                  Enabled(c, s, DropErr(l)) && Apply(c, s, DropErr(l)).loops[l].Exited?)
            && (forall a :: 0 <= a < |s.calls| && s.calls[a].Waiting? ==>
                  Enabled(c, s, AcceptDone(a)) && Apply(c, s, AcceptDone(a)).calls[a].ErrClosed?)
  {
    RunInv(c, run);
    var s := Exec(c, run).value;
    forall i | 0 <= i < |s.conns| && s.conns[i].stage.Offered?
      ensures Enabled(c, s, DropConn(i)) && Apply(c, s, DropConn(i)).conns[i].stage.Finished?
    {
      assert ConnOk(c, s, i);
    }
  }

  // ---------- rotation ----------

  /** Go's remainder takes the sign of the dividend. */
  function GoRem(w: int, n: nat): int
    requires n > 0
  {
    if w >= 0 then w % n else -((-w) % n)
  }

  /** Go's quotient truncates toward zero. */
  function GoQuo(t: int, n: nat): int
    requires n > 0
  {
    if t >= 0 then t / n else -((-t) / n)
  }

  /**
   * The window of a dialer at time t is the floor its comment names exactly for times not
   * before the epoch, and at the starts of windows before it; elsewhere it is one more.
   */
  lemma WindowIsFloorExactly(t: int, period: nat, floor: int)
    requires period > 0 && floor * period <= t < floor * period + period
    ensures GoQuo(t, period) == floor <==> t >= 0 || t == floor * period
    ensures GoQuo(t, period) == if t >= 0 || t == floor * period then floor else floor + 1
  {
    var r := t - floor * period;
    if t >= 0 {
      QuotientUnique(t / period, floor, period, t % period, r);
    } else {
      var (k, m) := ((-t) / period, (-t) % period);
      assert -t == k * period + m;
      if r == 0 {
        assert -t == (-floor) * period + 0;
        QuotientUnique(k, -floor, period, m, 0);
      } else {
        assert (-floor - 1) * period == -(floor * period) - period;
        QuotientUnique(k, -floor - 1, period, m, period - r);
      }
    }
  }

  /** The address a hop dialer uses in window w. */
  function DialIndex(w: int, n: nat): int
    requires n > 0
  {
    GoRem(GoRem(w, n) + n, n)
  }

  lemma QuotientUnique(a: int, b: int, n: nat, r: int, r': int)
    requires a * n + r == b * n + r' && 0 <= r < n && 0 <= r' < n
    ensures a == b && r == r'
  {
    if a < b {
      Gap(a, b, n);
    } else if b < a {
      Gap(b, a, n);
    }
  }

  lemma Gap(a: int, b: int, n: nat)
    requires a < b
    ensures a * n + n <= b * n
  {
    assert (b - a - 1) * n >= 0;
    assert b * n == a * n + n + (b - a - 1) * n;
  }

  lemma DialIndexAt(w: int, n: nat, q: int, r: int)
    requires n > 0 && w == q * n + r && 0 <= r < n
    ensures DialIndex(w, n) == r
  {
    if w >= 0 {
      QuotientUnique(w / n, q, n, w % n, r);
      QuotientUnique((r + n) / n, 1, n, (r + n) % n, r);
    } else {
      var (k, m) := ((-w) / n, (-w) % n);
      assert -w == k * n + m;
      assert w == (-k) * n - m by {
        assert (-k) * n == -(k * n);
      }
      if m == 0 {
        QuotientUnique(-k, q, n, 0, r);
        QuotientUnique(n / n, 1, n, n % n, 0);
      } else {
        assert (-k) * n - m == (-k - 1) * n + (n - m) by {
          assert (-k - 1) * n == (-k) * n - n;
        }
        QuotientUnique(-k - 1, q, n, n - m, r);
        QuotientUnique((n - m) / n, 0, n, (n - m) % n, n - m);
      }
    }
  }

  /** Any n consecutive windows reach each of the n addresses. */
  lemma RotationReaches(w: int, n: nat, target: nat) returns (k: nat)
    requires target < n
    ensures k < n && DialIndex(w + k, n) == target
  {
    var q := (target - w) / n;
    k := (target - w) % n;
    assert target - w == q * n + k;
    assert w + k == (-q) * n + target by {
      assert (-q) * n == -(q * n);
    }
    DialIndexAt(w + k, n, -q, target);
  }

  /** Two windows use the same address only if they are n or more apart. */
  lemma RotationSpreads(a: int, b: int, n: nat)
    requires n > 0 && a < b && DialIndex(a, n) == DialIndex(b, n)
    ensures b - a >= n
  {
    DialIndexAt(a, n, a / n, a % n);
    DialIndexAt(b, n, b / n, b % n);
    var d := b / n - a / n;
    assert b - a == d * n by {
      assert b == (b / n) * n + b % n && a == (a / n) * n + a % n;
      assert (b / n) * n - (a / n) * n == d * n;
    }
    PositiveFactor(d, n);
  }

  lemma PositiveFactor(d: int, n: nat)
    requires n > 0 && d * n > 0
    ensures d * n >= n
  {
    if d >= 1 {
      assert (d - 1) * n >= 0;
    }
  }
}

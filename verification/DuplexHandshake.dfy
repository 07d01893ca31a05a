/**
  Two machines getting ONLINE with each other. Each runs a connection thread
  towards the other and answers the other's duplex calls from its own view of
  it, the delivered status, which lags behind what the thread has asked for.
 */
module DuplexHandshake {
  import opened Options
  import opened StatusDelivery

  const MAX_TRIES := 20
  const DUPLEX_MAX_FAILURES := 10

  /** How a view makes the server answer a duplex call; an unknown remote has no view. */
  predicate Duplex(view: Option<Status>) {
    view == Some(AWAITING_DUPLEX) || view == Some(ONLINE)
  }

  datatype Reply = HaveDuplex(response: bool) | DeadlineExceeded

  ghost predicate AllBad(met: seq<Option<Status>>) { forall k | 0 <= k < |met| :: !Duplex(met[k]) }

  /** The reply of a version 2 call to the views it met, one at each poll: true at the first good one, no 21st look. */
  ghost predicate WaitEnds(met: seq<Option<Status>>, reply: Reply) {
    if reply.DeadlineExceeded? then |met| == MAX_TRIES && AllBad(met)
    else
      && 1 <= |met| <= MAX_TRIES && reply.response
      && Duplex(met[|met| - 1]) && AllBad(met[..|met| - 1])
  }

  /** The first n of the views that a call would find. */
  ghost predicate Found(met: seq<Option<Status>>, views: nat -> Option<Status>, n: nat) {
    |met| == n && forall k | 0 <= k < n :: met[k] == views(k)
  }

  /** Version 2 of the call, given the view it finds at each of its polls. */
  method WaitingForDuplex(views: nat -> Option<Status>) returns (reply: Reply, polls: nat)
    ensures 1 <= polls <= MAX_TRIES && forall met | Found(met, views, polls) :: WaitEnds(met, reply)
    ensures reply.DeadlineExceeded? <==> forall k | 0 <= k < MAX_TRIES :: !Duplex(views(k))
  {
    var i, response := 0, false;
    while i < MAX_TRIES
      invariant 0 <= i < MAX_TRIES && !response
      invariant forall k | 0 <= k < i :: !Duplex(views(k))
      decreases MAX_TRIES - i
    {
      response := Duplex(views(i));
      if response {
        break;
      }
      i := i + 1;
      if i == MAX_TRIES {
        return DeadlineExceeded, i;
      }
    }
    return HaveDuplex(response), i + 1;
  }

  // ----- The two machines -----

  datatype Version = V1 | V2

  datatype Side = Here | There

  function Other(side: Side): Side { if side.Here? then There else Here }

  datatype Call = NoCall | Polling(tries: nat) | Answered(yes: bool) | Aborted

  datatype Pc =
    | Off         // no thread
    | Connecting  // waits for the channel
    | Ready       // version 1: channel up, about to ping
    | Asking      // AWAITING_DUPLEX asked for, duplex call made
    | Granted     // the call was answered with true
    | Online

  /**
    `infos` counts the requests for machine information that have no answer yet;
    without a thread there is no open channel to bring one. `answered` counts
    those whose answer has come but has still to be dealt with.
   */
  datatype Peer = Peer(version: Version, pc: Pc, call: Call, fails: nat, known: bool, infos: nat, answered: nat,
                       delivery: Delivery)

  /** A status is asked for by the connection thread, or when machine information arrives. */
  datatype Cause = Thread | Info

  datatype Event =
    | Requested(side: Side, status: Status, cause: Cause)
    | Replied(server: Side, view: Option<Status>, yes: bool)

  datatype State = State(here: Peer, there: Peer, log: seq<Event>)
  {
    function Of(side: Side): Peer { if side.Here? then here else there }

    function With(side: Side, peer: Peer): State {
      if side.Here? then this.(here := peer) else this.(there := peer)
    }

    /** The peer goes to a new place, asking for a status on the way. */
    function Asks(side: Side, peer: Peer, status: Status): State { AsksFor(side, peer, status, Thread) }

    function AsksFor(side: Side, peer: Peer, status: Status, cause: Cause): State {
      With(side, peer.(delivery := Set(peer.delivery, status))).(log := log + [Requested(side, status, cause)])
    }
  }

  datatype Action =
    | Discover(side: Side)
    | StartThread(side: Side)
    | ChannelUp(side: Side)
    | ChannelTimeout(side: Side)
    | Ping(side: Side)
    | Poll(side: Side)
    | Receive(side: Side)
    | GoOnline(side: Side)
    | InfoAnswered(side: Side)
    | InfoFails(side: Side)
    | InfoArrives(side: Side)
    | CallFails(side: Side)
    | Stop(side: Side)
    | Deliver(side: Side, step: StatusDelivery.Action)

  function FreshPeer(version: Version): Peer { Peer(version, Off, NoCall, 0, false, 0, 0, StatusDelivery.INITIAL) }

  function Initial(here: Version, there: Version): State { State(FreshPeer(here), FreshPeer(there), []) }

  /** How the other machine sees the given one: the status of its own remote for it, if it knows it. */
  function View(s: State, side: Side): Option<Status> {
    var q := s.Of(Other(side));
    if q.known then Some(q.delivery.status) else None
  }

  /** The other machine's server looks at its view of the caller, once. */
  function Polled(s: State, side: Side): State
    requires s.Of(side).call.Polling?
  {
    var p, view := s.Of(side), View(s, side);
    var yes := Duplex(view);
    if !yes && p.version.V2? && p.call.tries + 1 < MAX_TRIES then
      s.With(side, p.(call := Polling(p.call.tries + 1)))
    else
      s.With(side, p.(call := if !yes && p.version.V2? then Aborted else Answered(yes)))
       .(log := s.log + [Replied(Other(side), view, yes)])
  }

  function Received(s: State, side: Side): Option<State> {
    var p := s.Of(side);
    match p.call
    case Answered(true) => Some(s.With(side, p.(pc := Granted, call := NoCall)))
    case Answered(false) =>
      var again := p.fails + 1 <= DUPLEX_MAX_FAILURES;
      Some(s.With(side, p.(pc := if again then Ready else Connecting, call := NoCall, fails := p.fails + 1)))
    case Aborted => Some(s.Asks(side, p.(pc := Connecting, call := NoCall), UNREACHABLE))
    case _ => None
  }

  function Apply(s: State, a: Action): Option<State> {
    var p := s.Of(a.side);
    match a
    case Discover(side) => Some(s.With(side, p.(known := true)))
    case StartThread(side) =>
      if p.pc.Off? && p.known then Some(s.Asks(side, p.(pc := Connecting), INIT_CONNECTING)) else None
    case ChannelUp(side) =>
      if !p.pc.Connecting? then None
      else if p.version.V1? then Some(s.With(side, p.(pc := Ready, fails := 0)))
      else Some(s.Asks(side, p.(pc := Asking, call := Polling(0)), AWAITING_DUPLEX))
    case ChannelTimeout(side) =>
      if p.pc.Connecting? then Some(s.Asks(side, p, UNREACHABLE)) else None
    case Ping(side) =>
      if p.pc.Ready? && p.version.V1? then Some(s.Asks(side, p.(pc := Asking, call := Polling(0)), AWAITING_DUPLEX))
      else None
    case Poll(side) =>
      if p.pc.Asking? && p.call.Polling? then Some(Polled(s, side)) else None
    case Receive(side) =>
      if p.pc.Asking? then Received(s, side) else None
    case GoOnline(side) =>
      if p.pc.Granted? then Some(s.Asks(side, p.(pc := Online, infos := p.infos + 1), ONLINE)) else None
    case InfoAnswered(side) =>
      if p.infos > 0 && !p.pc.Off? then Some(s.With(side, p.(infos := p.infos - 1, answered := p.answered + 1)))
      else None
    case InfoFails(side) =>
      if p.infos > 0 then Some(s.With(side, p.(infos := p.infos - 1))) else None
    case InfoArrives(side) =>
      if p.answered > 0 then Some(s.AsksFor(side, p.(answered := p.answered - 1), ONLINE, Info)) else None
    case CallFails(side) =>
      if p.version.V1? && (p.pc.Ready? || p.pc.Asking? || p.pc.Online?)
      then Some(s.With(side, p.(pc := Connecting, call := NoCall)))
      else if p.version.V2? && p.pc.Asking? then Some(s.Asks(side, p.(pc := Connecting, call := NoCall), UNREACHABLE))
      else None
    case Stop(side) =>
      if p.pc.Connecting? || p.pc.Ready? || p.pc.Online? then Some(s.Asks(side, p.(pc := Off, call := NoCall), OFFLINE))
      else None
    case Deliver(side, step) =>
      if step.SetStatus? then None
      else
        match StatusDelivery.Apply(p.delivery, step)
        case None => None
        case Some(d) => Some(s.With(side, p.(delivery := d)))
  }

  function Run(s: State, actions: seq<Action>): Option<State>
    decreases |actions|
  {
    if actions == [] then Some(s)
    else
      match Apply(s, actions[0])
      case None => None
      case Some(s') => Run(s', actions[1..])
  }

  // ----- What a history must show -----

  ghost predicate Asked(log: seq<Event>, side: Side) {
    Requested(side, AWAITING_DUPLEX, Thread) in log
  }

  ghost predicate Quiet(log: seq<Event>, side: Side, k: nat) {
    forall i | k < i < |log| :: !(log[i].Requested? && log[i].side == side && log[i].cause == Thread)
  }

  /** The last request of the side's thread is AWAITING_DUPLEX. */
  ghost predicate AskingAt(log: seq<Event>, side: Side, k: nat) {
    k < |log| && log[k] == Requested(side, AWAITING_DUPLEX, Thread) && Quiet(log, side, k)
  }

  /** After that request, the other machine looked at its view, found it good and said so. */
  ghost predicate GrantedAt(log: seq<Event>, side: Side, k: nat, j: nat) {
    && AskingAt(log, side, k) && k < j < |log|
    && log[j].Replied? && log[j].server == Other(side) && log[j].yes && Duplex(log[j].view)
    && Asked(log[..j], Other(side))
  }

  ghost predicate IsGranted(log: seq<Event>, side: Side) { exists k, j :: GrantedAt(log, side, k, j) }

  ghost predicate WentOnline(log: seq<Event>, side: Side) {
    Requested(side, ONLINE, Thread) in log
  }

  /** A thread asks for ONLINE when granted, arriving information only after the thread did. */
  ghost predicate OnlineIsBacked(log: seq<Event>, i: nat)
    requires i < |log|
  {
    log[i].Requested? && log[i].status == ONLINE ==>
      if log[i].cause == Thread then IsGranted(log[..i], log[i].side) else WentOnline(log[..i], log[i].side)
  }

  ghost predicate OnlineIsGranted(log: seq<Event>) {
    forall i | 0 <= i < |log| :: OnlineIsBacked(log, i)
  }

  predicate Good(status: Status) { Duplex(Some(status)) }

  /** A good status that is in force or on its way had AWAITING_DUPLEX asked for before it. */
  ghost predicate ViewsAreBacked(log: seq<Event>, side: Side, d: Delivery) {
    && (Good(d.status) ==> Asked(log, side))
    && (d.running.Some? && Good(d.running.value.status) ==> Asked(log, side))
    && (forall i | 0 <= i < |d.pending| :: Good(d.pending[i].status) ==> Asked(log, side))
  }

  ghost predicate PeerOk(log: seq<Event>, side: Side, p: Peer) {
    && (p.pc.Asking? ==> exists k :: AskingAt(log, side, k))
    && (p.pc.Granted? || (p.pc.Asking? && p.call == Answered(true)) ==> IsGranted(log, side))
    && (p.infos > 0 || p.answered > 0 ==> WentOnline(log, side))
    && (WentOnline(log, side) ==> Asked(log, side))
    && ViewsAreBacked(log, side, p.delivery)
  }

  ghost predicate Invariant(s: State) {
    OnlineIsGranted(s.log) && PeerOk(s.log, Here, s.here) && PeerOk(s.log, There, s.there)
  }

  // ----- Every run keeps it -----

  /** What a thread's own requests do not touch: any event but those leaves a side's history as it was. */
  lemma HistoryGrows(log: seq<Event>, e: Event, side: Side, p: Peer)
    requires PeerOk(log, side, p) && !(e.Requested? && e.side == side && e.cause == Thread)
    ensures PeerOk(log + [e], side, p)
  {
    var log' := log + [e];
    if p.pc.Asking? {
      var k :| AskingAt(log, side, k);
      assert AskingAt(log', side, k);
    }
    if IsGranted(log, side) {
      var k: nat, j: nat :| GrantedAt(log, side, k, j);
      assert log'[..j] == log[..j];
      assert GrantedAt(log', side, k, j);
    }
  }

  lemma OnlineHistoryGrows(log: seq<Event>, e: Event)
    requires OnlineIsGranted(log)
    requires e.Requested? && e.status == ONLINE ==>
        if e.cause == Thread then IsGranted(log, e.side) else WentOnline(log, e.side)
    ensures OnlineIsGranted(log + [e])
  {
    var log' := log + [e];
    forall i | 0 <= i < |log'| ensures OnlineIsBacked(log', i) {
      if i < |log| {
        assert OnlineIsBacked(log, i) && log'[..i] == log[..i] && log'[i] == log[i];
      } else {
        assert log'[..i] == log;
      }
    }
  }

  lemma {:induction false} RemoveKeepsBacked(log: seq<Event>, side: Side, pending: seq<Source>, id: int)
    requires forall i | 0 <= i < |pending| :: Good(pending[i].status) ==> Asked(log, side)
    ensures forall i | 0 <= i < |Remove(pending, id)| :: Good(Remove(pending, id)[i].status) ==> Asked(log, side)
  {
    forall i | 0 <= i < |Remove(pending, id)| ensures Good(Remove(pending, id)[i].status) ==> Asked(log, side) {
      assert Remove(pending, id)[i] in pending;
    }
  }

  /** A request by the side itself. */
  lemma AsksKeepsPeer(log: seq<Event>, side: Side, p: Peer, pc: Pc, call: Call, status: Status)
    requires ViewsAreBacked(log, side, p.delivery) && (WentOnline(log, side) ==> Asked(log, side))
    requires status == ONLINE ==> Asked(log, side)
    requires p.infos > 0 || p.answered > 0 ==> WentOnline(log, side) || status == ONLINE
    requires pc.Asking? ==> status == AWAITING_DUPLEX && call == Polling(0)
    requires !pc.Granted?
    ensures PeerOk(log + [Requested(side, status, Thread)], side,
                   p.(pc := pc, call := call, delivery := Set(p.delivery, status)))
  {
    var log' := log + [Requested(side, status, Thread)];
    assert Asked(log, side) ==> Asked(log', side);
    assert log'[|log|] == Requested(side, status, Thread);
    assert pc.Asking? ==> AskingAt(log', side, |log|);
    RemoveKeepsBacked(log', side, p.delivery.pending, p.delivery.sourceId);
  }

  lemma AsksKeeps(s: State, side: Side, peer: Peer, status: Status)
    requires Invariant(s) && peer.delivery == s.Of(side).delivery
    requires status == ONLINE ==> s.Of(side).pc.Granted?
    requires peer.answered == s.Of(side).answered && (peer.infos > 0 ==> status == ONLINE || s.Of(side).infos > 0)
    requires peer.pc.Asking? ==> status == AWAITING_DUPLEX && peer.call == Polling(0)
    requires !peer.pc.Granted?
    ensures Invariant(s.Asks(side, peer, status))
  {
    assert status == ONLINE ==> Asked(s.log, side) by {
      if status == ONLINE {
        var k: nat, j: nat :| GrantedAt(s.log, side, k, j);
      }
    }
    OnlineHistoryGrows(s.log, Requested(side, status, Thread));
    HistoryGrows(s.log, Requested(side, status, Thread), Other(side), s.Of(Other(side)));
    AsksKeepsPeer(s.log, side, peer, peer.pc, peer.call, status);
  }

  lemma InfoKeeps(s: State, side: Side)
    requires Invariant(s) && s.Of(side).answered > 0
    ensures Invariant(s.AsksFor(side, s.Of(side).(answered := s.Of(side).answered - 1), ONLINE, Info))
  {
    var p, e := s.Of(side), Requested(side, ONLINE, Info);
    var p' := p.(answered := p.answered - 1, delivery := Set(p.delivery, ONLINE));
    OnlineHistoryGrows(s.log, e);
    HistoryGrows(s.log, e, Other(side), s.Of(Other(side)));
    HistoryGrows(s.log, e, side, p);
    RemoveKeepsBacked(s.log + [e], side, p.delivery.pending, p.delivery.sourceId);
    assert PeerOk(s.log + [e], side, p');
  }

  lemma PollKeeps(s: State, side: Side)
    requires Invariant(s) && s.Of(side).pc.Asking? && s.Of(side).call.Polling?
    ensures Invariant(Polled(s, side))
  {
    var p, q := s.Of(side), s.Of(Other(side));
    var s' := Polled(s, side);
    if |s'.log| > |s.log| {
      var e := s'.log[|s.log|];
      HistoryGrows(s.log, e, side, p);
      HistoryGrows(s.log, e, Other(side), q);
      OnlineHistoryGrows(s.log, e);
      if e.yes {
        var k :| AskingAt(s.log, side, k);
        assert s'.log[..|s.log|] == s.log;
        assert GrantedAt(s'.log, side, k, |s.log|);
      }
    }
  }

  lemma DeliverKeeps(log: seq<Event>, side: Side, d: Delivery, step: StatusDelivery.Action)
    requires ViewsAreBacked(log, side, d) && !step.SetStatus? && StatusDelivery.Apply(d, step).Some?
    ensures ViewsAreBacked(log, side, StatusDelivery.Apply(d, step).value)
  {
  }

  /** The steps in which a thread asks for a status or gives up a call. */
  lemma ThreadKeeps(s: State, a: Action)
    requires Invariant(s) && Apply(s, a).Some?
    requires a.StartThread? || a.ChannelUp? || a.ChannelTimeout? || a.Ping? || a.GoOnline? || a.CallFails? || a.Stop?
    ensures Invariant(Apply(s, a).value)
  {
    var p := s.Of(a.side);
    match a
    case StartThread(side) => AsksKeeps(s, side, p.(pc := Connecting), INIT_CONNECTING);
    case ChannelUp(side) =>
      if p.version.V2? { AsksKeeps(s, side, p.(pc := Asking, call := Polling(0)), AWAITING_DUPLEX); }
    case ChannelTimeout(side) => AsksKeeps(s, side, p, UNREACHABLE);
    case Ping(side) => AsksKeeps(s, side, p.(pc := Asking, call := Polling(0)), AWAITING_DUPLEX);
    case GoOnline(side) => AsksKeeps(s, side, p.(pc := Online, infos := p.infos + 1), ONLINE);
    case CallFails(side) =>
      if p.version.V2? { AsksKeeps(s, side, p.(pc := Connecting, call := NoCall), UNREACHABLE); }
    case Stop(side) => AsksKeeps(s, side, p.(pc := Off, call := NoCall), OFFLINE);
  }

  lemma StepKeepsInvariant(s: State, a: Action)
    requires Invariant(s) && Apply(s, a).Some?
    ensures Invariant(Apply(s, a).value)
  {
    var p := s.Of(a.side);
    match a
    case Poll(side) => PollKeeps(s, side);
    case Receive(side) =>
      if p.call.Aborted? { AsksKeeps(s, side, p.(pc := Connecting, call := NoCall), UNREACHABLE); }
    case InfoArrives(side) => InfoKeeps(s, side);
    case Deliver(side, step) => DeliverKeeps(s.log, side, p.delivery, step);
    case Discover(_) =>
    case InfoAnswered(_) =>
    case InfoFails(_) =>
    case _ => ThreadKeeps(s, a);
  }

  lemma {:induction false} RunKeepsInvariant(s: State, actions: seq<Action>)
    requires Invariant(s) && Run(s, actions).Some?
    ensures Invariant(Run(s, actions).value)
    decreases |actions|
  {
    if actions != [] {
      StepKeepsInvariant(s, actions[0]);
      RunKeepsInvariant(Apply(s, actions[0]).value, actions[1..]);
    }
  }

  /**
    Agreement. In any run of two machines, of either version, a connection
    thread asks for ONLINE only when its last request was AWAITING_DUPLEX and
    since then the other machine, looking at its own view of it, found
    AWAITING_DUPLEX or ONLINE there; before that look the other machine had
    asked for AWAITING_DUPLEX itself. ONLINE is asked for on the arrival of
    machine information only if the thread had asked for it before.
   */
  lemma OnlineNeedsBoth(here: Version, there: Version, actions: seq<Action>, i: nat)
    requires Run(Initial(here, there), actions).Some?
    requires i < |Run(Initial(here, there), actions).value.log|
    requires Run(Initial(here, there), actions).value.log[i].Requested?
    requires Run(Initial(here, there), actions).value.log[i].status == ONLINE
    ensures
      var log := Run(Initial(here, there), actions).value.log;
      && (log[i].cause == Thread ==> exists k, j :: GrantedAt(log[..i], log[i].side, k, j))
      && (log[i].cause == Info ==> exists n :: 0 <= n < i && log[n] == Requested(log[i].side, ONLINE, Thread))
  {
    RunKeepsInvariant(Initial(here, there), actions);
    var log := Run(Initial(here, there), actions).value.log;
    assert OnlineIsBacked(log, i);
    if log[i].cause == Info {
      var n :| 0 <= n < |log[..i]| && log[..i][n] == Requested(log[i].side, ONLINE, Thread);
      assert log[n] == log[..i][n];
    }
  }

  // ----- After the thread has ended -----

  lemma {:induction false} RunSplit(s: State, a: seq<Action>, b: seq<Action>)
    ensures Run(s, a + b) == match Run(s, a) { case None => None case Some(t) => Run(t, b) }
    decreases |a|
  {
    if a == [] {
      assert a + b == b;
    } else {
      assert (a + b)[0] == a[0] && (a + b)[1..] == a[1..] + b;
      var next := Apply(s, a[0]);
      if next.Some? { RunSplit(next.value, a[1..], b); }
    }
  }

  ghost predicate NotRestarted(side: Side, actions: seq<Action>) { StartThread(side) !in actions }

  ghost predicate Informed(side: Side, actions: seq<Action>) { InfoArrives(side) in actions }

  ghost predicate Settled(d: Delivery) { d.pending == [] && d.running.None? }

  lemma OtherSideStays(s: State, side: Side, a: Action)
    requires a.side != side && Apply(s, a).Some?
    ensures Apply(s, a).value.Of(side) == s.Of(side)
  {
  }

  lemma OneStepAfterStop(s: State, side: Side, a: Action)
    requires s.Of(side).pc.Off? && a != StartThread(side) && Apply(s, a).Some?
    ensures
      var p, q := s.Of(side), Apply(s, a).value.Of(side);
      && q.pc.Off?
      && Coming(q.delivery) == (if a == InfoArrives(side) then ONLINE else Coming(p.delivery))
      && q.answered == p.answered - (if a == InfoArrives(side) then 1 else 0)
  {
    if a.side != side {
      OtherSideStays(s, side, a);
    } else {
      OwnStepAfterStop(s, a);
    }
  }

  lemma OwnStepAfterStop(s: State, a: Action)
    requires s.Of(a.side).pc.Off? && !a.StartThread? && Apply(s, a).Some?
    ensures
      var p, q := s.Of(a.side), Apply(s, a).value.Of(a.side);
      && q.pc.Off?
      && Coming(q.delivery) == (if a.InfoArrives? then ONLINE else Coming(p.delivery))
      && q.answered == p.answered - (if a.InfoArrives? then 1 else 0)
  {
  }

  /** Without a thread, what is coming changes by the arrival of machine information only. */
  lemma {:induction false} AfterStop(s: State, side: Side, later: seq<Action>)
    requires s.Of(side).pc.Off? && NotRestarted(side, later) && Run(s, later).Some?
    ensures
      var p, q := s.Of(side), Run(s, later).value.Of(side);
      && q.pc.Off?
      && Coming(q.delivery) == (if Informed(side, later) then ONLINE else Coming(p.delivery))
      && (p.answered == 0 ==> !Informed(side, later))
    decreases |later|
  {
    if later != [] {
      OneStepAfterStop(s, side, later[0]);
      AfterStop(Apply(s, later[0]).value, side, later[1..]);
    }
  }

  /**
    A stopped remote: as long as its thread is not started again, whatever else
    happens on either machine, once nothing is on its way the status is OFFLINE
    exactly if no machine information has arrived since. None arrives if no
    answer was there when the thread stopped: it closes its channel before that.
   */
  lemma StoppedStaysOffline(s: State, side: Side, later: seq<Action>)
    requires Apply(s, Stop(side)).Some? && NotRestarted(side, later) && Run(Apply(s, Stop(side)).value, later).Some?
    ensures
      var d := Run(Apply(s, Stop(side)).value, later).value.Of(side).delivery;
      Settled(d) ==> (d.status == OFFLINE <==> !Informed(side, later))
    ensures s.Of(side).answered == 0 ==> !Informed(side, later)
  {
    AfterStop(Apply(s, Stop(side)).value, side, later);
  }

  /** The main loop run until it is dry. */
  function Drain(side: Side, d: Delivery): seq<Action>
    decreases |d.pending|, d.running.Some?
  {
    if d.running.Some? then [Deliver(side, RunCallback)] + Drain(side, Callback(d))
    else if d.pending == [] then []
    else
      [Deliver(side, Dispatch), Deliver(side, RunCallback)]
      + Drain(side, Callback(d.(running := Some(d.pending[0]), pending := d.pending[1..])))
  }

  lemma {:induction false} Drains(s: State, side: Side)
    ensures
      var steps := Drain(side, s.Of(side).delivery);
      && NotRestarted(side, steps) && !Informed(side, steps)
      && Run(s, steps).Some? && Settled(Run(s, steps).value.Of(side).delivery)
    decreases |s.Of(side).delivery.pending|, s.Of(side).delivery.running.Some?
  {
    var d := s.Of(side).delivery;
    if d.running.Some? {
      var first := [Deliver(side, RunCallback)];
      var t := Apply(s, first[0]).value;
      assert Run(t, first[1..]) == Some(t);
      Drains(t, side);
      RunSplit(s, first, Drain(side, t.Of(side).delivery));
    } else if d.pending != [] {
      var first := [Deliver(side, Dispatch), Deliver(side, RunCallback)];
      var t := Apply(s, first[0]).value;
      var u := Apply(t, first[1]).value;
      assert Run(u, first[1..][1..]) == Some(u);
      assert Run(t, first[1..]) == Some(u);
      Drains(u, side);
      RunSplit(s, first, Drain(side, u.Of(side).delivery));
    }
  }

  ghost predicate RevivedBy(s: State, side: Side, later: seq<Action>) {
    && NotRestarted(side, later) && Run(s, later).Some?
    && Settled(Run(s, later).value.Of(side).delivery) && Run(s, later).value.Of(side).delivery.status == ONLINE
  }

  /**
    A remote whose thread has stopped can settle at ONLINE, with no thread behind
    it, exactly if machine information had come but was not dealt with when it stopped.
   */
  lemma RevivedIffAnswered(s: State, side: Side)
    requires Apply(s, Stop(side)).Some?
    ensures s.Of(side).answered > 0 <==> exists later :: RevivedBy(Apply(s, Stop(side)).value, side, later)
  {
    var stopped := Apply(s, Stop(side)).value;
    if s.Of(side).answered > 0 {
      var first := [InfoArrives(side)];
      var t := Apply(stopped, first[0]).value;
      assert Run(t, first[1..]) == Some(t);
      var steps := Drain(side, t.Of(side).delivery);
      Drains(t, side);
      RunSplit(stopped, first, steps);
      assert Informed(side, first + steps) by { assert (first + steps)[0] == first[0]; }
      AfterStop(stopped, side, first + steps);
      assert RevivedBy(stopped, side, first + steps);
    } else {
      forall later | RevivedBy(stopped, side, later) ensures false {
        AfterStop(stopped, side, later);
      }
    }
  }

  /** Two machines of version 2 meet, and the first gets online. */
  const WAITING := [
    Discover(Here), Discover(There),
    StartThread(There), ChannelUp(There), Deliver(There, Dispatch), Deliver(There, RunCallback)]

  const GETTING_ONLINE := [
    StartThread(Here), ChannelUp(Here), Poll(Here), Receive(Here), GoOnline(Here), InfoAnswered(Here)]

  lemma StepAt(s: State, actions: seq<Action>, k: nat)
    requires k < |actions| && Apply(s, actions[k]).Some?
    ensures Run(s, actions[k..]) == Run(Apply(s, actions[k]).value, actions[k + 1..])
  {
    assert actions[k..][0] == actions[k] && actions[k..][1..] == actions[k + 1..];
  }

  lemma OtherWaits() returns (s: State)
    ensures Run(Initial(V2, V2), WAITING) == Some(s)
    ensures s.here == FreshPeer(V2).(known := true) && s.there.known && s.there.delivery.status == AWAITING_DUPLEX
  {
    var s0 := Initial(V2, V2);
    assert WAITING[0..] == WAITING;
    StepAt(s0, WAITING, 0);
    var s1 := Apply(s0, WAITING[0]).value;
    StepAt(s1, WAITING, 1);
    var s2 := Apply(s1, WAITING[1]).value;
    StepAt(s2, WAITING, 2);
    var s3 := Apply(s2, WAITING[2]).value;
    assert s3.there.delivery.pending == [Source(1, INIT_CONNECTING)];
    StepAt(s3, WAITING, 3);
    var s4 := Apply(s3, WAITING[3]).value;
    assert Remove(s3.there.delivery.pending, 1) == Remove(s3.there.delivery.pending[1..], 1) == [];
    assert s4.there.delivery.pending == [Source(2, AWAITING_DUPLEX)];
    StepAt(s4, WAITING, 4);
    var s5 := Apply(s4, WAITING[4]).value;
    StepAt(s5, WAITING, 5);
    s := Apply(s5, WAITING[5]).value;
    assert Run(s, WAITING[6..]) == Some(s);
  }

  lemma GetsOnline(s: State)
    requires s.here == FreshPeer(V2).(known := true) && s.there.known && s.there.delivery.status == AWAITING_DUPLEX
    ensures Run(s, GETTING_ONLINE).Some?
    ensures Run(s, GETTING_ONLINE).value.here.pc.Online? && Run(s, GETTING_ONLINE).value.here.answered == 1
  {
    assert GETTING_ONLINE[0..] == GETTING_ONLINE;
    StepAt(s, GETTING_ONLINE, 0);
    var s1 := Apply(s, GETTING_ONLINE[0]).value;
    StepAt(s1, GETTING_ONLINE, 1);
    var s2 := Apply(s1, GETTING_ONLINE[1]).value;
    StepAt(s2, GETTING_ONLINE, 2);
    IsGrantedAndOnline(Apply(s2, GETTING_ONLINE[2]).value);
  }

  lemma IsGrantedAndOnline(s3: State)
    requires s3.here.pc.Asking? && s3.here.call == Answered(true) && s3.here.infos == s3.here.answered == 0
    ensures Run(s3, GETTING_ONLINE[3..]).Some?
    ensures Run(s3, GETTING_ONLINE[3..]).value.here.pc.Online? && Run(s3, GETTING_ONLINE[3..]).value.here.answered == 1
  {
    StepAt(s3, GETTING_ONLINE, 3);
    var s4 := Apply(s3, GETTING_ONLINE[3]).value;
    StepAt(s4, GETTING_ONLINE, 4);
    var s5 := Apply(s4, GETTING_ONLINE[4]).value;
    StepAt(s5, GETTING_ONLINE, 5);
    var s6 := Apply(s5, GETTING_ONLINE[5]).value;
    assert Run(s6, GETTING_ONLINE[6..]) == Some(s6);
  }

  lemma MeetingRun() returns (t: State)
    ensures Run(Initial(V2, V2), WAITING + GETTING_ONLINE) == Some(t) && t.here.pc.Online? && t.here.answered == 1
  {
    var s := OtherWaits();
    GetsOnline(s);
    RunSplit(Initial(V2, V2), WAITING, GETTING_ONLINE);
    t := Run(s, GETTING_ONLINE).value;
  }

  /** It does happen: a run from the start after which the stopped remote can settle at ONLINE. */
  lemma RevivalArises() returns (t: State)
    ensures Run(Initial(V2, V2), WAITING + GETTING_ONLINE) == Some(t) && Apply(t, Stop(Here)).Some?
    ensures exists later :: RevivedBy(Apply(t, Stop(Here)).value, Here, later)
  {
    t := MeetingRun();
    RevivedIffAnswered(t, Here);
  }

  // ----- Nobody is refused -----

  ghost predicate Friendly(p: Peer) {
    && p.known && Good(p.delivery.status)
    && (p.delivery.running.Some? ==> Good(p.delivery.running.value.status))
    && (forall i | 0 <= i < |p.delivery.pending| :: Good(p.delivery.pending[i].status))
    && match p.pc
       case Asking => p.call.Polling? || p.call == Answered(true)
       case Granted => true
       case Online => true
       case _ => false
  }

  ghost predicate Undisturbed(actions: seq<Action>) {
    forall i | 0 <= i < |actions| :: !actions[i].CallFails? && !actions[i].Stop?
  }

  lemma {:induction false} RemoveKeepsGood(pending: seq<Source>, id: int)
    requires forall i | 0 <= i < |pending| :: Good(pending[i].status)
    ensures forall i | 0 <= i < |Remove(pending, id)| :: Good(Remove(pending, id)[i].status)
  {
    forall i | 0 <= i < |Remove(pending, id)| ensures Good(Remove(pending, id)[i].status) {
      assert Remove(pending, id)[i] in pending;
    }
  }

  /** Asking for a good status leaves nothing but good ones on the way. */
  lemma AskStaysGood(d: Delivery, status: Status)
    requires Good(status) && forall i | 0 <= i < |d.pending| :: Good(d.pending[i].status)
    ensures forall i | 0 <= i < |Set(d, status).pending| :: Good(Set(d, status).pending[i].status)
  {
    RemoveKeepsGood(d.pending, d.sourceId);
  }

  lemma PollStaysFriendly(s: State, side: Side)
    requires Friendly(s.here) && Friendly(s.there) && s.Of(side).call.Polling?
    ensures Friendly(Polled(s, side).here) && Friendly(Polled(s, side).there)
    ensures exists view :: Polled(s, side).log == s.log + [Replied(Other(side), view, true)]
  {
    var view := Some(s.Of(Other(side)).delivery.status);
    assert Polled(s, side).log == s.log + [Replied(Other(side), view, true)];
  }

  lemma DeliverStaysFriendly(p: Peer, step: StatusDelivery.Action)
    requires Friendly(p) && !step.SetStatus? && StatusDelivery.Apply(p.delivery, step).Some?
    ensures Friendly(p.(delivery := StatusDelivery.Apply(p.delivery, step).value))
  {
  }

  lemma StepStaysFriendly(s: State, a: Action)
    requires Friendly(s.here) && Friendly(s.there) && Apply(s, a).Some? && !a.CallFails? && !a.Stop?
    ensures Friendly(Apply(s, a).value.here) && Friendly(Apply(s, a).value.there)
    ensures forall e | e in Apply(s, a).value.log :: e in s.log || (e.Replied? ==> e.yes)
  {
    match a
    case GoOnline(side) => AskStaysGood(s.Of(side).delivery, ONLINE);
    case InfoArrives(side) => AskStaysGood(s.Of(side).delivery, ONLINE);
    case Poll(side) => PollStaysFriendly(s, side);
    case Deliver(side, step) => DeliverStaysFriendly(s.Of(side), step);
    case _ =>
  }

  /**
    Two machines that both wait for duplex, with nothing else on its way to
    their views, never refuse each other: as long as no call fails and nobody
    stops, every answer is yes, however the steps interleave, and both can only
    go on towards ONLINE.
   */
  lemma {:induction false} NeverRefused(s: State, actions: seq<Action>)
    requires Friendly(s.here) && Friendly(s.there) && Undisturbed(actions) && Run(s, actions).Some?
    ensures
      var t := Run(s, actions).value;
      && Friendly(t.here) && Friendly(t.there)
      && forall e | e in t.log :: e in s.log || (e.Replied? ==> e.yes)
    decreases |actions|
  {
    if actions != [] {
      StepStaysFriendly(s, actions[0]);
      NeverRefused(Apply(s, actions[0]).value, actions[1..]);
    }
  }
}

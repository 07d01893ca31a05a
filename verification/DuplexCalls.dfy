/**
  Calls and requests over whole runs of the two machines: how often a call
  looks before it ends, when version 1 gives up, and in which order the
  statuses are asked for.
 */
module DuplexCalls {
  import opened Options
  import opened StatusDelivery
  import opened DuplexHandshake

  // ----- The looks of one call -----

  /** The views which the polls of one side's calls meet in a run. */
  ghost function Met(s: State, side: Side, later: seq<DuplexHandshake.Action>): seq<Option<Status>>
    decreases |later|
  {
    if later == [] then []
    else
      match DuplexHandshake.Apply(s, later[0])
      case None => []
      case Some(t) => (if later[0] == Poll(side) then [View(s, side)] else []) + Met(t, side, later[1..])
  }

  /** The caller neither takes the reply nor loses the call. */
  ghost predicate KeepsWaiting(side: Side, later: seq<DuplexHandshake.Action>) {
    Receive(side) !in later && CallFails(side) !in later
  }

  /** Where a version 2 call is that has met these views. */
  ghost predicate WaitsAfter(call: Call, met: seq<Option<Status>>) {
    match call
    case Polling(tries) => tries == |met| < MAX_TRIES && AllBad(met)
    case Answered(yes) => WaitEnds(met, HaveDuplex(yes))
    case Aborted => WaitEnds(met, DeadlineExceeded)
    case NoCall => false
  }

  /** Where a version 1 call is: one look decides. */
  ghost predicate LooksAfter(call: Call, met: seq<Option<Status>>) {
    match call
    case Polling(_) => met == []
    case Answered(yes) => |met| == 1 && yes == Duplex(met[0])
    case _ => false
  }

  ghost predicate CallAfter(p: Peer, met: seq<Option<Status>>) {
    p.pc.Asking? && if p.version.V2? then WaitsAfter(p.call, met) else LooksAfter(p.call, met)
  }

  lemma PollMeets(s: State, side: Side, met: seq<Option<Status>>)
    requires CallAfter(s.Of(side), met) && s.Of(side).call.Polling?
    ensures CallAfter(Polled(s, side).Of(side), met + [View(s, side)])
  {
    var all := met + [View(s, side)];
    assert all[..|all| - 1] == met;
  }

  lemma StepMeets(s: State, side: Side, a: DuplexHandshake.Action, met: seq<Option<Status>>)
    requires CallAfter(s.Of(side), met) && DuplexHandshake.Apply(s, a).Some?
    requires a != Receive(side) && a != CallFails(side)
    ensures
      CallAfter(DuplexHandshake.Apply(s, a).value.Of(side), if a == Poll(side) then met + [View(s, side)] else met)
    ensures DuplexHandshake.Apply(s, a).value.Of(side).version == s.Of(side).version
  {
    if a == Poll(side) {
      PollMeets(s, side, met);
    } else if a.side != side {
      OtherSideStays(s, side, a);
    }
  }

  lemma MetFirst(s: State, side: Side, later: seq<DuplexHandshake.Action>, t: State, met: seq<Option<Status>>)
    requires later != [] && DuplexHandshake.Apply(s, later[0]) == Some(t)
    ensures met + Met(s, side, later)
         == (if later[0] == Poll(side) then met + [View(s, side)] else met) + Met(t, side, later[1..])
  {
    if later[0] == Poll(side) {
      assert met + ([View(s, side)] + Met(t, side, later[1..])) == met + [View(s, side)] + Met(t, side, later[1..]);
    } else {
      assert [] + Met(t, side, later[1..]) == Met(t, side, later[1..]);
    }
  }

  lemma {:induction false} RunMeets(s: State, side: Side, met: seq<Option<Status>>, later: seq<DuplexHandshake.Action>)
    requires CallAfter(s.Of(side), met) && KeepsWaiting(side, later) && DuplexHandshake.Run(s, later).Some?
    ensures CallAfter(DuplexHandshake.Run(s, later).value.Of(side), met + Met(s, side, later))
    ensures DuplexHandshake.Run(s, later).value.Of(side).version == s.Of(side).version
    decreases |later|
  {
    if later == [] {
      assert met + [] == met;
    } else {
      var t := DuplexHandshake.Apply(s, later[0]).value;
      StepMeets(s, side, later[0], met);
      MetFirst(s, side, later, t, met);
      RunMeets(t, side, if later[0] == Poll(side) then met + [View(s, side)] else met, later[1..]);
    }
  }

  /**
    A version 2 call ends as WaitingForDuplex does on the views it meets,
    whatever happens between its polls: as long as it has no reply it has met
    nothing but bad views, fewer than twenty; it is aborted at the twentieth bad
    one, and answered with true at the first good one.
   */
  lemma CallWaits(s: State, side: Side, later: seq<DuplexHandshake.Action>)
    requires s.Of(side).version.V2? && DuplexHandshake.Apply(s, ChannelUp(side)).Some?
    requires KeepsWaiting(side, later)
    requires DuplexHandshake.Run(DuplexHandshake.Apply(s, ChannelUp(side)).value, later).Some?
    ensures
      var called := DuplexHandshake.Apply(s, ChannelUp(side)).value;
      var t := DuplexHandshake.Run(called, later).value;
      t.Of(side).pc.Asking? && WaitsAfter(t.Of(side).call, Met(called, side, later))
  {
    var called := DuplexHandshake.Apply(s, ChannelUp(side)).value;
    RunMeets(called, side, [], later);
    assert [] + Met(called, side, later) == Met(called, side, later);
  }

  /** A version 1 call is answered at its only look, by whether that view is good. */
  lemma CallLooks(s: State, side: Side, later: seq<DuplexHandshake.Action>)
    requires DuplexHandshake.Apply(s, Ping(side)).Some? && KeepsWaiting(side, later)
    requires DuplexHandshake.Run(DuplexHandshake.Apply(s, Ping(side)).value, later).Some?
    ensures
      var called := DuplexHandshake.Apply(s, Ping(side)).value;
      var t := DuplexHandshake.Run(called, later).value;
      t.Of(side).pc.Asking? && LooksAfter(t.Of(side).call, Met(called, side, later))
  {
    var called := DuplexHandshake.Apply(s, Ping(side)).value;
    RunMeets(called, side, [], later);
    assert [] + Met(called, side, later) == Met(called, side, later);
  }

  // ----- Version 1 gives up -----

  /** How many refusals one side takes in a run. */
  ghost function Refusals(s: State, side: Side, later: seq<DuplexHandshake.Action>): nat
    decreases |later|
  {
    if later == [] then 0
    else
      match DuplexHandshake.Apply(s, later[0])
      case None => 0
      case Some(t) =>
        (if later[0] == Receive(side) && s.Of(side).call == Answered(false) then 1 else 0)
        + Refusals(t, side, later[1..])
  }

  /** The channel stays up. */
  ghost predicate OneChannel(side: Side, later: seq<DuplexHandshake.Action>) {
    ChannelUp(side) !in later && CallFails(side) !in later && Stop(side) !in later
  }

  ghost predicate RefusedSoFar(p: Peer, n: nat) {
    && p.version.V1? && !p.pc.Off? && (p.pc.Asking? ==> !p.call.Aborted?)
    && if p.pc.Connecting? then n == DUPLEX_MAX_FAILURES + 1 else n == p.fails <= DUPLEX_MAX_FAILURES
  }

  lemma StepRefuses(s: State, side: Side, a: DuplexHandshake.Action, n: nat)
    requires RefusedSoFar(s.Of(side), n) && DuplexHandshake.Apply(s, a).Some? && OneChannel(side, [a])
    ensures
      var refused := a == Receive(side) && s.Of(side).call == Answered(false);
      RefusedSoFar(DuplexHandshake.Apply(s, a).value.Of(side), if refused then n + 1 else n)
  {
    assert a in [a];
    if a.side != side {
      OtherSideStays(s, side, a);
    }
  }

  lemma {:induction false} RunRefuses(s: State, side: Side, n: nat, later: seq<DuplexHandshake.Action>)
    requires RefusedSoFar(s.Of(side), n) && OneChannel(side, later) && DuplexHandshake.Run(s, later).Some?
    ensures RefusedSoFar(DuplexHandshake.Run(s, later).value.Of(side), n + Refusals(s, side, later))
    decreases |later|
  {
    if later != [] {
      var refused := later[0] == Receive(side) && s.Of(side).call == Answered(false);
      StepRefuses(s, side, later[0], n);
      RunRefuses(DuplexHandshake.Apply(s, later[0]).value, side, if refused then n + 1 else n, later[1..]);
    }
  }

  /** On one channel, version 1 takes ten refusals and goes back to connecting exactly at the eleventh. */
  lemma GivesUpAtEleventh(s: State, side: Side, later: seq<DuplexHandshake.Action>)
    requires s.Of(side).version.V1? && DuplexHandshake.Apply(s, ChannelUp(side)).Some? && OneChannel(side, later)
    requires DuplexHandshake.Run(DuplexHandshake.Apply(s, ChannelUp(side)).value, later).Some?
    ensures
      var up := DuplexHandshake.Apply(s, ChannelUp(side)).value;
      var refusals := Refusals(up, side, later);
      refusals <= 11 && (DuplexHandshake.Run(up, later).value.Of(side).pc.Connecting? <==> refusals == 11)
  {
    RunRefuses(DuplexHandshake.Apply(s, ChannelUp(side)).value, side, 0, later);
  }

  // ----- The order of the requests -----

  predicate ByThread(e: Event, side: Side) { e.Requested? && e.side == side && e.cause == Thread }

  /** What the side's thread asked for last. */
  ghost function LastBy(log: seq<Event>, side: Side): Option<Status>
    decreases |log|
  {
    if log == [] then None
    else
      var e := log[|log| - 1];
      if ByThread(e, side) then Some(e.status) else LastBy(log[..|log| - 1], side)
  }

  /** The statuses at which a thread may be connecting: version 1 does not ask after a lost or refused call. */
  predicate ConnectingAt(version: Version, last: Option<Status>) {
    || last == Some(INIT_CONNECTING) || last == Some(UNREACHABLE)
    || (version.V1? && (last == Some(AWAITING_DUPLEX) || last == Some(ONLINE)))
  }

  /** Which request may come next. */
  predicate MayFollow(version: Version, last: Option<Status>, next: Status) {
    match next
    case INIT_CONNECTING => last.None? || last == Some(OFFLINE)
    case AWAITING_DUPLEX => ConnectingAt(version, last)
    case ONLINE => last == Some(AWAITING_DUPLEX)
    case UNREACHABLE => ConnectingAt(version, last) || last == Some(AWAITING_DUPLEX)
    case OFFLINE => ConnectingAt(version, last) || last == Some(ONLINE)
  }

  predicate AtPc(p: Peer, last: Option<Status>) {
    match p.pc
    case Off => last.None? || last == Some(OFFLINE)
    case Connecting => ConnectingAt(p.version, last)
    case Ready => p.version.V1? && ConnectingAt(p.version, last)
    case Asking => last == Some(AWAITING_DUPLEX) && (p.version.V2? ==> p.call != Answered(false))
    case Granted => last == Some(AWAITING_DUPLEX)
    case Online => last == Some(ONLINE)
  }

  ghost predicate InTurn(log: seq<Event>, side: Side, version: Version, i: nat)
    requires i < |log|
  {
    ByThread(log[i], side) ==> MayFollow(version, LastBy(log[..i], side), log[i].status)
  }

  ghost predicate Ordered(s: State, side: Side) {
    && (s.Of(side).pc.Off? || s.Of(side).known)
    && AtPc(s.Of(side), LastBy(s.log, side))
    && forall i | 0 <= i < |s.log| :: InTurn(s.log, side, s.Of(side).version, i)
  }

  lemma EventInTurn(log: seq<Event>, e: Event, side: Side, version: Version)
    requires forall i | 0 <= i < |log| :: InTurn(log, side, version, i)
    requires ByThread(e, side) ==> MayFollow(version, LastBy(log, side), e.status)
    ensures forall i | 0 <= i < |log + [e]| :: InTurn(log + [e], side, version, i)
    ensures LastBy(log + [e], side) ==
            if ByThread(e, side) then Some(e.status) else LastBy(log, side)
  {
    var all := log + [e];
    assert all[..|log|] == log;
    forall i | 0 <= i < |all| ensures InTurn(all, side, version, i) {
      if i < |log| {
        assert InTurn(log, side, version, i) && all[..i] == log[..i];
      }
    }
  }

  /** The one event a step may add, and the pc it leaves. */
  lemma StepAsks(s: State, side: Side, a: DuplexHandshake.Action, last: Option<Status>)
    requires AtPc(s.Of(side), last) && DuplexHandshake.Apply(s, a).Some?
    ensures
      var t := DuplexHandshake.Apply(s, a).value;
      && t.Of(side).version == s.Of(side).version
      && (t.log == s.log || (|t.log| == |s.log| + 1 && t.log[..|s.log|] == s.log))
      && (if t.log != s.log && ByThread(t.log[|s.log|], side) then
           var next := t.log[|s.log|].status;
           MayFollow(s.Of(side).version, last, next) && AtPc(t.Of(side), Some(next))
         else AtPc(t.Of(side), last))
  {
    if a.side != side {
      OtherSideStays(s, side, a);
    }
  }

  /** An attempt that fails, in whatever way, is reported as UNREACHABLE by version 2, a failed connection by both. */
  lemma FailureIsReported(s: State, side: Side, a: DuplexHandshake.Action)
    requires DuplexHandshake.Apply(s, a).Some?
    requires a == ChannelTimeout(side) || (s.Of(side).version.V2? && a == CallFails(side))
             || (a == Receive(side) && s.Of(side).call.Aborted?)
    ensures
      var t := DuplexHandshake.Apply(s, a).value;
      t.Of(side).pc.Connecting? && LastBy(t.log, side) == Some(UNREACHABLE)
  {
  }

  lemma StepKnows(s: State, side: Side, a: DuplexHandshake.Action)
    requires (s.Of(side).pc.Off? || s.Of(side).known) && DuplexHandshake.Apply(s, a).Some?
    ensures var t := DuplexHandshake.Apply(s, a).value; t.Of(side).pc.Off? || t.Of(side).known
  {
    if a.side != side {
      OtherSideStays(s, side, a);
    }
  }

  lemma StepInTurn(s: State, side: Side, a: DuplexHandshake.Action)
    requires Ordered(s, side) && DuplexHandshake.Apply(s, a).Some?
    ensures Ordered(DuplexHandshake.Apply(s, a).value, side)
  {
    var t := DuplexHandshake.Apply(s, a).value;
    StepAsks(s, side, a, LastBy(s.log, side));
    StepKnows(s, side, a);
    if t.log != s.log {
      var e := t.log[|s.log|];
      assert t.log == t.log[..|s.log|] + [e];
      EventInTurn(s.log, e, side, s.Of(side).version);
    }
  }

  lemma {:induction false} RunInTurn(s: State, side: Side, actions: seq<DuplexHandshake.Action>)
    requires Ordered(s, side) && DuplexHandshake.Run(s, actions).Some?
    ensures Ordered(DuplexHandshake.Run(s, actions).value, side)
    ensures DuplexHandshake.Run(s, actions).value.Of(side).version == s.Of(side).version
    decreases |actions|
  {
    if actions != [] {
      StepInTurn(s, side, actions[0]);
      RunInTurn(DuplexHandshake.Apply(s, actions[0]).value, side, actions[1..]);
    }
  }

  /**
    In every run each machine's thread runs only for a machine that was
    discovered, and asks for its statuses in an order which MayFollow allows.
   */
  lemma RequestsInOrder(here: Version, there: Version, actions: seq<DuplexHandshake.Action>, side: Side)
    requires DuplexHandshake.Run(Initial(here, there), actions).Some?
    ensures
      var s := DuplexHandshake.Run(Initial(here, there), actions).value;
      var version := if side.Here? then here else there;
      && (s.Of(side).pc.Off? || s.Of(side).known)
      && AtPc(s.Of(side), LastBy(s.log, side))
      && forall i | 0 <= i < |s.log| :: InTurn(s.log, side, version, i)
  {
    RunInTurn(Initial(here, there), side, actions);
  }

  // ----- Machine information -----

  function Times(actions: seq<DuplexHandshake.Action>, a: DuplexHandshake.Action): nat {
    if actions == [] then 0 else (if actions[0] == a then 1 else 0) + Times(actions[1..], a)
  }

  lemma InfoStep(s: State, side: Side, a: DuplexHandshake.Action)
    requires DuplexHandshake.Apply(s, a).Some?
    ensures
      var p, q := s.Of(side), DuplexHandshake.Apply(s, a).value.Of(side);
      q.infos + q.answered == p.infos + p.answered
                              + (if a == GoOnline(side) then 1 else 0)
                              - (if a == InfoFails(side) then 1 else 0) - (if a == InfoArrives(side) then 1 else 0)
  {
    if a.side != side {
      OtherSideStays(s, side, a);
    }
  }

  /**
    Every time a thread gets online one request for information is made; it has
    failed or its answer has been dealt with, or it is still on its way.
   */
  lemma {:induction false} InfoIsCounted(s: State, side: Side, actions: seq<DuplexHandshake.Action>)
    requires DuplexHandshake.Run(s, actions).Some?
    ensures
      var p, q := s.Of(side), DuplexHandshake.Run(s, actions).value.Of(side);
      p.infos + p.answered + Times(actions, GoOnline(side))
      == q.infos + q.answered + Times(actions, InfoFails(side)) + Times(actions, InfoArrives(side))
    decreases |actions|
  {
    if actions != [] {
      InfoStep(s, side, actions[0]);
      InfoIsCounted(DuplexHandshake.Apply(s, actions[0]).value, side, actions[1..]);
    }
  }
}

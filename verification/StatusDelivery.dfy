/**
  Delivery of a remote's status. Any thread may ask for a status; an idle
  source of the main loop applies it later, and a new request withdraws the
  source of the previous one, unless that was dispatched already.
 */
module StatusDelivery {
  import opened Options

  datatype Status = ONLINE | OFFLINE | INIT_CONNECTING | UNREACHABLE | AWAITING_DUPLEX

  datatype Source = Source(id: int, status: Status)

  /** The main loop runs its idle sources in the order in which they were added. */
  datatype Delivery = Delivery(
    status: Status,
    sourceId: int,
    pending: seq<Source>,
    running: Option<Source>,  // taken from the loop; its callback has not got the lock yet
    nextId: int,
    requested: Status,        // the last status asked for
    emitted: seq<Status>)     // remote-status-changed signals

  const INITIAL := Delivery(INIT_CONNECTING, 0, [], None, 1, INIT_CONNECTING, [])

  datatype Action =
    | SetStatus(status: Status)
    | Dispatch
    | RunCallback

  function Remove(pending: seq<Source>, id: int): (left: seq<Source>)
    ensures forall s :: s in left ==> s in pending && s.id != id
  {
    if pending == [] then []
    else if pending[0].id == id then Remove(pending[1..], id)
    else [pending[0]] + Remove(pending[1..], id)
  }

  /** The queue once the source of the last request, if any, has been withdrawn. */
  function Withdrawn(d: Delivery): seq<Source> {
    if d.sourceId > 0 then Remove(d.pending, d.sourceId) else d.pending
  }

  function Set(d: Delivery, status: Status): Delivery {
    d.(pending := Withdrawn(d) + [Source(d.nextId, status)],
        sourceId := d.nextId, nextId := d.nextId + 1, requested := status)
  }

  function Callback(d: Delivery): Delivery
    requires d.running.Some?
  {
    var status := d.running.value.status;
    var ran := d.(sourceId := 0, running := None);
    if status == d.status then ran else ran.(status := status, emitted := d.emitted + [status])
  }

  function Apply(d: Delivery, a: Action): Option<Delivery> {
    match a
    case SetStatus(status) => Some(Set(d, status))
    case Dispatch =>
      if d.running.Some? || d.pending == [] then None
      else Some(d.(running := Some(d.pending[0]), pending := d.pending[1..]))
    case RunCallback => if d.running.None? then None else Some(Callback(d))
  }

  function Run(d: Delivery, actions: seq<Action>): Option<Delivery>
    decreases |actions|
  {
    if actions == [] then Some(d)
    else
      match Apply(d, actions[0])
      case None => None
      case Some(d') => Run(d', actions[1..])
  }

  // ----- The last request wins -----

  /** What the status will be once the loop has run dry. */
  function Coming(d: Delivery): Status {
    if d.pending != [] then d.pending[|d.pending| - 1].status
    else if d.running.Some? then d.running.value.status
    else d.status
  }

  /** What listeners knew before signal i. */
  function Previous(from: Status, emitted: seq<Status>, i: nat): Status
    requires i <= |emitted|
  {
    if i == 0 then from else emitted[i - 1]
  }

  ghost predicate Changes(from: Status, emitted: seq<Status>) {
    forall i | 0 <= i < |emitted| :: emitted[i] != Previous(from, emitted, i)
  }

  ghost predicate Invariant(d: Delivery) {
    && Coming(d) == d.requested
    && Changes(INIT_CONNECTING, d.emitted)
    && d.status == Previous(INIT_CONNECTING, d.emitted, |d.emitted|)
  }

  lemma StepKeepsInvariant(d: Delivery, a: Action)
    requires Invariant(d) && Apply(d, a).Some?
    ensures Invariant(Apply(d, a).value)
  {
    if a.RunCallback? && d.running.value.status != d.status {
      ChangesGrow(INIT_CONNECTING, d.emitted, d.running.value.status);
    }
  }

  lemma ChangesGrow(from: Status, emitted: seq<Status>, status: Status)
    requires Changes(from, emitted) && status != Previous(from, emitted, |emitted|)
    ensures Changes(from, emitted + [status])
  {
    var all := emitted + [status];
    forall i | 0 <= i < |all| ensures all[i] != Previous(from, all, i) {
      assert Previous(from, all, i) == Previous(from, emitted, i);
      if i < |emitted| { assert all[i] == emitted[i]; }
    }
  }

  lemma {:induction false} RunKeepsInvariant(d: Delivery, actions: seq<Action>)
    requires Invariant(d) && Run(d, actions).Some?
    ensures Invariant(Run(d, actions).value)
    decreases |actions|
  {
    if actions != [] {
      StepKeepsInvariant(d, actions[0]);
      RunKeepsInvariant(Apply(d, actions[0]).value, actions[1..]);
    }
  }

  function LastRequest(before: Status, actions: seq<Action>): Status
    decreases |actions|
  {
    if actions == [] then before
    else
      var last := actions[|actions| - 1];
      if last.SetStatus? then last.status else LastRequest(before, actions[..|actions| - 1])
  }

  lemma {:induction false} RequestedIsLast(d: Delivery, actions: seq<Action>)
    requires Run(d, actions).Some?
    ensures Run(d, actions).value.requested == LastRequest(d.requested, actions)
    decreases |actions|
  {
    if actions != [] {
      var d' := Apply(d, actions[0]).value;
      RequestedIsLast(d', actions[1..]);
      LastRequestSplit(d.requested, actions);
    }
  }

  lemma {:induction false} LastRequestSplit(before: Status, actions: seq<Action>)
    requires actions != []
    ensures LastRequest(before, actions)
         == LastRequest(if actions[0].SetStatus? then actions[0].status else before, actions[1..])
    decreases |actions|
  {
    var n := |actions|;
    if n > 1 {
      assert actions[1..][n - 2] == actions[n - 1] && actions[1..][..n - 2] == actions[..n - 1][1..];
      LastRequestSplit(before, actions[..n - 1]);
    } else {
      assert actions[..0] == [] && actions[1..] == [];
    }
  }

  /**
    Coalesced delivery: in any interleaving of requests, dispatches and
    callbacks, whenever nothing is queued or running the status is the last
    one asked for, and listeners were told of every change and of nothing else.
   */
  lemma LastRequestIsDelivered(actions: seq<Action>)
    requires Run(INITIAL, actions).Some?
    ensures
      var d := Run(INITIAL, actions).value;
      && (d.pending == [] && d.running.None? ==> d.status == LastRequest(INIT_CONNECTING, actions))
      && Changes(INIT_CONNECTING, d.emitted)
      && d.status == Previous(INIT_CONNECTING, d.emitted, |d.emitted|)
  {
    RunKeepsInvariant(INITIAL, actions);
    RequestedIsLast(INITIAL, actions);
  }

  /** Ids are given out in increasing order, from 1. */
  ghost predicate IdsAreOld(d: Delivery) {
    0 <= d.sourceId < d.nextId && forall i | 0 <= i < |d.pending| :: d.pending[i].id < d.nextId
  }

  lemma {:induction false} RemoveLast(pending: seq<Source>, last: Source)
    requires forall i | 0 <= i < |pending| :: pending[i].id < last.id
    ensures Remove(pending + [last], last.id) == pending
    decreases |pending|
  {
    if pending == [] {
      assert Remove([last][1..], last.id) == [];
    } else {
      assert (pending + [last])[1..] == pending[1..] + [last];
      RemoveLast(pending[1..], last);
    }
  }

  /** Of two requests in a row the loop gets to see the second only. */
  lemma SecondRequestReplacesFirst(d: Delivery, first: Status, second: Status)
    requires IdsAreOld(d)
    ensures Set(d, second).pending == Withdrawn(d) + [Source(d.nextId, second)]
    ensures Set(Set(d, first), second).pending == Withdrawn(d) + [Source(d.nextId + 1, second)]
  {
    var kept := Withdrawn(d);
    forall i | 0 <= i < |kept| ensures kept[i].id < d.nextId {
      assert kept[i] in d.pending;
    }
    RemoveLast(kept, Source(d.nextId, first));
  }

  // ----- How many sources can be queued -----

  /** A source is queued, but its id has been reset: the next request will not withdraw it. */
  predicate Forgotten(d: Delivery) { d.pending != [] && d.sourceId == 0 }

  ghost predicate NeverTwoQueued(d: Delivery, actions: seq<Action>)
    decreases |actions|
  {
    |d.pending| <= 1 && (actions == [] || (Apply(d, actions[0]).Some?
         && NeverTwoQueued(Apply(d, actions[0]).value, actions[1..])))
  }

  /** No request is made while the queued source is forgotten. */
  ghost predicate NoneForgottenAtRequest(d: Delivery, actions: seq<Action>)
    decreases |actions|
  {
    actions == [] ||
    (&& !(actions[0].SetStatus? && Forgotten(d))
     && Apply(d, actions[0]).Some? && NoneForgottenAtRequest(Apply(d, actions[0]).value, actions[1..]))
  }

  ghost predicate IdsMatch(d: Delivery) {
    && IdsAreOld(d)
    && (forall i | 0 <= i < |d.pending| :: 0 < d.pending[i].id)
    && (d.pending != [] ==> d.sourceId == 0 || d.sourceId == d.pending[|d.pending| - 1].id)
  }

  lemma IdsStayMatched(d: Delivery, a: Action)
    requires IdsMatch(d) && |d.pending| <= 1 && Apply(d, a).Some?
    ensures IdsMatch(Apply(d, a).value)
    ensures |Apply(d, a).value.pending| ==
            if a.SetStatus? then (if Forgotten(d) then 2 else 1) else if a.Dispatch? then 0 else |d.pending|
  {
    if |d.pending| == 1 {
      assert d.pending[1..] == [];
      assert Remove(d.pending[1..], d.sourceId) == [];
    }
  }

  lemma {:induction false} QueueGrowsByForgetting(d: Delivery, actions: seq<Action>)
    requires IdsMatch(d) && |d.pending| <= 1 && Run(d, actions).Some?
    ensures NeverTwoQueued(d, actions) <==> NoneForgottenAtRequest(d, actions)
    decreases |actions|
  {
    if actions != [] {
      var next := Apply(d, actions[0]).value;
      IdsStayMatched(d, actions[0]);
      if |next.pending| <= 1 {
        QueueGrowsByForgetting(next, actions[1..]);
      }
    }
  }

  /**
    In any run at most one source is ever queued exactly if no request comes
    while a callback that was dispatched too early has reset the queued source's id.
   */
  lemma OneQueuedUnlessForgotten(actions: seq<Action>)
    requires Run(INITIAL, actions).Some?
    ensures NeverTwoQueued(INITIAL, actions) <==> NoneForgottenAtRequest(INITIAL, actions)
  {
    QueueGrowsByForgetting(INITIAL, actions);
  }

  /** Requests are not always merged: a callback dispatched too early forgets the id of the next source. */
  lemma TwoSourcesCanBeQueued()
    ensures
      var run := Run(INITIAL, [SetStatus(ONLINE), Dispatch, SetStatus(OFFLINE), RunCallback, SetStatus(UNREACHABLE)]);
      run.Some? && |run.value.pending| == 2
  {
    var d1 := Set(INITIAL, ONLINE);
    assert d1.pending == [Source(1, ONLINE)];
    var d2 := Apply(d1, Dispatch).value;
    assert d2.pending == [];
    var d3 := Set(d2, OFFLINE);
    assert d3.pending == [Source(2, OFFLINE)];
    var d4 := Callback(d3);
    var d5 := Set(d4, UNREACHABLE);
    assert d5.pending == [Source(2, OFFLINE), Source(3, UNREACHABLE)];
    var steps := [SetStatus(ONLINE), Dispatch, SetStatus(OFFLINE), RunCallback, SetStatus(UNREACHABLE)];
    assert Run(d4, steps[4..]) == Some(d5);
    assert Run(d3, steps[3..]) == Some(d5);
    assert Run(d2, steps[2..]) == Some(d5);
    assert Run(d1, steps[1..]) == Some(d5);
  }

  /** The remote object: each method runs under its status lock. */
  class RemoteStatus {
    var status: Status
    var statusIdleSourceId: int
    var pending: seq<Source>
    var running: Option<Source>
    var nextId: int
    ghost var requested: Status
    var emitted: seq<Status>

    ghost function D(): Delivery
      reads this
    {
      Delivery(status, statusIdleSourceId, pending, running, nextId, requested, emitted)
    }

    constructor ()
      ensures D() == INITIAL
    {
      status, statusIdleSourceId, pending, running, nextId := INIT_CONNECTING, 0, [], None, 1;
      requested, emitted := INIT_CONNECTING, [];
    }

    /** GLib.source_remove: does nothing to a source the loop has taken already. */
    method SourceRemove(id: int)
      modifies `pending
      ensures pending == Remove(old(pending), id)
    {
      var left := [];
      var i := 0;
      assert pending[0..] == pending;
      while i < |pending|
        invariant i <= |pending| && pending == old(pending)
        invariant left + Remove(pending[i..], id) == Remove(pending, id)
      {
        assert pending[i..][1..] == pending[i + 1..];
        if pending[i].id != id {
          left := left + [pending[i]];
        }
        i := i + 1;
      }
      pending := left;
    }

    method SetRemoteStatus(status: Status)
      modifies this
      ensures D() == Set(old(D()), status)
    {
      if statusIdleSourceId > 0 {
        SourceRemove(statusIdleSourceId);
      }
      pending := pending + [Source(nextId, status)];
      statusIdleSourceId := nextId;
      nextId := nextId + 1;
      requested := status;
    }

    method DispatchNext()
      requires running.None? && pending != []
      modifies this
      ensures Some(D()) == Apply(old(D()), Dispatch)
    {
      running, pending := Some(pending[0]), pending[1..];
    }

    method SetStatusCb()
      requires running.Some?
      modifies this
      ensures D() == Callback(old(D()))
    {
      var status := running.value.status;
      running := None;
      statusIdleSourceId := 0;
      if status == this.status {
        return;
      }
      this.status := status;
      emitted := emitted + [status];
    }
  }
}

/**
  NewThreadExecutor: one factory thread, any number of clients that submit
  operations or shut the executor down, and one worker per started operation.
  An action is what one thread does between two points where another may run;
  the condition's lock is held by the factory from `ReadQueue` to `Park`.
 */
module ThreadExecutor {
  import opened Options
  import Collections

  datatype Op = Op(func: string, args: int)

  datatype FactoryPc =
    | Top            // about to take the condition's lock
    | ReadQueue      // lock held, about to look at the queue
    | ReadFlag       // lock held, the queue was empty
    | Park           // lock held, and not shutting down: about to wait
    | Waiting        // waiting, lock given up
    | Woken          // notified, about to take the lock back
    | Test           // about to test for shutdown
    | Take           // about to take an operation without waiting
    | Spawn(op: Op)  // about to count the new thread
    | Start(op: Op)  // counted, about to start it
    | Drain          // shutting down, polling the count
    | Done

  datatype ClientPc =
    | Putting(op: Op)  // found no shutdown, about to put
    | Poking           // has put, owes a notify
    | ShutPoking       // has set the flag, owes a notify
    | Joining          // waits for the factory to end
    | Returned         // shutdown has returned

  /** `submitted` and `started` remember everything put and started so far; worker i runs started[i]. */
  datatype State = State(
    pc: FactoryPc,
    queue: seq<Op>,
    shutdown: bool,
    count: int,
    clients: map<int, ClientPc>,
    running: set<int>,
    returned: set<int>,
    poking: set<int>,
    submitted: seq<Op>,
    started: seq<Op>)

  datatype Action =
    | FactoryStep
    | CallSubmit(client: int, op: Op)
    | Put(client: int)
    | Poke(client: int)
    | CallShutdown(client: int)
    | PokeShutdown(client: int)
    | Join(client: int)
    | OpReturns(worker: int)
    | CountDown(worker: int)
    | WorkerPoke(worker: int)

  const INITIAL := State(Top, [], false, 0, map[], {}, {}, {}, [], [])

  predicate LockHeld(pc: FactoryPc) { pc.ReadQueue? || pc.ReadFlag? || pc.Park? }

  function Notified(pc: FactoryPc): FactoryPc { if pc.Waiting? then Woken else pc }

  function Factory(s: State): Option<State> {
    match s.pc
    case Top => Some(s.(pc := ReadQueue))
    case ReadQueue => Some(s.(pc := if s.queue == [] then ReadFlag else Test))
    case ReadFlag => Some(s.(pc := if s.shutdown then Test else Park))
    case Park => Some(s.(pc := Waiting))
    case Waiting => None
    case Woken => Some(s.(pc := Test))
    case Test => Some(s.(pc := if s.shutdown then Drain else Take))
    case Take => Some(if s.queue == [] then s.(pc := Top) else s.(pc := Spawn(s.queue[0]), queue := s.queue[1..]))
    case Spawn(op) => Some(s.(pc := Start(op), count := s.count + 1))
    case Start(op) => Some(s.(pc := Top, started := s.started + [op], running := s.running + {|s.started|}))
    case Drain => Some(if s.count == 0 then s.(pc := Done) else s)
    case Done => None
  }

  predicate ClientAt(s: State, c: int, pc: ClientPc) { c in s.clients && s.clients[c] == pc }

  /** What an action does; None if it cannot happen now. */
  function Apply(s: State, a: Action): Option<State> {
    match a
    case FactoryStep => Factory(s)
    case CallSubmit(c, op) =>
      if c in s.clients then None
      else if s.shutdown then Some(s)  // RuntimeError
      else Some(s.(clients := s.clients[c := Putting(op)]))
    case Put(c) =>
      if c in s.clients && s.clients[c].Putting? then
        var op := s.clients[c].op;
        Some(s.(queue := s.queue + [op], submitted := s.submitted + [op], clients := s.clients[c := Poking]))
      else None
    case Poke(c) =>
      if ClientAt(s, c, Poking) && !LockHeld(s.pc) then Some(s.(pc := Notified(s.pc), clients := s.clients - {c}))
      else None
    case CallShutdown(c) =>
      if c in s.clients then None else Some(s.(shutdown := true, clients := s.clients[c := ShutPoking]))
    case PokeShutdown(c) =>
      if ClientAt(s, c, ShutPoking) && !LockHeld(s.pc)
      then Some(s.(pc := Notified(s.pc), clients := s.clients[c := Joining])) else None
    case Join(c) =>
      if ClientAt(s, c, Joining) && s.pc.Done? then Some(s.(clients := s.clients[c := Returned])) else None
    case OpReturns(w) =>
      if w in s.running then Some(s.(running := s.running - {w}, returned := s.returned + {w})) else None
    case CountDown(w) =>
      if w in s.returned then Some(s.(returned := s.returned - {w}, poking := s.poking + {w}, count := s.count - 1))
      else None
    case WorkerPoke(w) =>
      if w in s.poking && !LockHeld(s.pc) then Some(s.(pc := Notified(s.pc), poking := s.poking - {w})) else None
  }

  /** A run: any actions of any threads, in any order in which they can happen. */
  function Run(s: State, actions: seq<Action>): Option<State>
    decreases |actions|
  {
    if actions == [] then Some(s)
    else
      match Apply(s, actions[0])
      case None => None
      case Some(s') => Run(s', actions[1..])
  }

  // ----- The invariant -----

  function Pending(pc: FactoryPc): seq<Op> {
    if pc.Spawn? || pc.Start? then [pc.op] else []
  }

  /** Everything put is started, in the factory's hands or still queued, in this order. */
  ghost predicate InOrder(s: State) {
    s.submitted == s.started + Pending(s.pc) + s.queue
  }

  ghost predicate Below(ws: set<int>, n: nat) { forall w | w in ws :: 0 <= w < n }

  ghost predicate Counted(s: State) {
    && Below(s.running, |s.started|) && Below(s.returned, |s.started|) && Below(s.poking, |s.started|)
    && s.running !! s.returned && s.running !! s.poking && s.returned !! s.poking
    && s.count == |s.running| + |s.returned| + (if s.pc.Start? then 1 else 0)
  }

  ghost predicate Owing(s: State, pc: ClientPc) { exists c :: ClientAt(s, c, pc) }

  /** From the look at the queue on, whoever puts still has to notify; likewise for the flag. */
  ghost predicate NotifyOwed(s: State) {
    && (s.queue != [] && (s.pc.ReadFlag? || s.pc.Park? || s.pc.Waiting?) ==> Owing(s, Poking))
    && (s.shutdown && (s.pc.Park? || s.pc.Waiting?) ==> Owing(s, ShutPoking))
  }

  ghost predicate Ending(s: State) {
    && (s.pc.Drain? || s.pc.Done? ==> s.shutdown)
    && (s.pc.Done? ==> s.running == {} && s.returned == {})
    && (forall c | c in s.clients && s.clients[c].Returned? :: s.pc.Done?)
  }

  ghost predicate Invariant(s: State) {
    InOrder(s) && Counted(s) && NotifyOwed(s) && Ending(s)
  }

  lemma StepKeepsOrder(s: State, a: Action)
    requires InOrder(s) && Apply(s, a).Some?
    ensures InOrder(Apply(s, a).value)
  {
    var s' := Apply(s, a).value;
    if a.Put? {
      var op := s.clients[a.client].op;
      assert s.started + Pending(s.pc) + (s.queue + [op]) == (s.started + Pending(s.pc) + s.queue) + [op];
    } else if a.FactoryStep? && s.pc.Take? && s.queue != [] {
      assert s.started + [s.queue[0]] + s.queue[1..] == s.started + [] + s.queue;
    } else if a.FactoryStep? && s.pc.Start? {
      assert (s.started + [s.pc.op]) + [] + s.queue == s.started + [s.pc.op] + s.queue;
    }
  }

  lemma MoveWorker(from: set<int>, to: set<int>, w: int, n: nat)
    requires w in from && from !! to && Below(from, n) && Below(to, n)
    ensures |from - {w}| == |from| - 1 && |to + {w}| == |to| + 1
    ensures from - {w} !! to + {w} && Below(from - {w}, n) && Below(to + {w}, n)
  {
    assert from == (from - {w}) + {w};
  }

  lemma WorkerStarts(s: State)
    requires Counted(s) && s.pc.Start?
    ensures Counted(Factory(s).value)
  {
    var n := |s.started|;
    assert n !in s.running && n !in s.returned && n !in s.poking;
    assert |s.running + {n}| == |s.running| + 1;
    assert Below(s.running + {n}, n + 1);
  }

  lemma WorkerMoves(s: State, a: Action)
    requires Counted(s) && Apply(s, a).Some? && (a.OpReturns? || a.CountDown? || a.WorkerPoke?)
    ensures Counted(Apply(s, a).value)
  {
    var n := |s.started|;
    match a
    case OpReturns(w) =>
      MoveWorker(s.running, s.returned, w, n);
    case CountDown(w) =>
      MoveWorker(s.returned, s.poking, w, n);
    case WorkerPoke(w) =>
      assert Below(s.poking - {w}, n);
  }

  lemma StepKeepsCount(s: State, a: Action)
    requires Counted(s) && Apply(s, a).Some?
    ensures Counted(Apply(s, a).value)
  {
    if a.OpReturns? || a.CountDown? || a.WorkerPoke? {
      WorkerMoves(s, a);
    } else if a.FactoryStep? && s.pc.Start? {
      WorkerStarts(s);
    }
  }

  /** The owed notify is kept, and a waiting factory is woken by a notify and by nothing else. */
  lemma StepKeepsNotify(s: State, a: Action)
    requires NotifyOwed(s) && Apply(s, a).Some?
    ensures NotifyOwed(Apply(s, a).value)
    ensures s.pc.Waiting? ==> (Apply(s, a).value.pc.Woken? <==> a.Poke? || a.PokeShutdown? || a.WorkerPoke?)
    ensures LockHeld(s.pc) ==> !a.Poke? && !a.PokeShutdown? && !a.WorkerPoke?
  {
    var s' := Apply(s, a).value;
    if s'.queue != [] && (s'.pc.ReadFlag? || s'.pc.Park? || s'.pc.Waiting?) {
      if a.Put? {
        assert ClientAt(s', a.client, Poking);
      } else {
        var c :| ClientAt(s, c, Poking);
        assert ClientAt(s', c, Poking);
      }
    }
    if s'.shutdown && (s'.pc.Park? || s'.pc.Waiting?) {
      if a.CallShutdown? {
        assert ClientAt(s', a.client, ShutPoking);
      } else {
        var c :| ClientAt(s, c, ShutPoking);
        assert ClientAt(s', c, ShutPoking);
      }
    }
  }

  lemma FactoryKeepsEnding(s: State)
    requires Ending(s) && Counted(s) && Factory(s).Some?
    ensures Ending(Factory(s).value)
  {
  }

  lemma StepKeepsEnding(s: State, a: Action)
    requires Ending(s) && Counted(s) && Apply(s, a).Some?
    ensures Ending(Apply(s, a).value)
  {
    if a.FactoryStep? {
      FactoryKeepsEnding(s);
    }
  }

  lemma StepKeepsInvariant(s: State, a: Action)
    requires Invariant(s) && Apply(s, a).Some?
    ensures Invariant(Apply(s, a).value)
  {
    StepKeepsOrder(s, a);
    StepKeepsCount(s, a);
    StepKeepsNotify(s, a);
    StepKeepsEnding(s, a);
  }

  lemma {:induction false} RunKeepsInvariant(s: State, actions: seq<Action>)
    requires Invariant(s) && Run(s, actions).Some?
    ensures Invariant(Run(s, actions).value)
    decreases |actions|
  {
    if actions != [] {
      StepKeepsInvariant(s, actions[0]);
      RunKeepsInvariant(Apply(s, actions[0]).value, actions[1..]);
    }
  }

  /** Every state of every run. */
  lemma AlwaysInvariant(actions: seq<Action>)
    requires Run(INITIAL, actions).Some?
    ensures Invariant(Run(INITIAL, actions).value)
  {
    RunKeepsInvariant(INITIAL, actions);
  }

  // ----- What the executor promises -----

  /**
    No lost wakeup: if the factory waits although there is an operation or a
    shutdown to see to, some client is about to notify, nothing can hold it
    back, and its notify wakes the factory.
   */
  lemma NoLostWakeup(actions: seq<Action>)
    requires Run(INITIAL, actions).Some?
    ensures
      var s := Run(INITIAL, actions).value;
      s.pc.Waiting? && (s.queue != [] || s.shutdown) ==>
        exists c: int, a: Action :: (a == Poke(c) || a == PokeShutdown(c))
           && Apply(s, a).Some? && Apply(s, a).value.pc.Woken?
  {
    AlwaysInvariant(actions);
    var s := Run(INITIAL, actions).value;
    if s.pc.Waiting? && s.queue != [] {
      var c :| ClientAt(s, c, Poking);
      assert Apply(s, Poke(c)).Some? && Apply(s, Poke(c)).value.pc.Woken?;
    } else if s.pc.Waiting? && s.shutdown {
      var c :| ClientAt(s, c, ShutPoking);
      assert Apply(s, PokeShutdown(c)).Some? && Apply(s, PokeShutdown(c)).value.pc.Woken?;
    }
  }

  /** Operations are started at most once each, in the order in which they were put. */
  lemma StartedInOrder(actions: seq<Action>)
    requires Run(INITIAL, actions).Some?
    ensures
      var s := Run(INITIAL, actions).value;
      s.started <= s.submitted && |s.submitted| - |s.started| <= |s.queue| + 1
  {
    AlwaysInvariant(actions);
    var s := Run(INITIAL, actions).value;
    assert s.submitted == s.started + (Pending(s.pc) + s.queue);
  }

  /** The count is that of the workers which have not counted down, one more while a thread is being started. */
  lemma CountIsLiveWorkers(actions: seq<Action>)
    requires Run(INITIAL, actions).Some?
    ensures
      var s := Run(INITIAL, actions).value;
      s.count == |s.running + s.returned| + (if s.pc.Start? then 1 else 0)
  {
    AlwaysInvariant(actions);
    var s := Run(INITIAL, actions).value;
    assert |s.running + s.returned| == |s.running| + |s.returned| by {
      assert s.running * s.returned == {};
    }
  }

  lemma {:induction false} DoneStartsNothing(s: State, actions: seq<Action>)
    requires s.pc.Done? && Run(s, actions).Some?
    ensures var t := Run(s, actions).value; t.pc.Done? && t.started == s.started && s.queue <= t.queue
    decreases |actions|
  {
    if actions != [] {
      DoneStartsNothing(Apply(s, actions[0]).value, actions[1..]);
    }
  }

  /**
    Once shutdown has returned to any client, every operation ever started has
    returned, and however the run goes on none is started any more.
   */
  lemma ShutdownIsComplete(actions: seq<Action>, c: int, later: seq<Action>)
    requires Run(INITIAL, actions).Some? && ClientAt(Run(INITIAL, actions).value, c, Returned)
    requires Run(Run(INITIAL, actions).value, later).Some?
    ensures
      var s := Run(INITIAL, actions).value;
      var t := Run(s, later).value;
      s.shutdown && s.running == {} && t.running == {} && t.started == s.started
  {
    AlwaysInvariant(actions);
    var s := Run(INITIAL, actions).value;
    DoneStartsNothing(s, later);
    RunKeepsInvariant(s, later);
  }

  /**
    What is left behind: once the factory has ended, the operations put beyond
    the started ones are exactly those still queued, in this order, and however
    the run goes on none of them is started or taken from the queue; what is put
    later joins them.
   */
  lemma QueuedIsLeftBehind(actions: seq<Action>, later: seq<Action>)
    requires Run(INITIAL, actions).Some? && Run(INITIAL, actions).value.pc.Done?
    requires Run(Run(INITIAL, actions).value, later).Some?
    ensures
      var s := Run(INITIAL, actions).value;
      var t := Run(s, later).value;
      && s.submitted == s.started + s.queue && t.submitted == t.started + t.queue
      && t.started == s.started && s.queue <= t.queue
  {
    AlwaysInvariant(actions);
    var s := Run(INITIAL, actions).value;
    DoneStartsNothing(s, later);
    RunKeepsInvariant(s, later);
    var t := Run(s, later).value;
    assert s.started + [] == s.started && t.started + [] == t.started;
  }

  /** A shutdown with an operation in the queue. */
  function ShutBeforeLook(op: Op): seq<Action> {
    [CallSubmit(0, op), Put(0), CallShutdown(1),
     FactoryStep, FactoryStep, FactoryStep, FactoryStep]
  }

  /** The factory, starting its round with the flag set, ends without a look at what the queue holds. */
  lemma EndsAtOnce(s: State, steps: seq<Action>)
    requires s.pc.Top? && s.queue != [] && s.shutdown && s.count == 0
    requires |steps| == 7 && forall i | 3 <= i < 7 :: steps[i] == FactoryStep
    ensures Run(s, steps[3..]) == Some(s.(pc := Done))
  {
    var done := s.(pc := Done);
    assert Run(done, steps[7..]) == Some(done);
    RunOne(s.(pc := Drain), steps, 6);
    RunOne(s.(pc := Test), steps, 5);
    RunOne(s.(pc := ReadQueue), steps, 4);
    RunOne(s, steps, 3);
  }

  /** It happens: an operation accepted before the shutdown is never started. */
  lemma LeftBehind(op: Op)
    ensures Run(INITIAL, ShutBeforeLook(op)).Some?
    ensures
      var s := Run(INITIAL, ShutBeforeLook(op)).value;
      s.pc.Done? && s.started == [] && s.queue == [op]
  {
    var steps := ShutBeforeLook(op);
    var s1 := Apply(INITIAL, steps[0]).value;
    var s2 := Apply(s1, steps[1]).value;
    var s3 := Apply(s2, steps[2]).value;
    EndsAtOnce(s3, steps);
    RunOne(s2, steps, 2);
    RunOne(s1, steps, 1);
    RunOne(INITIAL, steps, 0);
    assert steps[0..] == steps;
  }

  lemma RunOne(s: State, actions: seq<Action>, k: nat)
    requires k < |actions| && Apply(s, actions[k]).Some?
    ensures Run(s, actions[k..]) == Run(Apply(s, actions[k]).value, actions[k + 1..])
  {
    assert actions[k..][0] == actions[k] && actions[k..][1..] == actions[k + 1..];
  }

  /** What the threads do of themselves: neither a new call nor another look at a count that is not yet zero. */
  predicate Progress(s: State, a: Action) {
    && Apply(s, a).Some?
    && !a.CallSubmit? && !a.CallShutdown?
    && (a.FactoryStep? ==> Apply(s, a).value != s)
  }

  /** How far a shutdown is from its end: the factory's way there, and the workers which have not counted down. */
  function Left(s: State): nat { 2 * |s.running| + |s.returned| + ToEnd(s.pc) }

  function ToEnd(pc: FactoryPc): nat {
    match pc
    case Done => 0
    case Drain => 1
    case Test => 2
    case Woken => 3
    case Waiting => 4
    case ReadFlag => 4
    case Park => 5
    case ReadQueue => 5
    case Top => 6
    case Start(_) => 9
    case Spawn(_) => 10
    case Take => 11
  }

  lemma OpComesBack(s: State, w: int)
    requires Counted(s) && w in s.running
    ensures Apply(s, OpReturns(w)).Some? && Left(Apply(s, OpReturns(w)).value) == Left(s) - 1
  {
    MoveWorker(s.running, s.returned, w, |s.started|);
  }

  lemma WorkerCountsDown(s: State, w: int)
    requires Counted(s) && w in s.returned
    ensures Apply(s, CountDown(w)).Some? && Left(Apply(s, CountDown(w)).value) == Left(s) - 1
  {
    MoveWorker(s.returned, s.poking, w, |s.started|);
  }

  lemma AWorkerGoesOn(s: State) returns (a: Action)
    requires Counted(s) && s.shutdown && s.pc.Drain? && s.count > 0
    ensures Progress(s, a) && Apply(s, a).value.shutdown && Left(Apply(s, a).value) < Left(s)
  {
    if |s.running| > 0 {
      var w := Collections.SomeMember(s.running);
      a := OpReturns(w);
      OpComesBack(s, w);
    } else {
      var w := Collections.SomeMember(s.returned);
      a := CountDown(w);
      WorkerCountsDown(s, w);
    }
  }

  lemma FactoryGoesOn(s: State)
    requires Counted(s) && s.shutdown && !s.pc.Done? && !s.pc.Waiting? && (s.pc.Drain? ==> s.count == 0)
    ensures Progress(s, FactoryStep)
    ensures Apply(s, FactoryStep).value.shutdown && Left(Apply(s, FactoryStep).value) < Left(s)
  {
    if s.pc.Start? {
      assert |s.running + {|s.started|}| <= |s.running| + 1;
    } else {
      var t := Factory(s).value;
      assert t.running == s.running && t.returned == s.returned && ToEnd(t.pc) < ToEnd(s.pc);
    }
  }

  /** A shutdown cannot get stuck: until the factory has ended, some thread can go on towards that end. */
  lemma ShutdownNeverStuck(s: State) returns (a: Action)
    requires Invariant(s) && s.shutdown && !s.pc.Done?
    ensures Progress(s, a) && Apply(s, a).value.shutdown && Left(Apply(s, a).value) < Left(s)
  {
    if s.pc.Waiting? {
      var c :| ClientAt(s, c, ShutPoking);
      a := PokeShutdown(c);
    } else if s.pc.Drain? && s.count > 0 {
      a := AWorkerGoesOn(s);
    } else {
      a := FactoryStep;
      FactoryGoesOn(s);
    }
  }

  /** A run in which the threads only go on by themselves. */
  ghost predicate GoesOn(s: State, actions: seq<Action>)
    decreases |actions|
  {
    actions == [] || (Progress(s, actions[0]) && GoesOn(Apply(s, actions[0]).value, actions[1..]))
  }

  ghost predicate EndsBy(s: State, later: seq<Action>) {
    GoesOn(s, later) && Run(s, later).Some? && Run(s, later).value.pc.Done?
  }

  lemma {:induction false} GoesOnToEnd(s: State) returns (later: seq<Action>)
    requires Invariant(s) && s.shutdown
    ensures EndsBy(s, later) && |later| <= Left(s)
    decreases Left(s)
  {
    if s.pc.Done? {
      later := [];
    } else {
      var a := ShutdownNeverStuck(s);
      var s' := Apply(s, a).value;
      StepKeepsInvariant(s, a);
      var rest := GoesOnToEnd(s');
      later := [a] + rest;
      assert later[0] == a && later[1..] == rest;
    }
  }

  /** From every state in which a shutdown was called, the threads can bring the factory to its end by themselves. */
  lemma ShutdownEnds(actions: seq<Action>)
    requires Run(INITIAL, actions).Some? && Run(INITIAL, actions).value.shutdown
    ensures exists later :: EndsBy(Run(INITIAL, actions).value, later)
  {
    AlwaysInvariant(actions);
    var later := GoesOnToEnd(Run(INITIAL, actions).value);
  }

  predicate ShutsDown(s: State, c: int) {
    c in s.clients && (s.clients[c].ShutPoking? || s.clients[c].Joining? || s.clients[c].Returned?)
  }

  lemma {:induction false} StaysInShutdown(s: State, later: seq<Action>, c: int)
    requires ShutsDown(s, c) && Run(s, later).Some?
    ensures ShutsDown(Run(s, later).value, c)
    decreases |later|
  {
    if later != [] {
      StaysInShutdown(Apply(s, later[0]).value, later[1..], c);
    }
  }

  lemma {:induction false} GoesOnThen(s: State, first: seq<Action>, a: Action)
    requires GoesOn(s, first) && Run(s, first).Some? && Progress(Run(s, first).value, a)
    ensures GoesOn(s, first + [a]) && Run(s, first + [a]) == Apply(Run(s, first).value, a)
    decreases |first|
  {
    var all := first + [a];
    if first == [] {
      assert all == [a] && [a][1..] == [];
    } else {
      assert all[0] == first[0] && all[1..] == first[1..] + [a];
      GoesOnThen(Apply(s, first[0]).value, first[1..], a);
    }
  }

  ghost predicate ReturnsBy(s: State, c: int, later: seq<Action>) {
    GoesOn(s, later) && Run(s, later).Some? && ClientAt(Run(s, later).value, c, Returned)
  }

  lemma {:induction false} CallSetsFlag(s: State, later: seq<Action>, c: int)
    requires Run(s, later).Some? && (ShutsDown(s, c) ==> s.shutdown)
    ensures ShutsDown(Run(s, later).value, c) ==> Run(s, later).value.shutdown
    decreases |later|
  {
    if later != [] {
      CallSetsFlag(Apply(s, later[0]).value, later[1..], c);
    }
  }

  /** From every state in which a client has called for a shutdown, the threads can go on until its call returns. */
  lemma ShutdownReturns(actions: seq<Action>, c: int) returns (later: seq<Action>)
    requires Run(INITIAL, actions).Some? && ShutsDown(Run(INITIAL, actions).value, c)
    ensures ReturnsBy(Run(INITIAL, actions).value, c, later)
  {
    var s := Run(INITIAL, actions).value;
    AlwaysInvariant(actions);
    CallSetsFlag(INITIAL, actions, c);
    later := GoesOnToEnd(s);
    StaysInShutdown(s, later, c);
    if ClientAt(Run(s, later).value, c, ShutPoking) {
      GoesOnThen(s, later, PokeShutdown(c));
      later := later + [PokeShutdown(c)];
    }
    if ClientAt(Run(s, later).value, c, Joining) {
      GoesOnThen(s, later, Join(c));
      later := later + [Join(c)];
    }
  }

  // ----- No operation is refused or put off for ever -----

  function Putters(s: State): set<int> { set c | c in s.clients && s.clients[c].Putting? }

  lemma PuttersAfter(s: State, a: Action)
    requires s.shutdown && Apply(s, a).Some?
    ensures Apply(s, a).value.shutdown
    ensures Putters(Apply(s, a).value) == if a.Put? then Putters(s) - {a.client} else Putters(s)
  {
  }

  /** After a shutdown was called only the calls that had got past the test before are still put. */
  lemma {:induction false} RefusedAfterShutdown(s: State, later: seq<Action>)
    requires s.shutdown && Run(s, later).Some?
    ensures
      var t := Run(s, later).value;
      t.shutdown && |t.submitted| + |Putters(t)| == |s.submitted| + |Putters(s)|
    decreases |later|
  {
    if later != [] {
      PuttersAfter(s, later[0]);
      RefusedAfterShutdown(Apply(s, later[0]).value, later[1..]);
    }
  }

  ghost predicate Behind(s: State) { |s.started| < |s.submitted| }

  /** How many steps of the factory there are until the next operation is started. */
  function Rank(s: State): nat {
    match s.pc
    case Start(_) => 1
    case Spawn(_) => 2
    case Take => 3
    case Test => 4
    case ReadQueue => 5
    case Woken => 5
    case Waiting => 5
    case Top => 6
    case Park => 6
    case ReadFlag => 7
    case _ => 0
  }

  predicate OwnStep(a: Action) { a.FactoryStep? || a.Poke? }

  ghost predicate NoNewCalls(actions: seq<Action>) { forall i | 0 <= i < |actions| :: OwnStep(actions[i]) }

  /** One more operation has been started, the next one in the order of putting. */
  ghost predicate StartsNext(s: State, later: seq<Action>) {
    && Run(s, later).Some?
    && Behind(s)
    && Run(s, later).value.started == s.started + [s.submitted[|s.started|]]
  }

  lemma NextIs(s: State)
    requires InOrder(s) && Behind(s)
    ensures s.submitted[|s.started|] == (if s.pc.Spawn? || s.pc.Start? then s.pc.op else s.queue[0])
    ensures !s.pc.Spawn? && !s.pc.Start? ==> s.queue != []
  {
    assert s.submitted == s.started + (Pending(s.pc) + s.queue);
  }

  /** What any step but a shutdown does to the way to the next start. */
  lemma StepTowardsStart(s: State, a: Action)
    requires InOrder(s) && Ending(s) && !s.shutdown && Behind(s) && Apply(s, a).Some? && !a.CallShutdown?
    ensures
      var t := Apply(s, a).value;
      && !t.shutdown && s.submitted <= t.submitted
      && if a.FactoryStep? && Rank(s) == 1 then t.started == s.started + [s.submitted[|s.started|]]
         else t.started == s.started && Behind(t) && Rank(t) == Rank(s) - (if a.FactoryStep? then 1 else 0)
  {
    NextIs(s);
    assert !s.pc.Drain? && !s.pc.Done?;
  }

  lemma {:induction false} GoesOnToStart(s: State) returns (later: seq<Action>)
    requires Invariant(s) && !s.shutdown && Behind(s)
    ensures NoNewCalls(later) && StartsNext(s, later)
    decreases Rank(s), s.pc.Waiting?
  {
    var a := FactoryStep;
    if s.pc.Waiting? {
      NextIs(s);
      var c :| ClientAt(s, c, Poking);
      a := Poke(c);
    }
    assert Apply(s, a).Some?;
    StepTowardsStart(s, a);
    StepKeepsInvariant(s, a);
    var s' := Apply(s, a).value;
    if Rank(s) == 1 {
      later := [a];
      assert later[1..] == [];
    } else {
      var rest := GoesOnToStart(s');
      later := [a] + rest;
      assert later[1..] == rest;
    }
  }

  /**
    Progress. In every state of every run in which no shutdown was called and
    something put is not started yet, the factory and the clients that owe a
    notify can go on by themselves to start exactly the next operation.
   */
  lemma NextIsStarted(actions: seq<Action>)
    requires Run(INITIAL, actions).Some?
    requires !Run(INITIAL, actions).value.shutdown && Behind(Run(INITIAL, actions).value)
    ensures exists later :: NoNewCalls(later) && StartsNext(Run(INITIAL, actions).value, later)
  {
    AlwaysInvariant(actions);
    var later := GoesOnToStart(Run(INITIAL, actions).value);
  }

  function FactorySteps(actions: seq<Action>): nat {
    if actions == [] then 0 else (if actions[0].FactoryStep? then 1 else 0) + FactorySteps(actions[1..])
  }

  ghost predicate NoShutdown(actions: seq<Action>) {
    forall i | 0 <= i < |actions| :: !actions[i].CallShutdown?
  }

  lemma StepGrows(s: State, a: Action)
    requires Apply(s, a).Some?
    ensures s.started <= Apply(s, a).value.started && s.submitted <= Apply(s, a).value.submitted
  {
  }

  lemma {:induction false} PrefixesGrow(s: State, later: seq<Action>)
    requires Run(s, later).Some?
    ensures s.started <= Run(s, later).value.started && s.submitted <= Run(s, later).value.submitted
    decreases |later|
  {
    if later != [] {
      StepGrows(s, later[0]);
      PrefixesGrow(Apply(s, later[0]).value, later[1..]);
    }
  }

  lemma {:induction false} StartsWithin(s: State, later: seq<Action>)
    requires Invariant(s) && !s.shutdown && Behind(s)
    requires Run(s, later).Some? && NoShutdown(later) && Rank(s) <= FactorySteps(later)
    ensures s.started + [s.submitted[|s.started|]] <= Run(s, later).value.started
    decreases |later|
  {
    assert s.pc.Drain? || s.pc.Done? || Rank(s) > 0;
    var a, s' := later[0], Apply(s, later[0]).value;
    StepTowardsStart(s, a);
    StepKeepsInvariant(s, a);
    if a.FactoryStep? && Rank(s) == 1 {
      PrefixesGrow(s', later[1..]);
    } else {
      assert s'.submitted[|s.started|] == s.submitted[|s.started|];
      StartsWithin(s', later[1..]);
    }
  }

  /**
    The bound: whatever else happens, unless a shutdown is called, seven steps of
    the factory thread later the next operation has been started.
   */
  lemma StartedWithinSevenSteps(actions: seq<Action>, later: seq<Action>)
    requires Run(INITIAL, actions).Some?
    requires !Run(INITIAL, actions).value.shutdown && Behind(Run(INITIAL, actions).value)
    requires Run(Run(INITIAL, actions).value, later).Some? && NoShutdown(later) && FactorySteps(later) >= 7
    ensures
      var s := Run(INITIAL, actions).value;
      s.started + [s.submitted[|s.started|]] <= Run(s, later).value.started
  {
    AlwaysInvariant(actions);
    StartsWithin(Run(INITIAL, actions).value, later);
  }

  lemma {:induction false} RunSplit(s: State, a: seq<Action>, b: seq<Action>)
    ensures Run(s, a + b) == match Run(s, a) { case None => None case Some(t) => Run(t, b) }
    decreases |a|
  {
    if a == [] {
      assert a + b == b;
    } else {
      assert (a + b)[0] == a[0] && (a + b)[1..] == a[1..] + b;
      var next := Apply(s, a[0]);
      if next.Some? { RunSplit(next.value, a[1..], b); }
    }
  }

  lemma {:induction false} OwnStepsKeep(s: State, later: seq<Action>)
    requires NoNewCalls(later) && Run(s, later).Some?
    ensures Run(s, later).value.submitted == s.submitted && Run(s, later).value.shutdown == s.shutdown
    decreases |later|
  {
    if later != [] {
      assert OwnStep(later[0]);
      OwnStepsKeep(Apply(s, later[0]).value, later[1..]);
    }
  }

  ghost predicate CatchesUp(s: State, later: seq<Action>) {
    && NoNewCalls(later) && Run(s, later).Some?
    && Run(s, later).value.started == Run(s, later).value.submitted == s.submitted
  }

  lemma {:induction false} GoesOnToAll(s: State) returns (later: seq<Action>)
    requires Invariant(s) && !s.shutdown
    ensures CatchesUp(s, later)
    decreases |s.submitted| - |s.started|
  {
    assert s.submitted == s.started + (Pending(s.pc) + s.queue);
    if Behind(s) {
      var first := GoesOnToStart(s);
      var t := Run(s, first).value;
      RunKeepsInvariant(s, first);
      OwnStepsKeep(s, first);
      var rest := GoesOnToAll(t);
      RunSplit(s, first, rest);
      later := first + rest;
    } else {
      later := [];
    }
  }

  /**
    No operation is lost. A client that is free and submits before any shutdown is
    taken, and the factory and the clients that owe a notify can go on by
    themselves until everything submitted up to it, and it last, has been started.
   */
  lemma SubmittedIsStarted(actions: seq<Action>, c: int, op: Op)
    requires Run(INITIAL, actions).Some? && !Run(INITIAL, actions).value.shutdown
    requires c !in Run(INITIAL, actions).value.clients
    ensures
      var s := Run(INITIAL, actions).value;
      var put := Run(s, [CallSubmit(c, op), Put(c)]);
      && put.Some? && put.value.submitted == s.submitted + [op]
      && exists later :: CatchesUp(put.value, later)
  {
    AlwaysInvariant(actions);
    var s := Run(INITIAL, actions).value;
    var calls := [CallSubmit(c, op), Put(c)];
    var s1 := Apply(s, calls[0]).value;
    var s2 := Apply(s1, calls[1]).value;
    assert calls[0..] == calls && Run(s2, calls[2..]) == Some(s2);
    RunOne(s1, calls, 1);
    RunOne(s, calls, 0);
    RunKeepsInvariant(s, calls);
    var later := GoesOnToAll(s2);
  }

  // ----- Every worker notifies -----

  function WorkerPokes(actions: seq<Action>): nat {
    if actions == [] then 0 else (if actions[0].WorkerPoke? then 1 else 0) + WorkerPokes(actions[1..])
  }

  function Alive(s: State): nat { |s.running| + |s.returned| + |s.poking| }

  lemma OneStarts(s: State)
    requires Counted(s)
    ensures Factory(s).Some? ==> |Factory(s).value.started| - Alive(Factory(s).value) == |s.started| - Alive(s)
  {
    if s.pc.Start? {
      assert |s.running + {|s.started|}| == |s.running| + 1;
    } else if Factory(s).Some? {
      var t := Factory(s).value;
      assert t.started == s.started && t.running == s.running && t.returned == s.returned && t.poking == s.poking;
    }
  }

  lemma OneMoves(s: State, w: int)
    requires Counted(s)
    ensures w in s.running ==> Alive(Apply(s, OpReturns(w)).value) == Alive(s)
    ensures w in s.returned ==> Alive(Apply(s, CountDown(w)).value) == Alive(s)
  {
    if w in s.running { MoveWorker(s.running, s.returned, w, |s.started|); }
    if w in s.returned { MoveWorker(s.returned, s.poking, w, |s.started|); }
  }

  lemma OneGoes(s: State, w: int)
    requires w in s.poking && Apply(s, WorkerPoke(w)).Some?
    ensures Alive(Apply(s, WorkerPoke(w)).value) == Alive(s) - 1
  {
    assert s.poking == (s.poking - {w}) + {w};
  }

  lemma WorkerLeavesPoking(s: State, a: Action)
    requires Counted(s) && Apply(s, a).Some?
    ensures
      var t := Apply(s, a).value;
      |t.started| - Alive(t) == |s.started| - Alive(s) + (if a.WorkerPoke? then 1 else 0)
  {
    if a.FactoryStep? {
      OneStarts(s);
    } else if a.OpReturns? || a.CountDown? {
      OneMoves(s, a.worker);
    } else if a.WorkerPoke? {
      OneGoes(s, a.worker);
    } else {
      var t := Apply(s, a).value;
      assert t.started == s.started && t.running == s.running && t.returned == s.returned && t.poking == s.poking;
    }
  }

  lemma {:induction false} RunNotifies(s: State, actions: seq<Action>)
    requires Invariant(s) && Run(s, actions).Some?
    ensures
      var t := Run(s, actions).value;
      |t.started| - Alive(t) == |s.started| - Alive(s) + WorkerPokes(actions)
    decreases |actions|
  {
    if actions != [] {
      WorkerLeavesPoking(s, actions[0]);
      StepKeepsInvariant(s, actions[0]);
      RunNotifies(Apply(s, actions[0]).value, actions[1..]);
    }
  }

  /** In every run each worker that is gone has notified the factory once. */
  lemma EveryWorkerNotifies(actions: seq<Action>)
    requires Run(INITIAL, actions).Some?
    ensures
      var s := Run(INITIAL, actions).value;
      |s.started| == Alive(s) + WorkerPokes(actions)
  {
    RunNotifies(INITIAL, actions);
  }
}

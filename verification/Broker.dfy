/**
 * The broker with all its threads: every node has one, the server another.  Reads, writes and lock
 * operations are steps of a transition system, and the threads take them in any order.
 */
module Broker {
  import opened Text

  /** A message in transit, with a serial number of its own; module Contents tells what it says. */
  datatype Mail = Mail(serial: nat, fromGateway: bool, to: nat)

  datatype Thread = Node(i: nat) | Server

  /** Where a thread stands. */
  datatype Pc =
    | LoggingIn
    | Receiving
    | AtRoute(m: Mail)            // waits for the route mutex
    | Walking(m: Mail, at: nat)   // goes through the node list
    | AtQueue(m: Mail, k: nat)    // found; waits for the queue mutex of node k
    | Writing(m: Mail, k: nat)    // has queued the message and writes it
    | Leaving(k: nat)             // lets go of the queue mutex of node k
    | Routed                      // lets go of the route mutex
    | Checking                    // looks at the size of its queue, without a lock
    | AtOwnQueue                  // waits for its own queue mutex
    | Popping
    | LeavingOwn
    | Serving                     // the server's loop
    | Stopped

  /** What became of a message. */
  datatype Outcome = KeptBySender | KeptByBroker | Enqueued(k: nat) | Offered | Dropped | Unclaimed

  /** `enqueued` and `written` record all that EnqueueMsg has done with the node. */
  datatype NodeState = NodeState(
    id: nat,
    pc: Pc,
    holder: Option<Thread>,
    queue: seq<Mail>,
    enqueued: seq<Mail>,
    written: seq<Mail>
  )

  datatype State = State(
    nodes: seq<NodeState>,
    server: Pc,
    route: Option<Thread>,
    brokerId: nat,
    hasGateway: bool,
    offered: seq<Mail>,
    outcomes: map<nat, Outcome>,
    received: nat
  )

  function Initial(brokerId: nat, hasGateway: bool): State {
    State([], Serving, None, brokerId, hasGateway, [], map[], 0)
  }

  function Ids(s: State): (ids: seq<nat>)
    ensures |ids| == |s.nodes| && forall i :: 0 <= i < |ids| ==> ids[i] == s.nodes[i].id
  {
    seq(|s.nodes|, i requires 0 <= i < |s.nodes| => s.nodes[i].id)
  }

  // ----- steps -----

  datatype Step =
    | Accept                        // the server appends a node
    | Login(i: nat, id: nat)        // a message is accepted as login; the id is 0 if it is not a login message
    | HangUp(i: nat)
    | ReadPart(i: nat)              // a read that does not complete a frame
    | ReadFrame(i: nat, to: nat)    // a read that completes a frame
    | ReadGateway(to: nat)          // the server gets a message from the gateway
    | LockRoute(i: nat)
    | Walk(t: Thread)
    | LockQueue(t: Thread)
    | Write(t: Thread)
    | UnlockQueue(t: Thread)
    | UnlockRoute(i: nat)
    | Check(i: nat)
    | LockOwn(i: nat)
    | Pop(i: nat)
    | UnlockOwn(i: nat)

  predicate Exists(s: State, t: Thread) {
    t.Node? ==> t.i < |s.nodes|
  }

  function PcOf(s: State, t: Thread): Pc
    requires Exists(s, t)
  {
    match t
    case Node(i) => s.nodes[i].pc
    case Server => s.server
  }

  predicate At(s: State, i: nat, pc: Pc) {
    i < |s.nodes| && s.nodes[i].pc == pc
  }

  /** Whether a step can be taken; only the lock operations wait for anything. */
  predicate Enabled(s: State, e: Step) {
    match e
    case Accept => s.server.Serving?
    case Login(i, _) => At(s, i, LoggingIn)
    case HangUp(i) => At(s, i, LoggingIn) || At(s, i, Receiving)
    case ReadPart(i) => At(s, i, Receiving)
    case ReadFrame(i, _) => At(s, i, Receiving)
    case ReadGateway(_) => s.server.Serving? && s.hasGateway
    case LockRoute(i) => i < |s.nodes| && s.nodes[i].pc.AtRoute? && s.route == None
    case Walk(t) => Exists(s, t) && PcOf(s, t).Walking?
    case LockQueue(t) =>
      Exists(s, t) && PcOf(s, t).AtQueue? && PcOf(s, t).k < |s.nodes| && s.nodes[PcOf(s, t).k].holder == None
    case Write(t) => Exists(s, t) && PcOf(s, t).Writing? && PcOf(s, t).k < |s.nodes|
    case UnlockQueue(t) => Exists(s, t) && PcOf(s, t).Leaving? && PcOf(s, t).k < |s.nodes|
    case UnlockRoute(i) => At(s, i, Routed)
    case Check(i) => At(s, i, Checking)
    case LockOwn(i) => At(s, i, AtOwnQueue) && s.nodes[i].holder == None
    case Pop(i) => At(s, i, Popping) && s.nodes[i].queue != []
    case UnlockOwn(i) => At(s, i, LeavingOwn)
  }

  /** The thread that takes a step. */
  function Actor(e: Step): Thread {
    match e
    case Accept => Server
    case Login(i, _) => Node(i)
    case HangUp(i) => Node(i)
    case ReadPart(i) => Node(i)
    case ReadFrame(i, _) => Node(i)
    case ReadGateway(_) => Server
    case LockRoute(i) => Node(i)
    case Walk(t) => t
    case LockQueue(t) => t
    case Write(t) => t
    case UnlockQueue(t) => t
    case UnlockRoute(i) => Node(i)
    case Check(i) => Node(i)
    case LockOwn(i) => Node(i)
    case Pop(i) => Node(i)
    case UnlockOwn(i) => Node(i)
  }

  /** Where the actor stands after its step. */
  function PcAfter(s: State, e: Step): Pc
    requires Enabled(s, e)
  {
    match e
    case Accept => Serving
    case Login(_, _) => Receiving
    case HangUp(_) => Stopped
    case ReadPart(_) => Checking
    case ReadFrame(i, to) => if to == s.nodes[i].id then Checking else AtRoute(Mail(s.received, false, to))
    case ReadGateway(to) => Walking(Mail(s.received, true, to), 0)
    case LockRoute(i) =>
      var m := s.nodes[i].pc.m;
      if m.to == s.brokerId then Routed else Walking(m, 0)
    case Walk(t) =>
      var pc := PcOf(s, t);
      if pc.at >= |s.nodes| then (if t.Server? then Serving else Routed)
      else if s.nodes[pc.at].id == pc.m.to then AtQueue(pc.m, pc.at)
      else pc.(at := pc.at + 1)
    case LockQueue(t) => Writing(PcOf(s, t).m, PcOf(s, t).k)
    case Write(t) => Leaving(PcOf(s, t).k)
    case UnlockQueue(t) => if t.Server? then Serving else Routed
    case UnlockRoute(_) => Checking
    case Check(i) => if |s.nodes[i].queue| > 0 then AtOwnQueue else Receiving
    case LockOwn(_) => Popping
    case Pop(_) => LeavingOwn
    case UnlockOwn(_) => Receiving
  }

  /** What the step does to the mutex of queue k, */
  function HolderAfter(s: State, e: Step, k: nat): Option<Thread>
    requires Enabled(s, e) && k < |s.nodes|
  {
    match e
    case LockQueue(t) => if PcOf(s, t).k == k then Some(t) else s.nodes[k].holder
    case UnlockQueue(t) => if PcOf(s, t).k == k then None else s.nodes[k].holder
    case LockOwn(i) => if i == k then Some(Node(i)) else s.nodes[k].holder
    case UnlockOwn(i) => if i == k then None else s.nodes[k].holder
    case _ => s.nodes[k].holder
  }

  /** to queue k itself, */
  function QueueAfter(s: State, e: Step, k: nat): seq<Mail>
    requires Enabled(s, e) && k < |s.nodes|
  {
    match e
    case LockQueue(t) => if PcOf(s, t).k == k then s.nodes[k].queue + [PcOf(s, t).m] else s.nodes[k].queue
    case Pop(i) => if i == k then s.nodes[k].queue[1..] else s.nodes[k].queue
    case _ => s.nodes[k].queue
  }

  /** to all that has been put there, */
  function EnqueuedAfter(s: State, e: Step, k: nat): seq<Mail>
    requires Enabled(s, e) && k < |s.nodes|
  {
    if e.LockQueue? && PcOf(s, e.t).k == k then s.nodes[k].enqueued + [PcOf(s, e.t).m] else s.nodes[k].enqueued
  }

  /** to what EnqueueMsg has written to the node, */
  function WrittenAfter(s: State, e: Step, k: nat): seq<Mail>
    requires Enabled(s, e) && k < |s.nodes|
  {
    if e.Write? && PcOf(s, e.t).k == k then s.nodes[k].written + [PcOf(s, e.t).m] else s.nodes[k].written
  }

  /** and to the node as a whole. */
  function NodeAfter(s: State, e: Step, k: nat): NodeState
    requires Enabled(s, e) && k < |s.nodes|
  {
    NodeState(
      if e.Login? && e.i == k then e.id else s.nodes[k].id,
      if Actor(e) == Node(k) then PcAfter(s, e) else s.nodes[k].pc,
      HolderAfter(s, e, k), QueueAfter(s, e, k), EnqueuedAfter(s, e, k), WrittenAfter(s, e, k))
  }

  function RouteAfter(s: State, e: Step): Option<Thread>
    requires Enabled(s, e)
  {
    match e
    case LockRoute(i) => Some(Node(i))
    case UnlockRoute(_) => None
    case _ => s.route
  }

  /** The message whose fate a step settles, and how. */
  function Settled(s: State, e: Step): Option<(Mail, Outcome)>
    requires Enabled(s, e)
  {
    match e
    case ReadFrame(i, to) => if to == s.nodes[i].id then Some((Mail(s.received, false, to), KeptBySender)) else None
    case LockRoute(i) => if s.nodes[i].pc.m.to == s.brokerId then Some((s.nodes[i].pc.m, KeptByBroker)) else None
    case Walk(t) =>
      var pc := PcOf(s, t);
      if pc.at < |s.nodes| then None
      else Some((pc.m, if t.Server? then Unclaimed else if s.hasGateway then Offered else Dropped))
    case LockQueue(t) => Some((PcOf(s, t).m, Enqueued(PcOf(s, t).k)))
    case _ => None
  }

  function Apply(s: State, e: Step): (s': State)
    requires Enabled(s, e)
    ensures |s'.nodes| == |s.nodes| + if e.Accept? then 1 else 0
    ensures forall k :: 0 <= k < |s.nodes| ==> s'.nodes[k] == NodeAfter(s, e, k)
    ensures e.Accept? ==> s'.nodes[|s.nodes|] == NodeState(0, LoggingIn, None, [], [], [])
  {
    State(
      seq(|s.nodes|, k requires 0 <= k < |s.nodes| => NodeAfter(s, e, k)) +
        if e.Accept? then [NodeState(0, LoggingIn, None, [], [], [])] else [],
      if Actor(e).Server? then PcAfter(s, e) else s.server,
      RouteAfter(s, e),
      s.brokerId,
      s.hasGateway,
      match Settled(s, e) { case Some((m, Offered)) => s.offered + [m] case _ => s.offered },
      match Settled(s, e) { case Some((m, o)) => s.outcomes[m.serial := o] case None => s.outcomes },
      s.received + if e.ReadFrame? || e.ReadGateway? then 1 else 0)
  }

  // ----- invariants -----

  predicate HoldsRoute(pc: Pc) {
    pc.Walking? || pc.AtQueue? || pc.Writing? || pc.Leaving? || pc.Routed?
  }

  /** The queue whose mutex a thread at `pc` holds. */
  function QueueHeld(t: Thread, pc: Pc): Option<nat> {
    match pc
    case Writing(_, k) => Some(k)
    case Leaving(k) => Some(k)
    case Popping => if t.Node? then Some(t.i) else None
    case LeavingOwn => if t.Node? then Some(t.i) else None
    case _ => None
  }

  /** The route mutex has one holder at most: the node thread that is routing. */
  predicate RouteInv(s: State) {
    s.route != Some(Server) &&
    (s.route.Some? ==> s.route.value.i < |s.nodes|) &&
    forall i :: 0 <= i < |s.nodes| ==> (HoldsRoute(s.nodes[i].pc) <==> s.route == Some(Node(i)))
  }

  /** Threads stand where threads of their kind can stand, at nodes that exist. */
  predicate PlaceInv(s: State) {
    (s.server.Serving? || s.server.Walking? || s.server.AtQueue? || s.server.Writing? || s.server.Leaving?) &&
    (forall i :: 0 <= i < |s.nodes| ==> !s.nodes[i].pc.Serving?) &&
    PlaceOf(s.server, |s.nodes|) &&
    (forall i :: 0 <= i < |s.nodes| ==> PlaceOf(s.nodes[i].pc, |s.nodes|))
  }

  predicate PlaceOf(pc: Pc, n: nat) {
    pc.AtQueue? || pc.Writing? || pc.Leaving? ==> pc.k < n
  }

  function Held(s: State, t: Thread): Option<nat> {
    if Exists(s, t) then QueueHeld(t, PcOf(s, t)) else None
  }

  /** Every queue mutex has exactly the holder it says it has. */
  ghost predicate QueueInv(s: State) {
    forall t :: HeldInv(s, t)
  }

  /** The thread t holds the queue mutexes that say so, and no others. */
  ghost predicate HeldInv(s: State, t: Thread) {
    (Held(s, t).Some? ==> Held(s, t).value < |s.nodes|) &&
    forall k :: 0 <= k < |s.nodes| ==> (s.nodes[k].holder == Some(t) <==> Held(s, t) == Some(k))
  }

  /** A node that is about to take a message off its queue has one there. */
  predicate PopInv(s: State) {
    forall i :: 0 <= i < |s.nodes| && (s.nodes[i].pc.AtOwnQueue? || s.nodes[i].pc.Popping?) ==> s.nodes[i].queue != []
  }

  /** What is written lags behind what is enqueued by the message being written, if any. */
  predicate WriteInv(s: State) {
    forall k :: 0 <= k < |s.nodes| ==> s.nodes[k].enqueued == s.nodes[k].written + Pending(s, k)
  }

  predicate SuffixOf(q: seq<Mail>, all: seq<Mail>) {
    |q| <= |all| && q == all[|all| - |q|..]
  }

  predicate SuffixInv(s: State) {
    forall k :: 0 <= k < |s.nodes| ==> SuffixOf(s.nodes[k].queue, s.nodes[k].enqueued)
  }

  /** Until it has logged in, a node's id is 0. */
  predicate IdInv(s: State) {
    forall i :: 0 <= i < |s.nodes| && s.nodes[i].pc.LoggingIn? ==> s.nodes[i].id == 0
  }

  // ----- each invariant, step by step -----

  /** The parts of the state after a step that the invariants look at. */
  lemma Parts(s: State, e: Step)
    requires Enabled(s, e)
    ensures Apply(s, e).route == RouteAfter(s, e)
    ensures Apply(s, e).server == if Actor(e).Server? then PcAfter(s, e) else s.server
    ensures Exists(s, Actor(e))
  {
    hide PcAfter, NodeAfter, RouteAfter, Settled;
  }

  /** The route mutex as the actor sees it. */
  lemma RouteStep(s: State, e: Step)
    requires Enabled(s, e)
    ensures var t, route := Actor(e), RouteAfter(s, e);
            (t.Server? ==> route == s.route) &&
            (t.Node? && (HoldsRoute(PcOf(s, t)) <==> s.route == Some(t)) ==>
              (HoldsRoute(PcAfter(s, e)) <==> route == Some(t)) &&
              (route == s.route || (s.route == None && route == Some(t)) || (s.route == Some(t) && route == None)))
  {
    hide Ids;
  }

  lemma RouteKept(s: State, e: Step)
    requires Enabled(s, e) && RouteInv(s)
    ensures RouteInv(Apply(s, e))
  {
    Parts(s, e);
    RouteStep(s, e);
    NewNode(s, e);
    hide Apply, Enabled, PcAfter, RouteAfter, HolderAfter, QueueAfter, EnqueuedAfter, WrittenAfter, Settled, Actor;
    forall i | 0 <= i < |Apply(s, e).nodes|
      ensures HoldsRoute(Apply(s, e).nodes[i].pc) <==> Apply(s, e).route == Some(Node(i))
    {
      if i < |s.nodes| {
        assert HoldsRoute(s.nodes[i].pc) <==> s.route == Some(Node(i));
        hide HoldsRoute;
      }
    }
  }

  /** Where the actor may go from where it may be. */
  lemma PlaceStep(s: State, e: Step)
    requires Enabled(s, e) && PlaceInv(s)
    ensures var t, q := Actor(e), PcAfter(s, e);
            (t.Server? ==> q.Serving? || q.Walking? || q.AtQueue? || q.Writing? || q.Leaving?) &&
            (t.Node? ==> !q.Serving?) && PlaceOf(q, |s.nodes|)
  {
    hide Ids;
  }

  lemma PlaceKept(s: State, e: Step)
    requires Enabled(s, e) && PlaceInv(s)
    ensures PlaceInv(Apply(s, e))
  {
    Parts(s, e);
    PlaceStep(s, e);
    hide Apply, Enabled, PcAfter, HolderAfter, QueueAfter, EnqueuedAfter, WrittenAfter, Settled, Actor, RouteAfter;
    forall i | 0 <= i < |Apply(s, e).nodes|
      ensures PlaceOf(Apply(s, e).nodes[i].pc, |Apply(s, e).nodes|) && !Apply(s, e).nodes[i].pc.Serving?
    {
      NewNode(s, e);
      assert i < |s.nodes| ==> PlaceOf(s.nodes[i].pc, |s.nodes|);
    }
  }

  /** The queue mutexes as the actor sees them: it keeps what it holds, takes one that is free, or frees its own. */
  lemma QueueStep(s: State, e: Step, j: nat)
    requires Enabled(s, e) && PlaceInv(s) && j < |s.nodes|
    ensures var t := Actor(e);
            var h, h' := QueueHeld(t, PcOf(s, t)), QueueHeld(t, PcAfter(s, e));
            (h == h' || h == None || h' == None) &&
            HolderAfter(s, e, j) ==
              (if h' == h then s.nodes[j].holder else if h' == Some(j) then Some(t) else if h == Some(j) then None
               else s.nodes[j].holder) &&
            (h' == Some(j) && h == None ==> s.nodes[j].holder == None)
  {
    hide Ids;
  }

  lemma QueueStepInside(s: State, e: Step)
    requires Enabled(s, e) && PlaceInv(s)
    ensures var t := Actor(e);
            var h, h' := QueueHeld(t, PcOf(s, t)), QueueHeld(t, PcAfter(s, e));
            h' != None ==> h' == h || (h == None && h'.value < |s.nodes|)
  {
    hide Ids;
  }

  /** Where the threads stand after a step. */
  lemma PcsAfter(s: State, e: Step, t: Thread)
    requires Enabled(s, e)
    ensures Exists(s, Actor(e))
    ensures Exists(s, t) ==>
              Exists(Apply(s, e), t) &&
              PcOf(Apply(s, e), t) == if t == Actor(e) then PcAfter(s, e) else PcOf(s, t)
    ensures !Exists(s, t) && Exists(Apply(s, e), t) ==> PcOf(Apply(s, e), t) == LoggingIn
  {
    Parts(s, e);
    hide Apply, PcAfter, HolderAfter, QueueAfter, EnqueuedAfter, WrittenAfter, Settled, Enabled;
  }

  lemma HeldAfter(s: State, e: Step, t: Thread)
    requires Enabled(s, e)
    ensures Exists(s, Actor(e))
    ensures Held(Apply(s, e), t) == if t == Actor(e) then QueueHeld(t, PcAfter(s, e)) else Held(s, t)
  {
    PcsAfter(s, e, t);
    hide Apply, PcAfter, Enabled, Actor, PcOf;
  }

  lemma HolderIs(s: State, e: Step, k: nat)
    requires Enabled(s, e) && k < |s.nodes|
    ensures Apply(s, e).nodes[k].holder == HolderAfter(s, e, k)
  {
    hide HolderAfter, QueueAfter, EnqueuedAfter, WrittenAfter, PcAfter, Settled, Enabled, Actor;
  }

  lemma HeldKept(s: State, e: Step, t: Thread)
    requires Enabled(s, e) && QueueInv(s) && PlaceInv(s)
    ensures HeldInv(Apply(s, e), t)
  {
    hide Apply, PcAfter, Enabled, QueueHeld, HolderAfter, Actor, PlaceInv, PcOf, Held;
    HeldAfter(s, e, t);
    HeldAfter(s, e, Actor(e));
    QueueStepInside(s, e);
    assert HeldInv(s, t) && HeldInv(s, Actor(e));
    ActorHolds(s, e);
    var s' := Apply(s, e);
    forall k | 0 <= k < |s'.nodes|
      ensures s'.nodes[k].holder == Some(t) <==> Held(s', t) == Some(k)
    {
      if k < |s.nodes| {
        QueueStep(s, e, k);
        HolderIs(s, e, k);
      } else {
        NewNode(s, e);
        HeldBounds(s, e);
      }
    }
  }

  lemma ActorHolds(s: State, e: Step)
    requires Enabled(s, e) && Exists(s, Actor(e))
    ensures Held(s, Actor(e)) == QueueHeld(Actor(e), PcOf(s, Actor(e)))
  {
  }

  lemma NewNode(s: State, e: Step)
    requires Enabled(s, e)
    ensures |Apply(s, e).nodes| > |s.nodes| ==>
              |Apply(s, e).nodes| == |s.nodes| + 1 &&
              Apply(s, e).nodes[|s.nodes|] == NodeState(0, LoggingIn, None, [], [], [])
  {
    hide NodeAfter, Enabled, Settled, PcAfter, RouteAfter;
  }

  /** The accept step takes no mutex. */
  lemma HeldBounds(s: State, e: Step)
    requires Enabled(s, e)
    ensures |Apply(s, e).nodes| > |s.nodes| ==>
              e.Accept? && Actor(e) == Server && QueueHeld(Server, PcAfter(s, e)) == None
  {
    hide NodeAfter, Settled, RouteAfter;
  }

  lemma QueueKept(s: State, e: Step)
    requires Enabled(s, e) && QueueInv(s) && PlaceInv(s)
    ensures QueueInv(Apply(s, e))
  {
    hide Apply, Enabled, HeldInv, PlaceInv;
    forall t ensures HeldInv(Apply(s, e), t) {
      HeldKept(s, e, t);
    }
  }

  lemma PopKept(s: State, e: Step)
    requires Enabled(s, e) && PopInv(s) && PlaceInv(s)
    ensures PopInv(Apply(s, e))
  {
    hide Apply, HolderAfter, EnqueuedAfter, WrittenAfter, Settled, Ids;
  }

  /** The message that the holder of queue k is about to write. */
  function Pending(s: State, k: nat): seq<Mail>
    requires k < |s.nodes|
  {
    match s.nodes[k].holder
    case Some(t) => if Exists(s, t) && PcOf(s, t).Writing? then [PcOf(s, t).m] else []
    case None => []
  }

  lemma WriteKept(s: State, e: Step)
    requires Enabled(s, e) && WriteInv(s) && QueueInv(s) && PlaceInv(s)
    ensures WriteInv(Apply(s, e))
  {
    forall k | 0 <= k < |Apply(s, e).nodes|
      ensures Apply(s, e).nodes[k].enqueued == Apply(s, e).nodes[k].written + Pending(Apply(s, e), k)
    {
      if k < |s.nodes| {
        WriteKeptAt(s, e, k);
      }
    }
    hide Apply;
  }

  lemma WriteKeptAt(s: State, e: Step, k: nat)
    requires Enabled(s, e) && WriteInv(s) && QueueInv(s) && PlaceInv(s) && k < |s.nodes|
    ensures Apply(s, e).nodes[k].enqueued == Apply(s, e).nodes[k].written + Pending(Apply(s, e), k)
  {
    Parts(s, e);
    PendingAfter(s, e, k);
    hide Apply, QueueAfter, Settled, Ids, PcAfter, HolderAfter;
    assert s.nodes[k].enqueued == s.nodes[k].written + Pending(s, k);
  }

  lemma PendingAfter(s: State, e: Step, k: nat)
    requires Enabled(s, e) && QueueInv(s) && PlaceInv(s) && k < |s.nodes|
    ensures Pending(Apply(s, e), k) ==
              if e.LockQueue? && PcOf(s, e.t).k == k then [PcOf(s, e.t).m]
              else if e.Write? && PcOf(s, e.t).k == k then []
              else Pending(s, k)
    ensures e.LockQueue? && PcOf(s, e.t).k == k ==> Pending(s, k) == []
    ensures e.Write? && PcOf(s, e.t).k == k ==> Pending(s, k) == [PcOf(s, e.t).m]
  {
    var t := Actor(e);
    PcsAfter(s, e, t);
    HolderIs(s, e, k);
    if s.nodes[k].holder.Some? {
      PcsAfter(s, e, s.nodes[k].holder.value);
      assert HeldInv(s, s.nodes[k].holder.value);
    }
    assert HeldInv(s, t);
    hide Apply, Ids, PlaceInv, HeldInv;
  }

  lemma SuffixKept(s: State, e: Step)
    requires Enabled(s, e) && SuffixInv(s)
    ensures SuffixInv(Apply(s, e))
  {
    hide Apply, HolderAfter, WrittenAfter, PcAfter, Settled, Ids;
  }

  lemma IdKept(s: State, e: Step)
    requires Enabled(s, e) && IdInv(s)
    ensures IdInv(Apply(s, e))
  {
    hide Apply, HolderAfter, QueueAfter, EnqueuedAfter, WrittenAfter, Settled, Ids;
  }
}

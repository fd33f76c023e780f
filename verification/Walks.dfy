/** Which node a message goes to while other nodes log in. */
module Walks {
  import opened Text
  import opened Nodes
  import opened Broker
  import opened Runs

  /** t goes through the node list for a message, or has found a node and waits for its queue. */
  predicate Searching(s: State, t: Thread) {
    Exists(s, t) && (PcOf(s, t).Walking? || PcOf(s, t).AtQueue?)
  }

  /** The node t looks at, or the one it has found. */
  function Place(s: State, t: Thread): nat
    requires Searching(s, t)
  {
    Spot(PcOf(s, t))
  }

  function Spot(pc: Pc): nat
    requires pc.Walking? || pc.AtQueue?
  {
    if pc.Walking? then pc.at else pc.k
  }

  function Goal(s: State, t: Thread): nat
    requires Searching(s, t)
  {
    PcOf(s, t).m.to
  }

  /** A search begins at the front of the list. */
  predicate Begins(s: State, t: Thread) {
    Exists(s, t) && PcOf(s, t).Walking? && PcOf(s, t).at == 0
  }

  /** A run during which t stays in one search. */
  predicate Search(s: State, t: Thread, steps: seq<Step>, s': State)
    decreases |steps|
  {
    Searching(s, t) &&
    if steps == [] then s == s' else Enabled(s, steps[0]) && Search(Apply(s, steps[0]), t, steps[1..], s')
  }

  /** A node that t has passed logs in with the id t looks for. */
  predicate Overtakes(s: State, t: Thread, e: Step)
    requires Searching(s, t)
  {
    e.Login? && e.id == Goal(s, t) && e.i < Place(s, t)
  }

  predicate Overtaken(s: State, t: Thread, steps: seq<Step>)
    decreases |steps|
  {
    steps != [] && Searching(s, t) && Enabled(s, steps[0]) &&
    (Overtakes(s, t, steps[0]) || Overtaken(Apply(s, steps[0]), t, steps[1..]))
  }

  // ----- passed nodes -----

  predicate PassedAt(s: State, t: Thread, j: nat)
    requires Searching(s, t)
  {
    j < Place(s, t) && j < |s.nodes| && s.nodes[j].id == Goal(s, t)
  }

  /** A node that t has passed carries the id t looks for. */
  ghost predicate Passed(s: State, t: Thread)
    requires Searching(s, t)
  {
    exists j: nat :: PassedAt(s, t, j)
  }

  /** What a step does to a search that goes on. */
  lemma SearchStep(s: State, e: Step, t: Thread)
    requires Enabled(s, e) && Searching(s, t) && Searching(Apply(s, e), t) && WalkInv(s, t)
    ensures Goal(Apply(s, e), t) == Goal(s, t) && PcOf(Apply(s, e), t).m == PcOf(s, t).m
    ensures Place(Apply(s, e), t) == Place(s, t) ||
            (!e.Login? && Place(Apply(s, e), t) == Place(s, t) + 1 <= |s.nodes| &&
             s.nodes[Place(s, t)].id != Goal(s, t))
  {
    PcsAfter(s, e, t);
    hide Apply, Enabled, PcOf, Exists;
    if t == Actor(e) {
      OwnSearchStep(s, e);
    }
  }

  lemma OwnSearchStep(s: State, e: Step)
    requires Enabled(s, e) && Searching(s, Actor(e)) && WalkInv(s, Actor(e))
    ensures var pc, pc' := PcOf(s, Actor(e)), PcAfter(s, e);
            pc'.Walking? || pc'.AtQueue? ==>
              pc'.m == pc.m &&
              (Spot(pc') == Spot(pc) ||
               (!e.Login? && Spot(pc') == Spot(pc) + 1 <= |s.nodes| && s.nodes[Spot(pc)].id != pc.m.to))
  {
  }

  /** Seen from a node j: it is a passed one with the id before the step, or becomes one by the step. */
  lemma PassedAtStep(s: State, e: Step, t: Thread, j: nat)
    requires Enabled(s, e) && Searching(s, t) && Searching(Apply(s, e), t) && WalkInv(s, t) && IdInv(s)
    requires Place(s, t) <= |s.nodes| && (Goal(s, t) != 0 || !PassedAt(s, t, j))
    ensures PassedAt(Apply(s, e), t, j) <==> PassedAt(s, t, j) || (Overtakes(s, t, e) && e.i == j)
    ensures Overtakes(s, t, e) && e.i == j ==> Goal(s, t) != 0
  {
    hide *;
    SearchStep(s, e, t);
    NodeSeen(s, e, j);
    Meanings(s, e, t, j);
    Meanings(Apply(s, e), e, t, j);
  }

  lemma Meanings(s: State, e: Step, t: Thread, j: nat)
    requires Searching(s, t)
    ensures PassedAt(s, t, j) <==> j < Place(s, t) && j < |s.nodes| && s.nodes[j].id == Goal(s, t)
    ensures Overtakes(s, t, e) <==> e.Login? && e.id == Goal(s, t) && e.i < Place(s, t)
  {
    hide Searching, Place, Goal;
  }

  /** What a step does to the id of a node. */
  lemma NodeSeen(s: State, e: Step, j: nat)
    requires Enabled(s, e) && IdInv(s)
    ensures |s.nodes| <= |Apply(s, e).nodes|
    ensures j < |s.nodes| ==> Apply(s, e).nodes[j].id == if e.Login? && e.i == j then e.id else s.nodes[j].id
    ensures e.Login? ==> e.i < |s.nodes| && s.nodes[e.i].id == 0
    ensures j < |s.nodes| && s.nodes[j].id != 0 ==> Apply(s, e).nodes[j].id == s.nodes[j].id
  {
    IdsKept(s, e);
    if j < |s.nodes| {
      LoginDecides(s, e, j);
    }
    if e.Login? {
      LoginSets(s, e);
    }
    hide Apply, Enabled;
  }

  /**
   * While a search goes on, a passed node comes to carry the id if and only if the search is
   * overtaken.  Only the id 0 can be lost again, hence the condition for the destination 0.
   */
  lemma PassedStep(s: State, e: Step, t: Thread)
    requires Enabled(s, e) && Searching(s, t) && Searching(Apply(s, e), t) && WalkInv(s, t) && IdInv(s)
    requires Place(s, t) <= |s.nodes| && (Goal(s, t) != 0 || !Passed(s, t))
    ensures Goal(Apply(s, e), t) == Goal(s, t)
    ensures Passed(Apply(s, e), t) <==> Passed(s, t) || Overtakes(s, t, e)
    ensures Goal(s, t) != 0 || !Passed(Apply(s, e), t)
  {
    SearchStep(s, e, t);
    forall j: nat
      ensures PassedAt(Apply(s, e), t, j) <==> PassedAt(s, t, j) || (Overtakes(s, t, e) && e.i == j)
      ensures Overtakes(s, t, e) && e.i == j ==> Goal(s, t) != 0
    {
      assert Goal(s, t) != 0 || !PassedAt(s, t, j);
      PassedAtStep(s, e, t, j);
    }
    hide Apply, Goal, Searching, PassedAt, Overtakes, Enabled;
    if Overtakes(s, t, e) {
      assert PassedAt(Apply(s, e), t, OvertakerOf(s, t, e));
    }
  }

  function OvertakerOf(s: State, t: Thread, e: Step): nat
    requires Searching(s, t) && Overtakes(s, t, e)
  {
    e.i
  }

  lemma IdsKept(s: State, e: Step)
    requires Enabled(s, e) && IdInv(s)
    ensures |s.nodes| <= |Apply(s, e).nodes|
    ensures forall j :: 0 <= j < |s.nodes| && s.nodes[j].id != 0 ==> Apply(s, e).nodes[j].id == s.nodes[j].id
  {
    forall j | 0 <= j < |s.nodes| && s.nodes[j].id != 0 ensures Apply(s, e).nodes[j].id == s.nodes[j].id {
      IdsAfter(s, e, j);
    }
    hide NodeAfter, Enabled;
  }

  lemma LoginSets(s: State, e: Step)
    requires Enabled(s, e) && IdInv(s) && e.Login?
    ensures e.i < |s.nodes| && s.nodes[e.i].id == 0 && Apply(s, e).nodes[e.i].id == e.id
  {
    hide HolderAfter, QueueAfter, EnqueuedAfter, WrittenAfter, PcAfter, Settled, RouteAfter;
  }

  lemma LoginDecides(s: State, e: Step, j: nat)
    requires Enabled(s, e) && j < |s.nodes|
    ensures Apply(s, e).nodes[j].id == if e.Login? && e.i == j then e.id else s.nodes[j].id
  {
    hide HolderAfter, QueueAfter, EnqueuedAfter, WrittenAfter, PcAfter, Settled, RouteAfter, Enabled;
  }

  lemma {:induction false} PassedIff(s: State, t: Thread, steps: seq<Step>, s': State)
    requires Inv(s) && Search(s, t, steps, s') && (Goal(s, t) != 0 || !Passed(s, t))
    ensures Inv(s') && Searching(s', t) && Goal(s', t) == Goal(s, t) && PcOf(s', t).m == PcOf(s, t).m
    ensures Passed(s', t) <==> Passed(s, t) || Overtaken(s, t, steps)
    decreases |steps|
  {
    if steps != [] {
      var next := Apply(s, steps[0]);
      assert Search(next, t, steps[1..], s') && Searching(next, t);
      InvParts(s, t);
      SearchStep(s, steps[0], t);
      PassedStep(s, steps[0], t);
      InvKept(s, steps[0]);
      hide Inv, Apply, Enabled, Passed, Searching, Goal, Overtakes;
      PassedIff(next, t, steps[1..], s');
    }
  }

  lemma InvParts(s: State, t: Thread)
    requires Inv(s)
    ensures IdInv(s) && WalkInv(s, t)
    ensures Searching(s, t) ==> Place(s, t) <= |s.nodes|
  {
    assert WalkInv(s, t) && PlaceInv(s);
    hide RouteInv, QueueInv, PopInv, WriteInv, SuffixInv, MailInv, PostInv, AddressInv;
  }

  lemma SearchHead(s: State, t: Thread, steps: seq<Step>, s': State)
    requires Search(s, t, steps, s') && steps != []
    ensures Enabled(s, steps[0]) && Searching(s, t) && Searching(Apply(s, steps[0]), t)
    ensures Search(Apply(s, steps[0]), t, steps[1..], s')
  {
    hide Apply, Enabled, Searching;
  }

  lemma FirstAhead(s: State, e: Step, t: Thread, first: nat)
    requires Enabled(s, e) && Searching(s, t) && Searching(Apply(s, e), t) && WalkInv(s, t) && IdInv(s) &&
             Goal(s, t) != 0
    requires first < |s.nodes| && s.nodes[first].id == Goal(s, t) && Place(s, t) <= first
    ensures Goal(Apply(s, e), t) == Goal(s, t) && Place(Apply(s, e), t) <= first
    ensures first < |Apply(s, e).nodes| && Apply(s, e).nodes[first].id == Goal(s, t)
  {
    SearchStep(s, e, t);
    IdsKept(s, e);
    hide Apply, Enabled, Searching, Goal, Place, WalkInv, IdInv;
  }

  /** A match that is there from the beginning is not passed. */
  lemma {:induction false} NeverBehind(s: State, t: Thread, steps: seq<Step>, s': State, first: nat)
    requires Inv(s) && Search(s, t, steps, s') && Searching(s, t) && Goal(s, t) != 0
    requires first < |s.nodes| && s.nodes[first].id == Goal(s, t) && Place(s, t) <= first
    ensures Searching(s', t) && Place(s', t) <= first
    decreases |steps|
  {
    if steps != [] {
      SearchHead(s, t, steps, s');
      InvParts(s, t);
      FirstAhead(s, steps[0], t, first);
      InvKept(s, steps[0]);
      hide Inv, Apply, Enabled, Searching, Goal, Place, Search;
      NeverBehind(Apply(s, steps[0]), t, steps[1..], s', first);
    }
  }

  // ----- what a search comes to -----

  lemma FirstUnlessPassed(s: State, t: Thread)
    requires Searching(s, t)
    ensures var at := Place(s, t);
            (at < |s.nodes| && s.nodes[at].id == Goal(s, t) ==>
               (FirstWith(Ids(s), Goal(s, t)) == Some(at) <==> !Passed(s, t))) &&
            (at >= |s.nodes| ==> (FirstWith(Ids(s), Goal(s, t)) == None <==> !Passed(s, t)))
  {
    var at, d := Place(s, t), Goal(s, t);
    FirstWithIs(Ids(s), d);
    hide FirstWith, Searching, Place, Goal;
    if Passed(s, t) {
      var j: nat :| PassedAt(s, t, j);
    }
    match FirstWith(Ids(s), d)
    case Some(k) =>
      if k < at {
        assert PassedAt(s, t, k);
      }
    case None =>
  }

  /**
   * The node a search finds is the first one with the destination's id if and only if no node it has
   * passed logged in with that id meanwhile.  It never lies behind the match there was at the beginning.
   */
  lemma FoundFirstIff(s: State, t: Thread, steps: seq<Step>, s': State)
    requires Reachable(s) && Begins(s, t) && Search(s, t, steps, s')
    ensures Searching(s', t) && PcOf(s', t).m == PcOf(s, t).m
    ensures var at, d := Place(s', t), Goal(s, t);
            at < |s'.nodes| && s'.nodes[at].id == d ==>
              (FirstWith(Ids(s'), d) == Some(at) <==> !Overtaken(s, t, steps)) &&
              (d != 0 && FirstWith(Ids(s), d).Some? ==> at <= FirstWith(Ids(s), d).value)
    ensures PcOf(s', t).AtQueue? && Goal(s, t) != 0 ==>
              Place(s', t) < |s'.nodes| && s'.nodes[Place(s', t)].id == Goal(s, t)
  {
    ReachableInv(s);
    PassedIff(s, t, steps, s');
    FirstUnlessPassed(s', t);
    InvParts(s', t);
    FirstWithIs(Ids(s), Goal(s, t));
    if Goal(s, t) != 0 && FirstWith(Ids(s), Goal(s, t)).Some? {
      NeverBehind(s, t, steps, s', FirstWith(Ids(s), Goal(s, t)).value);
    }
    hide FirstWith, Inv, Passed, Overtaken, Search;
  }

  /**
   * A search that reaches the end of the list gives the message up to the gateway or drops it; there
   * is no node with the destination's id then if and only if the search has not been overtaken.
   */
  lemma GivenUpIff(s: State, t: Thread, steps: seq<Step>, s': State)
    requires Reachable(s) && Begins(s, t) && Search(s, t, steps, s')
    requires Searching(s', t) && PcOf(s', t).Walking? && Place(s', t) >= |s'.nodes|
    ensures FirstWith(Ids(s'), Goal(s, t)) == None <==> !Overtaken(s, t, steps)
    ensures Enabled(s', Walk(t)) && Settled(s', Walk(t)).Some? && Settled(s', Walk(t)).value.0 == PcOf(s, t).m
    ensures Settled(s', Walk(t)).value.1 ==
              if t.Server? then Unclaimed else if s'.hasGateway then Offered else Dropped
  {
    ReachableInv(s);
    PassedIff(s, t, steps, s');
    FirstUnlessPassed(s', t);
    GivesUp(s', t);
    hide FirstWith, Inv, Passed, Overtaken, Search, Enabled, Settled, Reachable, Ids;
  }

  lemma GivesUp(s: State, t: Thread)
    requires Searching(s, t) && PcOf(s, t).Walking? && Place(s, t) >= |s.nodes|
    ensures Enabled(s, Walk(t)) &&
            Settled(s, Walk(t)) ==
              Some((PcOf(s, t).m, if t.Server? then Unclaimed else if s.hasGateway then Offered else Dropped))
  {
  }

  // ----- every search has a beginning -----

  ghost predicate Begun(s: State, t: Thread) {
    exists b, steps :: Reachable(b) && Begins(b, t) && Search(b, t, steps, s)
  }

  lemma {:induction false} SearchOneMore(b: State, t: Thread, steps: seq<Step>, s: State, e: Step)
    requires Search(b, t, steps, s) && Enabled(s, e) && Searching(Apply(s, e), t)
    ensures Search(b, t, steps + [e], Apply(s, e))
    decreases |steps|
  {
    hide Apply, Enabled, Searching;
    if steps == [] {
      assert Search(Apply(s, e), t, [], Apply(s, e));
      assert (steps + [e])[1..] == [];
    } else {
      SearchOneMore(Apply(b, steps[0]), t, steps[1..], s, e);
      assert (steps + [e])[1..] == steps[1..] + [e];
    }
  }

  lemma {:induction false} RunOneMore(b: State, steps: seq<Step>, s: State, e: Step)
    requires Run(b, steps, s) && Enabled(s, e)
    ensures Run(b, steps + [e], Apply(s, e))
    decreases |steps|
  {
    hide Apply, Enabled;
    if steps == [] {
      assert Run(Apply(s, e), [], Apply(s, e));
      assert (steps + [e])[1..] == [];
    } else {
      RunOneMore(Apply(b, steps[0]), steps[1..], s, e);
      assert (steps + [e])[1..] == steps[1..] + [e];
    }
  }

  lemma ReachableOneMore(s: State, e: Step)
    requires Reachable(s) && Enabled(s, e)
    ensures Reachable(Apply(s, e))
  {
    hide Apply, Enabled, Run, Initial;
    var brokerId, hasGateway, steps :| Run(Initial(brokerId, hasGateway), steps, s);
    RunOneMore(Initial(brokerId, hasGateway), steps, s, e);
  }

  /** A thread that was not searching begins at the front. */
  lemma BeginsAtFront(s: State, e: Step, t: Thread)
    requires Enabled(s, e) && !Searching(s, t) && Searching(Apply(s, e), t)
    ensures Begins(Apply(s, e), t)
  {
    PcsAfter(s, e, t);
    hide Apply;
  }

  lemma BegunKept(s: State, e: Step, t: Thread)
    requires Reachable(s) && Enabled(s, e) && (Searching(s, t) ==> Begun(s, t))
    ensures Searching(Apply(s, e), t) ==> Begun(Apply(s, e), t)
  {
    var s' := Apply(s, e);
    if Searching(s', t) {
      if Searching(s, t) {
        var b, steps :| Reachable(b) && Begins(b, t) && Search(b, t, steps, s);
        SearchOneMore(b, t, steps, s, e);
      } else {
        BeginsAtFront(s, e, t);
        ReachableOneMore(s, e);
        assert Search(s', t, [], s');
      }
    }
    hide Apply, Enabled, Searching, Reachable, Begins, Search;
  }

  lemma {:induction false} RunsBegin(s: State, steps: seq<Step>, s': State, t: Thread)
    requires Reachable(s) && Run(s, steps, s') && (Searching(s, t) ==> Begun(s, t))
    ensures Searching(s', t) ==> Begun(s', t)
    decreases |steps|
  {
    hide Apply, Enabled, Searching, Reachable, Begun;
    if steps != [] {
      ReachableOneMore(s, steps[0]);
      BegunKept(s, steps[0], t);
      RunsBegin(Apply(s, steps[0]), steps[1..], s', t);
    }
  }

  /** Whenever a thread searches, a search that began at the front has led there. */
  lemma EverySearchBegan(s: State, t: Thread)
    requires Reachable(s) && Searching(s, t)
    ensures Begun(s, t)
  {
    var brokerId, hasGateway, steps :| Run(Initial(brokerId, hasGateway), steps, s);
    var init := Initial(brokerId, hasGateway);
    assert Run(init, [], init);
    assert !Searching(init, t);
    hide Run, Searching, Begun, Initial;
    RunsBegin(init, steps, s, t);
  }

  // ----- two runs in which a search is overtaken -----

  function Member(id: nat, pc: Pc): NodeState {
    NodeState(id, pc, None, [], [], [])
  }

  function With(nodes: seq<NodeState>, route: Option<Thread>, received: nat): State {
    State(nodes, Serving, route, 1000, false, [], map[], received)
  }

  const MAIL := Mail(0, false, 5)

  /** Four nodes have been accepted; two have logged in, and the last one sends a message to 5. */
  function Crowd(): State {
    With(TwoGuests(Receiving, Walking(MAIL, 0)), Some(Node(3)), 1)
  }

  function Guests(n: nat): seq<NodeState> {
    seq(n, _ => Member(0, LoggingIn))
  }

  lemma {:induction false} GuestsReachable(n: nat)
    ensures Reachable(With(Guests(n), None, 0))
  {
    if n == 0 {
      assert With(Guests(0), None, 0) == Initial(1000, false);
      assert Run(Initial(1000, false), [], Initial(1000, false));
    } else {
      GuestsReachable(n - 1);
      var s := With(Guests(n - 1), None, 0);
      Becomes(s, Accept, With(Guests(n), None, 0));
    }
  }

  /** A step, part by part. */
  lemma Becomes(s: State, e: Step, s': State)
    requires Reachable(s) && Enabled(s, e)
    requires |s'.nodes| == |s.nodes| + (if e.Accept? then 1 else 0)
    requires forall k :: 0 <= k < |s.nodes| ==> s'.nodes[k] == NodeAfter(s, e, k)
    requires e.Accept? ==> s'.nodes[|s.nodes|] == NodeState(0, LoggingIn, None, [], [], [])
    requires s'.server == (if Actor(e).Server? then PcAfter(s, e) else s.server) && s'.route == RouteAfter(s, e)
    requires s'.brokerId == s.brokerId && s'.hasGateway == s.hasGateway && Settled(s, e) == None
    requires s'.offered == s.offered && s'.outcomes == s.outcomes
    requires s'.received == s.received + if e.ReadFrame? || e.ReadGateway? then 1 else 0
    ensures Apply(s, e) == s' && Reachable(s')
  {
    hide NodeAfter, Enabled, PcAfter, RouteAfter, Actor, Reachable, Settled, Apply;
    ReachableOneMore(s, e);
    AppliedIs(s, e);
    assert Apply(s, e).nodes == s'.nodes;
  }

  /** The parts of a state after a step that settles nothing. */
  lemma AppliedIs(s: State, e: Step)
    requires Enabled(s, e) && Settled(s, e) == None
    ensures var s' := Apply(s, e);
            s'.server == (if Actor(e).Server? then PcAfter(s, e) else s.server) && s'.route == RouteAfter(s, e) &&
            s'.brokerId == s.brokerId && s'.hasGateway == s.hasGateway &&
            s'.offered == s.offered && s'.outcomes == s.outcomes &&
            s'.received == s.received + if e.ReadFrame? || e.ReadGateway? then 1 else 0
  {
    hide NodeAfter, Enabled, PcAfter, RouteAfter, Actor;
  }

  function TwoGuests(two: Pc, three: Pc): seq<NodeState> {
    Guests(2) + [Member(if two.LoggingIn? then 0 else 5, two), Member(if three.LoggingIn? then 0 else 7, three)]
  }

  lemma CrowdReachable()
    ensures Reachable(Crowd())
  {
    GuestsReachable(4);
    assert Guests(4) == TwoGuests(LoggingIn, LoggingIn);
    TwoLogIn();
    ThreeSends();
    hide Reachable;
  }

  lemma TwoLogIn()
    requires Reachable(With(TwoGuests(LoggingIn, LoggingIn), None, 0))
    ensures Reachable(With(TwoGuests(Receiving, Receiving), None, 0))
  {
    hide Reachable;
    var s := With(TwoGuests(LoggingIn, LoggingIn), None, 0);
    var s' := With(TwoGuests(Receiving, LoggingIn), None, 0);
    Becomes(s, Step.Login(2, 5), s');
    Becomes(s', Step.Login(3, 7), With(TwoGuests(Receiving, Receiving), None, 0));
  }

  lemma ThreeSends()
    requires Reachable(With(TwoGuests(Receiving, Receiving), None, 0))
    ensures Reachable(Crowd())
  {
    hide Reachable;
    var s := With(TwoGuests(Receiving, Receiving), None, 0);
    var s' := With(TwoGuests(Receiving, AtRoute(MAIL)), None, 1);
    Becomes(s, ReadFrame(3, 5), s');
    Becomes(s', LockRoute(3), Crowd());
  }

  /** The search has passed the first node, which then logs in with the id 5. */
  function Late(ids: seq<nat>, at: nat): State {
    With(seq(|ids|, i requires 0 <= i < |ids| =>
               if ids[i] == 0 then Member(0, LoggingIn) else Member(ids[i], Receiving)) +
           [Member(5, Receiving), Member(7, Walking(MAIL, at))],
         Some(Node(3)), 1)
  }

  lemma LateSteps()
    ensures Reachable(Crowd()) && Crowd() == Late([0, 0], 0)
    ensures Enabled(Late([0, 0], 0), Walk(Node(3))) && Apply(Late([0, 0], 0), Walk(Node(3))) == Late([0, 0], 1)
    ensures Enabled(Late([0, 0], 1), Step.Login(0, 5)) && Apply(Late([0, 0], 1), Step.Login(0, 5)) == Late([5, 0], 1)
    ensures Enabled(Late([5, 0], 1), Step.Login(1, 5)) && Apply(Late([5, 0], 1), Step.Login(1, 5)) == Late([5, 5], 1)
  {
    CrowdReachable();
    assert Crowd() == Late([0, 0], 0);
    hide Reachable;
    Becomes(Late([0, 0], 0), Walk(Node(3)), Late([0, 0], 1));
    LateLogins();
  }

  lemma LateLogins()
    requires Reachable(Late([0, 0], 1))
    ensures Enabled(Late([0, 0], 1), Step.Login(0, 5)) && Apply(Late([0, 0], 1), Step.Login(0, 5)) == Late([5, 0], 1)
    ensures Enabled(Late([5, 0], 1), Step.Login(1, 5)) && Apply(Late([5, 0], 1), Step.Login(1, 5)) == Late([5, 5], 1)
  {
    hide Reachable;
    Becomes(Late([0, 0], 1), Step.Login(0, 5), Late([5, 0], 1));
    Becomes(Late([5, 0], 1), Step.Login(1, 5), Late([5, 5], 1));
  }

  /**
   * The two nodes in front log in with the id 5 as well, the first of them behind the back of the
   * search: it finds the second one, while the first match is the first.
   */
  lemma NotTheFirstMatch() returns (s: State, steps: seq<Step>)
    ensures Reachable(Crowd()) && Begins(Crowd(), Node(3)) && Search(Crowd(), Node(3), steps, s)
    ensures Searching(s, Node(3)) && Goal(s, Node(3)) == 5 && Place(s, Node(3)) == 1
    ensures |s.nodes| == 4 && s.nodes[1].id == 5 && FirstWith(Ids(s), 5) == Some(0)
    ensures Overtaken(Crowd(), Node(3), steps)
  {
    LateSteps();
    hide Reachable, Apply, Enabled;
    var t := Node(3);
    var walk, first, second := Walk(t), Step.Login(0, 5), Step.Login(1, 5);
    s, steps := Late([5, 5], 1), [walk, first, second];
    assert steps[1..] == [first, second] && [first, second][1..] == [second] && [second][1..] == [];
    assert Searching(Late([0, 0], 0), t) && Searching(Late([0, 0], 1), t) && Searching(Late([5, 0], 1), t) &&
           Searching(s, t);
    assert Search(s, t, [], s);
    assert Search(Late([5, 0], 1), t, [second], s);
    assert Search(Late([0, 0], 1), t, [first, second], s);
    assert Overtaken(Late([0, 0], 1), t, [first, second]);
    assert Ids(s)[0] == 5;
  }

  /** Nobody but the sender and a node that has not logged in yet. */
  function Pair(id: nat, at: nat): State {
    With([Member(id, if id == 0 then LoggingIn else Receiving), Member(7, Walking(MAIL, at))], Some(Node(1)), 1)
  }

  function PairOf(pc: Pc, route: Option<Thread>, received: nat): State {
    With([Member(0, LoggingIn), Member(if pc.LoggingIn? then 0 else 7, pc)], route, received)
  }

  lemma PairReachable()
    ensures Reachable(Pair(0, 0))
  {
    GuestsReachable(2);
    assert Guests(2) == [Member(0, LoggingIn), Member(0, LoggingIn)];
    hide Reachable;
    Becomes(PairOf(LoggingIn, None, 0), Step.Login(1, 7), PairOf(Receiving, None, 0));
    PairSends();
  }

  lemma PairSends()
    requires Reachable(PairOf(Receiving, None, 0))
    ensures Reachable(Pair(0, 0))
  {
    hide Reachable;
    Becomes(PairOf(Receiving, None, 0), ReadFrame(1, 5), PairOf(AtRoute(MAIL), None, 1));
    Becomes(PairOf(AtRoute(MAIL), None, 1), LockRoute(1), Pair(0, 0));
  }

  lemma PairSteps()
    ensures Reachable(Pair(0, 0))
    ensures Enabled(Pair(0, 0), Walk(Node(1))) && Apply(Pair(0, 0), Walk(Node(1))) == Pair(0, 1)
    ensures Enabled(Pair(0, 1), Walk(Node(1))) && Apply(Pair(0, 1), Walk(Node(1))) == Pair(0, 2)
    ensures Enabled(Pair(0, 2), Step.Login(0, 5)) && Apply(Pair(0, 2), Step.Login(0, 5)) == Pair(5, 2)
  {
    PairReachable();
    hide Reachable;
    Becomes(Pair(0, 0), Walk(Node(1)), Pair(0, 1));
    Becomes(Pair(0, 1), Walk(Node(1)), Pair(0, 2));
    Becomes(Pair(0, 2), Step.Login(0, 5), Pair(5, 2));
  }

  /** A message is dropped although a node with its destination's id is in the list. */
  lemma DroppedDespiteMatch() returns (s: State, steps: seq<Step>)
    ensures Reachable(Pair(0, 0)) && Begins(Pair(0, 0), Node(1)) && Search(Pair(0, 0), Node(1), steps, s)
    ensures Searching(s, Node(1)) && Goal(s, Node(1)) == 5 && FirstWith(Ids(s), 5) == Some(0)
    ensures Enabled(s, Walk(Node(1))) && Settled(s, Walk(Node(1))) == Some((MAIL, Dropped))
    ensures Overtaken(Pair(0, 0), Node(1), steps)
  {
    PairSteps();
    s := Pair(5, 2);
    var t := Node(1);
    GivesUp(s, t);
    hide Reachable, Apply, Enabled, Settled;
    var walk, login := Walk(t), Step.Login(0, 5);
    steps := [walk, walk, login];
    assert steps[1..] == [walk, login] && [walk, login][1..] == [login] && [login][1..] == [];
    assert Searching(Pair(0, 0), t) && Searching(Pair(0, 1), t) && Searching(Pair(0, 2), t);
    assert Search(s, t, [], s);
    assert Search(Pair(0, 2), t, [login], s) && Overtaken(Pair(0, 2), t, [login]);
    assert Search(Pair(0, 1), t, [walk, login], s) && Overtaken(Pair(0, 1), t, [walk, login]);
    assert Ids(s)[0] == 5;
  }
}

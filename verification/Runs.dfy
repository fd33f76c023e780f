/** What holds over every run of the broker. */
module Runs {
  import opened Text
  import opened Nodes
  import opened Broker

  // ----- where messages are -----

  /** The message whose fate is in the hands of thread t. */
  function Carried(s: State, t: Thread): Option<Mail> {
    if Exists(s, t) then CarriedAt(PcOf(s, t)) else None
  }

  function CarriedAt(pc: Pc): Option<Mail> {
    match pc
    case AtRoute(m) => Some(m)
    case Walking(m, _) => Some(m)
    case AtQueue(m, _) => Some(m)
    case _ => None
  }

  /** A carried message has been received, has no outcome yet, and comes from where its carrier reads. */
  ghost predicate CarriedInv(s: State, t: Thread) {
    Carried(s, t).Some? ==>
      var m := Carried(s, t).value;
      m.serial < s.received && m.serial !in s.outcomes && (m.fromGateway <==> t.Server?)
  }

  /** No message is carried twice. */
  ghost predicate OneCarrier(s: State, t: Thread, u: Thread) {
    Carried(s, t).Some? && Carried(s, u).Some? && Carried(s, t).value.serial == Carried(s, u).value.serial ==> t == u
  }

  ghost predicate Accounted(s: State, n: nat) {
    n in s.outcomes || exists t :: Carried(s, t).Some? && Carried(s, t).value.serial == n
  }

  /** Every message received has exactly one outcome, or is carried by exactly one thread. */
  ghost predicate MailInv(s: State) {
    (forall n :: n in s.outcomes ==> n < s.received) &&
    (forall t :: CarriedInv(s, t)) &&
    (forall t, u :: OneCarrier(s, t, u)) &&
    (forall n: nat :: n < s.received ==> Accounted(s, n))
  }

  lemma CarriedAfter(s: State, e: Step, t: Thread)
    requires Enabled(s, e)
    ensures Exists(s, Actor(e))
    ensures Carried(Apply(s, e), t) == if t == Actor(e) then CarriedAt(PcAfter(s, e)) else Carried(s, t)
  {
    PcsAfter(s, e, t);
    hide Apply, PcAfter, Enabled, Actor, PcOf;
  }

  /** How a step moves its actor's message: in from outside, on, or to its outcome. */
  lemma CarriedStep(s: State, e: Step)
    requires Enabled(s, e) && PlaceInv(s)
    ensures Exists(s, Actor(e))
    ensures var c, c' := Carried(s, Actor(e)), CarriedAt(PcAfter(s, e));
            match Settled(s, e)
            case Some((m, o)) =>
              c' == None && (e.ReadFrame? || c == Some(m)) && (e.ReadFrame? ==> m.serial == s.received && c == None)
            case None =>
              if e.ReadFrame? || e.ReadGateway? then c == None && c'.Some? && c'.value.serial == s.received
              else c' == c
    ensures var c' := CarriedAt(PcAfter(s, e));
            e.ReadFrame? || e.ReadGateway? ==> c'.Some? ==> (c'.value.fromGateway <==> Actor(e).Server?)
  {
    hide Ids, FirstWith;
  }

  lemma Ledger(s: State, e: Step)
    requires Enabled(s, e)
    ensures Apply(s, e).received == s.received + if e.ReadFrame? || e.ReadGateway? then 1 else 0
    ensures Apply(s, e).outcomes ==
              match Settled(s, e) case Some((m, o)) => s.outcomes[m.serial := o] case None => s.outcomes
    ensures Apply(s, e).offered == match Settled(s, e) case Some((m, Offered)) => s.offered + [m] case _ => s.offered
    ensures Settled(s, e).Some? ==> !e.ReadGateway?
  {
    hide NodeAfter, PcAfter, RouteAfter;
  }

  lemma CarriedKept(s: State, e: Step, t: Thread)
    requires Enabled(s, e) && MailInv(s) && PlaceInv(s)
    ensures CarriedInv(Apply(s, e), t)
  {
    CarriedStep(s, e);
    CarriedAfter(s, e, t);
    Ledger(s, e);
    hide Apply, Enabled, Settled, Actor, PcAfter, Carried, PlaceInv, Accounted;
    assert CarriedInv(s, t) && CarriedInv(s, Actor(e)) && OneCarrier(s, t, Actor(e));
  }

  lemma OneCarrierKept(s: State, e: Step, t: Thread, u: Thread)
    requires Enabled(s, e) && MailInv(s) && PlaceInv(s)
    ensures OneCarrier(Apply(s, e), t, u)
  {
    CarriedStep(s, e);
    CarriedAfter(s, e, t);
    CarriedAfter(s, e, u);
    hide Apply, Enabled, Settled, Actor, PcAfter, Carried, PlaceInv, Accounted;
    assert CarriedInv(s, t) && CarriedInv(s, u);
    assert OneCarrier(s, t, u);
  }

  lemma AccountedKept(s: State, e: Step, n: nat)
    requires Enabled(s, e) && MailInv(s) && PlaceInv(s) && n < Apply(s, e).received
    ensures Accounted(Apply(s, e), n)
  {
    CarriedStep(s, e);
    Ledger(s, e);
    CarriedAfter(s, e, Actor(e));
    var s' := Apply(s, e);
    hide Apply, Enabled, Settled, Actor, PcAfter, Carried, PlaceInv, CarriedInv, OneCarrier;
    if n < s.received && n !in s.outcomes {
      assert Accounted(s, n);
      var t :| Carried(s, t).Some? && Carried(s, t).value.serial == n;
      CarriedAfter(s, e, t);
      if t != Actor(e) {
        assert Carried(s', t).Some? && Carried(s', t).value.serial == n;
      }
    }
  }

  lemma MailKept(s: State, e: Step)
    requires Enabled(s, e) && MailInv(s) && PlaceInv(s)
    ensures MailInv(Apply(s, e))
  {
    hide Apply, Enabled, CarriedInv, OneCarrier, Accounted, PlaceInv, Settled;
    forall t ensures CarriedInv(Apply(s, e), t) { CarriedKept(s, e, t); }
    forall t, u ensures OneCarrier(Apply(s, e), t, u) { OneCarrierKept(s, e, t, u); }
    forall n: nat | n < Apply(s, e).received ensures Accounted(Apply(s, e), n) { AccountedKept(s, e, n); }
    OutcomesReceived(s, e);
  }

  lemma OutcomesReceived(s: State, e: Step)
    requires Enabled(s, e) && MailInv(s) && PlaceInv(s)
    ensures forall n :: n in Apply(s, e).outcomes ==> n < Apply(s, e).received
  {
    CarriedStep(s, e);
    Ledger(s, e);
    assert CarriedInv(s, Actor(e));
    hide Apply, Enabled, Settled, Actor, PcAfter, Carried, PlaceInv, Accounted;
  }

  // ----- what outcomes mean -----

  predicate Distinct(ms: seq<Mail>) {
    forall i, j :: 0 <= i < j < |ms| ==> ms[i].serial != ms[j].serial
  }

  predicate Has(ms: seq<Mail>, n: nat) {
    exists j :: 0 <= j < |ms| && ms[j].serial == n
  }

  /** Node k has been given exactly the messages whose outcome says so, each once. */
  ghost predicate BoxInv(s: State, k: nat)
    requires k < |s.nodes|
  {
    var box := s.nodes[k].enqueued;
    Distinct(box) &&
    (forall j :: 0 <= j < |box| ==> box[j].serial in s.outcomes && s.outcomes[box[j].serial] == Enqueued(k)) &&
    (forall n :: n in s.outcomes && s.outcomes[n] == Enqueued(k) ==> Has(box, n))
  }

  /** The gateway has been offered exactly the messages whose outcome says so, each once, and none of its own. */
  ghost predicate OfferInv(s: State) {
    Distinct(s.offered) &&
    (forall j :: 0 <= j < |s.offered| ==>
       s.offered[j].serial in s.outcomes && s.outcomes[s.offered[j].serial] == Offered && !s.offered[j].fromGateway) &&
    (forall n :: n in s.outcomes && s.outcomes[n] == Offered ==> Has(s.offered, n))
  }

  ghost predicate PostInv(s: State) {
    (forall k :: 0 <= k < |s.nodes| ==> BoxInv(s, k)) && OfferInv(s) &&
    (forall n :: n in s.outcomes && s.outcomes[n].Enqueued? ==> s.outcomes[n].k < |s.nodes|)
  }

  /** Only LockQueue settles a message by putting it into a queue. */
  lemma SettledStep(s: State, e: Step)
    requires Enabled(s, e) && PlaceInv(s)
    ensures Settled(s, e).Some? && Settled(s, e).value.1.Enqueued? <==> e.LockQueue?
    ensures e.LockQueue? ==>
              Settled(s, e).value == (PcOf(s, e.t).m, Enqueued(PcOf(s, e.t).k)) && PcOf(s, e.t).k < |s.nodes|
    ensures Settled(s, e).Some? && Settled(s, e).value.1.Offered? ==>
              e.Walk? && e.t.Node? && Carried(s, Actor(e)) == Some(Settled(s, e).value.0)
  {
    hide Ids, FirstWith;
  }

  lemma FreshSerial(s: State, e: Step)
    requires Enabled(s, e) && PlaceInv(s) && MailInv(s) && Settled(s, e).Some?
    ensures Settled(s, e).value.0.serial !in s.outcomes
  {
    CarriedStep(s, e);
    hide Apply, Enabled, Settled, Actor, PcAfter, Carried, PlaceInv, Accounted, OneCarrier;
    assert CarriedInv(s, Actor(e));
  }

  lemma HasMore(ms: seq<Mail>, m: Mail, n: nat)
    ensures Has(ms + [m], n) <==> Has(ms, n) || m.serial == n
  {
    if Has(ms, n) {
      var j :| 0 <= j < |ms| && ms[j].serial == n;
      assert (ms + [m])[j].serial == n;
    }
    if m.serial == n {
      assert (ms + [m])[|ms|].serial == n;
    }
  }

  lemma BoxKept(s: State, e: Step, k: nat)
    requires Enabled(s, e) && PlaceInv(s) && MailInv(s) && PostInv(s) && k < |s.nodes|
    ensures BoxInv(Apply(s, e), k)
  {
    Ledger(s, e);
    SettledStep(s, e);
    if Settled(s, e).Some? {
      FreshSerial(s, e);
    }
    var box := s.nodes[k].enqueued;
    assert Apply(s, e).nodes[k].enqueued == EnqueuedAfter(s, e, k);
    assert BoxInv(s, k);
    hide Apply, Enabled, Settled, PcAfter, PlaceInv, MailInv, OfferInv, Has, PcOf, NodeAfter, PostInv;
    forall n | n in Apply(s, e).outcomes && Apply(s, e).outcomes[n] == Enqueued(k)
      ensures Has(Apply(s, e).nodes[k].enqueued, n)
    {
      if e.LockQueue? && PcOf(s, e.t).k == k {
        HasMore(box, PcOf(s, e.t).m, n);
      }
    }
  }

  lemma OfferKept(s: State, e: Step)
    requires Enabled(s, e) && PlaceInv(s) && MailInv(s) && OfferInv(s)
    ensures OfferInv(Apply(s, e))
  {
    Ledger(s, e);
    SettledStep(s, e);
    if Settled(s, e).Some? {
      FreshSerial(s, e);
      assert CarriedInv(s, Actor(e));
    }
    hide Apply, Enabled, Settled, PcAfter, PlaceInv, MailInv, Has, PcOf, Carried;
    forall n | n in Apply(s, e).outcomes && Apply(s, e).outcomes[n] == Offered
      ensures Has(Apply(s, e).offered, n)
    {
      if Settled(s, e).Some? && Settled(s, e).value.1.Offered? {
        HasMore(s.offered, Settled(s, e).value.0, n);
      }
    }
  }

  lemma PostKept(s: State, e: Step)
    requires Enabled(s, e) && PlaceInv(s) && MailInv(s) && PostInv(s)
    ensures PostInv(Apply(s, e))
  {
    OfferKept(s, e);
    Ledger(s, e);
    SettledStep(s, e);
    NewNode(s, e);
    hide Apply, Enabled, Settled, PcAfter, PlaceInv, MailInv, OfferInv, BoxInv, PcOf;
    forall k | 0 <= k < |Apply(s, e).nodes| ensures BoxInv(Apply(s, e), k) {
      if k < |s.nodes| {
        BoxKept(s, e, k);
      } else {
        NewBox(s, e);
      }
    }
  }

  lemma NewBox(s: State, e: Step)
    requires Enabled(s, e) && PlaceInv(s) && PostInv(s) && |Apply(s, e).nodes| > |s.nodes|
    ensures BoxInv(Apply(s, e), |s.nodes|)
  {
    Ledger(s, e);
    NewNode(s, e);
    HeldBounds(s, e);
    assert Settled(s, e) == None;
    hide Apply, Enabled, PcAfter, PlaceInv, OfferInv, Has;
  }

  // ----- which node a message goes to -----

  /** A node's id does not change again once it is not 0. */
  lemma IdsAfter(s: State, e: Step, k: nat)
    requires Enabled(s, e) && IdInv(s) && k < |s.nodes|
    ensures Apply(s, e).nodes[k].id == s.nodes[k].id || s.nodes[k].id == 0
    ensures !e.Login? ==> Apply(s, e).nodes[k].id == s.nodes[k].id
  {
    hide HolderAfter, QueueAfter, EnqueuedAfter, WrittenAfter, PcAfter, Settled, Actor, RouteAfter;
  }

  /** A walk stays in the list, and a node that has been found has the destination's id. */
  ghost predicate WalkInv(s: State, t: Thread) {
    Exists(s, t) ==>
      match PcOf(s, t)
      case Walking(_, at) => at <= |s.nodes|
      case AtQueue(m, k) => m.to != 0 ==> k < |s.nodes| && s.nodes[k].id == m.to
      case _ => true
  }

  lemma WalkStep(s: State, e: Step)
    requires Enabled(s, e) && WalkInv(s, Actor(e))
    ensures Exists(s, Actor(e))
    ensures match PcAfter(s, e)
            case Walking(_, at) => at <= |s.nodes|
            case AtQueue(m, k) => m.to != 0 ==> k < |s.nodes| && s.nodes[k].id == m.to
            case _ => true
  {
  }

  lemma WalkKept(s: State, e: Step, t: Thread)
    requires Enabled(s, e) && IdInv(s) && WalkInv(s, t) && WalkInv(s, Actor(e))
    ensures WalkInv(Apply(s, e), t)
  {
    PcsAfter(s, e, t);
    WalkStep(s, e);
    var s' := Apply(s, e);
    hide Apply, Enabled, PcAfter, Actor, PcOf, NodeAfter;
    if Exists(s, t) {
      var pc := PcOf(s', t);
      if pc.AtQueue? && pc.k < |s.nodes| {
        IdsAfter(s, e, pc.k);
      }
    }
  }

  /** For a destination other than 0 the first match never disappears and never moves back. */
  lemma RouteMonotone(s: State, e: Step, d: nat)
    requires Enabled(s, e) && IdInv(s) && d != 0 && FirstWith(Ids(s), d).Some?
    ensures FirstWith(Ids(Apply(s, e)), d).Some? && FirstWith(Ids(Apply(s, e)), d).value <= FirstWith(Ids(s), d).value
  {
    FirstWithIs(Ids(s), d);
    FirstWithIs(Ids(Apply(s, e)), d);
    IdsAfter(s, e, FirstWith(Ids(s), d).value);
    hide Apply, FirstWith, Enabled;
  }

  /** The broker's own messages are not routed. */
  ghost predicate NotForBroker(s: State, t: Thread) {
    Exists(s, t) && t.Node? && (PcOf(s, t).Walking? || PcOf(s, t).AtQueue?) ==> PcOf(s, t).m.to != s.brokerId
  }

  /** A message in the box of a node is addressed to its id, and not to the broker unless the gateway sent it. */
  predicate Addressed(s: State, k: nat, m: Mail)
    requires k < |s.nodes|
  {
    (m.to != 0 ==> s.nodes[k].id == m.to) && (!m.fromGateway ==> m.to != s.brokerId)
  }

  ghost predicate AddressInv(s: State) {
    (forall t :: NotForBroker(s, t)) &&
    (forall k, j :: 0 <= k < |s.nodes| && 0 <= j < |s.nodes[k].enqueued| ==> Addressed(s, k, s.nodes[k].enqueued[j])) &&
    (forall j :: 0 <= j < |s.offered| ==> s.offered[j].to != s.brokerId)
  }

  lemma BrokerIdKept(s: State, e: Step)
    requires Enabled(s, e)
    ensures Apply(s, e).brokerId == s.brokerId
  {
    hide NodeAfter, PcAfter, RouteAfter, Settled, Enabled;
  }

  lemma NotForBrokerKept(s: State, e: Step, t: Thread)
    requires Enabled(s, e) && NotForBroker(s, t) && NotForBroker(s, Actor(e))
    ensures NotForBroker(Apply(s, e), t)
  {
    PcsAfter(s, e, t);
    BrokerIdKept(s, e);
    hide Apply, Ids, FirstWith, NodeAfter;
  }

  lemma AddressedKept(s: State, e: Step, k: nat, j: nat)
    requires Enabled(s, e) && IdInv(s) && MailInv(s) && AddressInv(s) && WalkInv(s, Actor(e)) && PlaceInv(s)
    requires k < |s.nodes| && j < |Apply(s, e).nodes[k].enqueued|
    requires forall i :: 0 <= i < |s.nodes[k].enqueued| ==> s.nodes[k].id == 0 ==> s.nodes[k].enqueued[i].to == 0
    ensures Addressed(Apply(s, e), k, Apply(s, e).nodes[k].enqueued[j])
  {
    BrokerIdKept(s, e);
    IdsAfter(s, e, k);
    var box := s.nodes[k].enqueued;
    assert Apply(s, e).nodes[k].enqueued == EnqueuedAfter(s, e, k);
    if j < |box| {
      assert Addressed(s, k, box[j]);
      hide Apply, NodeAfter, PcOf, Enabled;
    } else {
      assert NotForBroker(s, Actor(e)) && CarriedInv(s, Actor(e));
      hide Apply, NodeAfter, MailInv, IdInv, PlaceInv, Settled;
    }
  }

  lemma AddressKept(s: State, e: Step)
    requires Enabled(s, e) && IdInv(s) && MailInv(s) && AddressInv(s) && PlaceInv(s) && WalkInv(s, Actor(e))
    ensures AddressInv(Apply(s, e))
  {
    BrokerIdKept(s, e);
    NewNode(s, e);
    OfferedKept(s, e);
    var s' := Apply(s, e);
    forall t ensures NotForBroker(s', t) { NotForBrokerKept(s, e, t); }
    forall k, j | 0 <= k < |s'.nodes| && 0 <= j < |s'.nodes[k].enqueued|
      ensures Addressed(s', k, s'.nodes[k].enqueued[j])
    {
      if k < |s.nodes| {
        forall i | 0 <= i < |s.nodes[k].enqueued| && s.nodes[k].id == 0
          ensures s.nodes[k].enqueued[i].to == 0
        {
          assert Addressed(s, k, s.nodes[k].enqueued[i]);
        }
        AddressedKept(s, e, k, j);
      }
    }
    hide Apply, Enabled, NotForBroker, Addressed;
  }

  lemma OfferedKept(s: State, e: Step)
    requires Enabled(s, e) && AddressInv(s) && PlaceInv(s)
    ensures forall j :: 0 <= j < |Apply(s, e).offered| ==> Apply(s, e).offered[j].to != s.brokerId
  {
    Ledger(s, e);
    SettledStep(s, e);
    assert NotForBroker(s, Actor(e));
    hide Apply, NodeAfter, Addressed, PcAfter, FirstWith, Ids;
  }

  // ----- deadlock -----

  /** A thread in the middle of an operation, rather than waiting for input or done. */
  predicate Busy(s: State, t: Thread) {
    Exists(s, t) && !PcOf(s, t).LoggingIn? && !PcOf(s, t).Receiving? && !PcOf(s, t).Serving? && !PcOf(s, t).Stopped?
  }

  /** The one step a busy thread takes next. */
  function NextStep(s: State, t: Thread): Step
    requires Busy(s, t)
  {
    match PcOf(s, t)
    case Walking(_, _) => Walk(t)
    case AtQueue(_, _) => LockQueue(t)
    case Writing(_, _) => Write(t)
    case Leaving(_) => UnlockQueue(t)
    case pc => if t.Node? then OwnStep(t.i, pc) else Accept
  }

  /** The steps only node threads take. */
  function OwnStep(i: nat, pc: Pc): Step {
    match pc
    case AtRoute(_) => LockRoute(i)
    case Routed => UnlockRoute(i)
    case Checking => Check(i)
    case AtOwnQueue => LockOwn(i)
    case Popping => Pop(i)
    case _ => UnlockOwn(i)
  }

  /** t waits for a mutex that u holds. */
  predicate WaitsFor(s: State, t: Thread, u: Thread) {
    Exists(s, t) && Exists(s, u) &&
    match PcOf(s, t)
    case AtRoute(_) => s.route == Some(u)
    case AtQueue(_, k) => k < |s.nodes| && s.nodes[k].holder == Some(u)
    case AtOwnQueue => t.Node? && s.nodes[t.i].holder == Some(u)
    case _ => false
  }

  predicate CanGoOn(s: State, t: Thread) {
    Busy(s, t) && Enabled(s, NextStep(s, t))
  }

  ghost predicate LockInv(s: State) {
    RouteInv(s) && PlaceInv(s) && QueueInv(s) && PopInv(s)
  }

  /** The holder of a queue mutex waits for nothing. */
  lemma QueueHolderGoesOn(s: State, k: nat)
    requires LockInv(s) && k < |s.nodes| && s.nodes[k].holder.Some?
    ensures CanGoOn(s, s.nodes[k].holder.value)
  {
    assert HeldInv(s, s.nodes[k].holder.value);
  }

  lemma QueueWaiter(s: State, t: Thread) returns (u: Thread)
    requires LockInv(s) && Exists(s, t) && (PcOf(s, t).AtQueue? || (PcOf(s, t).AtOwnQueue? && t.Node?))
    ensures CanGoOn(s, u) && (u == t || WaitsFor(s, t, u))
  {
    var k := if PcOf(s, t).AtQueue? then PcOf(s, t).k else t.i;
    if s.nodes[k].holder.Some? {
      QueueHolderGoesOn(s, k);
      u := s.nodes[k].holder.value;
      assert HeldInv(s, u);
    } else {
      u := t;
    }
  }

  /**
   * No reachable state deadlocks: behind every busy thread there is one that can go on - itself, the
   * holder of the mutex it waits for, or the holder of the queue mutex that holder waits for.
   */
  lemma NoDeadlock(s: State, t: Thread) returns (u: Thread)
    requires LockInv(s) && Busy(s, t)
    ensures CanGoOn(s, u)
    ensures u == t || WaitsFor(s, t, u) || exists v :: WaitsFor(s, t, v) && WaitsFor(s, v, u)
  {
    var pc := PcOf(s, t);
    if pc.AtRoute? && s.route.Some? {
      var h := s.route.value;
      assert HoldsRoute(s.nodes[h.i].pc);
      assert WaitsFor(s, t, h);
      if PcOf(s, h).AtQueue? {
        u := QueueWaiter(s, h);
      } else {
        u := h;
      }
    } else if pc.AtQueue? || pc.AtOwnQueue? {
      ServerQueue(s, t);
      u := QueueWaiter(s, t);
    } else {
      u := t;
      ServerPlaces(s);
    }
  }

  lemma ServerQueue(s: State, t: Thread)
    requires PlaceInv(s) && Exists(s, t)
    ensures PcOf(s, t).AtOwnQueue? ==> t.Node?
  {
  }

  lemma ServerPlaces(s: State)
    requires PlaceInv(s)
    ensures s.server.Serving? || s.server.Walking? || s.server.AtQueue? || s.server.Writing? || s.server.Leaving?
  {
  }

  // ----- runs -----

  predicate Run(s: State, steps: seq<Step>, s': State)
    decreases |steps|
  {
    if steps == [] then s == s' else Enabled(s, steps[0]) && Run(Apply(s, steps[0]), steps[1..], s')
  }

  ghost predicate Inv(s: State) {
    LockInv(s) && WriteInv(s) && SuffixInv(s) && IdInv(s) && MailInv(s) && PostInv(s) && AddressInv(s) &&
    forall t :: WalkInv(s, t)
  }

  lemma InitialInv(brokerId: nat, hasGateway: bool)
    ensures Inv(Initial(brokerId, hasGateway))
  {
  }

  lemma InvKept(s: State, e: Step)
    requires Enabled(s, e) && Inv(s)
    ensures Inv(Apply(s, e))
  {
    hide Apply, Enabled, RouteInv, PlaceInv, QueueInv, PopInv, WriteInv, SuffixInv, IdInv, MailInv, PostInv,
         AddressInv, WalkInv;
    RouteKept(s, e);
    PlaceKept(s, e);
    QueueKept(s, e);
    PopKept(s, e);
    WriteKept(s, e);
    SuffixKept(s, e);
    IdKept(s, e);
    MailKept(s, e);
    PostKept(s, e);
    AddressKept(s, e);
    forall t ensures WalkInv(Apply(s, e), t) { WalkKept(s, e, t); }
  }

  lemma {:induction false} RunsKeepInv(s: State, steps: seq<Step>, s': State)
    requires Inv(s) && Run(s, steps, s')
    ensures Inv(s')
    decreases |steps|
  {
    hide Inv, Apply, Enabled;
    if steps != [] {
      InvKept(s, steps[0]);
      RunsKeepInv(Apply(s, steps[0]), steps[1..], s');
    }
  }

  lemma {:induction false} RunsKeepRoutes(s: State, steps: seq<Step>, s': State, d: nat)
    requires Inv(s) && Run(s, steps, s') && d != 0 && FirstWith(Ids(s), d).Some?
    ensures FirstWith(Ids(s'), d).Some? && FirstWith(Ids(s'), d).value <= FirstWith(Ids(s), d).value
    decreases |steps|
  {
    if steps != [] {
      RouteMonotone(s, steps[0], d);
      InvKept(s, steps[0]);
      hide Inv, Apply, Enabled, FirstWith;
      RunsKeepRoutes(Apply(s, steps[0]), steps[1..], s', d);
    }
  }

  // ----- queues are taken off one by one -----

  function Pops(steps: seq<Step>, k: nat): nat {
    if steps == [] then 0 else (if steps[0] == Pop(k) then 1 else 0) + Pops(steps[1..], k)
  }

  /** How many messages have been taken off queue k. */
  function Taken(s: State, k: nat): int {
    if k < |s.nodes| then |s.nodes[k].enqueued| - |s.nodes[k].queue| else 0
  }

  lemma TakenStep(s: State, e: Step, k: nat)
    requires Enabled(s, e)
    ensures Taken(Apply(s, e), k) == Taken(s, k) + if e == Pop(k) then 1 else 0
    ensures e == Pop(k) ==>
              k < |s.nodes| && s.nodes[k].queue != [] && Apply(s, e).nodes[k].queue == s.nodes[k].queue[1..]
  {
    NewNode(s, e);
    hide HolderAfter, WrittenAfter, PcAfter, Settled, Ids;
  }

  lemma {:induction false} TakenInRun(s: State, steps: seq<Step>, s': State, k: nat)
    requires Run(s, steps, s')
    ensures Taken(s', k) == Taken(s, k) + Pops(steps, k)
    decreases |steps|
  {
    hide Apply, Enabled, Taken;
    if steps != [] {
      TakenStep(s, steps[0], k);
      TakenInRun(Apply(s, steps[0]), steps[1..], s', k);
    }
  }

  /** Over every run a node's queue loses one message for each pop, always the one in front. */
  lemma QueuesLoseOnePerPop(brokerId: nat, hasGateway: bool, steps: seq<Step>, s: State, k: nat)
    requires Run(Initial(brokerId, hasGateway), steps, s) && k < |s.nodes|
    ensures |s.nodes[k].enqueued| - |s.nodes[k].queue| == Pops(steps, k)
    ensures s.nodes[k].queue == s.nodes[k].enqueued[Pops(steps, k)..]
  {
    TakenInRun(Initial(brokerId, hasGateway), steps, s, k);
    hide Run, Inv, Taken, Pops, Initial;
    TakenAtStart(brokerId, hasGateway, s, k);
    assert Reachable(s);
    QueuesInOrder(s, k);
  }

  lemma TakenAtStart(brokerId: nat, hasGateway: bool, s: State, k: nat)
    ensures Taken(Initial(brokerId, hasGateway), k) == 0
    ensures k < |s.nodes| ==> Taken(s, k) == |s.nodes[k].enqueued| - |s.nodes[k].queue|
  {
  }

  /**
   * A node reads again only once it has looked at its queue since: having found it empty, or having
   * taken one message off it.
   */
  lemma LooksBeforeReading(s: State, e: Step, i: nat)
    requires Enabled(s, e) && i < |s.nodes| && Actor(e) == Node(i)
    ensures var pc, pc' := s.nodes[i].pc, PcAfter(s, e);
            (pc'.Receiving? <==>
               (pc.LoggingIn? && e.Login?) || (pc.Checking? && s.nodes[i].queue == []) || pc.LeavingOwn?) &&
            (pc'.LeavingOwn? <==> e.Pop?) && (pc'.Popping? <==> e.LockOwn?) &&
            (pc.Checking? && s.nodes[i].queue != [] ==> pc'.AtOwnQueue?) &&
            (pc.Receiving? ==> pc'.Checking? || pc'.AtRoute? || pc'.Stopped?) && (pc.Routed? ==> pc'.Checking?)
  {
  }

  // ----- what every run comes to -----

  /** A state some run of a broker leads to. */
  ghost predicate Reachable(s: State) {
    exists brokerId, hasGateway, steps :: Run(Initial(brokerId, hasGateway), steps, s)
  }

  lemma ReachableInv(s: State)
    requires Reachable(s)
    ensures Inv(s)
  {
    hide Inv, Run, Initial;
    var brokerId, hasGateway, steps :| Run(Initial(brokerId, hasGateway), steps, s);
    InitialInv(brokerId, hasGateway);
    RunsKeepInv(Initial(brokerId, hasGateway), steps, s);
  }

  /** No thread is ever stuck behind others that are stuck. */
  lemma NeverDeadlocked(s: State, t: Thread) returns (u: Thread)
    requires Reachable(s) && Busy(s, t)
    ensures CanGoOn(s, u)
    ensures u == t || WaitsFor(s, t, u) || exists v :: WaitsFor(s, t, v) && WaitsFor(s, v, u)
  {
    ReachableInv(s);
    hide Reachable, Busy, WaitsFor, CanGoOn, LockInv;
    assert LockInv(s);
    u := NoDeadlock(s, t);
  }

  /**
   * Each node's messages are written in the order they were enqueued, its queue holds the latest
   * ones, and it never takes a message off an empty queue.
   */
  lemma QueuesInOrder(s: State, k: nat)
    requires Reachable(s) && k < |s.nodes|
    ensures s.nodes[k].written <= s.nodes[k].enqueued && |s.nodes[k].enqueued| <= |s.nodes[k].written| + 1
    ensures SuffixOf(s.nodes[k].queue, s.nodes[k].enqueued)
    ensures s.nodes[k].pc.Popping? ==> s.nodes[k].queue != []
  {
    ReachableInv(s);
    hide Reachable, QueueInv, MailInv, PostInv, AddressInv, WalkInv;
    assert s.nodes[k].enqueued == s.nodes[k].written + Pending(s, k);
  }

  function InTransit(s: State): set<nat> {
    (set i | 0 <= i < |s.nodes| && Carried(s, Node(i)).Some? :: Carried(s, Node(i)).value.serial) +
    (if Carried(s, Server).Some? then {Carried(s, Server).value.serial} else {})
  }

  /** The serial numbers below n. */
  function UpTo(n: nat): (ns: set<nat>)
    ensures |ns| == n && forall i: nat :: i in ns <==> i < n
  {
    if n == 0 then {} else UpTo(n - 1) + {n - 1}
  }

  lemma CarriedInTransit(s: State, t: Thread)
    requires Carried(s, t).Some?
    ensures Carried(s, t).value.serial in InTransit(s)
  {
    if t.Node? {
      assert Exists(s, t) && Carried(s, Node(t.i)).Some?;
    }
  }

  lemma TransitIsOpen(s: State, n: nat)
    requires MailInv(s) && n in InTransit(s)
    ensures n < s.received && n !in s.outcomes
  {
    var t := CarrierOf(s, n);
    assert CarriedInv(s, t);
    hide InTransit;
  }

  lemma AllAccounted(s: State, n: nat)
    requires MailInv(s) && n < s.received
    ensures n in s.outcomes.Keys || n in InTransit(s)
  {
    assert Accounted(s, n);
    if n !in s.outcomes {
      var t :| Carried(s, t).Some? && Carried(s, t).value.serial == n;
      CarriedInTransit(s, t);
    }
  }

  lemma OutcomesBelow(s: State, n: nat)
    requires MailInv(s) && n in s.outcomes
    ensures n < s.received
  {
  }

  /** The messages received are those with an outcome and those in transit, and none is both. */
  lemma CountsAddUp(s: State)
    requires Reachable(s)
    ensures s.outcomes.Keys !! InTransit(s)
    ensures s.outcomes.Keys + InTransit(s) == UpTo(s.received)
    ensures |s.outcomes| + |InTransit(s)| == s.received
  {
    ReachableInv(s);
    assert MailInv(s);
    hide *;
    var done, transit, all := s.outcomes.Keys, InTransit(s), UpTo(s.received);
    forall n: nat ensures n in done + transit <==> n in all {
      if n in transit { TransitIsOpen(s, n); }
      if n in done { OutcomesBelow(s, n); }
      if n < s.received { AllAccounted(s, n); }
    }
    forall n | n in transit ensures n !in done { TransitIsOpen(s, n); }
    assert done + transit == all;
    assert |done + transit| == |done| + |transit|;
  }

  lemma CarrierOf(s: State, n: nat) returns (t: Thread)
    requires n in InTransit(s)
    ensures Carried(s, t).Some? && Carried(s, t).value.serial == n
  {
    if Carried(s, Server).Some? && Carried(s, Server).value.serial == n {
      t := Server;
    } else {
      var i :| 0 <= i < |s.nodes| && Carried(s, Node(i)).Some? && Carried(s, Node(i)).value.serial == n;
      t := Node(i);
    }
  }

  /**
   * A message settled as enqueued has been put into the queue of exactly that node, exactly once;
   * the gateway is offered exactly the messages settled so, once each, and never one it sent.
   */
  lemma OutcomesAreKept(s: State, n: nat)
    requires Reachable(s) && n in s.outcomes
    ensures forall k :: 0 <= k < |s.nodes| ==> (Has(s.nodes[k].enqueued, n) <==> s.outcomes[n] == Enqueued(k))
    ensures forall k :: 0 <= k < |s.nodes| ==> Distinct(s.nodes[k].enqueued)
    ensures Has(s.offered, n) <==> s.outcomes[n] == Offered
    ensures Distinct(s.offered) && forall j :: 0 <= j < |s.offered| ==> !s.offered[j].fromGateway
  {
    ReachableInv(s);
    hide Reachable, LockInv, WriteInv, SuffixInv, IdInv, MailInv, AddressInv, WalkInv;
    forall k | 0 <= k < |s.nodes|
      ensures Has(s.nodes[k].enqueued, n) <==> s.outcomes[n] == Enqueued(k)
      ensures Distinct(s.nodes[k].enqueued)
    {
      assert BoxInv(s, k);
    }
  }

  /** Whatever is queued for or written to a node is addressed to its id. */
  lemma DeliveredToAddressee(s: State, k: nat, m: Mail)
    requires Reachable(s) && k < |s.nodes| && m in s.nodes[k].enqueued
    ensures m.to != 0 ==> s.nodes[k].id == m.to
    ensures !m.fromGateway ==> m.to != s.brokerId
  {
    ReachableInv(s);
    var j :| 0 <= j < |s.nodes[k].enqueued| && s.nodes[k].enqueued[j] == m;
    assert AddressInv(s);
    assert Addressed(s, k, s.nodes[k].enqueued[j]);
    hide Reachable, Inv, AddressInv;
  }

  /** From any point of a run on, routes only come into being or move towards the front of the list. */
  lemma RoutesOnlyImprove(s: State, steps: seq<Step>, s': State, d: nat)
    requires Reachable(s) && Run(s, steps, s') && d != 0 && FirstWith(Ids(s), d).Some?
    ensures FirstWith(Ids(s'), d).Some? && FirstWith(Ids(s'), d).value <= FirstWith(Ids(s), d).value
  {
    hide Reachable, Run, Inv, FirstWith;
    ReachableInv(s);
    RunsKeepRoutes(s, steps, s', d);
  }
}

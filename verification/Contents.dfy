/**
 * What the broker's messages say.  The threads of module Broker, with the characters they read and
 * write: a serial number stands for the message a complete buffer was read as.
 */
module Contents {
  import opened Text
  import opened Values
  import opened Parser
  import opened Messages
  import opened Logins
  import opened Frames
  import opened Nodes
  import opened Broker
  import opened Runs
  import Walks

  /** How texts are read and written. */
  datatype Codec = Codec(arrives: string -> Arrival, prints: Value -> string)

  function CodecOf(c: Config): Codec {
    Codec(raw => Arrived(c, raw), json => Frame(c.printDouble, json))
  }

  /** A message received: by which thread, as which text, and how it was understood. */
  datatype Letter = Letter(source: Thread, raw: string, msg: Msg)

  /** All that a thread has read, what it has assembled from it, and what EnqueueMsg has written to its node. */
  datatype Io = Io(heard: seq<string>, inbox: Assembly, wire: seq<string>)

  const SILENT := Io([], START, [])

  /** The message with serial number n is `letters[n]`. */
  datatype Full = Full(core: State, nodes: seq<Io>, gateway: Io, letters: seq<Letter>)

  /** A read, or any other step. */
  datatype Event = Hear(t: Thread, chunk: string) | Move(e: Broker.Step)

  predicate Reads(e: Broker.Step) {
    e.Login? || e.ReadPart? || e.ReadFrame? || e.ReadGateway?
  }

  function IoOf(f: Full, t: Thread): Io {
    match t
    case Node(i) => if i < |f.nodes| then f.nodes[i] else SILENT
    case Server => f.gateway
  }

  /** The buffer once the chunk is in it, and what it is as a message. */
  function Buffered(f: Full, ev: Event): string
    requires ev.Hear?
  {
    IoOf(f, ev.t).inbox.buffer + ev.chunk
  }

  function Understood(d: Codec, f: Full, ev: Event): Arrival
    requires ev.Hear?
  {
    if Complete(Buffered(f, ev)) then d.arrives(Buffered(f, ev)) else Nothing
  }

  /** The id a node gets by the first message that parses. */
  function IdFrom(m: Msg): nat {
    if m.name == MSG_LOGIN_NAME then m.from else 0
  }

  /** The step of the threads that an event is; none if a thread just reads on. */
  function StepOf(d: Codec, f: Full, ev: Event): Option<Broker.Step> {
    match ev
    case Move(e) => Some(e)
    case Hear(t, _) => StepOfRead(f.core, t, Understood(d, f, ev))
  }

  function StepOfRead(s: State, t: Thread, a: Arrival): Option<Broker.Step> {
    match t
    case Server => if a.Message? then Some(ReadGateway(a.m.to)) else None
    case Node(i) =>
      if Broker.At(s, i, LoggingIn) then (if a.Message? then Some(Broker.Step.Login(i, IdFrom(a.m))) else None)
      else if a.Message? then Some(ReadFrame(i, a.m.to))
      else Some(ReadPart(i))
  }

  /** An exception would end the program, and the run with it. */
  predicate Possible(d: Codec, f: Full, ev: Event) {
    match ev
    case Move(e) => !Reads(e) && Enabled(f.core, e)
    case Hear(t, _) =>
      !Understood(d, f, ev).Exception? &&
      match t
      case Server => f.core.server.Serving? && f.core.hasGateway
      case Node(i) => Broker.At(f.core, i, LoggingIn) || Broker.At(f.core, i, Receiving)
  }

  function CoreAfter(d: Codec, f: Full, ev: Event): State
    requires Possible(d, f, ev)
  {
    match StepOf(d, f, ev)
    case Some(e) => Apply(f.core, e)
    case None => f.core
  }

  /** What is written for a message. */
  function Outgoing(d: Codec, letters: seq<Letter>, n: nat): string {
    if n < |letters| then d.prints(letters[n].msg.json) else ""
  }

  function IoAfter(d: Codec, f: Full, ev: Event, t: Thread): Io {
    var io := IoOf(f, t);
    match ev
    case Hear(u, chunk) => if u == t then Io(io.heard + [chunk], Feed(io.inbox, chunk), io.wire) else io
    case Move(Write(u)) =>
      if Exists(f.core, u) && PcOf(f.core, u).Writing? && t == Node(PcOf(f.core, u).k) then
        io.(wire := io.wire + [Outgoing(d, f.letters, PcOf(f.core, u).m.serial)])
      else io
    case _ => io
  }

  function NewLetter(d: Codec, f: Full, ev: Event): Letter
    requires ev.Hear? && Understood(d, f, ev).Message?
  {
    Letter(ev.t, Buffered(f, ev), Understood(d, f, ev).m)
  }

  /** Reading a message in the receive loop, or from the gateway, gives it the next serial number. */
  function LettersAfter(d: Codec, f: Full, ev: Event): seq<Letter> {
    if ev.Hear? && Understood(d, f, ev).Message? && !(ev.t.Node? && Broker.At(f.core, ev.t.i, LoggingIn)) then
      f.letters + [NewLetter(d, f, ev)]
    else f.letters
  }

  function Next(d: Codec, f: Full, ev: Event): (f': Full)
    requires Possible(d, f, ev)
    ensures |f'.nodes| == |f'.core.nodes| && f'.gateway == IoAfter(d, f, ev, Server)
    ensures f'.core == CoreAfter(d, f, ev) && f'.letters == LettersAfter(d, f, ev)
  {
    var s := CoreAfter(d, f, ev);
    Full(s, seq(|s.nodes|, i requires 0 <= i < |s.nodes| => IoAfter(d, f, ev, Node(i))),
         IoAfter(d, f, ev, Server), LettersAfter(d, f, ev))
  }

  function Beginning(brokerId: nat, hasGateway: bool): Full {
    Full(Initial(brokerId, hasGateway), [], SILENT, [])
  }

  predicate Course(d: Codec, f: Full, events: seq<Event>, f': Full)
    decreases |events|
  {
    if events == [] then f == f' else Possible(d, f, events[0]) && Course(d, Next(d, f, events[0]), events[1..], f')
  }

  /** A state that some reads and steps lead to. */
  ghost predicate Attainable(d: Codec, f: Full) {
    exists brokerId, hasGateway, events :: Course(d, Beginning(brokerId, hasGateway), events, f)
  }

  // ----- one event, seen from each part -----

  ghost predicate Matches(f: Full) {
    |f.nodes| == |f.core.nodes| && |f.letters| == f.core.received && Inv(f.core)
  }

  lemma IoIs(d: Codec, f: Full, ev: Event, t: Thread)
    requires Possible(d, f, ev) && |f.nodes| == |f.core.nodes|
    ensures IoOf(Next(d, f, ev), t) == IoAfter(d, f, ev, t)
    ensures |Next(d, f, ev).nodes| == |Next(d, f, ev).core.nodes|
  {
    hide Understood, Outgoing, Feed, Apply, PcAfter, Settled;
  }

  lemma CoreIs(d: Codec, f: Full, ev: Event)
    requires Possible(d, f, ev)
    ensures match StepOf(d, f, ev)
            case Some(e) => Enabled(f.core, e) && Next(d, f, ev).core == Apply(f.core, e)
            case None => Next(d, f, ev).core == f.core
    ensures Next(d, f, ev).letters == LettersAfter(d, f, ev)
  {
    hide Understood, Outgoing, Feed, Apply, IoAfter, LettersAfter;
  }

  /** An event gives a serial number to a message if and only if its step does. */
  lemma LettersStep(d: Codec, f: Full, ev: Event)
    requires Possible(d, f, ev)
    ensures var e := StepOf(d, f, ev);
            if e.Some? && (e.value.ReadFrame? || e.value.ReadGateway?) then
              ev.Hear? && Understood(d, f, ev).Message? && Actor(e.value) == ev.t &&
              (if e.value.ReadFrame? then ev.t.Node? && e.value.to == Understood(d, f, ev).m.to
               else ev.t.Server? && e.value.to == Understood(d, f, ev).m.to) &&
              NewLetter(d, f, ev).source == ev.t && NewLetter(d, f, ev).msg.to == Understood(d, f, ev).m.to &&
              LettersAfter(d, f, ev) == f.letters + [NewLetter(d, f, ev)]
            else LettersAfter(d, f, ev) == f.letters
  {
    hide Understood, Buffered;
  }

  lemma MatchesKept(d: Codec, f: Full, ev: Event)
    requires Possible(d, f, ev) && Matches(f)
    ensures Matches(Next(d, f, ev))
  {
    hide *;
    assert Matches(f) ==> |f.nodes| == |f.core.nodes| && |f.letters| == f.core.received && Inv(f.core) by {
      MatchesMeans(f);
    }
    CoreIs(d, f, ev);
    LettersStep(d, f, ev);
    IoIs(d, f, ev, Server);
    if StepOf(d, f, ev).Some? {
      InvKept(f.core, StepOf(d, f, ev).value);
      Ledger(f.core, StepOf(d, f, ev).value);
    }
    MatchesMeans(Next(d, f, ev));
  }

  lemma MatchesMeans(f: Full)
    ensures Matches(f) <==> |f.nodes| == |f.core.nodes| && |f.letters| == f.core.received && Inv(f.core)
  {
    hide Inv;
  }

  // ----- messages and serial numbers -----

  /** A message in transit goes where the letter with its number goes, and comes from where that comes from. */
  predicate Genuine(letters: seq<Letter>, m: Mail) {
    m.serial < |letters| && letters[m.serial].msg.to == m.to && (m.fromGateway <==> letters[m.serial].source.Server?)
  }

  /** What thread t carries is the last message it has read. */
  predicate IsLast(letters: seq<Letter>, carried: Option<Mail>, t: Thread) {
    carried.Some? ==>
      var m := carried.value;
      Genuine(letters, m) && letters[m.serial].source == t &&
      forall n :: m.serial < n < |letters| ==> letters[n].source != t
  }

  /** A node is given the messages of each sender in the order they were read. */
  predicate InTurn(letters: seq<Letter>, box: seq<Mail>) {
    (forall j :: 0 <= j < |box| ==> Genuine(letters, box[j])) &&
    (forall i, j :: 0 <= i < j < |box| && letters[box[i].serial].source == letters[box[j].serial].source ==>
       box[i].serial < box[j].serial)
  }

  ghost predicate CarriersInv(f: Full) {
    forall t :: IsLast(f.letters, Carried(f.core, t), t)
  }

  predicate BoxesInv(f: Full) {
    forall k :: 0 <= k < |f.core.nodes| ==> InTurn(f.letters, f.core.nodes[k].enqueued)
  }

  // A new letter changes nothing about the messages there are.

  lemma StillLast(letters: seq<Letter>, l: Letter, carried: Option<Mail>, t: Thread)
    requires IsLast(letters, carried, t) && l.source != t
    ensures IsLast(letters + [l], carried, t)
  {
  }

  lemma StillInTurn(letters: seq<Letter>, l: Letter, box: seq<Mail>)
    requires InTurn(letters, box)
    ensures InTurn(letters + [l], box)
  {
    assert forall j :: 0 <= j < |box| ==> (letters + [l])[box[j].serial] == letters[box[j].serial];
  }

  lemma NewIsLast(letters: seq<Letter>, l: Letter, m: Mail, t: Thread)
    requires m.serial == |letters| && l.source == t && m.to == l.msg.to && (m.fromGateway <==> t.Server?)
    ensures IsLast(letters + [l], Some(m), t)
  {
  }

  /** The last message of its sender comes behind all others of that sender. */
  lemma LastInTurn(letters: seq<Letter>, box: seq<Mail>, m: Mail, t: Thread)
    requires InTurn(letters, box) && IsLast(letters, Some(m), t)
    requires forall j :: 0 <= j < |box| ==> box[j].serial != m.serial
    ensures InTurn(letters, box + [m])
  {
    forall i | 0 <= i < |box| && letters[box[i].serial].source == t ensures box[i].serial < m.serial {
      assert Genuine(letters, box[i]);
    }
  }

  lemma ReadsMail(s: State, e: Broker.Step)
    requires Enabled(s, e) && (e.ReadFrame? || e.ReadGateway?) && CarriedAt(PcAfter(s, e)).Some?
    ensures CarriedAt(PcAfter(s, e)).value.to == e.to && e.to == CarriedAt(PcAfter(s, e)).value.to
  {
  }

  lemma MatchedCore(f: Full)
    requires Matches(f)
    ensures PlaceInv(f.core) && MailInv(f.core) && PostInv(f.core) && |f.letters| == f.core.received
  {
    hide PlaceInv, MailInv, PostInv;
  }

  lemma CarrierOfNew(d: Codec, f: Full, ev: Event)
    requires Possible(d, f, ev) && Matches(f)
    requires StepOf(d, f, ev).Some? && (StepOf(d, f, ev).value.ReadFrame? || StepOf(d, f, ev).value.ReadGateway?)
    ensures IsLast(Next(d, f, ev).letters, Carried(Next(d, f, ev).core, ev.t), ev.t)
  {
    hide *;
    var e := StepOf(d, f, ev).value;
    MatchedCore(f);
    CoreIs(d, f, ev);
    LettersStep(d, f, ev);
    CarriedAfter(f.core, e, ev.t);
    CarriedStep(f.core, e);
    var carried := CarriedAt(PcAfter(f.core, e));
    if carried.Some? {
      ReadsMail(f.core, e);
      NewIsLast(f.letters, NewLetter(d, f, ev), carried.value, ev.t);
    } else {
      NothingIsLast(Next(d, f, ev).letters, ev.t);
    }
  }

  lemma NothingIsLast(letters: seq<Letter>, t: Thread)
    ensures IsLast(letters, None, t)
  {
  }

  lemma CarriedLast(f: Full, t: Thread)
    requires CarriersInv(f)
    ensures IsLast(f.letters, Carried(f.core, t), t)
  {
  }

  lemma CarrierKept(d: Codec, f: Full, ev: Event, t: Thread)
    requires Possible(d, f, ev) && Matches(f) && CarriersInv(f)
    ensures IsLast(Next(d, f, ev).letters, Carried(Next(d, f, ev).core, t), t)
  {
    hide *;
    var e := StepOf(d, f, ev);
    CoreIs(d, f, ev);
    LettersStep(d, f, ev);
    CarriedLast(f, t);
    if e.Some? {
      CarriedAfter(f.core, e.value, t);
      if e.value.ReadFrame? || e.value.ReadGateway? {
        if t == ev.t {
          CarrierOfNew(d, f, ev);
        } else {
          StillLast(f.letters, NewLetter(d, f, ev), Carried(f.core, t), t);
        }
      } else {
        MatchedCore(f);
        CarriedStep(f.core, e.value);
        NothingIsLast(f.letters, t);
      }
    }
  }

  lemma CarriersKept(d: Codec, f: Full, ev: Event)
    requires Possible(d, f, ev) && Matches(f) && CarriersInv(f)
    ensures CarriersInv(Next(d, f, ev))
  {
    hide Possible, Next, Matches, IsLast, Carried;
    forall t ensures IsLast(Next(d, f, ev).letters, Carried(Next(d, f, ev).core, t), t) {
      CarrierKept(d, f, ev, t);
    }
  }

  // ----- the boxes -----

  lemma BoxAfter(s: State, e: Broker.Step, k: nat)
    requires Enabled(s, e)
    ensures k < |s.nodes| ==> k < |Apply(s, e).nodes| && Apply(s, e).nodes[k].enqueued == EnqueuedAfter(s, e, k)
    ensures |s.nodes| <= k < |Apply(s, e).nodes| ==> Apply(s, e).nodes[k].enqueued == Apply(s, e).nodes[k].written == []
  {
    NewNode(s, e);
    hide HolderAfter, QueueAfter, EnqueuedAfter, PcAfter, Settled, Enabled, Actor;
  }

  /** What a step puts into box k: the message of its actor, which has not been in any box. */
  lemma BoxStep(s: State, e: Broker.Step, k: nat)
    requires Enabled(s, e) && PlaceInv(s) && MailInv(s) && PostInv(s) && k < |s.nodes|
    ensures EnqueuedAfter(s, e, k) == s.nodes[k].enqueued ||
            (!e.ReadFrame? && !e.ReadGateway? && Carried(s, Actor(e)).Some? &&
             EnqueuedAfter(s, e, k) == s.nodes[k].enqueued + [Carried(s, Actor(e)).value] &&
             forall j :: 0 <= j < |s.nodes[k].enqueued| ==>
               s.nodes[k].enqueued[j].serial != Carried(s, Actor(e)).value.serial)
  {
    if e.LockQueue? {
      SettledStep(s, e);
      FreshSerial(s, e);
      CarriedStep(s, e);
      assert BoxInv(s, k);
    }
    hide Enabled, Settled, PcAfter, PlaceInv, MailInv, OfferInv, Has, PostInv, Carried, Apply;
  }

  lemma BoxKept(d: Codec, f: Full, ev: Event, k: nat)
    requires Possible(d, f, ev) && Matches(f) && CarriersInv(f) && BoxesInv(f) && k < |Next(d, f, ev).core.nodes|
    ensures InTurn(Next(d, f, ev).letters, Next(d, f, ev).core.nodes[k].enqueued)
  {
    hide *;
    var e := StepOf(d, f, ev);
    CoreIs(d, f, ev);
    LettersStep(d, f, ev);
    if e.Some? {
      BoxAfter(f.core, e.value, k);
    }
    if k >= |f.core.nodes| {
      EmptyInTurn(Next(d, f, ev).letters);
    } else {
      InTurnAt(f, k);
      if e.Some? {
        MatchedCore(f);
        BoxStep(f.core, e.value, k);
        var box := f.core.nodes[k].enqueued;
        if EnqueuedAfter(f.core, e.value, k) == box {
          if e.value.ReadFrame? || e.value.ReadGateway? {
            StillInTurn(f.letters, NewLetter(d, f, ev), box);
          }
        } else {
          CarriedLast(f, Actor(e.value));
          LastInTurn(f.letters, box, Carried(f.core, Actor(e.value)).value, Actor(e.value));
        }
      }
    }
  }

  lemma EmptyInTurn(letters: seq<Letter>)
    ensures InTurn(letters, [])
  {
  }

  lemma InTurnAt(f: Full, k: nat)
    requires BoxesInv(f) && k < |f.core.nodes|
    ensures InTurn(f.letters, f.core.nodes[k].enqueued)
  {
  }

  lemma BoxesKept(d: Codec, f: Full, ev: Event)
    requires Possible(d, f, ev) && Matches(f) && CarriersInv(f) && BoxesInv(f)
    ensures BoxesInv(Next(d, f, ev))
  {
    hide Possible, Next, Matches, CarriersInv, InTurn;
    forall k | 0 <= k < |Next(d, f, ev).core.nodes|
      ensures InTurn(Next(d, f, ev).letters, Next(d, f, ev).core.nodes[k].enqueued)
    {
      BoxKept(d, f, ev, k);
    }
  }

  // ----- what is written -----

  /** What has been written for messages is the text of each, in order. */
  predicate Transcribes(d: Codec, letters: seq<Letter>, wire: seq<string>, written: seq<Mail>) {
    |wire| == |written| && forall j :: 0 <= j < |wire| ==> wire[j] == Outgoing(d, letters, written[j].serial)
  }

  predicate WiresInv(d: Codec, f: Full) {
    forall k :: 0 <= k < |f.core.nodes| ==> Transcribes(d, f.letters, IoOf(f, Node(k)).wire, f.core.nodes[k].written)
  }

  lemma WriteStep(d: Codec, f: Full, ev: Event, k: nat)
    requires Possible(d, f, ev) && k < |f.core.nodes|
    ensures var e, io := StepOf(d, f, ev), IoOf(f, Node(k));
            if e.Some? && e.value.Write? && PcOf(f.core, e.value.t).k == k then
              IoAfter(d, f, ev, Node(k)).wire == io.wire + [Outgoing(d, f.letters, PcOf(f.core, e.value.t).m.serial)] &&
              WrittenAfter(f.core, e.value, k) == f.core.nodes[k].written + [PcOf(f.core, e.value.t).m]
            else
              IoAfter(d, f, ev, Node(k)).wire == io.wire &&
              (e.Some? ==> WrittenAfter(f.core, e.value, k) == f.core.nodes[k].written)
    ensures StepOf(d, f, ev).Some? && StepOf(d, f, ev).value.Write? ==>
              var e := StepOf(d, f, ev).value;
              LettersAfter(d, f, ev) == f.letters && Exists(f.core, e.t) && PcOf(f.core, e.t).Writing?
  {
    hide Understood, Outgoing, Feed;
  }

  lemma WrittenIs(s: State, e: Broker.Step, k: nat)
    requires Enabled(s, e) && k < |s.nodes|
    ensures k < |Apply(s, e).nodes| && Apply(s, e).nodes[k].written == WrittenAfter(s, e, k)
  {
    hide HolderAfter, QueueAfter, EnqueuedAfter, WrittenAfter, PcAfter, Settled, Enabled, Actor;
  }

  /** Whatever has been written has been enqueued, hence has a letter. */
  lemma WrittenGenuine(f: Full, k: nat)
    requires Matches(f) && BoxesInv(f) && k < |f.core.nodes|
    ensures f.core.nodes[k].written <= f.core.nodes[k].enqueued
    ensures forall j :: 0 <= j < |f.core.nodes[k].written| ==> f.core.nodes[k].written[j].serial < |f.letters|
  {
    InTurnAt(f, k);
    assert WriteInv(f.core);
    assert f.core.nodes[k].enqueued == f.core.nodes[k].written + Pending(f.core, k);
    hide BoxesInv, Inv, Matches, Pending, WriteInv;
    forall j | 0 <= j < |f.core.nodes[k].written| ensures f.core.nodes[k].written[j].serial < |f.letters| {
      assert Genuine(f.letters, f.core.nodes[k].enqueued[j]);
    }
  }

  lemma StillTranscribes(d: Codec, letters: seq<Letter>, l: Letter, wire: seq<string>, written: seq<Mail>)
    requires Transcribes(d, letters, wire, written)
    requires forall j :: 0 <= j < |written| ==> written[j].serial < |letters|
    ensures Transcribes(d, letters + [l], wire, written)
  {
    forall j | 0 <= j < |wire| ensures wire[j] == Outgoing(d, letters + [l], written[j].serial) {
      assert (letters + [l])[written[j].serial] == letters[written[j].serial];
    }
  }

  lemma TranscribesMore(d: Codec, letters: seq<Letter>, wire: seq<string>, written: seq<Mail>, m: Mail)
    requires Transcribes(d, letters, wire, written)
    ensures Transcribes(d, letters, wire + [Outgoing(d, letters, m.serial)], written + [m])
  {
  }

  lemma WireKept(d: Codec, f: Full, ev: Event, k: nat)
    requires Possible(d, f, ev) && Matches(f) && BoxesInv(f) && WiresInv(d, f) && k < |Next(d, f, ev).core.nodes|
    ensures Transcribes(d, Next(d, f, ev).letters, IoOf(Next(d, f, ev), Node(k)).wire,
                        Next(d, f, ev).core.nodes[k].written)
  {
    hide *;
    var e := StepOf(d, f, ev);
    MatchesMeans(f);
    CoreIs(d, f, ev);
    LettersStep(d, f, ev);
    IoIs(d, f, ev, Node(k));
    if k >= |f.core.nodes| {
      NewWire(d, f, ev, k);
      BoxAfter(f.core, e.value, k);
      NothingWritten(d, Next(d, f, ev).letters);
    } else {
      WireAt(d, f, k);
      WrittenGenuine(f, k);
      WriteStep(d, f, ev, k);
      if e.Some? {
        WrittenIs(f.core, e.value, k);
        var io, written := IoOf(f, Node(k)), f.core.nodes[k].written;
        if e.value.Write? && PcOf(f.core, e.value.t).k == k {
          TranscribesMore(d, f.letters, io.wire, written, PcOf(f.core, e.value.t).m);
        } else if e.value.ReadFrame? || e.value.ReadGateway? {
          StillTranscribes(d, f.letters, NewLetter(d, f, ev), io.wire, written);
        }
      }
    }
  }

  lemma NewWire(d: Codec, f: Full, ev: Event, k: nat)
    requires Possible(d, f, ev) && |f.nodes| == |f.core.nodes| <= k
    ensures IoAfter(d, f, ev, Node(k)) == SILENT
  {
    hide Understood;
  }

  lemma NothingWritten(d: Codec, letters: seq<Letter>)
    ensures Transcribes(d, letters, SILENT.wire, [])
  {
  }

  lemma WireAt(d: Codec, f: Full, k: nat)
    requires WiresInv(d, f) && k < |f.core.nodes|
    ensures Transcribes(d, f.letters, IoOf(f, Node(k)).wire, f.core.nodes[k].written)
  {
  }

  lemma WiresKept(d: Codec, f: Full, ev: Event)
    requires Possible(d, f, ev) && Matches(f) && BoxesInv(f) && WiresInv(d, f)
    ensures WiresInv(d, Next(d, f, ev))
  {
    hide Possible, Next, Matches, BoxesInv, Transcribes, IoOf;
    forall k | 0 <= k < |Next(d, f, ev).core.nodes|
      ensures Transcribes(d, Next(d, f, ev).letters, IoOf(Next(d, f, ev), Node(k)).wire,
                          Next(d, f, ev).core.nodes[k].written)
    {
      WireKept(d, f, ev, k);
    }
  }

  // ----- what is read -----

  /** Those of the texts handed over that are messages. */
  function Parsed(d: Codec, frames: seq<string>): seq<string> {
    if frames == [] then []
    else
      var last := |frames| - 1;
      Parsed(d, frames[..last]) + if d.arrives(frames[last]).Message? then [frames[last]] else []
  }

  /** The texts of the messages from one thread, in the order of their numbers. */
  function From(letters: seq<Letter>, t: Thread): seq<string> {
    if letters == [] then []
    else
      var last := |letters| - 1;
      From(letters[..last], t) + if letters[last].source == t then [letters[last].raw] else []
  }

  /** A node's first message is its login. */
  function Behind(parsed: seq<string>): seq<string> {
    if parsed == [] then [] else parsed[1..]
  }

  /** Where a node stands, given the messages it has read. */
  predicate Stands(d: Codec, parsed: seq<string>, node: NodeState) {
    (node.pc.LoggingIn? ==> parsed == []) &&
    (!node.pc.LoggingIn? && !node.pc.Stopped? ==> parsed != []) &&
    node.id == if parsed == [] then 0 else IdRead(d, parsed[0])
  }

  function IdRead(d: Codec, raw: string): nat {
    if d.arrives(raw).Message? then IdFrom(d.arrives(raw).m) else 0
  }

  /** What a thread's messages are: what it has assembled from its reads. */
  ghost predicate Faithful(d: Codec, f: Full, t: Thread) {
    var io := IoOf(f, t);
    var parsed := Parsed(d, io.inbox.frames);
    io.inbox == FeedAll(START, io.heard) &&
    From(f.letters, t) == (if t.Server? then parsed else Behind(parsed)) &&
    (t.Node? && t.i < |f.core.nodes| ==> Stands(d, parsed, f.core.nodes[t.i]))
  }

  ghost predicate SourcesInv(d: Codec, f: Full) {
    forall t :: Faithful(d, f, t)
  }

  lemma ParsedMore(d: Codec, frames: seq<string>, b: string)
    ensures Parsed(d, frames + [b]) == Parsed(d, frames) + if d.arrives(b).Message? then [b] else []
  {
    assert (frames + [b])[..|frames|] == frames;
  }

  lemma FromMore(letters: seq<Letter>, l: Letter, t: Thread)
    ensures From(letters + [l], t) == From(letters, t) + if l.source == t then [l.raw] else []
  {
    assert (letters + [l])[..|letters|] == letters;
  }

  lemma {:induction false} FeedMore(a: Assembly, heard: seq<string>, chunk: string)
    ensures FeedAll(a, heard + [chunk]) == Feed(FeedAll(a, heard), chunk)
    decreases |heard|
  {
    hide Feed;
    if heard == [] {
      assert ([] + [chunk])[1..] == [];
    } else {
      assert (heard + [chunk])[1..] == heard[1..] + [chunk];
      FeedMore(Feed(a, heard[0]), heard[1..], chunk);
    }
  }

  /** What the thread that reads has read afterwards. */
  lemma HearStep(d: Codec, f: Full, ev: Event)
    requires ev.Hear? && IoOf(f, ev.t).inbox == FeedAll(START, IoOf(f, ev.t).heard)
    ensures var io, io' := IoOf(f, ev.t), IoAfter(d, f, ev, ev.t);
            io'.inbox == FeedAll(START, io'.heard) &&
            Parsed(d, io'.inbox.frames) ==
              Parsed(d, io.inbox.frames) + if Understood(d, f, ev).Message? then [Buffered(f, ev)] else []
  {
    var io := IoOf(f, ev.t);
    FeedMore(START, io.heard, ev.chunk);
    ParsedMore(d, io.inbox.frames, Buffered(f, ev));
    hide Parsed, FeedAll, Complete, IoOf;
  }

  /** What an event does to the node at i, apart from its queue. */
  lemma NodeStep(d: Codec, f: Full, ev: Event, i: nat)
    requires Possible(d, f, ev) && i < |f.core.nodes|
    ensures var e, s' := StepOf(d, f, ev), Next(d, f, ev).core;
            i < |s'.nodes| &&
            s'.nodes[i].id ==
              (if e.Some? && e.value.Login? && e.value.i == i then e.value.id else f.core.nodes[i].id) &&
            s'.nodes[i].pc ==
              if e.Some? && Actor(e.value) == Node(i) then PcAfter(f.core, e.value) else f.core.nodes[i].pc
  {
    CoreIs(d, f, ev);
    hide StepOf, HolderAfter, QueueAfter, EnqueuedAfter, WrittenAfter, PcAfter, Settled, Enabled, Actor, Possible, Next;
  }

  /** Where the steps of a node's thread lead, seen from its login. */
  lemma PhaseStep(s: State, e: Broker.Step)
    requires Enabled(s, e) && Actor(e).Node?
    ensures Exists(s, Actor(e))
    ensures var pc, pc' := PcOf(s, Actor(e)), PcAfter(s, e);
            !pc.Stopped? && !pc'.LoggingIn? && (pc.LoggingIn? <==> e.Login? || (e.HangUp? && pc.LoggingIn?)) &&
            (e.HangUp? ==> pc'.Stopped?)
  {
  }

  /** A step that reads nothing. */
  lemma MoveStands(d: Codec, f: Full, ev: Event, i: nat, parsed: seq<string>)
    requires Possible(d, f, ev) && ev.Move? && i < |f.core.nodes| && Stands(d, parsed, f.core.nodes[i])
    ensures i < |Next(d, f, ev).core.nodes| && Stands(d, parsed, Next(d, f, ev).core.nodes[i])
  {
    hide *;
    NodeStep(d, f, ev, i);
    CoreIs(d, f, ev);
    MoveIs(d, f, ev);
    if Actor(ev.e) == Node(i) {
      PhaseStep(f.core, ev.e);
      PcOfNode(f.core, i);
    }
    StandsMeans(d, parsed, f.core.nodes[i]);
    StandsMeans(d, parsed, Next(d, f, ev).core.nodes[i]);
  }

  lemma MoveIs(d: Codec, f: Full, ev: Event)
    requires Possible(d, f, ev) && ev.Move?
    ensures StepOf(d, f, ev) == Some(ev.e) && !ev.e.Login? && !ev.e.ReadFrame? && !ev.e.ReadGateway? &&
            Enabled(f.core, ev.e)
    ensures LettersAfter(d, f, ev) == f.letters
    ensures forall t :: IoAfter(d, f, ev, t).inbox == IoOf(f, t).inbox && IoAfter(d, f, ev, t).heard == IoOf(f, t).heard
  {
    hide Enabled, Outgoing;
  }

  lemma PcOfNode(s: State, i: nat)
    requires i < |s.nodes|
    ensures Exists(s, Node(i)) && PcOf(s, Node(i)) == s.nodes[i].pc
  {
  }

  lemma StandsMeans(d: Codec, parsed: seq<string>, node: NodeState)
    ensures Stands(d, parsed, node) <==>
              (node.pc.LoggingIn? ==> parsed == []) &&
              (!node.pc.LoggingIn? && !node.pc.Stopped? ==> parsed != []) &&
              node.id == if parsed == [] then 0 else IdRead(d, parsed[0])
  {
    hide IdRead;
  }

  /** A read, seen from the node that reads. */
  lemma HearStands(d: Codec, f: Full, ev: Event, parsed: seq<string>)
    requires Possible(d, f, ev) && ev.Hear? && ev.t.Node? && ev.t.i < |f.core.nodes|
    requires Stands(d, parsed, f.core.nodes[ev.t.i])
    ensures var parsed' := parsed + if Understood(d, f, ev).Message? then [Buffered(f, ev)] else [];
            ev.t.i < |Next(d, f, ev).core.nodes| && Stands(d, parsed', Next(d, f, ev).core.nodes[ev.t.i]) &&
            LettersAfter(d, f, ev) ==
              (if Understood(d, f, ev).Message? && parsed != [] then f.letters + [NewLetter(d, f, ev)]
               else f.letters) &&
            Behind(parsed') ==
              Behind(parsed) + if Understood(d, f, ev).Message? && parsed != [] then [Buffered(f, ev)] else []
  {
    NodeStep(d, f, ev, ev.t.i);
    CoreIs(d, f, ev);
    hide Next, Buffered, IoOf, Complete, IdFrom, Enabled;
  }

  /** A read, seen from another thread. */
  lemma HearElsewhere(d: Codec, f: Full, ev: Event, t: Thread)
    requires Possible(d, f, ev) && ev.Hear? && ev.t != t
    ensures IoAfter(d, f, ev, t) == IoOf(f, t)
    ensures LettersAfter(d, f, ev) == f.letters ||
            (Understood(d, f, ev).Message? && LettersAfter(d, f, ev) == f.letters + [NewLetter(d, f, ev)])
    ensures t.Node? && t.i < |f.core.nodes| ==>
              t.i < |Next(d, f, ev).core.nodes| && Next(d, f, ev).core.nodes[t.i].pc == f.core.nodes[t.i].pc &&
              Next(d, f, ev).core.nodes[t.i].id == f.core.nodes[t.i].id
    ensures |Next(d, f, ev).core.nodes| == |f.core.nodes|
  {
    if t.Node? && t.i < |f.core.nodes| {
      NodeStep(d, f, ev, t.i);
    }
    CoreIs(d, f, ev);
    hide Next, Buffered, IoOf, Understood, IdFrom, Enabled, NewLetter;
  }

  lemma FaithfulMeans(d: Codec, f: Full, t: Thread)
    ensures var io := IoOf(f, t);
            var parsed := Parsed(d, io.inbox.frames);
            Faithful(d, f, t) <==>
              io.inbox == FeedAll(START, io.heard) &&
              From(f.letters, t) == (if t.Server? then parsed else Behind(parsed)) &&
              (t.Node? && t.i < |f.core.nodes| ==> Stands(d, parsed, f.core.nodes[t.i]))
  {
    hide IoOf, Parsed, FeedAll, From, Behind, Stands;
  }

  lemma MoveKeeps(d: Codec, f: Full, ev: Event, t: Thread)
    requires Possible(d, f, ev) && |f.nodes| == |f.core.nodes| && Faithful(d, f, t) && ev.Move?
    ensures Faithful(d, Next(d, f, ev), t)
  {
    hide *;
    var parsed := Parsed(d, IoOf(f, t).inbox.frames);
    FaithfulMeans(d, f, t);
    FaithfulMeans(d, Next(d, f, ev), t);
    IoIs(d, f, ev, t);
    MoveIs(d, f, ev);
    CoreIs(d, f, ev);
    if t.Node? && t.i < |f.core.nodes| {
      MoveStands(d, f, ev, t.i, parsed);
    } else if t.Node? && t.i < |Next(d, f, ev).core.nodes| {
      NewStands(d, f.core, ev.e, t.i);
      NewWire(d, f, ev, t.i);
    }
  }

  lemma NewStands(d: Codec, s: State, e: Broker.Step, i: nat)
    requires Enabled(s, e) && |s.nodes| <= i < |Apply(s, e).nodes|
    ensures Stands(d, Parsed(d, SILENT.inbox.frames), Apply(s, e).nodes[i])
  {
    NewNode(s, e);
    hide Apply, Enabled;
  }

  lemma ServerHears(d: Codec, f: Full, ev: Event)
    requires Possible(d, f, ev) && ev.Hear? && ev.t.Server?
    ensures LettersAfter(d, f, ev) ==
              if Understood(d, f, ev).Message? then f.letters + [NewLetter(d, f, ev)] else f.letters
  {
    hide Understood, NewLetter;
  }

  lemma NewLetterIs(d: Codec, f: Full, ev: Event)
    requires ev.Hear? && Understood(d, f, ev).Message?
    ensures NewLetter(d, f, ev).source == ev.t && NewLetter(d, f, ev).raw == Buffered(f, ev)
    ensures Complete(Buffered(f, ev)) && d.arrives(Buffered(f, ev)) == Message(NewLetter(d, f, ev).msg)
  {
    hide Complete, Buffered;
  }

  lemma HearerKeeps(d: Codec, f: Full, ev: Event)
    requires Possible(d, f, ev) && |f.nodes| == |f.core.nodes| && ev.Hear? && Faithful(d, f, ev.t)
    requires ev.t.Node? ==> ev.t.i < |f.core.nodes|
    ensures Faithful(d, Next(d, f, ev), ev.t)
  {
    hide *;
    var t := ev.t;
    var parsed := Parsed(d, IoOf(f, t).inbox.frames);
    FaithfulMeans(d, f, t);
    FaithfulMeans(d, Next(d, f, ev), t);
    IoIs(d, f, ev, t);
    CoreIs(d, f, ev);
    HearStep(d, f, ev);
    if Understood(d, f, ev).Message? {
      NewLetterIs(d, f, ev);
      FromMore(f.letters, NewLetter(d, f, ev), t);
    }
    if t.Node? {
      HearStands(d, f, ev, parsed);
    } else {
      ServerHears(d, f, ev);
    }
  }

  lemma OthersKeep(d: Codec, f: Full, ev: Event, t: Thread)
    requires Possible(d, f, ev) && |f.nodes| == |f.core.nodes| && ev.Hear? && ev.t != t && Faithful(d, f, t)
    ensures Faithful(d, Next(d, f, ev), t)
  {
    hide *;
    var parsed := Parsed(d, IoOf(f, t).inbox.frames);
    FaithfulMeans(d, f, t);
    FaithfulMeans(d, Next(d, f, ev), t);
    IoIs(d, f, ev, t);
    CoreIs(d, f, ev);
    HearElsewhere(d, f, ev, t);
    if Understood(d, f, ev).Message? {
      NewLetterIs(d, f, ev);
      FromMore(f.letters, NewLetter(d, f, ev), t);
    }
    if t.Node? && t.i < |f.core.nodes| {
      StandsMeans(d, parsed, f.core.nodes[t.i]);
      StandsMeans(d, parsed, Next(d, f, ev).core.nodes[t.i]);
    }
  }

  lemma HearerExists(d: Codec, f: Full, ev: Event)
    requires Possible(d, f, ev) && ev.Hear? && ev.t.Node?
    ensures ev.t.i < |f.core.nodes|
  {
    hide Understood;
  }

  lemma SourcesKept(d: Codec, f: Full, ev: Event)
    requires Possible(d, f, ev) && |f.nodes| == |f.core.nodes| && SourcesInv(d, f)
    ensures SourcesInv(d, Next(d, f, ev))
  {
    hide Possible, Next, Faithful;
    forall t ensures Faithful(d, Next(d, f, ev), t) {
      if ev.Move? {
        MoveKeeps(d, f, ev, t);
      } else if ev.t == t {
        if t.Node? {
          HearerExists(d, f, ev);
        }
        HearerKeeps(d, f, ev);
      } else {
        OthersKeep(d, f, ev, t);
      }
    }
  }

  /** Every letter is a complete text that was read as a message. */
  predicate LettersInv(d: Codec, letters: seq<Letter>) {
    forall n :: 0 <= n < |letters| ==> Complete(letters[n].raw) && d.arrives(letters[n].raw) == Message(letters[n].msg)
  }

  lemma LettersKept(d: Codec, f: Full, ev: Event)
    requires Possible(d, f, ev) && LettersInv(d, f.letters)
    ensures LettersInv(d, Next(d, f, ev).letters)
  {
    CoreIs(d, f, ev);
    LettersStep(d, f, ev);
    if ev.Hear? && Understood(d, f, ev).Message? {
      NewLetterIs(d, f, ev);
    }
    hide Possible, Next, Complete, Understood, Buffered, StepOf, NewLetter, LettersAfter;
  }

  // ----- what becomes of a message -----

  /** The outcome that a message's sender and destination allow; `id` is the sender's, if it is a node. */
  predicate Allowed(o: Broker.Outcome, l: Letter, id: nat, brokerId: nat, hasGateway: bool) {
    if l.source.Server? then o.Enqueued? || o.Unclaimed?
    else if l.msg.to == id then o.KeptBySender?
    else if l.msg.to == brokerId then o.KeptByBroker?
    else o.Enqueued? || (if hasGateway then o.Offered? else o.Dropped?)
  }

  function IdOf(s: State, t: Thread): nat {
    if t.Node? && t.i < |s.nodes| then s.nodes[t.i].id else 0
  }

  /** What has become of message n, if anything, is what had to; its sender, if a node, is logged in. */
  predicate Fated(f: Full, n: nat)
    requires n < |f.letters|
  {
    var l := f.letters[n];
    (l.source.Node? ==> l.source.i < |f.core.nodes| && !f.core.nodes[l.source.i].pc.LoggingIn?) &&
    (n in f.core.outcomes ==>
       Allowed(f.core.outcomes[n], l, IdOf(f.core, l.source), f.core.brokerId, f.core.hasGateway))
  }

  predicate FatesInv(f: Full) {
    forall n :: 0 <= n < |f.letters| ==> Fated(f, n)
  }

  /** What a node carries is not for itself. */
  predicate NotItsOwn(s: State, t: Thread) {
    t.Node? && Carried(s, t).Some? ==> Carried(s, t).value.to != IdOf(s, t)
  }

  ghost predicate OthersInv(f: Full) {
    forall t :: NotItsOwn(f.core, t)
  }

  /** A step that leaves ids, the phases of nodes and the broker as they are, seen from thread t. */
  lemma IdStep(s: State, e: Broker.Step, t: Thread)
    requires Enabled(s, e) && t.Node? && t.i < |s.nodes|
    ensures t.i < |Apply(s, e).nodes|
    ensures !s.nodes[t.i].pc.LoggingIn? ==>
              IdOf(Apply(s, e), t) == IdOf(s, t) && !Apply(s, e).nodes[t.i].pc.LoggingIn?
    ensures Apply(s, e).brokerId == s.brokerId && Apply(s, e).hasGateway == s.hasGateway
  {
    BrokerIdKept(s, e);
    GatewayKept(s, e);
    PcsAfter(s, e, t);
    if Actor(e) == t {
      PhaseStep(s, e);
      PcOfNode(s, t.i);
    }
    IdSeen(s, e, t.i);
    hide Apply, Enabled, PcAfter, Actor;
  }

  lemma IdSeen(s: State, e: Broker.Step, i: nat)
    requires Enabled(s, e) && i < |s.nodes|
    ensures i < |Apply(s, e).nodes|
    ensures Apply(s, e).nodes[i].id == (if e.Login? && e.i == i then e.id else s.nodes[i].id)
    ensures e.Login? && e.i == i ==> s.nodes[i].pc.LoggingIn?
  {
    hide HolderAfter, QueueAfter, EnqueuedAfter, WrittenAfter, PcAfter, Settled, RouteAfter;
  }

  lemma GatewayKept(s: State, e: Broker.Step)
    requires Enabled(s, e)
    ensures Apply(s, e).hasGateway == s.hasGateway
  {
    hide NodeAfter, PcAfter, RouteAfter, Settled, Enabled;
  }

  /** What a step carries on is not for its actor, and what it settles has the outcome it had to have. */
  lemma FateStep(s: State, e: Broker.Step)
    requires Enabled(s, e) && PlaceInv(s) && NotItsOwn(s, Actor(e)) && NotForBroker(s, Actor(e))
    ensures var t, c' := Actor(e), CarriedAt(PcAfter(s, e));
            (t.Node? && c'.Some? ==> c'.value.to != IdOf(s, t)) &&
            match Settled(s, e)
            case Some((m, o)) =>
              if t.Server? then o.Enqueued? || o.Unclaimed?
              else if m.to == IdOf(s, t) then o.KeptBySender?
              else if m.to == s.brokerId then o.KeptByBroker?
              else o.Enqueued? || (if s.hasGateway then o.Offered? else o.Dropped?)
            case None => true
  {
  }

  lemma CarrierLoggedIn(s: State, t: Thread)
    requires Carried(s, t).Some? && t.Node?
    ensures t.i < |s.nodes| && !s.nodes[t.i].pc.LoggingIn?
  {
  }

  lemma NotItsOwnKept(s: State, e: Broker.Step, t: Thread)
    requires Enabled(s, e) && PlaceInv(s) && NotItsOwn(s, t) && NotItsOwn(s, Actor(e)) && NotForBroker(s, Actor(e))
    ensures NotItsOwn(Apply(s, e), t)
  {
    hide Apply, Enabled, PcAfter, Actor, Carried, IdOf, PlaceInv, NotForBroker, Settled;
    CarriedAfter(s, e, t);
    FateStep(s, e);
    if t.Node? && Carried(Apply(s, e), t).Some? {
      if t == Actor(e) {
        ActorPhase(s, e);
        IdStep(s, e, t);
      } else {
        CarrierLoggedIn(s, t);
        IdStep(s, e, t);
      }
    }
  }

  lemma ActorPhase(s: State, e: Broker.Step)
    requires Enabled(s, e) && Actor(e).Node?
    ensures Actor(e).i < |s.nodes|
    ensures CarriedAt(PcAfter(s, e)).Some? ==> !s.nodes[Actor(e).i].pc.LoggingIn?
    ensures e.ReadFrame? ==> !s.nodes[Actor(e).i].pc.LoggingIn?
  {
  }

  lemma OthersKept(d: Codec, f: Full, ev: Event)
    requires Possible(d, f, ev) && Matches(f) && OthersInv(f)
    ensures OthersInv(Next(d, f, ev))
  {
    hide Possible, Next, Matches, NotItsOwn, StepOf, PlaceInv, NotForBroker, Inv;
    CoreIs(d, f, ev);
    if StepOf(d, f, ev).Some? {
      var e := StepOf(d, f, ev).value;
      MatchedCore(f);
      forall t ensures NotItsOwn(Next(d, f, ev).core, t) {
        CarrierNotForBroker(f, Actor(e));
        NotItsOwnKept(f.core, e, t);
      }
    }
  }

  lemma CarrierNotForBroker(f: Full, t: Thread)
    requires Matches(f)
    ensures NotForBroker(f.core, t) && PlaceInv(f.core)
  {
    assert AddressInv(f.core);
    hide PlaceInv, NotForBroker;
  }

  /** A message settled by other steps than reading it was the one its actor carried. */
  lemma SettledLetter(s: State, e: Broker.Step)
    requires Enabled(s, e) && Settled(s, e).Some? && e.ReadFrame?
    ensures Settled(s, e).value.0.to == e.to && Settled(s, e).value.0.serial == s.received
  {
  }

  lemma FateOfOld(d: Codec, f: Full, ev: Event, n: nat)
    requires Possible(d, f, ev) && Matches(f) && CarriersInv(f) && OthersInv(f) && n < |f.letters| && Fated(f, n)
    ensures n < |Next(d, f, ev).letters| && Fated(Next(d, f, ev), n)
  {
    hide *;
    var e := StepOf(d, f, ev);
    CoreIs(d, f, ev);
    LettersStep(d, f, ev);
    FatedMeans(f, n);
    FatedMeans(Next(d, f, ev), n);
    if e.Some? {
      MatchedCore(f);
      CarrierNotForBroker(f, Actor(e.value));
      OthersAt(f, Actor(e.value));
      Ledger(f.core, e.value);
      var l := f.letters[n];
      SourceStep(f.core, e.value, l.source);
      if Settled(f.core, e.value).Some? && Settled(f.core, e.value).value.0.serial == n {
        CarriedStep(f.core, e.value);
        CarriedLast(f, Actor(e.value));
        LastMeans(f.letters, Carried(f.core, Actor(e.value)), Actor(e.value));
        FateStep(f.core, e.value);
        AllowedMeans(Settled(f.core, e.value).value.1, l, IdOf(f.core, l.source), f.core.brokerId, f.core.hasGateway);
      }
    }
  }

  lemma SourceStep(s: State, e: Broker.Step, t: Thread)
    requires Enabled(s, e) && (t.Node? ==> t.i < |s.nodes| && !s.nodes[t.i].pc.LoggingIn?)
    ensures t.Node? ==> t.i < |Apply(s, e).nodes| && !Apply(s, e).nodes[t.i].pc.LoggingIn?
    ensures IdOf(Apply(s, e), t) == IdOf(s, t)
    ensures Apply(s, e).brokerId == s.brokerId && Apply(s, e).hasGateway == s.hasGateway
  {
    if t.Node? {
      IdStep(s, e, t);
    } else {
      BrokerIdKept(s, e);
      GatewayKept(s, e);
    }
    hide Apply, Enabled;
  }

  lemma FatedMeans(f: Full, n: nat)
    requires n < |f.letters|
    ensures var l := f.letters[n];
            Fated(f, n) <==>
              (l.source.Node? ==> l.source.i < |f.core.nodes| && !f.core.nodes[l.source.i].pc.LoggingIn?) &&
              (n in f.core.outcomes ==>
                 Allowed(f.core.outcomes[n], l, IdOf(f.core, l.source), f.core.brokerId, f.core.hasGateway))
  {
    hide Allowed, IdOf;
  }

  lemma AllowedMeans(o: Broker.Outcome, l: Letter, id: nat, brokerId: nat, hasGateway: bool)
    ensures Allowed(o, l, id, brokerId, hasGateway) <==>
              if l.source.Server? then o.Enqueued? || o.Unclaimed?
              else if l.msg.to == id then o.KeptBySender?
              else if l.msg.to == brokerId then o.KeptByBroker?
              else o.Enqueued? || (if hasGateway then o.Offered? else o.Dropped?)
  {
  }

  lemma OthersAt(f: Full, t: Thread)
    requires OthersInv(f)
    ensures NotItsOwn(f.core, t)
  {
    hide NotItsOwn;
  }

  lemma LastMeans(letters: seq<Letter>, carried: Option<Mail>, t: Thread)
    requires IsLast(letters, carried, t) && carried.Some?
    ensures carried.value.serial < |letters| && letters[carried.value.serial].source == t
    ensures letters[carried.value.serial].msg.to == carried.value.to
  {
  }

  lemma FateOfNew(d: Codec, f: Full, ev: Event)
    requires Possible(d, f, ev) && Matches(f) && OthersInv(f)
    requires StepOf(d, f, ev).Some? && (StepOf(d, f, ev).value.ReadFrame? || StepOf(d, f, ev).value.ReadGateway?)
    ensures |f.letters| < |Next(d, f, ev).letters| && Fated(Next(d, f, ev), |f.letters|)
  {
    hide *;
    var e, n := StepOf(d, f, ev).value, |f.letters|;
    CoreIs(d, f, ev);
    LettersStep(d, f, ev);
    FatedMeans(Next(d, f, ev), n);
    MatchedCore(f);
    CarrierNotForBroker(f, Actor(e));
    OthersAt(f, Actor(e));
    Ledger(f.core, e);
    ActorIs(e, ev.t);
    if ev.t.Node? {
      ActorPhase(f.core, e);
    }
    SourceStep(f.core, e, ev.t);
    FateStep(f.core, e);
    OutcomesBelowAll(f.core);
    if Settled(f.core, e).Some? {
      SettledLetter(f.core, e);
      AllowedMeans(Settled(f.core, e).value.1, NewLetter(d, f, ev), IdOf(f.core, ev.t), f.core.brokerId,
                   f.core.hasGateway);
    }
  }

  lemma ActorIs(e: Broker.Step, t: Thread)
    requires Actor(e) == t && (e.ReadFrame? || e.ReadGateway?)
    ensures t.Node? <==> e.ReadFrame?
  {
  }

  lemma OutcomesBelowAll(s: State)
    requires MailInv(s)
    ensures s.received !in s.outcomes
  {
  }

  lemma FatesKept(d: Codec, f: Full, ev: Event)
    requires Possible(d, f, ev) && Matches(f) && CarriersInv(f) && OthersInv(f) && FatesInv(f)
    ensures FatesInv(Next(d, f, ev))
  {
    hide Possible, Next, Matches, CarriersInv, OthersInv, Fated, StepOf, LettersAfter;
    CoreIs(d, f, ev);
    LettersStep(d, f, ev);
    forall n | 0 <= n < |Next(d, f, ev).letters| ensures Fated(Next(d, f, ev), n) {
      if n < |f.letters| {
        FateOfOld(d, f, ev, n);
      } else {
        FateOfNew(d, f, ev);
      }
    }
  }

  // ----- runs -----

  ghost predicate FullInv(d: Codec, f: Full) {
    Matches(f) && CarriersInv(f) && BoxesInv(f) && WiresInv(d, f) && SourcesInv(d, f) && LettersInv(d, f.letters) &&
    OthersInv(f) && FatesInv(f)
  }

  lemma BeginningInv(d: Codec, brokerId: nat, hasGateway: bool)
    ensures FullInv(d, Beginning(brokerId, hasGateway))
  {
    InitialInv(brokerId, hasGateway);
    hide Inv, Complete;
  }

  lemma FullInvKept(d: Codec, f: Full, ev: Event)
    requires Possible(d, f, ev) && FullInv(d, f)
    ensures FullInv(d, Next(d, f, ev))
  {
    hide Possible, Next, CarriersInv, BoxesInv, WiresInv, SourcesInv, LettersInv, Inv, OthersInv, FatesInv;
    OthersKept(d, f, ev);
    FatesKept(d, f, ev);
    MatchesKept(d, f, ev);
    CarriersKept(d, f, ev);
    BoxesKept(d, f, ev);
    WiresKept(d, f, ev);
    SourcesKept(d, f, ev);
    LettersKept(d, f, ev);
  }

  lemma {:induction false} CoursesKeepInv(d: Codec, f: Full, events: seq<Event>, f': Full)
    requires FullInv(d, f) && Course(d, f, events, f')
    ensures FullInv(d, f')
    decreases |events|
  {
    hide FullInv, Next, Possible;
    if events != [] {
      FullInvKept(d, f, events[0]);
      CoursesKeepInv(d, Next(d, f, events[0]), events[1..], f');
    }
  }

  lemma AttainableInv(d: Codec, f: Full)
    requires Attainable(d, f)
    ensures FullInv(d, f)
  {
    hide FullInv, Course, Beginning;
    var brokerId, hasGateway, events :| Course(d, Beginning(brokerId, hasGateway), events, f);
    BeginningInv(d, brokerId, hasGateway);
    CoursesKeepInv(d, Beginning(brokerId, hasGateway), events, f);
  }

  lemma {:induction false} CoursesAreRuns(d: Codec, f: Full, events: seq<Event>, f': Full)
    requires Reachable(f.core) && Course(d, f, events, f')
    ensures Reachable(f'.core)
    decreases |events|
  {
    hide Reachable, Next, Possible;
    if events != [] {
      CoreIs(d, f, events[0]);
      if StepOf(d, f, events[0]).Some? {
        Walks.ReachableOneMore(f.core, StepOf(d, f, events[0]).value);
      }
      CoursesAreRuns(d, Next(d, f, events[0]), events[1..], f');
    }
  }

  /** Whatever the texts, the threads run as in module Broker: all that holds there holds here. */
  lemma CoreIsReachable(d: Codec, f: Full)
    requires Attainable(d, f)
    ensures Reachable(f.core)
  {
    hide Course, Run;
    var brokerId, hasGateway, events :| Course(d, Beginning(brokerId, hasGateway), events, f);
    NoSteps(brokerId, hasGateway);
    CoursesAreRuns(d, Beginning(brokerId, hasGateway), events, f);
  }

  lemma NoSteps(brokerId: nat, hasGateway: bool)
    ensures Reachable(Initial(brokerId, hasGateway))
  {
    hide Initial;
    assert Run(Initial(brokerId, hasGateway), [], Initial(brokerId, hasGateway));
  }
}

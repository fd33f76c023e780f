/** What is written to the clients is what other clients sent, and a run in which a message arrives. */
module Passages {
  import opened Text
  import opened Values
  import opened Parser
  import opened Layout
  import opened Streams
  import opened RoundTrip
  import opened Numbers
  import opened Messages
  import opened Logins
  import opened Frames
  import opened Nodes
  import opened Broker
  import opened Runs
  import opened Deliveries
  import opened Trains
  import opened Contents
  import Walks
  import Wire

  // ----- what is written is what was sent -----

  function WireOf(f: Full, k: nat): seq<string> {
    IoOf(f, Node(k)).wire
  }

  /** The number of the j-th message written to node k. */
  function Number(f: Full, k: nat, j: nat): nat
    requires k < |f.core.nodes| && j < |f.core.nodes[k].written|
  {
    f.core.nodes[k].written[j].serial
  }

  /** What has been written to a node is the text of messages received, addressed to the node. */
  lemma WrittenAsReceived(d: Codec, f: Full, k: nat, j: nat)
    requires Attainable(d, f) && k < |f.core.nodes| && j < |WireOf(f, k)|
    ensures |WireOf(f, k)| == |f.core.nodes[k].written| && Number(f, k, j) < |f.letters|
    ensures var l := f.letters[Number(f, k, j)];
            Complete(l.raw) && d.arrives(l.raw) == Message(l.msg) && WireOf(f, k)[j] == d.prints(l.msg.json) &&
            (l.msg.to != 0 ==> f.core.nodes[k].id == l.msg.to)
  {
    hide Attainable, Matches, CarriersInv, BoxesInv, WiresInv, SourcesInv, Complete, IoOf, Genuine;
    AttainableInv(d, f);
    CoreIsReachable(d, f);
    WireAt(d, f, k);
    WrittenGenuine(f, k);
    InTurnAt(f, k);
    assert Genuine(f.letters, f.core.nodes[k].enqueued[j]);
    GenuineMeans(f.letters, f.core.nodes[k].enqueued[j]);
    DeliveredToAddressee(f.core, k, f.core.nodes[k].enqueued[j]);
  }

  lemma GenuineMeans(letters: seq<Letter>, m: Mail)
    requires Genuine(letters, m)
    ensures m.serial < |letters| && letters[m.serial].msg.to == m.to
  {
  }

  /** How many messages from the same thread come before. */
  function Rank(letters: seq<Letter>, n: nat): nat
    requires n < |letters|
  {
    |From(letters[..n], letters[n].source)|
  }

  lemma {:induction false} FromPrefix(letters: seq<Letter>, m: nat, t: Thread)
    requires m <= |letters|
    ensures From(letters[..m], t) <= From(letters, t)
    decreases |letters|
  {
    if m == |letters| {
      assert letters[..m] == letters;
    } else {
      FromPrefix(letters[..|letters| - 1], m, t);
      assert letters[..|letters| - 1][..m] == letters[..m];
    }
  }

  lemma RankIs(letters: seq<Letter>, n: nat)
    requires n < |letters|
    ensures var from := From(letters, letters[n].source);
            Rank(letters, n) < |from| && from[Rank(letters, n)] == letters[n].raw
  {
    FromMore(letters[..n], letters[n], letters[n].source);
    assert letters[..n + 1] == letters[..n] + [letters[n]];
    FromPrefix(letters, n + 1, letters[n].source);
  }

  lemma RankGrows(letters: seq<Letter>, m: nat, n: nat)
    requires m < n < |letters| && letters[m].source == letters[n].source
    ensures Rank(letters, m) < Rank(letters, n)
  {
    RankIs(letters[..n], m);
    assert letters[..n][..m] == letters[..m];
  }

  /** Messages from one thread are written to a node in the order they were received. */
  lemma WrittenInOrder(d: Codec, f: Full, k: nat, i: nat, j: nat)
    requires Attainable(d, f) && k < |f.core.nodes| && i < j < |WireOf(f, k)|
    requires |WireOf(f, k)| == |f.core.nodes[k].written| && Number(f, k, i) < |f.letters| &&
             Number(f, k, j) < |f.letters|
    requires f.letters[Number(f, k, i)].source == f.letters[Number(f, k, j)].source
    ensures Number(f, k, i) < Number(f, k, j) && Rank(f.letters, Number(f, k, i)) < Rank(f.letters, Number(f, k, j))
  {
    hide Attainable, Matches, CarriersInv, BoxesInv, WiresInv, SourcesInv, LettersInv, IoOf, Genuine, Rank;
    AttainableInv(d, f);
    WrittenGenuine(f, k);
    InTurnAt(f, k);
    var box := f.core.nodes[k].enqueued;
    assert box[i].serial < box[j].serial;
    RankGrows(f.letters, Number(f, k, i), Number(f, k, j));
  }

  // ----- senders of frames, each of which ends with a chunk -----

  /**
   * What thread t has read so far is the beginning of frames sent in a row, each of which ends where
   * a chunk ends; `later` is the rest.
   */
  ghost predicate SendsTrain(c: Config, f: Full, t: Thread, roots: seq<Value>, later: seq<string>) {
    var chunks, frames := IoOf(f, t).heard + later, FramesOf(c.printDouble, roots);
    (forall r :: r in roots ==> Fit(c, r)) && Chunks(chunks) && Concat(chunks) == Concat(frames) &&
    Aligned(frames, chunks)
  }

  lemma TrainSoFar(c: Config, f: Full, t: Thread, roots: seq<Value>, later: seq<string>)
    requires SendsTrain(c, f, t, roots, later)
    ensures FeedAll(START, IoOf(f, t).heard).frames <= FramesOf(c.printDouble, roots)
  {
    var heard, frames := IoOf(f, t).heard, FramesOf(c.printDouble, roots);
    hide *;
    SendsFit(c, f, t, roots, later);
    FramesWhole(c, roots);
    SendsMeans(c, f, t, roots, later);
    FramesSurviveIff(frames, heard + later);
    FeedAppend(START, heard, later);
    FeedKeeps(FeedAll(START, heard), later);
  }

  lemma SendsMeans(c: Config, f: Full, t: Thread, roots: seq<Value>, later: seq<string>)
    requires SendsTrain(c, f, t, roots, later)
    ensures var chunks, frames := IoOf(f, t).heard + later, FramesOf(c.printDouble, roots);
            Chunks(chunks) && Concat(chunks) == Concat(frames) && Aligned(frames, chunks)
  {
    hide Chunks, Concat, Aligned, FramesOf, Fit, IoOf;
  }

  lemma SendsFit(c: Config, f: Full, t: Thread, roots: seq<Value>, later: seq<string>)
    requires SendsTrain(c, f, t, roots, later)
    ensures forall r :: r in roots ==> Fit(c, r)
  {
    hide Chunks, Concat, Aligned, FramesOf, Fit, IoOf;
  }

  lemma {:induction false} AllParsed(c: Config, roots: seq<Value>, n: nat)
    requires !c.strictRoot && (forall r :: r in roots ==> Fit(c, r)) && n <= |roots|
    ensures var frames := FramesOf(c.printDouble, roots)[..n]; Parsed(CodecOf(c), frames) == frames
    decreases n
  {
    hide Arrived, Fit, Frame;
    var frames := FramesOf(c.printDouble, roots);
    if n > 0 {
      AllParsed(c, roots, n - 1);
      assert frames[..n][..n - 1] == frames[..n - 1];
      assert frames[..n] == frames[..n - 1] + [frames[n - 1]];
      FrameAt(c.printDouble, roots, n - 1);
      assert roots[n - 1] in roots;
      FitArrives(c, roots[n - 1]);
    }
  }

  lemma FitArrives(c: Config, root: Value)
    requires Fit(c, root) && !c.strictRoot
    ensures Arrived(c, Frame(c.printDouble, root)).Message?
  {
    hide Arrived, Frame, Printable, FieldsOf, StyledText, Contains, Sent;
    FrameArrives(c, root);
  }

  lemma {:induction false} FrameAt(p: Printer, roots: seq<Value>, n: nat)
    requires n < |roots|
    ensures FramesOf(p, roots)[n] == Frame(p, roots[n])
  {
    hide Frame;
    if n > 0 {
      FrameAt(p, roots[1..], n - 1);
    }
  }

  /** The messages of such a sender, in the order of their numbers, are its frames, a client's behind its login. */
  lemma LettersOfTrain(c: Config, f: Full, t: Thread, roots: seq<Value>, later: seq<string>)
    requires Attainable(CodecOf(c), f) && !c.strictRoot && SendsTrain(c, f, t, roots, later)
    ensures var frames := FeedAll(START, IoOf(f, t).heard).frames;
            frames <= FramesOf(c.printDouble, roots) &&
            From(f.letters, t) == if t.Server? then frames else Behind(frames)
  {
    hide *;
    var frames := FeedAll(START, IoOf(f, t).heard).frames;
    SendsFit(c, f, t, roots, later);
    TrainSoFar(c, f, t, roots, later);
    FramesCount(c.printDouble, roots);
    AllParsed(c, roots, |frames|);
    assert FramesOf(c.printDouble, roots)[..|frames|] == frames;
    AttainableInv(CodecOf(c), f);
    SourceOf(CodecOf(c), f, t);
    FaithfulMeans(CodecOf(c), f, t);
  }

  lemma SourceOf(d: Codec, f: Full, t: Thread)
    requires FullInv(d, f)
    ensures Faithful(d, f, t)
  {
    hide Faithful, Matches, CarriersInv, BoxesInv, WiresInv, LettersInv;
  }

  /** A client's first frame is its login; the gateway has no such frame. */
  function First(t: Thread): nat {
    if t.Server? then 0 else 1
  }

  /** Which of its sender's frames a message was. */
  function Place(f: Full, k: nat, j: nat): nat
    requires k < |f.core.nodes| && j < |f.core.nodes[k].written| && Number(f, k, j) < |f.letters|
  {
    Rank(f.letters, Number(f, k, j)) + First(f.letters[Number(f, k, j)].source)
  }

  /** A frame that a client or the gateway sent is written to its destination character by character. */
  lemma WrittenAsSent(c: Config, f: Full, t: Thread, roots: seq<Value>, later: seq<string>, k: nat, j: nat)
    requires Attainable(CodecOf(c), f) && !c.strictRoot && SendsTrain(c, f, t, roots, later)
    requires k < |f.core.nodes| && j < |WireOf(f, k)|
    ensures |WireOf(f, k)| == |f.core.nodes[k].written| && Number(f, k, j) < |f.letters|
    ensures f.letters[Number(f, k, j)].source == t ==>
              Place(f, k, j) < |roots| && WireOf(f, k)[j] == Frame(c.printDouble, roots[Place(f, k, j)])
  {
    hide *;
    SendsFit(c, f, t, roots, later);
    WrittenAsReceived(CodecOf(c), f, k, j);
    var n := Number(f, k, j);
    var l := f.letters[n];
    if l.source == t {
      LettersOfTrain(c, f, t, roots, later);
      RankIs(f.letters, n);
      var frames := FeedAll(START, IoOf(f, t).heard).frames;
      FromAt(frames, From(f.letters, t), t, Rank(f.letters, n));
      PlaceIs(f, k, j);
      var root := roots[Place(f, k, j)];
      FrameAt(c.printDouble, roots, Place(f, k, j));
      assert root in roots;
      RelayedUnchanged(c, root, l);
    }
  }

  lemma PlaceIs(f: Full, k: nat, j: nat)
    requires k < |f.core.nodes| && j < |f.core.nodes[k].written| && Number(f, k, j) < |f.letters|
    ensures Place(f, k, j) == Rank(f.letters, Number(f, k, j)) + First(f.letters[Number(f, k, j)].source)
  {
  }

  lemma FromAt(frames: seq<string>, from: seq<string>, t: Thread, r: nat)
    requires from == if t.Server? then frames else Behind(frames)
    ensures |from| == |frames| - First(t) || (frames == [] && from == [])
    ensures r < |from| ==> r + First(t) < |frames| && from[r] == frames[r + First(t)]
  {
  }

  lemma RelayedUnchanged(c: Config, root: Value, l: Letter)
    requires Fit(c, root) && !c.strictRoot && l.raw == Frame(c.printDouble, root)
    requires CodecOf(c).arrives(l.raw) == Message(l.msg)
    ensures CodecOf(c).prints(l.msg.json) == l.raw
  {
    hide Receive, Frame, Printable, FieldsOf, StyledText, Contains;
    Wire.RelayIsStable(c, root);
  }

  /** What a client or the gateway sent is written to any node in the order in which it was sent. */
  lemma WrittenInOrderSent(c: Config, f: Full, t: Thread, roots: seq<Value>, later: seq<string>,
                           k: nat, j: nat, j': nat)
    requires Attainable(CodecOf(c), f) && !c.strictRoot && SendsTrain(c, f, t, roots, later)
    requires k < |f.core.nodes| && j < j' < |WireOf(f, k)|
    ensures |WireOf(f, k)| == |f.core.nodes[k].written| && Number(f, k, j) < |f.letters| &&
            Number(f, k, j') < |f.letters|
    ensures f.letters[Number(f, k, j)].source == f.letters[Number(f, k, j')].source == t ==>
              Place(f, k, j) < Place(f, k, j') < |roots| &&
              WireOf(f, k)[j] == Frame(c.printDouble, roots[Place(f, k, j)]) &&
              WireOf(f, k)[j'] == Frame(c.printDouble, roots[Place(f, k, j')])
  {
    hide *;
    WrittenAsSent(c, f, t, roots, later, k, j);
    WrittenAsSent(c, f, t, roots, later, k, j');
    if f.letters[Number(f, k, j)].source == f.letters[Number(f, k, j')].source {
      WrittenInOrder(CodecOf(c), f, k, j, j');
      PlaceIs(f, k, j);
      PlaceIs(f, k, j');
    }
  }

  // ----- what becomes of each frame -----

  lemma {:induction false} NumberOfRank(letters: seq<Letter>, t: Thread, r: nat) returns (n: nat)
    requires r < |From(letters, t)|
    ensures n < |letters| && letters[n].source == t && Rank(letters, n) == r
    decreases |letters|
  {
    var last := |letters| - 1;
    if r < |From(letters[..last], t)| {
      n := NumberOfRank(letters[..last], t, r);
      assert letters[..last][..n] == letters[..n];
    } else {
      n := last;
    }
  }

  /**
   * Every frame of such a sender that has been handed over, but for a client's login, has a number of its
   * own, and one outcome or one carrier; it is queued for node k, then once, exactly if that is the outcome.
   */
  lemma EveryFrameHasAFate(c: Config, f: Full, t: Thread, roots: seq<Value>, later: seq<string>, r: nat)
    returns (n: nat)
    requires Attainable(CodecOf(c), f) && !c.strictRoot && SendsTrain(c, f, t, roots, later)
    requires First(t) <= r < |FeedAll(START, IoOf(f, t).heard).frames|
    ensures n < |f.letters| && f.letters[n].source == t && Rank(f.letters, n) + First(t) == r
    ensures r < |roots| && f.letters[n].raw == Frame(c.printDouble, roots[r])
    ensures n in f.core.outcomes || n in InTransit(f.core)
    ensures n in f.core.outcomes ==>
              forall k :: 0 <= k < |f.core.nodes| ==>
                (Has(f.core.nodes[k].enqueued, n) <==> f.core.outcomes[n] == Enqueued(k)) &&
                Distinct(f.core.nodes[k].enqueued)
  {
    hide *;
    LettersOfTrain(c, f, t, roots, later);
    var frames := FeedAll(START, IoOf(f, t).heard).frames;
    FromAt(frames, From(f.letters, t), t, r - First(t));
    n := NumberOfRank(f.letters, t, r - First(t));
    RankIs(f.letters, n);
    FramesCount(c.printDouble, roots);
    FrameAt(c.printDouble, roots, r);
    CoreIsReachable(CodecOf(c), f);
    AttainableInv(CodecOf(c), f);
    CountOf(CodecOf(c), f);
    CountsAddUp(f.core);
    assert n in UpTo(f.core.received);
    if n in f.core.outcomes {
      OutcomesAreKept(f.core, n);
    }
  }

  lemma FramesCount(p: Printer, roots: seq<Value>)
    ensures |FramesOf(p, roots)| == |roots|
  {
    hide Frame;
  }

  lemma CountOf(d: Codec, f: Full)
    requires FullInv(d, f)
    ensures |f.letters| == f.core.received
  {
    hide Inv;
  }

  /**
   * What becomes of a message is decided by where it comes from and where it goes: its sender keeps
   * what is for itself, the broker what is for the broker, and everything else goes on.
   */
  lemma FatesAreDecided(d: Codec, f: Full, n: nat)
    requires Attainable(d, f) && n in f.core.outcomes
    ensures n < |f.letters|
    ensures var o, l, s := f.core.outcomes[n], f.letters[n], f.core;
            (l.source.Node? ==> l.source.i < |s.nodes|) &&
            (o == KeptBySender <==> l.source.Node? && l.msg.to == s.nodes[l.source.i].id) &&
            (o == KeptByBroker <==>
               l.source.Node? && l.msg.to != s.nodes[l.source.i].id && l.msg.to == s.brokerId) &&
            (o == Offered ==> s.hasGateway) && (o == Dropped ==> !s.hasGateway) &&
            (o == Offered || o == Dropped ==> l.source.Node?) && (o == Unclaimed ==> l.source.Server?)
    ensures forall k :: 0 <= k < |f.core.nodes| ==>
              (Has(f.core.nodes[k].enqueued, n) <==> f.core.outcomes[n] == Enqueued(k))
  {
    hide *;
    AttainableInv(d, f);
    CoreIsReachable(d, f);
    CountOf(d, f);
    FateAt(d, f, n);
    FatedMeans(f, n);
    var l := f.letters[n];
    AllowedMeans(f.core.outcomes[n], l, IdOf(f.core, l.source), f.core.brokerId, f.core.hasGateway);
    IdOfMeans(f.core, l.source);
    OutcomesAreKept(f.core, n);
  }

  lemma FateAt(d: Codec, f: Full, n: nat)
    requires FullInv(d, f) && n in f.core.outcomes
    ensures n < |f.letters| && Fated(f, n)
  {
    MatchedCore(f);
    OutcomesBelow(f.core, n);
    hide Matches, CarriersInv, BoxesInv, WiresInv, SourcesInv, LettersInv, OthersInv, Fated, MailInv, PostInv, PlaceInv;
  }

  lemma IdOfMeans(s: State, t: Thread)
    ensures t.Node? && t.i < |s.nodes| ==> IdOf(s, t) == s.nodes[t.i].id
  {
  }

  // ----- a run in which a message arrives -----

  lemma {:induction false} CourseOneMore(d: Codec, b: Full, events: seq<Event>, f: Full, ev: Event)
    requires Course(d, b, events, f) && Possible(d, f, ev)
    ensures Course(d, b, events + [ev], Next(d, f, ev))
    decreases |events|
  {
    hide Next, Possible;
    if events == [] {
      assert Course(d, Next(d, f, ev), [], Next(d, f, ev));
      assert (events + [ev])[1..] == [];
    } else {
      CourseOneMore(d, Next(d, b, events[0]), events[1..], f, ev);
      assert (events + [ev])[1..] == events[1..] + [ev];
    }
  }

  lemma OneMore(d: Codec, f: Full, ev: Event)
    requires Attainable(d, f) && Possible(d, f, ev)
    ensures Attainable(d, Next(d, f, ev))
  {
    hide Next, Possible, Course, Beginning;
    var brokerId, hasGateway, events :| Course(d, Beginning(brokerId, hasGateway), events, f);
    CourseOneMore(d, Beginning(brokerId, hasGateway), events, f, ev);
  }

  /** A run has come to the threads' state s; node 1 has read `heard`, and `letters` are the messages received. */
  ghost predicate Stage(d: Codec, f: Full, s: State, heard: seq<string>, letters: seq<Letter>) {
    Attainable(d, f) && f.core == s && |f.nodes| == |s.nodes| && f.letters == letters &&
    IoOf(f, Node(0)).inbox.buffer == IoOf(f, Node(1)).inbox.buffer == "" && IoOf(f, Node(1)).heard == heard
  }

  lemma Moves(d: Codec, f: Full, e: Broker.Step, s: State, heard: seq<string>, letters: seq<Letter>)
    returns (f': Full)
    requires Stage(d, f, s, heard, letters) && !Reads(e) && Enabled(s, e)
    ensures Stage(d, f', Apply(s, e), heard, letters)
  {
    hide Attainable, Enabled, Apply, Next;
    var ev := Move(e);
    OneMore(d, f, ev);
    f' := Next(d, f, ev);
    CoreIs(d, f, ev);
    MoveIs(d, f, ev);
    IoIs(d, f, ev, Node(0));
    IoIs(d, f, ev, Node(1));
  }

  /** Node i reads a whole message. */
  lemma Hears(d: Codec, f: Full, i: nat, raw: string, s: State, heard: seq<string>, letters: seq<Letter>)
    returns (f': Full)
    requires Stage(d, f, s, heard, letters) && i < 2 && Complete(raw) && d.arrives(raw).Message?
    requires Broker.At(s, i, LoggingIn) || Broker.At(s, i, Receiving)
    ensures var m := d.arrives(raw).m;
            var e := if s.nodes[i].pc.LoggingIn? then Broker.Step.Login(i, IdFrom(m)) else ReadFrame(i, m.to);
            Enabled(s, e) &&
            Stage(d, f', Apply(s, e), if i == 1 then heard + [raw] else heard,
                  if s.nodes[i].pc.LoggingIn? then letters else letters + [Letter(Node(i), raw, m)])
  {
    hide Attainable, Apply, Next, Complete;
    var ev := Hear(Node(i), raw);
    assert "" + raw == raw;
    OneMore(d, f, ev);
    f' := Next(d, f, ev);
    CoreIs(d, f, ev);
    IoIs(d, f, ev, Node(0));
    IoIs(d, f, ev, Node(1));
  }

  /** A step of the threads that settles nothing. */
  lemma Goes(d: Codec, f: Full, e: Broker.Step, s: State, s': State, heard: seq<string>, letters: seq<Letter>)
    returns (f': Full)
    requires Stage(d, f, s, heard, letters) && !Reads(e) && Enabled(s, e)
    requires |s'.nodes| == |s.nodes| + (if e.Accept? then 1 else 0)
    requires forall k :: 0 <= k < |s.nodes| ==> s'.nodes[k] == NodeAfter(s, e, k)
    requires e.Accept? ==> s'.nodes[|s.nodes|] == NodeState(0, LoggingIn, None, [], [], [])
    requires s'.server == (if Actor(e).Server? then PcAfter(s, e) else s.server) && s'.route == RouteAfter(s, e)
    requires s'.brokerId == s.brokerId && s'.hasGateway == s.hasGateway && Settled(s, e) == None
    requires s'.offered == s.offered && s'.outcomes == s.outcomes && s'.received == s.received
    ensures Stage(d, f', s', heard, letters)
  {
    CoreIsReachable(d, f);
    hide Attainable, NodeAfter, Enabled, PcAfter, RouteAfter, Actor, Reachable;
    Walks.Becomes(s, e, s');
    f' := Moves(d, f, e, s, heard, letters);
  }

  lemma Accepts(d: Codec) returns (f: Full)
    ensures Stage(d, f, Walks.With(Walks.Guests(2), None, 0), [], [])
  {
    f := Beginning(1000, false);
    hide Attainable;
    assert Walks.Guests(0) == [];
    assert Attainable(d, f) by { Begun(d, f); }
    f := Goes(d, f, Accept, Walks.With(Walks.Guests(0), None, 0), Walks.With(Walks.Guests(1), None, 0), [], []);
    f := Goes(d, f, Accept, Walks.With(Walks.Guests(1), None, 0), Walks.With(Walks.Guests(2), None, 0), [], []);
  }

  lemma Begun(d: Codec, f: Full)
    requires f == Beginning(1000, false)
    ensures Attainable(d, f)
  {
    assert Course(d, Beginning(1000, false), [], f);
  }

  /** Who sends, and to whom. */
  datatype Pair = Pair(from: nat, to: nat) {
    function Item(): Mail {
      Mail(0, false, to)
    }

    /** To another node, and not to the broker. */
    predicate Apart() {
      to != from && to != 1000
    }
  }

  function Both(p: Pair, zero: Pc, one: Pc): seq<NodeState> {
    [Walks.Member(if zero.LoggingIn? then 0 else p.to, zero), Walks.Member(if one.LoggingIn? then 0 else p.from, one)]
  }

  /** The threads' state while node 1 is at `pc` with the message. */
  function Underway(p: Pair, pc: Pc, route: Option<Thread>): State {
    Walks.With(Both(p, Receiving, pc), route, 1)
  }

  /** Both nodes log in. */
  lemma LogIn(d: Codec, p: Pair, a: string, b: string) returns (f: Full)
    requires Complete(a) && d.arrives(a).Message? && IdFrom(d.arrives(a).m) == p.to
    requires Complete(b) && d.arrives(b).Message? && IdFrom(d.arrives(b).m) == p.from
    ensures Stage(d, f, Walks.With(Both(p, Receiving, Receiving), None, 0), [b], [])
  {
    hide Attainable, Complete, IdFrom, Reachable;
    f := Accepts(d);
    CoreIsReachable(d, f);
    var s, s' := Walks.With(Both(p, LoggingIn, LoggingIn), None, 0), Walks.With(Both(p, Receiving, LoggingIn), None, 0);
    assert Walks.Guests(2) == Both(p, LoggingIn, LoggingIn);
    LoginSteps(p, s);
    f := Hears(d, f, 0, a, s, [], []);
    f := Hears(d, f, 1, b, s', [], []);
    assert [] + [b] == [b];
  }

  lemma LoginSteps(p: Pair, s: State)
    requires s == Walks.With(Both(p, LoggingIn, LoggingIn), None, 0) && Reachable(s)
    ensures var s' := Walks.With(Both(p, Receiving, LoggingIn), None, 0);
            var e, e' := Broker.Step.Login(0, p.to), Broker.Step.Login(1, p.from);
            Enabled(s, e) && Apply(s, e) == s' && Enabled(s', e') &&
            Apply(s', e') == Walks.With(Both(p, Receiving, Receiving), None, 0)
  {
    hide Reachable;
    var s' := Walks.With(Both(p, Receiving, LoggingIn), None, 0);
    var e, e' := Broker.Step.Login(0, p.to), Broker.Step.Login(1, p.from);
    Walks.Becomes(s, e, s');
    Walks.Becomes(s', e', Walks.With(Both(p, Receiving, Receiving), None, 0));
  }

  /** Node 1 reads a message to node 0, */
  lemma Sends(d: Codec, p: Pair, f: Full, b: string, x: string) returns (f': Full)
    requires Stage(d, f, Walks.With(Both(p, Receiving, Receiving), None, 0), [b], [])
    requires p.Apart() && Complete(x) && d.arrives(x).Message? && d.arrives(x).m.to == p.to
    ensures Stage(d, f', Underway(p, AtRoute(p.Item()), None), [b, x], [Letter(Node(1), x, d.arrives(x).m)])
  {
    hide Attainable, Complete, Reachable;
    CoreIsReachable(d, f);
    var s := Walks.With(Both(p, Receiving, Receiving), None, 0);
    SendStep(p, s);
    f' := Hears(d, f, 1, x, s, [b], []);
    assert [b] + [x] == [b, x];
  }

  lemma SendStep(p: Pair, s: State)
    requires p.Apart() && s == Walks.With(Both(p, Receiving, Receiving), None, 0) && Reachable(s)
    ensures Enabled(s, ReadFrame(1, p.to)) && Apply(s, ReadFrame(1, p.to)) == Underway(p, AtRoute(p.Item()), None)
  {
    hide Reachable;
    Walks.Becomes(s, ReadFrame(1, p.to), Underway(p, AtRoute(p.Item()), None));
  }

  /** takes the route mutex */
  lemma Locks(d: Codec, p: Pair, f: Full, heard: seq<string>, letters: seq<Letter>) returns (f': Full)
    requires p.Apart() && Stage(d, f, Underway(p, AtRoute(p.Item()), None), heard, letters)
    ensures Stage(d, f', Underway(p, Walking(p.Item(), 0), Some(Node(1))), heard, letters)
  {
    hide Stage;
    f' := Goes(d, f, LockRoute(1), Underway(p, AtRoute(p.Item()), None),
               Underway(p, Walking(p.Item(), 0), Some(Node(1))), heard, letters);
  }

  /** and finds node 0. */
  lemma Finds(d: Codec, p: Pair, f: Full, heard: seq<string>, letters: seq<Letter>) returns (f': Full)
    requires Stage(d, f, Underway(p, Walking(p.Item(), 0), Some(Node(1))), heard, letters)
    ensures Stage(d, f', Underway(p, AtQueue(p.Item(), 0), Some(Node(1))), heard, letters)
  {
    hide Stage;
    f' := Goes(d, f, Walk(Node(1)), Underway(p, Walking(p.Item(), 0), Some(Node(1))),
               Underway(p, AtQueue(p.Item(), 0), Some(Node(1))), heard, letters);
  }

  lemma Writes(d: Codec, p: Pair, f: Full, heard: seq<string>, letters: seq<Letter>) returns (f': Full)
    requires Stage(d, f, Underway(p, AtQueue(p.Item(), 0), Some(Node(1))), heard, letters) && |letters| == 1
    ensures Attainable(d, f') && IoOf(f', Node(1)).heard == heard && WireOf(f', 0) == [d.prints(letters[0].msg.json)]
    ensures f'.core.nodes != [] && f'.core.nodes[0].id == p.to
  {
    hide *;
    var s := Underway(p, AtQueue(p.Item(), 0), Some(Node(1)));
    LastSteps(p, s);
    f' := Moves(d, f, LockQueue(Node(1)), s, heard, letters);
    f' := Moves(d, f', Write(Node(1)), Apply(s, LockQueue(Node(1))), heard, letters);
    StageIs(d, f', Apply(Apply(s, LockQueue(Node(1))), Write(Node(1))), heard, letters);
    AttainableInv(d, f');
    WiresOf(d, f', 0);
    OneWritten(d, p, letters, WireOf(f', 0), f'.core.nodes[0].written);
  }

  lemma StageIs(d: Codec, f: Full, s: State, heard: seq<string>, letters: seq<Letter>)
    requires Stage(d, f, s, heard, letters)
    ensures Attainable(d, f) && f.core == s && f.letters == letters && IoOf(f, Node(1)).heard == heard
  {
    hide Attainable, IoOf;
  }

  lemma OneWritten(d: Codec, p: Pair, letters: seq<Letter>, wire: seq<string>, written: seq<Mail>)
    requires Transcribes(d, letters, wire, written) && written == [p.Item()] && |letters| == 1
    ensures wire == [d.prints(letters[0].msg.json)]
  {
  }

  lemma WiresOf(d: Codec, f: Full, k: nat)
    requires FullInv(d, f) && k < |f.core.nodes|
    ensures Transcribes(d, f.letters, WireOf(f, k), f.core.nodes[k].written)
  {
    hide Matches, CarriersInv, BoxesInv, SourcesInv, LettersInv, Transcribes;
  }

  lemma LastSteps(p: Pair, s: State)
    requires s == Underway(p, AtQueue(p.Item(), 0), Some(Node(1)))
    ensures Enabled(s, LockQueue(Node(1))) && Enabled(Apply(s, LockQueue(Node(1))), Write(Node(1)))
    ensures var s'' := Apply(Apply(s, LockQueue(Node(1))), Write(Node(1)));
            |s''.nodes| == 2 && s''.nodes[0].written == [p.Item()] && s''.nodes[0].id == p.to
    ensures !Reads(LockQueue(Node(1))) && !Reads(Write(Node(1)))
  {
    hide Settled;
  }

  /** Two nodes log in, one of them sends the other a message, and it is written. */
  lemma Arrives(d: Codec, p: Pair, a: string, b: string, x: string) returns (f: Full)
    requires Complete(a) && d.arrives(a).Message? && IdFrom(d.arrives(a).m) == p.to
    requires Complete(b) && d.arrives(b).Message? && IdFrom(d.arrives(b).m) == p.from
    requires p.Apart() && Complete(x) && d.arrives(x).Message? && d.arrives(x).m.to == p.to
    ensures Attainable(d, f) && IoOf(f, Node(1)).heard == [b, x] && WireOf(f, 0) == [d.prints(d.arrives(x).m.json)]
    ensures f.core.nodes != [] && f.core.nodes[0].id == p.to
  {
    hide *;
    f := LogIn(d, p, a, b);
    var heard, letters := [b, x], [Letter(Node(1), x, d.arrives(x).m)];
    f := Sends(d, p, f, b, x);
    f := Locks(d, p, f, heard, letters);
    f := Finds(d, p, f, heard, letters);
    f := Writes(d, p, f, heard, letters);
  }

  lemma LoginFits(c: Config, id: nat)
    requires id < 0x1_0000_0000 && !c.strictRoot
    ensures Fit(c, LoginRoot(id))
    ensures var raw := Frame(c.printDouble, LoginRoot(id));
            Complete(raw) && Arrived(c, raw).Message? && IdFrom(Arrived(c, raw).m) == id
  {
    hide Frame, Receive, Printable, FieldsOf, StyledText, LoginRoot, Contains, Canon, Strip;
    LoginPrintable(id);
    LoginFields(c.printDouble, id);
    LoginWithoutEnd(c.printDouble, id);
    FrameArrives(c, LoginRoot(id));
    FrameComplete(c.printDouble, LoginRoot(id));
  }

  lemma FitIsFor(c: Config, root: Value)
    requires Fit(c, root) && !c.strictRoot
    ensures var raw := Frame(c.printDouble, root);
            Complete(raw) && Arrived(c, raw).Message? && Arrived(c, raw).m.to == FieldsOf(c.printDouble, root).to
  {
    hide Frame, Receive, Printable, FieldsOf, StyledText, Contains, Canon, Strip;
    FrameArrives(c, root);
    FrameComplete(c.printDouble, root);
  }

  lemma TwoAligned(f: string, g: string)
    requires f != "" && g != ""
    ensures Chunks([f, g]) && Aligned([f, g], [f, g])
  {
    forall i | 0 <= i <= |[f, g]| ensures Boundary([f, g], |Concat([f, g][..i])|) {
      assert BoundaryAt([f, g], |Concat([f, g][..i])|, i);
    }
  }

  /**
   * For every message to another client than its sender, and not to the broker, there is such a run,
   * in which all that node 1 reads are its login and the message.
   */
  lemma MessageArrives(c: Config, from: nat, root: Value) returns (f: Full)
    requires !c.strictRoot && Fit(c, root) && from < 0x1_0000_0000
    requires FieldsOf(c.printDouble, root).to != from && FieldsOf(c.printDouble, root).to != 1000
    ensures Attainable(CodecOf(c), f) && SendsTrain(c, f, Node(1), [LoginRoot(from), root], [])
    ensures f.core.nodes != [] && f.core.nodes[0].id == FieldsOf(c.printDouble, root).to
    ensures WireOf(f, 0) == [Frame(c.printDouble, root)]
  {
    hide *;
    FitFields(c, root);
    var p := Pair(from, FieldsOf(c.printDouble, root).to);
    assert p.Apart() by { ApartIs(p); }
    LoginFits(c, p.to);
    LoginFits(c, p.from);
    FitIsFor(c, root);
    var a, b := Frame(c.printDouble, LoginRoot(p.to)), Frame(c.printDouble, LoginRoot(p.from));
    var x := Frame(c.printDouble, root);
    CodecIs(c, a);
    CodecIs(c, b);
    CodecIs(c, x);
    f := Arrives(CodecOf(c), p, a, b, x);
    RelayedUnchanged(c, root, Letter(Node(1), x, Arrived(c, x).m));
    FrameNotEmpty(c.printDouble, LoginRoot(p.from));
    FrameNotEmpty(c.printDouble, root);
    TwoAligned(b, x);
    TrainOfTwo(c, f, LoginRoot(p.from), root);
  }

  lemma ApartIs(p: Pair)
    ensures p.Apart() <==> p.to != p.from && p.to != 1000
  {
  }

  lemma FitFields(c: Config, root: Value)
    requires Fit(c, root)
    ensures FieldsOf(c.printDouble, root).Fields? && FieldsOf(c.printDouble, root).to < 0x1_0000_0000
  {
    hide Printable, StyledText, Contains, Field, Extract;
  }

  lemma CodecIs(c: Config, raw: string)
    ensures CodecOf(c).arrives(raw) == Arrived(c, raw)
  {
    hide Arrived;
  }

  lemma TrainOfTwo(c: Config, f: Full, first: Value, second: Value)
    requires Fit(c, first) && Fit(c, second)
    requires var b, x := Frame(c.printDouble, first), Frame(c.printDouble, second);
             IoOf(f, Node(1)).heard == [b, x] && Chunks([b, x]) && Aligned([b, x], [b, x])
    ensures SendsTrain(c, f, Node(1), [first, second], [])
  {
    hide Fit, Frame, IoOf, Chunks, Aligned, Concat;
    var b, x := Frame(c.printDouble, first), Frame(c.printDouble, second);
    assert [first, second][1..] == [second] && [second][1..] == [];
    assert FramesOf(c.printDouble, [first, second]) == [b, x];
    assert [b, x] + [] == [b, x];
  }
}

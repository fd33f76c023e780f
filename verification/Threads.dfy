/** The threads of module Contents do what the loops of the class RemoteNode do with the same reads. */
module Threads {
  import opened Text
  import opened Values
  import opened Parser
  import opened Messages
  import opened Logins
  import opened Frames
  import opened Nodes
  import opened Broker
  import opened Runs
  import opened Contents
  import Deliveries

  // ----- no thread has read what would have ended the program -----

  predicate Quiet(d: Codec, frames: seq<string>) {
    forall i :: 0 <= i < |frames| ==> !d.arrives(frames[i]).Exception?
  }

  ghost predicate QuietInv(d: Codec, f: Full) {
    forall t :: Quiet(d, IoOf(f, t).inbox.frames)
  }

  lemma InboxStep(d: Codec, f: Full, ev: Event, t: Thread)
    requires Possible(d, f, ev)
    ensures var inbox, inbox' := IoOf(f, t).inbox, IoAfter(d, f, ev, t).inbox;
            inbox'.frames == inbox.frames ||
            (ev.Hear? && !Understood(d, f, ev).Exception? && Complete(Buffered(f, ev)) &&
             inbox'.frames == inbox.frames + [Buffered(f, ev)])
  {
    hide Complete, IoOf, Outgoing, Enabled;
  }

  lemma QuietStep(d: Codec, f: Full, ev: Event, t: Thread)
    requires Possible(d, f, ev) && Quiet(d, IoOf(f, t).inbox.frames) && |f.nodes| == |f.core.nodes|
    ensures Quiet(d, IoOf(Next(d, f, ev), t).inbox.frames)
  {
    hide Possible, Next, IoOf, IoAfter, Complete, Buffered;
    IoIs(d, f, ev, t);
    InboxStep(d, f, ev, t);
  }

  lemma {:induction false} CoursesStayQuiet(d: Codec, f: Full, events: seq<Event>, f': Full)
    requires FullInv(d, f) && QuietInv(d, f) && Course(d, f, events, f')
    ensures QuietInv(d, f')
    decreases |events|
  {
    hide FullInv, Next, Possible, Quiet, IoOf;
    if events != [] {
      FullInvKept(d, f, events[0]);
      Sizes(d, f);
      forall t ensures Quiet(d, IoOf(Next(d, f, events[0]), t).inbox.frames) {
        QuietStep(d, f, events[0], t);
      }
      CoursesStayQuiet(d, Next(d, f, events[0]), events[1..], f');
    }
  }

  lemma Sizes(d: Codec, f: Full)
    requires FullInv(d, f)
    ensures |f.nodes| == |f.core.nodes| && SourcesInv(d, f)
  {
    hide Inv, CarriersInv, BoxesInv, WiresInv, SourcesInv, LettersInv, OthersInv, FatesInv;
  }

  lemma AttainableQuiet(d: Codec, f: Full)
    requires Attainable(d, f)
    ensures QuietInv(d, f)
  {
    hide FullInv, Course;
    var brokerId, hasGateway, events :| Course(d, Beginning(brokerId, hasGateway), events, f);
    BeginningInv(d, brokerId, hasGateway);
    CoursesStayQuiet(d, Beginning(brokerId, hasGateway), events, f);
  }

  // ----- the loops on the same reads -----

  lemma {:induction false} FedBehind(frames: seq<string>, buffer: string, chunks: seq<string>)
    ensures var fed := FeedAll(Assembly([], buffer), chunks);
            FeedAll(Assembly(frames, buffer), chunks) == Assembly(frames + fed.frames, fed.buffer)
    decreases |chunks|
  {
    hide Complete, FeedAll;
    FeedStep(Assembly([], buffer), chunks);
    FeedStep(Assembly(frames, buffer), chunks);
    if chunks != [] {
      var b := buffer + chunks[0];
      if Complete(b) {
        FedBehind([b], "", chunks[1..]);
        FedBehind(frames + [b], "", chunks[1..]);
        assert [] + [b] == [b];
      } else {
        FedBehind(frames, b, chunks[1..]);
      }
    } else {
      assert frames + [] == frames;
    }
  }

  lemma FeedStep(a: Assembly, chunks: seq<string>)
    ensures FeedAll(a, chunks) == if chunks == [] then a else FeedAll(Feed(a, chunks[0]), chunks[1..])
  {
    hide Feed;
  }

  lemma {:induction false} ParsedFirst(d: Codec, b: string, frames: seq<string>)
    ensures Parsed(d, [b] + frames) == (if d.arrives(b).Message? then [b] else []) + Parsed(d, frames)
    decreases |frames|
  {
    if frames == [] {
      assert [b] + frames == [b] && [b][..0] == [];
    } else {
      var last := |frames| - 1;
      assert ([b] + frames)[..|frames|] == [b] + frames[..last];
      ParsedFirst(d, b, frames[..last]);
    }
  }

  /** Whether, and by which of the reads, the login loop accepts the node, and what is left for the receive loop. */
  lemma {:induction false} LoginOf(c: Config, chunks: seq<string>, buffer: string) returns (k: nat)
    requires Quiet(CodecOf(c), FeedAll(Assembly([], buffer), chunks).frames)
    ensures k <= |chunks|
    ensures var fed := FeedAll(Assembly([], buffer), chunks);
            var parsed, login := Parsed(CodecOf(c), fed.frames), LoginRun(c, ReadsOf(chunks[..k]), 0, buffer);
            if parsed == [] then k == |chunks| && login == Nodes.Login.Login(Connected, 0, fed.buffer, false)
            else
              login == Nodes.Login.Login(Accepted, IdRead(CodecOf(c), parsed[0]), "", false) &&
              var rest := FeedAll(START, chunks[k..]);
              rest.buffer == fed.buffer && Parsed(CodecOf(c), rest.frames) == parsed[1..] &&
              Quiet(CodecOf(c), rest.frames)
    decreases |chunks|
  {
    hide Complete, Arrived, FeedAll, LoginRun, ReadsOf, Parsed;
    var d := CodecOf(c);
    FeedStep(Assembly([], buffer), chunks);
    if chunks == [] {
      k := 0;
      NoLogin(c, buffer);
      assert chunks[..0] == [];
    } else {
      var b := buffer + chunks[0];
      var rest := chunks[1..];
      if Complete(b) {
        FedBehind([b], "", rest);
        assert [] + [b] == [b];
        var fed := FeedAll(START, rest);
        assert FeedAll(Assembly([], buffer), chunks).frames == [b] + fed.frames;
        assert ([b] + fed.frames)[0] == b;
        assert forall i :: 0 <= i < |fed.frames| ==> fed.frames[i] == ([b] + fed.frames)[i + 1];
        ParsedFirst(d, b, fed.frames);
        if Arrived(c, b).Message? {
          k := 1;
          FirstRead(c, chunks, 1, buffer);
          IdReadIs(c, b);
        } else {
          k := LoginOf(c, rest, "");
          FirstRead(c, chunks, k + 1, buffer);
          k := k + 1;
          assert chunks[k..] == rest[k - 1..];
          assert [] + Parsed(d, fed.frames) == Parsed(d, fed.frames);
        }
      } else {
        k := LoginOf(c, rest, b);
        FirstRead(c, chunks, k + 1, buffer);
        k := k + 1;
        assert chunks[k..] == rest[k - 1..];
      }
    }
  }

  lemma NoLogin(c: Config, buffer: string)
    ensures LoginRun(c, ReadsOf([]), 0, buffer) == Nodes.Login.Login(Connected, 0, buffer, false)
    ensures forall d :: Parsed(d, []) == []
  {
    assert ReadsOf([]) == [];
  }

  lemma IdReadIs(c: Config, raw: string)
    requires Arrived(c, raw).Message?
    ensures var m := Arrived(c, raw).m;
            IdRead(CodecOf(c), raw) == if m.name == MSG_LOGIN_NAME then m.from else 0
  {
    hide Arrived;
  }

  lemma FirstRead(c: Config, chunks: seq<string>, k: nat, buffer: string)
    requires 0 < k <= |chunks|
    ensures var b := buffer + chunks[0];
            LoginRun(c, ReadsOf(chunks[..k]), 0, buffer) ==
              if !Complete(b) then LoginRun(c, ReadsOf(chunks[1..][..k - 1]), 0, b)
              else if Arrived(c, b).Message? then
                Nodes.Login.Login(
                  Accepted, if Arrived(c, b).m.name == MSG_LOGIN_NAME then Arrived(c, b).m.from else 0, "", false)
              else if Arrived(c, b).Exception? then Nodes.Login.Login(Connected, 0, b, true)
              else LoginRun(c, ReadsOf(chunks[1..][..k - 1]), 0, "")
  {
    hide Complete, Arrived, LoginRun, ReadsOf;
    Deliveries.AnswerStep(c, ReadsOf(chunks[..k]), buffer) by { Deliveries.ReadsTail(chunks[..k]); }
    Deliveries.ReadsTail(chunks[..k]);
    assert chunks[..k][1..] == chunks[1..][..k - 1];
  }

  /** Of the messages read from these texts, those for other nodes. */
  function ForOthers(c: Config, id: nat, raws: seq<string>): seq<Msg> {
    if raws == [] then [] else Routes(id, Arrived(c, raws[0])) + ForOthers(c, id, raws[1..])
  }

  lemma {:induction false} HandedOver(c: Config, id: nat, frames: seq<string>, buffer: string)
    requires Quiet(CodecOf(c), frames)
    ensures Deliveries.Handed(c, id, frames, buffer) ==
              Reception(ForOthers(c, id, Parsed(CodecOf(c), frames)), buffer, Going)
    decreases |frames|
  {
    hide Arrived, Parsed;
    var d := CodecOf(c);
    if frames == [] {
      NoLogin(c, buffer);
    } else {
      HandedOver(c, id, frames[1..], buffer);
      assert frames == [frames[0]] + frames[1..];
      ParsedFirst(d, frames[0], frames[1..]);
      if Arrived(c, frames[0]).Message? {
        assert ([frames[0]] + Parsed(d, frames[1..]))[1..] == Parsed(d, frames[1..]);
      } else {
        assert [] + Parsed(d, frames[1..]) == Parsed(d, frames[1..]);
      }
    }
  }

  /**
   * In every attainable state a node's thread stands where the two loops of its class come to on the
   * reads it has made: k of them for `waitForLogin`, which gives the node its id, and the others for the
   * receive loop, which routes the messages received that are not the node's own.
   */
  lemma ThreadsRunTheLoops(c: Config, f: Full, i: nat) returns (k: nat)
    requires Attainable(CodecOf(c), f) && i < |f.core.nodes|
    ensures k <= |IoOf(f, Node(i)).heard|
    ensures var io, node, raws := IoOf(f, Node(i)), f.core.nodes[i], From(f.letters, Node(i));
            var login := LoginRun(c, ReadsOf(io.heard[..k]), 0, "");
            if login.status == Accepted then
              login == Nodes.Login.Login(Accepted, node.id, "", false) && !node.pc.LoggingIn? &&
              ReceiveRun(c, node.id, ReadsOf(io.heard[k..]), "") ==
                Reception(ForOthers(c, node.id, raws), io.inbox.buffer, Going)
            else
              k == |io.heard| && login == Nodes.Login.Login(Connected, 0, io.inbox.buffer, false) &&
              (node.pc.LoggingIn? || node.pc.Stopped?) && node.id == 0 && raws == []
  {
    hide Attainable, FullInv, SourcesInv, Faithful, IoOf, From, Parsed, LoginRun, ReceiveRun, ReadsOf, FeedAll,
         IdRead, Arrived;
    var d, t := CodecOf(c), Node(i);
    var io := IoOf(f, t);
    AttainableInv(d, f);
    AttainableQuiet(d, f);
    Sizes(d, f);
    FaithfulAt(d, f, t);
    k := LoginOf(c, io.heard, "");
    var id := f.core.nodes[i].id;
    assert io.heard[|io.heard|..] == [];
    Deliveries.LoopAssembles(c, id, START, io.heard[k..]);
    var rest := FeedAll(START, io.heard[k..]);
    assert rest.frames[0..] == rest.frames;
    if Parsed(d, io.inbox.frames) != [] {
      HandedOver(c, id, rest.frames, rest.buffer);
    }
  }

  lemma FaithfulAt(d: Codec, f: Full, t: Thread)
    requires SourcesInv(d, f) && t.Node? && t.i < |f.core.nodes|
    ensures IoOf(f, t).inbox == FeedAll(START, IoOf(f, t).heard)
    ensures From(f.letters, t) == Behind(Parsed(d, IoOf(f, t).inbox.frames))
    ensures Stands(d, Parsed(d, IoOf(f, t).inbox.frames), f.core.nodes[t.i])
  {
    hide IoOf, Parsed, FeedAll, From, Behind, Stands;
    assert Faithful(d, f, t);
  }
}

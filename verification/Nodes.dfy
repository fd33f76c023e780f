/** The nodes of the broker: reading from sockets, logging in, queueing and routing, each step in turn. */
module Nodes {
  import opened Text
  import opened Numbers
  import opened Values
  import opened Parser
  import opened Layout
  import opened Messages
  import opened Frames
  import opened Streams
  import opened RoundTrip
  import Formatting
  import opened Logins
  import Wire

  const MSG_LOGIN_ANSWER_NAME := "MSG_LOGIN_ANSWER"

  /** A parsed message. */
  datatype Msg = Msg(name: string, from: nat, to: nat, json: Value)

  /** What a call of `read` returns: data without NULs, 0, or a negative length. */
  datatype Read = Chunk(data: string) | Closed | Failed

  datatype NodeStatus = Connected | Accepted | Disconnected

  /** What a buffer handed to `fromRawData` is to its reader. */
  datatype Arrival = Nothing | Unreadable | Message(m: Msg) | Exception

  function Arrived(c: Config, raw: string): Arrival {
    match Receive(c, raw)
    case Thrown(_) => Exception
    case Received(ok, Fields(name, from, to), json) => if ok then Message(Msg(name, from, to, json)) else Unreadable
    case Received(_, NoFields, _) => Unreadable
  }

  /** `fromRawData` on a buffer. */
  method ReadBuffer(cfg: Config, raw: string) returns (arrival: Arrival)
    ensures arrival == Arrived(cfg, raw)
  {
    hide Receive;
    var m, ok, thrown := Messages.Message.FromRawData(cfg, raw);
    arrival := if thrown then Exception else if ok then Message(Msg(m.name, m.from, m.to, m.jsonRep)) else Unreadable;
  }

  /** `toString` of a message. */
  method TextOf(cfg: Config, m: Msg) returns (text: string)
    requires WellFormed(m.json)
    ensures text == Frame(cfg.printDouble, m.json)
  {
    hide Frame, WellFormed;
    var message := new Messages.Message(cfg, m.name, m.from, m.to);
    message.jsonRep := m.json;
    text := message.ToString();
  }

  /** Whatever arrives can be sent on. */
  lemma ArrivedWellFormed(c: Config, raw: string)
    ensures Arrived(c, raw).Message? ==> WellFormed(Arrived(c, raw).m.json)
  {
    hide WellFormed, Parse, Lines, Gather, FieldsOf, Formatting.Built, Canon, Strip;
    var data := Gather(Lines(raw), true, false, "").data;
    Formatting.ParsedIsCanonical(c, data, NULL_VALUE);
  }

  // ----- TSocketClient -----

  datatype Answer = Waiting(buffer: string) | Lost | Found(m: Msg) | Failure

  /** `readMessage`: reads on until a buffer with both sentinels parses; `buffer` is what is left over. */
  function ReadAnswer(c: Config, input: seq<Read>, buffer: string): Answer
    decreases |input|
  {
    if input == [] then Waiting(buffer)
    else if !input[0].Chunk? then Lost
    else
      var b := buffer + input[0].data;
      if !Complete(b) then ReadAnswer(c, input[1..], b)
      else
        match Arrived(c, b)
        case Message(m) => Found(m)
        case Exception => Failure
        case _ => ReadAnswer(c, input[1..], "")
  }

  class SocketClient {
    const cfg: Config
    var stopped: bool
    var sent: seq<string>

    constructor (cfg: Config)
      ensures this.cfg == cfg && !stopped && sent == []
    {
      this.cfg := cfg;
      stopped, sent := false, [];
    }

    /** `written` is what `write` returns: a short or failed write is reported as false. */
    method WriteData(m: Msg, written: int) returns (ok: bool)
      requires WellFormed(m.json)
      modifies this`sent
      ensures sent == old(sent) + [Frame(cfg.printDouble, m.json)]
      ensures ok <==> written == |Frame(cfg.printDouble, m.json)|
    {
      hide Frame, WellFormed;
      var text := TextOf(cfg, m);
      sent := sent + [text];
      ok := written == |text|;
    }

    method ReadMessage(input: seq<Read>) returns (answer: Answer)
      modifies this`stopped
      ensures answer == ReadAnswer(cfg, input, "")
      ensures stopped == (old(stopped) || answer.Lost?)
    {
      hide Complete, Arrived;
      var strBuffer := "";
      var i := 0;
      assert input[0..] == input;
      while i < |input|
        invariant 0 <= i <= |input| && stopped == old(stopped)
        invariant ReadAnswer(cfg, input, "") == ReadAnswer(cfg, input[i..], strBuffer)
      {
        ghost var rest := input[i..];
        var len := input[i];
        i := i + 1;
        assert rest[1..] == input[i..];
        if !len.Chunk? {
          stopped := true;
          return Lost;
        }
        strBuffer := strBuffer + len.data;
        if Complete(strBuffer) {
          var arrival := ReadBuffer(cfg, strBuffer);
          if arrival.Message? {
            return Found(arrival.m);
          }
          if arrival.Exception? {
            return Failure;
          }
          strBuffer := "";
        }
      }
      answer := Waiting(strBuffer);
    }
  }

  function ReadsOf(chunks: seq<string>): (input: seq<Read>)
    ensures |input| == |chunks|
  {
    seq(|chunks|, i requires 0 <= i < |chunks| => Chunk(chunks[i]))
  }

  lemma {:induction false} ReadsUntilComplete(c: Config, chunks: seq<string>, buffer: string, text: string)
    requires Chunks(chunks) && chunks != [] && buffer + Concat(chunks) == text && CompleteAtEnd(text)
    requires Arrived(c, text).Message?
    ensures ReadAnswer(c, ReadsOf(chunks), buffer) == Found(Arrived(c, text).m)
    decreases |chunks|
  {
    hide Complete, Arrived;
    var b := buffer + chunks[0];
    assert ReadsOf(chunks)[1..] == ReadsOf(chunks[1..]);
    if |chunks| == 1 {
      assert chunks[1..] == [] && b == text by { assert chunks[0] + "" == chunks[0]; }
    } else {
      var rest := chunks[1..];
      assert b + Concat(rest) == text && rest[0] == chunks[1] && |Concat(rest)| > 0;
      assert text[..|b|] == b;
      ReadsUntilComplete(c, rest, b, text);
    }
  }

  /** A frame whose document does not contain the end sentinel is received whole, however it is split. */
  lemma ReceivesSplitFrame(c: Config, root: Value, chunks: seq<string>)
    requires !Contains(StyledText(c.printDouble, root), SENTINEL_END)
    requires Chunks(chunks) && Concat(chunks) == Frame(c.printDouble, root)
    requires Arrived(c, Frame(c.printDouble, root)).Message?
    ensures ReadAnswer(c, ReadsOf(chunks), "") == Found(Arrived(c, Frame(c.printDouble, root)).m)
  {
    hide Complete, Arrived, StyledText;
    FrameCompleteAtEnd(c.printDouble, root);
    assert Frame(c.printDouble, root)[0] == '#';
    assert "" + Concat(chunks) == Frame(c.printDouble, root);
    ReadsUntilComplete(c, chunks, "", Frame(c.printDouble, root));
  }

  // ----- TRemoteNode -----

  /**
   * From `toString` on one side to `readMessage` on the other: however its frame is split, a message
   * arrives with the name, the sender and the destination it was sent with, and the same JSON.
   */
  lemma SentIsReceived(c: Config, root: Value, chunks: seq<string>)
    requires Printable(root) && !c.strictRoot && FieldsOf(c.printDouble, root).Fields?
    requires !Contains(StyledText(c.printDouble, root), SENTINEL_END)
    requires Chunks(chunks) && Concat(chunks) == Frame(c.printDouble, root)
    ensures var answer := ReadAnswer(c, ReadsOf(chunks), "");
            answer.Found? && Strip(answer.m.json) == Canon(root) &&
            Fields(answer.m.name, answer.m.from, answer.m.to) == FieldsOf(c.printDouble, root)
  {
    hide Receive, Frame, ReadAnswer, FieldsOf, Canon, Strip, Printable, StyledText, Contains, Concat, ReadsOf;
    Wire.WireRoundTrip(c, root);
    ReceivesSplitFrame(c, root, chunks);
  }

  /** Where the login loop stands. */
  datatype Login = Login(status: NodeStatus, id: nat, buffer: string, crashed: bool)

  /** The login loop: the first message that parses is accepted, and a login message sets the id. */
  function LoginRun(c: Config, input: seq<Read>, id: nat, buffer: string): Login
    decreases |input|
  {
    if input == [] then Login(Connected, id, buffer, false)
    else if !input[0].Chunk? then Login(Disconnected, id, buffer, false)
    else
      var b := buffer + input[0].data;
      if !Complete(b) then LoginRun(c, input[1..], id, b)
      else
        match Arrived(c, b)
        case Message(m) => Login(Accepted, if m.name == MSG_LOGIN_NAME then m.from else id, "", false)
        case Exception => Login(Connected, id, b, true)
        case _ => LoginRun(c, input[1..], id, "")
  }

  /** The id changes at most once, and only in the step that makes the node accepted. */
  lemma {:induction false} LoginChangesIdOnce(c: Config, input: seq<Read>, id: nat, buffer: string)
    ensures var l := LoginRun(c, input, id, buffer);
            (l.status != Accepted ==> l.id == id) && (l.crashed ==> l.status == Connected)
    decreases |input|
  {
    hide Complete, Arrived;
    if input != [] && input[0].Chunk? {
      var b := buffer + input[0].data;
      LoginChangesIdOnce(c, input[1..], id, b);
      LoginChangesIdOnce(c, input[1..], id, "");
    }
  }

  /** A node whose first frame parses is accepted by it, however the frame is split and whatever follows. */
  lemma {:induction false} AcceptedByFirstFrame(c: Config, chunks: seq<string>, buffer: string, text: string,
                                                more: seq<Read>, id: nat)
    requires Chunks(chunks) && chunks != [] && buffer + Concat(chunks) == text && CompleteAtEnd(text)
    requires Arrived(c, text).Message?
    ensures var m := Arrived(c, text).m;
            LoginRun(c, ReadsOf(chunks) + more, id, buffer) ==
              Login(Accepted, if m.name == MSG_LOGIN_NAME then m.from else id, "", false)
    decreases |chunks|
  {
    hide Complete, Arrived;
    var b := buffer + chunks[0];
    var input := ReadsOf(chunks) + more;
    assert input[1..] == ReadsOf(chunks[1..]) + more;
    assert input[0] == Chunk(chunks[0]);
    if |chunks| == 1 {
      assert chunks[1..] == [] && b == text by { assert chunks[0] + "" == chunks[0]; }
    } else {
      var rest := chunks[1..];
      assert b + Concat(rest) == text && rest[0] == chunks[1] && |Concat(rest)| > 0;
      assert text[..|b|] == b;
      AcceptedByFirstFrame(c, rest, b, text, more, id);
    }
  }

  class RemoteNode {
    const cfg: Config
    var status: NodeStatus
    var running: bool
    var nodeId: nat
    var strBuffer: string
    var queue: seq<Msg>
    var wire: seq<string>

    constructor (cfg: Config)
      ensures this.cfg == cfg && status == Connected && running && nodeId == 0
      ensures strBuffer == "" && queue == [] && wire == []
    {
      this.cfg := cfg;
      status, running, nodeId, strBuffer, queue, wire := Connected, true, 0, "", [], [];
    }

    /** `EnqueueMsg`, under the queue's mutex; how much `write` has written is not looked at. */
    method EnqueueMsg(m: Msg)
      requires WellFormed(m.json)
      modifies this`queue, this`wire
      ensures queue == old(queue) + [m] && wire == old(wire) + [Frame(cfg.printDouble, m.json)]
    {
      hide Frame, WellFormed;
      queue := queue + [m];
      var text := TextOf(cfg, m);
      wire := wire + [text];
    }

    /** `checkLogin`. */
    method CheckLogin(raw: string) returns (ok: bool, thrown: bool)
      modifies this`nodeId
      ensures var a := Arrived(cfg, raw);
              ok == a.Message? && thrown == a.Exception? &&
              nodeId == if a.Message? && a.m.name == MSG_LOGIN_NAME then a.m.from else old(nodeId)
    {
      var arrival := ReadBuffer(cfg, raw);
      ok, thrown := arrival.Message?, arrival.Exception?;
      if ok && arrival.m.name == MSG_LOGIN_NAME {
        nodeId := arrival.m.from;
      }
    }

    method WaitForLogin(input: seq<Read>) returns (crashed: bool)
      requires status == Connected && running
      modifies this`status, this`running, this`nodeId, this`strBuffer
      ensures LoginRun(cfg, input, old(nodeId), old(strBuffer)) == Login(status, nodeId, strBuffer, crashed)
      ensures running <==> status != Disconnected
    {
      hide Complete, Arrived;
      crashed := false;
      ghost var target := LoginRun(cfg, input, nodeId, strBuffer);
      var i := 0;
      assert input[0..] == input;
      while status != Accepted && i < |input|
        invariant 0 <= i <= |input| && running && !crashed
        invariant status == Connected || status == Accepted
        invariant target == if status == Accepted then Login(Accepted, nodeId, strBuffer, false)
                            else LoginRun(cfg, input[i..], nodeId, strBuffer)
      {
        ghost var rest := input[i..];
        var len := input[i];
        i := i + 1;
        assert rest[1..] == input[i..];
        if !len.Chunk? {
          status := Disconnected;
          running := false;
          return;
        }
        strBuffer := strBuffer + len.data;
        if Complete(strBuffer) {
          var ok;
          ok, crashed := CheckLogin(strBuffer);
          if crashed {
            return;
          }
          if ok {
            status := Accepted;
          }
          strBuffer := "";
        }
      }
    }

    /**
     * The receive loop's body up to routing.  Only a length of zero ends the loop here; `routed` is
     * the message `routeMessage` is called with, if it is.
     */
    method ReceiveOnce(len: Read) returns (routed: Option<Msg>, crashed: bool)
      requires status == Accepted && running
      modifies this`status, this`running, this`strBuffer
      ensures len.Closed? ==>
                status == Disconnected && !running && routed == None && !crashed && strBuffer == old(strBuffer)
      ensures !len.Closed? ==>
                status == Accepted && running &&
                var b := old(strBuffer) + (if len.Chunk? then len.data else "");
                if !Complete(b) then strBuffer == b && routed == None && !crashed
                else
                  match Arrived(cfg, b)
                  case Message(m) => strBuffer == "" && !crashed && routed == if m.to == nodeId then None else Some(m)
                  case Exception => strBuffer == b && crashed && routed == None
                  case _ => strBuffer == "" && !crashed && routed == None
    {
      hide Complete, Arrived;
      routed, crashed := None, false;
      if len.Closed? {
        status := Disconnected;
        running := false;
        return;
      }
      strBuffer := strBuffer + (if len.Chunk? then len.data else "");
      if Complete(strBuffer) {
        var arrival := ReadBuffer(cfg, strBuffer);
        if arrival.Exception? {
          crashed := true;
          return;
        }
        if arrival.Message? && arrival.m.to != nodeId {
          routed := Some(arrival.m);
        }
        strBuffer := "";
      }
    }

    /** The size check, which takes no lock. */
    predicate HasQueued()
      reads this`queue
    {
      |queue| > 0
    }

    /** `front` and `pop_front`, under the queue's mutex. */
    method PopFront() returns (m: Msg)
      requires queue != []
      modifies this`queue
      ensures m == old(queue)[0] && queue == old(queue)[1..]
    {
      m := queue[0];
      queue := queue[1..];
    }

    /** The receive loop, on a run of reads; `routed` are the messages `routeMessage` is called with. */
    method ReceiveLoop(input: seq<Read>) returns (routed: seq<Msg>, crashed: bool)
      requires status == Accepted && running
      modifies this`status, this`running, this`strBuffer, this`queue
      ensures ReceiveRun(cfg, nodeId, input, old(strBuffer)) ==
                Reception(routed, strBuffer, if crashed then Broken else if running then Going else Gone)
      ensures status == (if running then Accepted else Disconnected)
      ensures queue == Popped(old(queue), Passes(cfg, input, old(strBuffer)))
    {
      hide Complete, Arrived, ReceiveRun, Passes;
      routed, crashed := [], false;
      var i := 0;
      assert input[0..] == input;
      ghost var target, passes := ReceiveRun(cfg, nodeId, input, strBuffer), Passes(cfg, input, strBuffer);
      while running && !crashed && i < |input|
        invariant 0 <= i <= |input| && (running ==> status == Accepted) && (!running ==> status == Disconnected) &&
                  !(crashed && !running)
        invariant target == After(routed, if crashed then Reception([], strBuffer, Broken)
                                          else if running then ReceiveRun(cfg, nodeId, input[i..], strBuffer)
                                          else Reception([], strBuffer, Gone))
        invariant if running && !crashed then passes == i + Passes(cfg, input[i..], strBuffer) else passes == i - 1
        invariant queue == Popped(old(queue), if running && !crashed then i else i - 1)
      {
        ghost var rest, buffer, before := input[i..], strBuffer, routed;
        var m, thrown := ReceiveOnce(input[i]);
        i := i + 1;
        assert rest[1..] == input[i..];
        ReceiveStep(cfg, nodeId, rest, buffer);
        PassesStep(cfg, rest, buffer);
        crashed := thrown;
        if m.Some? {
          routed := routed + [m.value];
        }
        AfterTwice(before, if m.Some? then [m.value] else [], ReceiveRun(cfg, nodeId, input[i..], ""));
        if running && !crashed && HasQueued() {
          var front := PopFront();
        }
      }
      if running && !crashed {
        NoReads(cfg, nodeId, strBuffer);
        PassesStep(cfg, [], strBuffer);
      }
    }
  }

  // ----- the receive loop as a function -----

  datatype Ending = Going | Gone | Broken

  datatype Reception = Reception(routed: seq<Msg>, buffer: string, end: Ending)

  function After(routed: seq<Msg>, r: Reception): Reception {
    r.(routed := routed + r.routed)
  }

  /** What a pass makes of a buffer that is complete: the messages to route. */
  function Routes(id: nat, arrival: Arrival): seq<Msg> {
    if arrival.Message? && arrival.m.to != id then [arrival.m] else []
  }

  function ReceiveRun(c: Config, id: nat, input: seq<Read>, buffer: string): Reception
    decreases |input|
  {
    if input == [] then Reception([], buffer, Going)
    else if input[0].Closed? then Reception([], buffer, Gone)
    else
      var b := buffer + (if input[0].Chunk? then input[0].data else "");
      if !Complete(b) then ReceiveRun(c, id, input[1..], b)
      else if Arrived(c, b).Exception? then Reception([], b, Broken)
      else After(Routes(id, Arrived(c, b)), ReceiveRun(c, id, input[1..], ""))
  }

  lemma AfterTwice(a: seq<Msg>, b: seq<Msg>, r: Reception)
    ensures After(a, After(b, r)) == After(a + b, r) && a + [] == a
  {
    assert a + (b + r.routed) == a + b + r.routed;
  }

  lemma NoReads(c: Config, id: nat, buffer: string)
    ensures ReceiveRun(c, id, [], buffer) == Reception([], buffer, Going)
  {
  }

  lemma ReceiveStep(c: Config, id: nat, input: seq<Read>, buffer: string)
    requires input != []
    ensures var b := buffer + (if input[0].Chunk? then input[0].data else "");
            ReceiveRun(c, id, input, buffer) ==
              if input[0].Closed? then Reception([], buffer, Gone)
              else if !Complete(b) then ReceiveRun(c, id, input[1..], b)
              else if Arrived(c, b).Exception? then Reception([], b, Broken)
              else After(Routes(id, Arrived(c, b)), ReceiveRun(c, id, input[1..], ""))
  {
    hide Complete, Arrived;
  }

  /** How often the loop comes to look at its queue: once for every read, up to the one that ends it. */
  function Passes(c: Config, input: seq<Read>, buffer: string): (n: nat)
    ensures n <= |input|
    decreases |input|
  {
    if input == [] || input[0].Closed? then 0
    else
      var b := buffer + (if input[0].Chunk? then input[0].data else "");
      if !Complete(b) then 1 + Passes(c, input[1..], b)
      else if Arrived(c, b).Exception? then 0
      else 1 + Passes(c, input[1..], "")
  }

  lemma PassesStep(c: Config, input: seq<Read>, buffer: string)
    ensures Passes(c, input, buffer) ==
              if input == [] || input[0].Closed? then 0
              else
                var b := buffer + (if input[0].Chunk? then input[0].data else "");
                if !Complete(b) then 1 + Passes(c, input[1..], b)
                else if Arrived(c, b).Exception? then 0
                else 1 + Passes(c, input[1..], "")
  {
    hide Complete, Arrived;
  }

  /** A queue that has lost its front n times, as long as there was one. */
  function Popped(queue: seq<Msg>, n: nat): seq<Msg> {
    if n < |queue| then queue[n..] else []
  }

  /** A loop that goes on has looked at its queue once for every read, and one that ends for all but the last. */
  lemma {:induction false} PassesAll(c: Config, id: nat, input: seq<Read>, buffer: string)
    ensures var n := Passes(c, input, buffer);
            match ReceiveRun(c, id, input, buffer).end
            case Going => n == |input|
            case Gone => n < |input| && input[n].Closed? && Closed !in input[..n]
            case Broken => n < |input| && !input[n].Closed? && Closed !in input[..n]
    decreases |input|
  {
    hide Complete, Arrived, ReceiveRun, Passes;
    PassesStep(c, input, buffer);
    if input == [] {
      NoReads(c, id, buffer);
    } else {
      ReceiveStep(c, id, input, buffer);
      var b := buffer + (if input[0].Chunk? then input[0].data else "");
      PassesAll(c, id, input[1..], b);
      PassesAll(c, id, input[1..], "");
      forall k: nat | k <= |input[1..]| ensures input[..k + 1] == [input[0]] + input[1..][..k] {
      }
    }
  }

  // ----- TClientNode -----

  /** What the gateway's caller asks of it. */
  datatype Call = Dial(reached: bool) | SignIn(input: seq<Read>) | Post(m: Msg)

  /** A login answer that says something came back, a refusal as well. */
  predicate Answered(c: Config, input: seq<Read>) {
    var a := ReadAnswer(c, input, "");
    a.Found? && a.m.name == MSG_LOGIN_ANSWER_NAME && Field(c.printDouble, a.m.json, "correct").Read?
  }

  function StatusAfter(c: Config, status: NodeStatus, call: Call): NodeStatus {
    match call
    case Dial(reached) => if reached then Connected else status
    case SignIn(input) => if status.Connected? && Answered(c, input) then Accepted else status
    case Post(_) => status
  }

  /** The frames a call hands to the socket. */
  function FramesAfter(c: Config, id: nat, status: NodeStatus, call: Call): seq<string> {
    match call
    case Dial(_) => []
    case SignIn(_) => if status.Connected? then [Frame(c.printDouble, LoginRoot(id))] else []
    case Post(m) => if status.Accepted? then [Frame(c.printDouble, m.json)] else []
  }

  /** The blocking gateway client. */
  class ClientNode {
    const cfg: Config
    const client: SocketClient
    var status: NodeStatus
    var nodeId: nat

    constructor (cfg: Config)
      ensures this.cfg == cfg && client.cfg == cfg && fresh(client) && status == Disconnected && nodeId == 1001
      ensures client.sent == []
    {
      this.cfg := cfg;
      client := new SocketClient(cfg);
      status, nodeId := Disconnected, 1001;
    }

    /** `connect`, with what `tryConnect` comes to. */
    method Connect(reached: bool) returns (ok: bool)
      modifies this`status
      ensures status == StatusAfter(cfg, old(status), Dial(reached)) && ok == reached
    {
      hide Answered;
      ok := reached;
      if ok {
        status := Connected;
      }
    }

    /** `sendMessage`: true only if the node is accepted and `write` has taken the whole frame. */
    method SendMessage(m: Msg, written: int) returns (ok: bool)
      requires client.cfg == cfg && WellFormed(m.json)
      modifies client`sent
      ensures client.sent == old(client.sent) + FramesAfter(cfg, nodeId, status, Post(m))
      ensures ok <==> status == Accepted && written == |Frame(cfg.printDouble, m.json)|
    {
      hide Frame, WellFormed;
      ok := false;
      if status == Accepted {
        ok := client.WriteData(m, written);
      }
    }

    /**
     * `login`, with `input` what comes back.  Any login answer makes the node accepted, a refusal as
     * well: then the result is false all the same.
     */
    method LogIn(written: int, input: seq<Read>) returns (ok: bool, thrown: bool)
      requires client.cfg == cfg && nodeId < TWO_32
      modifies this`status, client
      ensures status == StatusAfter(cfg, old(status), SignIn(input))
      ensures client.sent == old(client.sent) + FramesAfter(cfg, nodeId, old(status), SignIn(input))
      ensures old(status) != Connected ==> ok == (old(status) == Accepted) && !thrown
      ensures old(status) == Connected ==>
                var a := ReadAnswer(cfg, input, "");
                (ok <==> a.Found? && a.m.name == MSG_LOGIN_ANSWER_NAME &&
                         Field(cfg.printDouble, a.m.json, "correct") == Read("1")) &&
                (thrown <==> a.Failure? || (a.Found? && a.m.name == MSG_LOGIN_ANSWER_NAME && !Answered(cfg, input)))
    {
      hide ReadAnswer, Field, Receive, LoginSource, LoginRoot, Frame, WellFormed;
      thrown := false;
      if status != Connected {
        return status == Accepted, false;
      }
      var m, parsed, failed := Messages.Message.FromRawData(cfg, LoginSource(nodeId));
      LoginReceived(cfg, nodeId);
      LoginCanBeSent(cfg, nodeId);
      var wrote := client.WriteData(Msg(m.name, m.from, m.to, m.jsonRep), written);
      var answer := client.ReadMessage(input);
      thrown := answer.Failure?;
      ok := false;
      if answer.Found? && answer.m.name == MSG_LOGIN_ANSWER_NAME {
        var value := Field(cfg.printDouble, answer.m.json, "correct");
        if value.Throws? {
          return false, true;
        }
        ok := value.s == "1";
        status := Accepted;
      }
    }
  }

  lemma LoginCanBeSent(c: Config, id: nat)
    requires id < TWO_32
    ensures var json := Receive(c, LoginSource(id)).json;
            WellFormed(json) && Frame(c.printDouble, json) == Frame(c.printDouble, LoginRoot(id))
  {
    LoginReceived(c, id);
    hide Receive, WellFormed, Lines, Gather, Formatting.Built, FieldsOf, LoginSource, LoginRoot, Styled;
    ReceivedWellFormed(c, LoginSource(id));
    var json := Receive(c, LoginSource(id)).json;
    LoginRootPlain(id);
    Wire.StyledStrip(c.printDouble, "", 0, json, LoginRoot(id));
  }

  lemma ReceivedWellFormed(c: Config, raw: string)
    ensures WellFormed(Receive(c, raw).json)
  {
    hide WellFormed, Parse, Lines, Gather, FieldsOf;
    ParsedWellFormed(c, Gather(Lines(raw), true, false, "").data);
    assert WellFormed(NULL_VALUE) by { NullWellFormed(); }
  }

  lemma NullWellFormed()
    ensures WellFormed(NULL_VALUE)
  {
  }

  lemma ParsedWellFormed(c: Config, doc: string)
    ensures WellFormed(Parse(c, doc, NULL_VALUE).node)
  {
    hide ReadValue, Significant, WellFormed;
    assert Formatting.Built(NULL_VALUE);
    Formatting.ValuesBuilt(c, |doc|, doc, NULL_VALUE);
    Formatting.BuiltWellFormed(ReadValue(c, |doc|, doc, NULL_VALUE).node);
  }

  // ----- all sequences of calls -----

  function StatusRun(c: Config, calls: seq<Call>): NodeStatus {
    if calls == [] then Disconnected else StatusAfter(c, StatusRun(c, calls[..|calls| - 1]), calls[|calls| - 1])
  }

  predicate Dialled(calls: seq<Call>, j: int) {
    0 <= j < |calls| && calls[j] == Dial(true)
  }

  /** Call k is an answered login behind a connect, and no connect comes behind it. */
  predicate AcceptedAt(c: Config, calls: seq<Call>, j: int, k: int) {
    Dialled(calls, j) && j < k < |calls| && calls[k].SignIn? && Answered(c, calls[k].input) &&
    forall i :: k < i < |calls| ==> !Dialled(calls, i)
  }

  lemma {:induction false} EverDialled(c: Config, calls: seq<Call>)
    ensures StatusRun(c, calls) != Disconnected <==> exists j :: Dialled(calls, j)
  {
    hide Answered;
    if calls != [] {
      var before, last := calls[..|calls| - 1], |calls| - 1;
      EverDialled(c, before);
      assert forall j :: Dialled(before, j) ==> Dialled(calls, j);
      assert forall j :: Dialled(calls, j) ==> j == last || Dialled(before, j);
      assert calls[last] == Dial(true) ==> Dialled(calls, last);
    }
  }

  /**
   * Whatever was called, the node is accepted if and only if the last connect that reached the
   * server was followed by a login that was answered: every new connect undoes the acceptance.
   */
  lemma {:induction false} AcceptedIff(c: Config, calls: seq<Call>)
    ensures StatusRun(c, calls) == Accepted <==> exists j, k :: AcceptedAt(c, calls, j, k)
  {
    hide Answered;
    if calls != [] {
      var before, last := calls[..|calls| - 1], |calls| - 1;
      AcceptedIff(c, before);
      EverDialled(c, before);
      if StatusRun(c, calls) == Accepted {
        if StatusRun(c, before) == Accepted {
          var j, k :| AcceptedAt(c, before, j, k);
          AcceptedStays(c, calls, j, k);
        } else {
          var j :| Dialled(before, j);
          assert AcceptedAt(c, calls, j, last);
        }
      }
      if exists j, k :: AcceptedAt(c, calls, j, k) {
        var j, k :| AcceptedAt(c, calls, j, k);
        assert calls[last] != Dial(true) by {
          assert k < last ==> !Dialled(calls, last);
        }
        if k < last {
          AcceptedBefore(c, calls, j, k);
        } else {
          assert Dialled(before, j);
        }
      }
    }
  }

  lemma AcceptedStays(c: Config, calls: seq<Call>, j: int, k: int)
    requires calls != [] && AcceptedAt(c, calls[..|calls| - 1], j, k) && calls[|calls| - 1] != Dial(true)
    ensures AcceptedAt(c, calls, j, k)
  {
    hide Answered;
    forall i | k < i < |calls| ensures !Dialled(calls, i) {
      assert i < |calls| - 1 ==> !Dialled(calls[..|calls| - 1], i);
    }
  }

  lemma AcceptedBefore(c: Config, calls: seq<Call>, j: int, k: int)
    requires calls != [] && AcceptedAt(c, calls, j, k) && k < |calls| - 1
    ensures AcceptedAt(c, calls[..|calls| - 1], j, k)
  {
    hide Answered;
    var before := calls[..|calls| - 1];
    forall i | k < i < |before| ensures !Dialled(before, i) {
      assert !Dialled(calls, i);
    }
  }

  /** A message is handed to the gateway's socket if and only if such a login precedes it. */
  lemma PostedIff(c: Config, id: nat, calls: seq<Call>, m: Msg)
    ensures FramesAfter(c, id, StatusRun(c, calls), Post(m)) == [Frame(c.printDouble, m.json)] <==>
            exists j, k :: AcceptedAt(c, calls, j, k)
    ensures FramesAfter(c, id, StatusRun(c, calls), Post(m)) == [] <==> !exists j, k :: AcceptedAt(c, calls, j, k)
  {
    AcceptedIff(c, calls);
    hide StatusRun, AcceptedAt, Frame;
  }

  // ----- TSocketServer -----

  /** The index of the first node with the id `d`. */
  function FirstWith(ids: seq<nat>, d: nat): Option<nat> {
    if ids == [] then None
    else if ids[0] == d then Some(0)
    else
      match FirstWith(ids[1..], d)
      case None => None
      case Some(k) => Some(k + 1)
  }

  lemma {:induction false} FirstWithIs(ids: seq<nat>, d: nat)
    ensures match FirstWith(ids, d)
            case None => d !in ids
            case Some(k) => k < |ids| && ids[k] == d && forall j :: 0 <= j < k ==> ids[j] != d
  {
    if ids != [] && ids[0] != d {
      FirstWithIs(ids[1..], d);
      assert forall j :: 1 <= j < |ids| ==> ids[j] == ids[1..][j - 1];
    }
  }

  lemma FirstWithUnique(ids: seq<nat>, d: nat, k: nat)
    requires k < |ids| && ids[k] == d && forall j :: 0 <= j < k ==> ids[j] != d
    ensures FirstWith(ids, d) == Some(k)
  {
    FirstWithIs(ids, d);
  }

  lemma AnsweredByOne(c: Config, input: seq<Read>)
    ensures var a := ReadAnswer(c, input, "");
            a.Found? && a.m.name == MSG_LOGIN_ANSWER_NAME && Field(c.printDouble, a.m.json, "correct") == Read("1") ==>
              Answered(c, input)
  {
    hide ReadAnswer, Field;
  }

  class SocketServer {
    var nodeId: nat
    var nodes: seq<RemoteNode>
    const gateway: ClientNode?

    constructor (gateway: ClientNode?)
      ensures nodeId == BROKER_ID && nodes == [] && this.gateway == gateway
    {
      nodeId, nodes := BROKER_ID, [];
      this.gateway := gateway;
    }

    /** The constructor's way to the gateway: connect and, if that works, log in. */
    method ReachGateway(reached: bool, written: int, input: seq<Read>) returns (ok: bool, thrown: bool)
      requires gateway != null && gateway.client.cfg == gateway.cfg && gateway.nodeId < TWO_32
      modifies gateway, gateway.client
      ensures gateway.status ==
                if reached then StatusAfter(gateway.cfg, Connected, SignIn(input)) else old(gateway.status)
      ensures gateway.client.sent == old(gateway.client.sent) +
                if reached then [Frame(gateway.cfg.printDouble, LoginRoot(gateway.nodeId))] else []
      ensures ok ==> reached && gateway.status == Accepted
    {
      hide Answered, Frame, LoginRoot;
      ok := gateway.Connect(reached);
      thrown := false;
      if ok {
        ok, thrown := gateway.LogIn(written, input);
        AnsweredByOne(gateway.cfg, input);
      }
    }

    ghost predicate Valid()
      reads this
    {
      forall i, j :: 0 <= i < j < |nodes| ==> nodes[i] != nodes[j]
    }

    function Ids(): (ids: seq<nat>)
      reads this, nodes
      ensures |ids| == |nodes| && forall i :: 0 <= i < |nodes| ==> ids[i] == nodes[i].nodeId
    {
      seq(|nodes|, i requires 0 <= i < |nodes| reads this, nodes => nodes[i].nodeId)
    }

    /** The accept loop: a new node goes to the end of the list. */
    method Accept(cfg: Config) returns (n: RemoteNode)
      requires Valid()
      modifies this`nodes
      ensures Valid() && fresh(n) && nodes == old(nodes) + [n] && n.nodeId == 0
    {
      n := new RemoteNode(cfg);
      nodes := nodes + [n];
    }

    /**
     * `routeMessage`: a message for the broker itself stays here; any other goes to the first node
     * with the destination's id and to no other, or else is offered once to the gateway.  `written`
     * is what `write` returns there.
     */
    method RouteMessage(m: Msg, written: int)
      requires Valid() && WellFormed(m.json) && (gateway != null ==> gateway.client.cfg == gateway.cfg)
      modifies nodes, if gateway == null then {} else {gateway.client}
      ensures Ids() == old(Ids())
      ensures forall i :: 0 <= i < |nodes| ==>
                if m.to != nodeId && FirstWith(old(Ids()), m.to) == Some(i)
                then nodes[i].queue == old(nodes[i].queue) + [m] &&
                     nodes[i].wire == old(nodes[i].wire) + [Frame(nodes[i].cfg.printDouble, m.json)]
                else nodes[i].queue == old(nodes[i].queue) && nodes[i].wire == old(nodes[i].wire)
      ensures gateway != null ==>
                gateway.client.sent == old(gateway.client.sent) +
                  if m.to != nodeId && FirstWith(old(Ids()), m.to) == None && gateway.status == Accepted
                  then [Frame(gateway.cfg.printDouble, m.json)] else []
    {
      if m.to == nodeId {
        return;
      }
      ghost var ids := Ids();
      var found := false;
      var it := 0;
      while it < |nodes|
        invariant 0 <= it <= |nodes| && !found && Ids() == ids
        invariant forall j :: 0 <= j < it ==> ids[j] != m.to
        invariant forall i :: 0 <= i < |nodes| ==>
                    nodes[i].queue == old(nodes[i].queue) && nodes[i].wire == old(nodes[i].wire)
        invariant gateway != null ==> gateway.client.sent == old(gateway.client.sent)
      {
        var n := nodes[it];
        if n.nodeId == m.to {
          FirstWithUnique(ids, m.to, it);
          found := true;
          n.EnqueueMsg(m);
          break;
        }
        it := it + 1;
      }
      if !found {
        FirstWithIs(ids, m.to);
        if gateway != null {
          var sent := gateway.SendMessage(m, written);
        }
      }
    }

    /** `readMessagesFromGw`: what is read goes to the first node with the destination's id, or nowhere. */
    method DeliverFromGateway(m: Msg)
      requires Valid() && WellFormed(m.json)
      modifies nodes
      ensures Ids() == old(Ids())
      ensures forall i :: 0 <= i < |nodes| ==>
                if FirstWith(old(Ids()), m.to) == Some(i)
                then nodes[i].queue == old(nodes[i].queue) + [m] &&
                     nodes[i].wire == old(nodes[i].wire) + [Frame(nodes[i].cfg.printDouble, m.json)]
                else nodes[i].queue == old(nodes[i].queue) && nodes[i].wire == old(nodes[i].wire)
    {
      ghost var ids := Ids();
      var it := 0;
      while it < |nodes|
        invariant 0 <= it <= |nodes| && Ids() == ids
        invariant forall j :: 0 <= j < it ==> ids[j] != m.to
        invariant forall i :: 0 <= i < |nodes| ==>
                    nodes[i].queue == old(nodes[i].queue) && nodes[i].wire == old(nodes[i].wire)
      {
        var n := nodes[it];
        if n.nodeId == m.to {
          FirstWithUnique(ids, m.to, it);
          n.EnqueueMsg(m);
          return;
        }
        it := it + 1;
      }
      FirstWithIs(ids, m.to);
    }
  }
}

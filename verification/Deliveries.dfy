/** Frames at the broker's end: what the receive loop routes, and how a client's login gets it accepted. */
module Deliveries {
  import opened Text
  import opened Numbers
  import opened Strings
  import opened Tokens
  import opened Values
  import opened Parser
  import opened Layout
  import opened Streams
  import opened RoundTrip
  import opened Messages
  import opened Frames
  import opened Logins
  import opened Nodes
  import Splits
  import Wire

  // ----- the receive loop hands over what the chunks assemble to -----

  lemma ReadsTail(chunks: seq<string>)
    requires chunks != []
    ensures ReadsOf(chunks) != [] && ReadsOf(chunks)[0] == Chunk(chunks[0]) &&
            ReadsOf(chunks)[1..] == ReadsOf(chunks[1..])
  {
  }

  /** What frames handed over one after the other come to, with `buffer` left behind them: one that throws ends it. */
  function Handed(c: Config, id: nat, frames: seq<string>, buffer: string): Reception {
    if frames == [] then Reception([], buffer, Going)
    else if Arrived(c, frames[0]).Exception? then Reception([], frames[0], Broken)
    else After(Routes(id, Arrived(c, frames[0])), Handed(c, id, frames[1..], buffer))
  }

  /** The loop comes to what the frames that its chunks assemble to come to. */
  lemma {:induction false} LoopAssembles(c: Config, id: nat, a: Assembly, chunks: seq<string>)
    ensures a.frames <= FeedAll(a, chunks).frames
    ensures var fed := FeedAll(a, chunks);
            ReceiveRun(c, id, ReadsOf(chunks), a.buffer) == Handed(c, id, fed.frames[|a.frames|..], fed.buffer)
    decreases |chunks|
  {
    hide Complete, Arrived, ReceiveRun, Routes, ReadsOf;
    FeedKeeps(a, chunks);
    var frames := FeedAll(a, chunks).frames;
    if chunks == [] {
      NoReads(c, id, a.buffer);
      assert ReadsOf(chunks) == [];
      assert frames[|a.frames|..] == [];
    } else {
      var b := a.buffer + chunks[0];
      var next := Feed(a, chunks[0]);
      ReadsTail(chunks);
      ReceiveStep(c, id, ReadsOf(chunks), a.buffer);
      LoopAssembles(c, id, next, chunks[1..]);
      if Complete(b) {
        assert frames[|a.frames|] == next.frames[|a.frames|] == b;
        assert frames[|a.frames|..] == [b] + frames[|a.frames| + 1..];
        assert ([b] + frames[|a.frames| + 1..])[1..] == frames[|next.frames|..];
      }
    }
  }

  /** Before a text that is complete only at its end is whole, nothing is handed over. */
  lemma {:induction false} NothingYet(a: Assembly, chunks: seq<string>, text: string, k: nat)
    requires k < |text| && a.buffer + Concat(chunks) == text[..k] && CompleteAtEnd(text)
    ensures FeedAll(a, chunks) == a.(buffer := text[..k])
    decreases |chunks|
  {
    hide Complete;
    if chunks == [] {
      assert a.buffer + "" == a.buffer;
    } else {
      var b := a.buffer + chunks[0];
      assert b + Concat(chunks[1..]) == text[..k];
      assert b == text[..|b|];
      NothingYet(Feed(a, chunks[0]), chunks[1..], text, k);
    }
  }

  lemma {:induction false} ConcatPrefix(chunks: seq<string>, j: nat)
    requires j <= |chunks|
    ensures Concat(chunks[..j]) <= Concat(chunks)
    ensures j < |chunks| && Chunks(chunks) ==> |Concat(chunks[..j])| < |Concat(chunks)|
    decreases |chunks|
  {
    if j == 0 {
      assert chunks[..0] == [];
    } else {
      ConcatPrefix(chunks[1..], j - 1);
      assert chunks[..j][1..] == chunks[1..][..j - 1] && chunks[..j][0] == chunks[0];
      assert Chunks(chunks) ==> Chunks(chunks[1..]);
    }
  }

  lemma OneHanded(c: Config, id: nat, frame: string)
    requires !Arrived(c, frame).Exception?
    ensures Handed(c, id, [frame], "") == Reception(Routes(id, Arrived(c, frame)), "", Going)
    ensures forall buffer :: Handed(c, id, [], buffer) == Reception([], buffer, Going)
  {
    hide Arrived, Routes;
    assert [frame][1..] == [];
    assert Routes(id, Arrived(c, frame)) + [] == Routes(id, Arrived(c, frame));
  }

  /** `m` is the message that was sent. */
  predicate Sent(c: Config, root: Value, m: Msg) {
    Strip(m.json) == Canon(root) && Fields(m.name, m.from, m.to) == FieldsOf(c.printDouble, root)
  }

  lemma FrameArrives(c: Config, root: Value)
    requires Printable(root) && !c.strictRoot && FieldsOf(c.printDouble, root).Fields?
    ensures var a := Arrived(c, Frame(c.printDouble, root)); a.Message? && Sent(c, root, a.m)
  {
    hide Receive, Frame, Printable, Canon, Strip, FieldsOf;
    Wire.WireRoundTrip(c, root);
  }

  /**
   * A frame without an end sentinel inside, split anyhow, makes the receive loop route its message
   * exactly once, at the last chunk, unless it is for the node itself; and the buffer is empty again.
   */
  lemma RoutedOnce(c: Config, id: nat, root: Value, chunks: seq<string>, j: nat)
    requires Printable(root) && !c.strictRoot && FieldsOf(c.printDouble, root).Fields?
    requires !Contains(StyledText(c.printDouble, root), SENTINEL_END)
    requires Chunks(chunks) && Concat(chunks) == Frame(c.printDouble, root) && j < |chunks|
    ensures ReceiveRun(c, id, ReadsOf(chunks[..j]), "").routed == []
    ensures var to, r := FieldsOf(c.printDouble, root).to, ReceiveRun(c, id, ReadsOf(chunks), "");
            r.end == Going && r.buffer == "" && |r.routed| == (if to == id then 0 else 1) &&
            forall m :: m in r.routed ==> Sent(c, root, m)
  {
    hide Complete, Arrived, Frame, StyledText, Printable, Canon, Strip, ReceiveRun, ReadsOf, FieldsOf, FeedAll,
         Contains;
    var p := c.printDouble;
    var text := Frame(p, root);
    FrameArrives(c, root);
    FramesReassemble(p, root);
    FrameCompleteAtEnd(p, root);
    assert FeedAll(START, chunks) == Assembly([text], "");
    LoopAssembles(c, id, START, chunks);
    OneHanded(c, id, text);
    assert [text][0..] == [text];
    ConcatPrefix(chunks, j);
    var k := |Concat(chunks[..j])|;
    assert "" + Concat(chunks[..j]) == text[..k];
    NothingYet(START, chunks[..j], text, k);
    LoopAssembles(c, id, START, chunks[..j]);
  }

  lemma NeverRouted(c: Config, id: nat, a: string, b: string)
    requires Complete(a) && Arrived(c, a) == Arrival.Unreadable && Arrived(c, b) == Arrival.Unreadable
    ensures ReceiveRun(c, id, ReadsOf([a, b]), "").routed == []
  {
    hide Complete, Arrived, ReceiveRun;
    var input := ReadsOf([a, b]);
    assert input[0] == Chunk(a) && input[1..] == [Chunk(b)] && [Chunk(b)][1..] == [];
    assert "" + a == a && "" + b == b;
    ReceiveStep(c, id, input, "");
    ReceiveStep(c, id, [Chunk(b)], "");
    NoReads(c, id, b);
    NoReads(c, id, "");
  }

  /**
   * The message of a frame is routed exactly once, for every split, if and only if its document does
   * not contain the end sentinel.
   */
  lemma RoutedOnceIff(c: Config, id: nat, root: Value)
    requires Printable(root) && !c.strictRoot && FieldsOf(c.printDouble, root).Fields?
    requires FieldsOf(c.printDouble, root).to != id
    ensures !Contains(StyledText(c.printDouble, root), SENTINEL_END) <==>
            forall chunks :: Chunks(chunks) && Concat(chunks) == Frame(c.printDouble, root) ==>
                               |ReceiveRun(c, id, ReadsOf(chunks), "").routed| == 1
  {
    hide StyledText, Printable, FieldsOf, Frame, Canon, Strip, ReceiveRun, ReadsOf, Chunks, Concat, OccursAt;
    var d := StyledText(c.printDouble, root);
    if Contains(d, SENTINEL_END) {
      var k := Splits.EndOf(d);
      Splits.SplitInside(c, root, k);
      Splits.FirstHalfComplete(d, k);
      Splits.HalvesAreChunks(c.printDouble, root, k);
      NeverRouted(c, id, Splits.Halves(d, k)[0], Splits.Halves(d, k)[1]);
      assert |ReceiveRun(c, id, ReadsOf(Splits.Halves(d, k)), "").routed| != 1;
    } else {
      forall chunks | Chunks(chunks) && Concat(chunks) == Frame(c.printDouble, root)
        ensures |ReceiveRun(c, id, ReadsOf(chunks), "").routed| == 1
      {
        FrameNotEmpty(c.printDouble, root);
        RoutedOnce(c, id, root, chunks, 0);
      }
    }
  }

  // ----- connections that are lost -----

  /** Texts that are no messages, and do not end the program either. */
  predicate Unheard(c: Config, frames: seq<string>) {
    forall i :: 0 <= i < |frames| ==> !Arrived(c, frames[i]).Message? && !Arrived(c, frames[i]).Exception?
  }

  lemma ReadsThen(chunks: seq<string>, last: Read, more: seq<Read>)
    ensures var input := ReadsOf(chunks) + [last] + more;
            input != [] && input[0] == (if chunks == [] then last else Chunk(chunks[0])) &&
            input[1..] == if chunks == [] then more else ReadsOf(chunks[1..]) + [last] + more
  {
    if chunks != [] {
      ReadsTail(chunks);
    }
  }

  lemma AnswerStep(c: Config, input: seq<Read>, buffer: string)
    requires input != []
    ensures ReadAnswer(c, input, buffer) ==
              if !input[0].Chunk? then Lost
              else
                var b := buffer + input[0].data;
                if !Complete(b) then ReadAnswer(c, input[1..], b)
                else if Arrived(c, b).Message? then Found(Arrived(c, b).m)
                else if Arrived(c, b).Exception? then Failure
                else ReadAnswer(c, input[1..], "")
    ensures forall id :: LoginRun(c, input, id, buffer) ==
              if !input[0].Chunk? then Login(Disconnected, id, buffer, false)
              else
                var b := buffer + input[0].data;
                if !Complete(b) then LoginRun(c, input[1..], id, b)
                else if Arrived(c, b).Message? then
                  Login(Accepted, if Arrived(c, b).m.name == MSG_LOGIN_NAME then Arrived(c, b).m.from else id,
                        "", false)
                else if Arrived(c, b).Exception? then Login(Connected, id, b, true)
                else LoginRun(c, input[1..], id, "")
  {
    hide Complete, Arrived;
  }

  /**
   * Before a message has come, a read of no length or a failed one loses the connection for good:
   * `readMessage` finds nothing, and the node stays without its login.
   */
  lemma {:induction false} HangUpLoses(c: Config, id: nat, a: Assembly, chunks: seq<string>, last: Read,
                                       more: seq<Read>)
    requires last == Closed || last == Failed
    requires a.frames <= FeedAll(a, chunks).frames && Unheard(c, FeedAll(a, chunks).frames[|a.frames|..])
    ensures var input, fed := ReadsOf(chunks) + [last] + more, FeedAll(a, chunks);
            ReadAnswer(c, input, a.buffer) == Lost &&
            LoginRun(c, input, id, a.buffer) == Login(Disconnected, id, fed.buffer, false)
    decreases |chunks|
  {
    hide Complete, Arrived, ReadAnswer, LoginRun, ReadsOf;
    ReadsThen(chunks, last, more);
    AnswerStep(c, ReadsOf(chunks) + [last] + more, a.buffer);
    if chunks != [] {
      var next, frames := Feed(a, chunks[0]), FeedAll(a, chunks).frames;
      FeedKeeps(next, chunks[1..]);
      if Complete(a.buffer + chunks[0]) {
        assert frames[|a.frames|..][0] == a.buffer + chunks[0];
        assert frames[|a.frames|..][1..] == frames[|next.frames|..];
      }
      HangUpLoses(c, id, next, chunks[1..], last, more);
    }
  }

  /** The receive loop ends at a read of no length, whatever comes behind it, and goes on at a failed one. */
  lemma {:induction false} HangUpEnds(c: Config, id: nat, a: Assembly, chunks: seq<string>, more: seq<Read>)
    requires a.frames <= FeedAll(a, chunks).frames
    requires Handed(c, id, FeedAll(a, chunks).frames[|a.frames|..], FeedAll(a, chunks).buffer).end == Going
    ensures var fed := FeedAll(a, chunks);
            var handed := Handed(c, id, fed.frames[|a.frames|..], fed.buffer);
            ReceiveRun(c, id, ReadsOf(chunks) + [Closed] + more, a.buffer) ==
                Reception(handed.routed, fed.buffer, Gone) &&
            (!Complete(fed.buffer) ==>
               ReceiveRun(c, id, ReadsOf(chunks) + [Failed] + more, a.buffer) ==
                 After(handed.routed, ReceiveRun(c, id, more, fed.buffer)))
    decreases |chunks|
  {
    hide Complete, Arrived, ReceiveRun, ReadsOf, Routes;
    ReadsThen(chunks, Closed, more);
    ReadsThen(chunks, Failed, more);
    ReceiveStep(c, id, ReadsOf(chunks) + [Closed] + more, a.buffer);
    ReceiveStep(c, id, ReadsOf(chunks) + [Failed] + more, a.buffer);
    var frames := FeedAll(a, chunks).frames;
    if chunks == [] {
      assert frames[|a.frames|..] == [];
      assert a.buffer + "" == a.buffer;
    } else {
      var b, next := a.buffer + chunks[0], Feed(a, chunks[0]);
      FeedKeeps(next, chunks[1..]);
      var rest := frames[|next.frames|..];
      if Complete(b) {
        assert frames[|a.frames|..][0] == b && frames[|a.frames|..][1..] == rest;
        HangUpEnds(c, id, next, chunks[1..], more);
        var buffer := FeedAll(a, chunks).buffer;
        AfterTwice(Routes(id, Arrived(c, b)), Handed(c, id, rest, buffer).routed, ReceiveRun(c, id, more, buffer));
      } else {
        HangUpEnds(c, id, next, chunks[1..], more);
      }
    }
  }

  // ----- frames that throw -----

  lemma {:induction false} ReadsUntilThrown(c: Config, id: nat, chunks: seq<string>, buffer: string, text: string,
                                            more: seq<Read>)
    requires Chunks(chunks) && chunks != [] && buffer + Concat(chunks) == text && CompleteAtEnd(text)
    requires Arrived(c, text).Exception?
    ensures var input := ReadsOf(chunks) + more;
            ReadAnswer(c, input, buffer) == Failure &&
            LoginRun(c, input, id, buffer) == Login(Connected, id, text, true) &&
            ReceiveRun(c, id, input, buffer) == Reception([], text, Broken)
    decreases |chunks|
  {
    hide Complete, Arrived, ReadAnswer, LoginRun, ReceiveRun, ReadsOf;
    var b := buffer + chunks[0];
    var input, rest := ReadsOf(chunks) + more, chunks[1..];
    ReadsTail(chunks);
    assert input[0] == Chunk(chunks[0]) && input[1..] == ReadsOf(rest) + more;
    AnswerStep(c, input, buffer);
    ReceiveStep(c, id, input, buffer);
    if |chunks| == 1 {
      assert rest == [] && b == text by { assert chunks[0] + "" == chunks[0]; }
    } else {
      assert b + Concat(rest) == text && rest[0] == chunks[1] && |Concat(rest)| > 0;
      assert text[..|b|] == b;
      ReadsUntilThrown(c, id, rest, b, text, more);
    }
  }

  /**
   * A message with an array or object for its name, sender or destination can be sent, but ends every
   * loop that reads it with an exception, however its frame is split and whatever comes behind it.
   */
  lemma ThrowingFrame(c: Config, id: nat, root: Value, chunks: seq<string>, more: seq<Read>)
    requires Printable(root) && !c.strictRoot && FieldsOf(c.printDouble, root).NoFields?
    requires !Contains(StyledText(c.printDouble, root), SENTINEL_END)
    requires Chunks(chunks) && Concat(chunks) == Frame(c.printDouble, root)
    ensures var input, text := ReadsOf(chunks) + more, Frame(c.printDouble, root);
            ReadAnswer(c, input, "") == Failure &&
            LoginRun(c, input, id, "") == Login(Connected, id, text, true) &&
            ReceiveRun(c, id, input, "") == Reception([], text, Broken)
  {
    hide Complete, Arrived, Frame, StyledText, Printable, ReceiveRun, ReadAnswer, LoginRun, ReadsOf, FieldsOf, Contains;
    var text := Frame(c.printDouble, root);
    FrameThrows(c, root);
    FrameCompleteAtEnd(c.printDouble, root);
    FrameNotEmpty(c.printDouble, root);
    assert "" + Concat(chunks) == text;
    ReadsUntilThrown(c, id, chunks, "", text, more);
  }

  lemma FrameThrows(c: Config, root: Value)
    requires Printable(root) && !c.strictRoot && FieldsOf(c.printDouble, root).NoFields?
    ensures Arrived(c, Frame(c.printDouble, root)).Exception?
  {
    hide Receive, Frame, Printable, Canon, Strip, FieldsOf;
    Wire.WireRoundTrip(c, root);
  }

  // ----- answers to a login -----

  /**
   * Behind a connect, the answer that comes back makes the client accepted if and only if it is
   * called a login answer and says something under "correct", "0" as well as "1".
   */
  lemma AnswerDecides(c: Config, root: Value, chunks: seq<string>)
    requires Printable(root) && !c.strictRoot && FieldsOf(c.printDouble, root).Fields?
    requires !Contains(StyledText(c.printDouble, root), SENTINEL_END)
    requires Chunks(chunks) && Concat(chunks) == Frame(c.printDouble, root)
    ensures StatusAfter(c, Connected, SignIn(ReadsOf(chunks))) ==
              if FieldsOf(c.printDouble, root).name == "MSG_LOGIN_ANSWER" &&
                 Field(c.printDouble, root, "correct") != Throws then Accepted
              else Connected
  {
    hide ReadAnswer, Printable, Frame, StyledText, Contains, ReadsOf, Concat, Chunks, FieldsOf, Field, Canon, Strip;
    SentIsReceived(c, root, chunks);
    var json := ReadAnswer(c, ReadsOf(chunks), "").m.json;
    Wire.FieldCanon(c.printDouble, root, "correct");
    Wire.FieldCanon(c.printDouble, json, "correct");
  }

  // ----- a client's login -----

  lemma LoginPrintable(id: nat)
    ensures Printable(LoginRoot(id))
  {
    hide Numeral, NeedsEscape;
    SimpleStrings(id);
    SimpleStrings(BROKER_ID);
    KeysOrdered();
    hide Values.Before;
    ThreePrintable("message_from", Numeral(id), "message_name", MSG_LOGIN_NAME, "message_to", Numeral(BROKER_ID));
  }

  lemma StringsFine(key: string, s: string)
    requires Simple(key) && Simple(s)
    ensures NulFree(key) && WellFormed(Plain(Str(s))) && RealFree(Plain(Str(s)))
  {
    hide NeedsEscape;
    StringFine(s);
  }

  lemma InOrder(a: string, b: string, d: string, last: Value, middle: Value)
    requires Ordered(a, b) && Ordered(b, d) && Ordered(a, d)
    ensures var e3 := Cons(Name(d), last, Nil);
            Above(Name(b), e3) && Above(Name(a), Cons(Name(b), middle, e3))
  {
    hide KeyLess;
    NilFine(Name(a));
    NilFine(Name(b));
  }

  lemma ThreePrintable(a: string, x: string, b: string, y: string, d: string, z: string)
    requires Ordered(a, b) && Ordered(b, d) && Ordered(a, d)
    requires Simple(a) && Simple(x) && Simple(b) && Simple(y) && Simple(d) && Simple(z)
    ensures Printable(Plain(Obj(
              Cons(Name(a), Plain(Str(x)), Cons(Name(b), Plain(Str(y)), Cons(Name(d), Plain(Str(z)), Nil))))))
  {
    hide *;
    var e3 := Cons(Name(d), Plain(Str(z)), Nil);
    var e2 := Cons(Name(b), Plain(Str(y)), e3);
    InOrder(a, b, d, Plain(Str(z)), Plain(Str(y)));
    StringsFine(a, x);
    StringsFine(b, y);
    StringsFine(d, z);
    NilFine(Name(d));
    ConsFine(d, Plain(Str(z)), Nil);
    ConsFine(b, Plain(Str(y)), e3);
    ConsFine(a, Plain(Str(x)), e2);
    ObjectFine(Cons(Name(a), Plain(Str(x)), e2));
  }

  lemma MemberFree(key: string, value: string)
    requires Simple(key) && Simple(value)
    ensures FreeOf([Lexeme(StringLiteral, Quote(key)), COLON] + TokensOf(Plain(Str(value))), '#')
  {
    SimpleQuote(key);
    SimpleQuote(value);
    hide Quote;
  }

  lemma LoginFree(id: nat)
    ensures FreeOf(TokensOf(LoginRoot(id)), '#')
  {
    hide Simple, Numeral, FreeOf, TokensOf, MemberTokens, Quote;
    SimpleStrings(id);
    SimpleStrings(BROKER_ID);
    SignsFree();
    var v := LoginRoot(id);
    var es := v.data.entries;
    ObjectTokens(v);
    MemberTokensStep(es);
    MemberTokensStep(es.rest);
    MemberTokensStep(es.rest.rest);
    MemberFree("message_from", Numeral(id));
    MemberFree("message_name", MSG_LOGIN_NAME);
    MemberFree("message_to", Numeral(BROKER_ID));
    NothingFree();
    FreeOfBoth([Lexeme(StringLiteral, Quote("message_to")), COLON] + TokensOf(Plain(Str(Numeral(BROKER_ID)))), [], '#');
    FreeOfBoth([COMMA], MemberTokens(es.rest.rest), '#');
    FreeOfBoth([Lexeme(StringLiteral, Quote("message_name")), COLON] + TokensOf(Plain(Str(MSG_LOGIN_NAME))),
               [COMMA] + MemberTokens(es.rest.rest), '#');
    FreeOfBoth([COMMA], MemberTokens(es.rest), '#');
    FreeOfBoth([Lexeme(StringLiteral, Quote("message_from")), COLON] + TokensOf(Plain(Str(Numeral(id)))),
               [COMMA] + MemberTokens(es.rest), '#');
    FreeOfBoth([OPEN_OBJECT], MemberTokens(es), '#');
    FreeOfBoth([OPEN_OBJECT] + MemberTokens(es), [CLOSE_OBJECT], '#');
  }

  lemma NothingFree()
    ensures FreeOf([], '#')
  {
  }

  lemma LoginWithoutEnd(p: Printer, id: nat)
    ensures !Contains(StyledText(p, LoginRoot(id)), SENTINEL_END)
  {
    hide StyledText, TokensOf, Lex, Solid, FreeOf, Scans;
    LoginPrintable(id);
    LoginFree(id);
    var d := StyledText(p, LoginRoot(id));
    StyledTextScans(p, LoginRoot(id));
    Unpack(d, TokensOf(LoginRoot(id)));
    OnlyInTokens(d, '#');
    forall i | 0 <= i <= |d| ensures !OccursAt(d, SENTINEL_END, i) {
      EndChars(d, i);
    }
  }

  /**
   * The login a client writes makes the node at the broker's end accepted, under the client's id,
   * however it is split and whatever follows.
   */
  lemma LoginGetsAccepted(c: Config, id: nat, chunks: seq<string>, more: seq<Read>)
    requires id < TWO_32 && !c.strictRoot
    requires Chunks(chunks) && Concat(chunks) == Frame(c.printDouble, LoginRoot(id))
    ensures LoginRun(c, ReadsOf(chunks) + more, 0, "") == Login(Accepted, id, "", false)
  {
    hide Complete, Receive, Frame, StyledText, Printable, Canon, Strip, ReadsOf, FieldsOf, Contains, LoginRoot,
         LoginRun;
    var p, root := c.printDouble, LoginRoot(id);
    LoginPrintable(id);
    LoginFields(p, id);
    LoginWithoutEnd(p, id);
    Wire.WireRoundTrip(c, root);
    FrameCompleteAtEnd(p, root);
    var text := Frame(p, root);
    FrameNotEmpty(p, root);
    assert "" + Concat(chunks) == text;
    AcceptedByFirstFrame(c, chunks, "", text, more, 0);
  }

  lemma FrameNotEmpty(p: Printer, root: Value)
    ensures Frame(p, root) != "" && Concat([]) == ""
  {
    hide StyledText;
  }
}

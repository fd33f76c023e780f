/** Frames sent one after the other, and which of them survive the chunks they are read in. */
module Trains {
  import opened Values
  import opened Parser
  import opened Layout
  import opened Streams
  import opened RoundTrip
  import opened Messages
  import opened Frames
  import opened Nodes
  import opened Deliveries
  import opened Splits
  import Wire

  /** A chunk ends behind the first n characters. */
  ghost predicate Boundary(chunks: seq<string>, n: nat) {
    exists j :: BoundaryAt(chunks, n, j)
  }

  predicate BoundaryAt(chunks: seq<string>, n: nat, j: int) {
    0 <= j <= |chunks| && |Concat(chunks[..j])| == n
  }

  /** Every frame ends where a chunk ends. */
  ghost predicate Aligned(frames: seq<string>, chunks: seq<string>) {
    forall i :: 0 <= i <= |frames| ==> Boundary(chunks, |Concat(frames[..i])|)
  }

  /** Frames, none of which is complete before its end. */
  predicate Whole(frames: seq<string>) {
    forall i :: 0 <= i < |frames| ==> CompleteAtEnd(frames[i])
  }

  // ----- chunks put together -----

  lemma {:induction false} ConcatAppend(a: seq<string>, b: seq<string>)
    ensures Concat(a + b) == Concat(a) + Concat(b)
  {
    if a == [] {
      assert a + b == b;
    } else {
      assert (a + b)[1..] == a[1..] + b;
      ConcatAppend(a[1..], b);
    }
  }

  lemma OneChunk(s: string)
    ensures Concat([s]) == s
  {
    assert [s][1..] == [] && s + "" == s;
  }

  lemma ConcatSplit(chunks: seq<string>, j: nat)
    requires j <= |chunks|
    ensures Concat(chunks) == Concat(chunks[..j]) + Concat(chunks[j..])
  {
    assert chunks == chunks[..j] + chunks[j..];
    ConcatAppend(chunks[..j], chunks[j..]);
  }

  lemma {:induction false} FeedAppend(a: Assembly, b: seq<string>, d: seq<string>)
    ensures FeedAll(a, b + d) == FeedAll(FeedAll(a, b), d)
    decreases |b|
  {
    hide Feed;
    if b == [] {
      assert b + d == d;
    } else {
      assert (b + d)[1..] == b[1..] + d;
      FeedAppend(Feed(a, b[0]), b[1..], d);
    }
  }

  // ----- what is handed over ends where chunks end -----

  /** What has been handed over since `a`. */
  function Since(a: Assembly, fed: Assembly): seq<string>
    requires |a.frames| <= |fed.frames|
  {
    fed.frames[|a.frames|..]
  }

  lemma {:induction false} Conserved(a: Assembly, chunks: seq<string>)
    ensures a.frames <= FeedAll(a, chunks).frames
    ensures Concat(Since(a, FeedAll(a, chunks))) + FeedAll(a, chunks).buffer == a.buffer + Concat(chunks)
    ensures forall i :: 0 <= i < |Since(a, FeedAll(a, chunks))| ==> Complete(Since(a, FeedAll(a, chunks))[i])
    decreases |chunks|
  {
    hide Complete;
    FeedKeeps(a, chunks);
    if chunks != [] {
      var next, fed := Feed(a, chunks[0]), FeedAll(a, chunks);
      Conserved(next, chunks[1..]);
      assert a.buffer + chunks[0] + Concat(chunks[1..]) == a.buffer + Concat(chunks);
      if |next.frames| > |a.frames| {
        assert Since(a, fed) == [a.buffer + chunks[0]] + Since(next, fed);
        assert ([a.buffer + chunks[0]] + Since(next, fed))[1..] == Since(next, fed);
        assert a.buffer + chunks[0] + (Concat(Since(next, fed)) + fed.buffer) ==
               (a.buffer + chunks[0] + Concat(Since(next, fed))) + fed.buffer;
        assert "" + Concat(chunks[1..]) == Concat(chunks[1..]);
      }
    }
  }

  lemma {:induction false} HandedAtBoundaries(a: Assembly, chunks: seq<string>, i: nat) returns (j: nat)
    requires a.frames <= FeedAll(a, chunks).frames && 0 < i <= |Since(a, FeedAll(a, chunks))|
    ensures j <= |chunks| && |Concat(Since(a, FeedAll(a, chunks))[..i])| == |a.buffer| + |Concat(chunks[..j])|
    decreases |chunks|
  {
    hide Complete;
    var next, fed := Feed(a, chunks[0]), FeedAll(a, chunks);
    FeedKeeps(next, chunks[1..]);
    if |next.frames| > |a.frames| {
      var b := a.buffer + chunks[0];
      assert Since(a, fed) == [b] + Since(next, fed);
      if i == 1 {
        j := 1;
        assert Since(a, fed)[..1] == [b] && chunks[..1] == [chunks[0]];
        OneChunk(b);
        OneChunk(chunks[0]);
      } else {
        var k := HandedAtBoundaries(next, chunks[1..], i - 1);
        j := k + 1;
        assert Since(a, fed)[..i] == [b] + Since(next, fed)[..i - 1];
        assert ([b] + Since(next, fed)[..i - 1])[1..] == Since(next, fed)[..i - 1];
        FirstChunk(chunks, k);
      }
    } else {
      var k := HandedAtBoundaries(next, chunks[1..], i);
      j := k + 1;
      FirstChunk(chunks, k);
    }
  }

  lemma FirstChunk(chunks: seq<string>, k: nat)
    requires chunks != [] && k <= |chunks[1..]|
    ensures Concat(chunks[..k + 1]) == chunks[0] + Concat(chunks[1..][..k])
  {
    assert chunks[..k + 1][1..] == chunks[1..][..k];
  }

  // ----- frames that end where chunks end are handed over -----

  lemma ChunksParts(chunks: seq<string>, j: nat)
    requires Chunks(chunks) && j <= |chunks|
    ensures Chunks(chunks[..j]) && Chunks(chunks[j..]) && (Concat(chunks) == "" ==> chunks == [])
  {
    if chunks != [] {
      assert chunks[0] != "";
    }
  }

  lemma Earlier(chunks: seq<string>, k: nat, j: nat)
    requires Chunks(chunks) && k < j <= |chunks|
    ensures |Concat(chunks[..k])| < |Concat(chunks[..j])|
  {
    ConcatPrefix(chunks[..j], k);
    ChunksParts(chunks, j);
    assert chunks[..j][..k] == chunks[..k];
  }

  /** A later boundary, seen from an earlier one. */
  lemma BoundaryBehind(chunks: seq<string>, j: nat, n: nat)
    requires Chunks(chunks) && j <= |chunks| && Boundary(chunks, |Concat(chunks[..j])| + n)
    ensures Boundary(chunks[j..], n)
  {
    var k :| BoundaryAt(chunks, |Concat(chunks[..j])| + n, k);
    if k < j {
      Earlier(chunks, k, j);
      assert false;
    }
    ConcatSplit(chunks[..k], j);
    assert chunks[..k][..j] == chunks[..j] && chunks[..k][j..] == chunks[j..][..k - j];
    assert BoundaryAt(chunks[j..], n, k - j);
  }

  lemma {:induction false} Assembles(a: Assembly, frames: seq<string>, chunks: seq<string>)
    requires Whole(frames) && Chunks(chunks) && Concat(chunks) == Concat(frames) && Aligned(frames, chunks) &&
             a.buffer == ""
    ensures FeedAll(a, chunks) == Assembly(a.frames + frames, "")
    decreases |frames|
  {
    hide Complete, CompleteAtEnd, Boundary;
    ChunksParts(chunks, 0);
    if frames == [] {
      assert a.frames + frames == a.frames;
    } else {
      var j := FirstBoundary(frames, chunks);
      assert "" + Concat(chunks[..j]) == frames[0];
      ChunksParts(chunks, j);
      FrameNonempty(frames[0]);
      assert chunks[..j] != [];
      FeedsPrefix(a, chunks[..j], frames[0]);
      var next := Assembly(a.frames + [frames[0]], "");
      TailAligned(frames, chunks, j);
      Assembles(next, frames[1..], chunks[j..]);
      FeedAppend(a, chunks[..j], chunks[j..]);
      assert chunks == chunks[..j] + chunks[j..];
      assert a.frames + [frames[0]] + frames[1..] == a.frames + frames;
    }
  }

  lemma FrameNonempty(f: string)
    requires CompleteAtEnd(f)
    ensures f != "" && Complete(f)
  {
    NotEmpty(f);
  }

  lemma FirstBoundary(frames: seq<string>, chunks: seq<string>) returns (j: nat)
    requires frames != [] && Concat(chunks) == Concat(frames) && Aligned(frames, chunks)
    ensures j <= |chunks| && Concat(chunks[..j]) == frames[0]
  {
    assert Boundary(chunks, |Concat(frames[..1])|);
    var k :| BoundaryAt(chunks, |Concat(frames[..1])|, k);
    j := k;
    assert frames[..1] == [frames[0]];
    OneChunk(frames[0]);
    ConcatSplit(chunks, j);
    assert Concat(frames)[..|frames[0]|] == frames[0];
    assert Concat(chunks)[..|Concat(chunks[..j])|] == Concat(chunks[..j]);
  }

  lemma TailAligned(frames: seq<string>, chunks: seq<string>, j: nat)
    requires frames != [] && Whole(frames) && Chunks(chunks) && Aligned(frames, chunks)
    requires Concat(chunks) == Concat(frames) && j <= |chunks| && Concat(chunks[..j]) == frames[0]
    ensures Whole(frames[1..]) && Concat(chunks[j..]) == Concat(frames[1..]) && Aligned(frames[1..], chunks[j..])
  {
    hide CompleteAtEnd, Boundary, Concat;
    ConcatSplit(chunks, j);
    FirstChunk(frames, |frames| - 1);
    assert frames[1..][..|frames| - 1] == frames[1..] && frames[..|frames|] == frames;
    SameBehind(frames[0], Concat(chunks[j..]), Concat(frames[1..]));
    forall i | 0 <= i <= |frames[1..]| ensures Boundary(chunks[j..], |Concat(frames[1..][..i])|) {
      NextBoundary(frames, chunks, j, i);
    }
  }

  lemma SameBehind(a: string, s: string, t: string)
    requires a + s == a + t
    ensures s == t
  {
    assert (a + s)[|a|..] == s && (a + t)[|a|..] == t;
  }

  lemma NextBoundary(frames: seq<string>, chunks: seq<string>, j: nat, i: nat)
    requires frames != [] && Chunks(chunks) && Aligned(frames, chunks) && i <= |frames[1..]|
    requires j <= |chunks| && Concat(chunks[..j]) == frames[0]
    ensures Boundary(chunks[j..], |Concat(frames[1..][..i])|)
  {
    hide Boundary, Concat, Chunks;
    FirstChunk(frames, i);
    assert Boundary(chunks, |Concat(frames[..i + 1])|);
    BoundaryBehind(chunks, j, |Concat(frames[1..][..i])|);
  }

  /**
   * Frames sent one after the other are handed over as they were sent, one by one, if and only if
   * every one of them ends where a chunk ends.
   */
  lemma FramesSurviveIff(frames: seq<string>, chunks: seq<string>)
    requires Whole(frames) && Chunks(chunks) && Concat(chunks) == Concat(frames)
    ensures FeedAll(START, chunks) == Assembly(frames, "") <==> Aligned(frames, chunks)
  {
    hide CompleteAtEnd, Boundary, FeedAll;
    if Aligned(frames, chunks) {
      Assembles(START, frames, chunks);
      assert [] + frames == frames;
    } else if FeedAll(START, chunks) == Assembly(frames, "") {
      forall i | 0 <= i <= |frames| ensures Boundary(chunks, |Concat(frames[..i])|) {
        EndsAtBoundary(frames, chunks, i);
      }
    }
  }

  lemma EndsAtBoundary(frames: seq<string>, chunks: seq<string>, i: nat)
    requires FeedAll(START, chunks) == Assembly(frames, "") && i <= |frames|
    ensures Boundary(chunks, |Concat(frames[..i])|)
  {
    hide FeedAll;
    if i == 0 {
      assert frames[..0] == [] && chunks[..0] == [];
      assert BoundaryAt(chunks, 0, 0);
    } else {
      assert frames[0..] == frames;
      var j := HandedAtBoundaries(START, chunks, i);
      assert BoundaryAt(chunks, |Concat(frames[..i])|, j);
    }
  }

  // ----- the messages of frames in a row -----

  /** A message that its frame can bring, alone, through every split. */
  ghost predicate Fit(c: Config, root: Value) {
    Printable(root) && FieldsOf(c.printDouble, root).Fields? && !Contains(StyledText(c.printDouble, root), SENTINEL_END)
  }

  function FramesOf(p: Printer, roots: seq<Value>): (frames: seq<string>)
    ensures |frames| == |roots|
  {
    if roots == [] then [] else [Frame(p, roots[0])] + FramesOf(p, roots[1..])
  }

  /** The messages sent, without those for the node itself. */
  predicate SentInOrder(c: Config, id: nat, roots: seq<Value>, ms: seq<Msg>) {
    if roots == [] then ms == []
    else if FieldsOf(c.printDouble, roots[0]).Fields? && FieldsOf(c.printDouble, roots[0]).to == id then
      SentInOrder(c, id, roots[1..], ms)
    else
      ms != [] && Sent(c, roots[0], ms[0]) && SentInOrder(c, id, roots[1..], ms[1..])
  }

  lemma {:induction false} FramesWhole(c: Config, roots: seq<Value>)
    requires forall r :: r in roots ==> Fit(c, r)
    ensures Whole(FramesOf(c.printDouble, roots))
  {
    hide CompleteAtEnd, Frame, StyledText, Printable, FieldsOf, Contains;
    if roots != [] {
      assert roots[0] in roots;
      FrameCompleteAtEnd(c.printDouble, roots[0]);
      FramesWhole(c, roots[1..]);
    }
  }

  lemma {:induction false} AllHanded(c: Config, id: nat, roots: seq<Value>)
    requires !c.strictRoot && forall r :: r in roots ==> Fit(c, r)
    ensures var run := Handed(c, id, FramesOf(c.printDouble, roots), "");
            run.end == Going && run.buffer == "" && SentInOrder(c, id, roots, run.routed)
  {
    hide Arrived, Frame, StyledText, Printable, FieldsOf, Contains, Canon, Strip;
    if roots != [] {
      assert roots[0] in roots;
      FrameArrives(c, roots[0]);
      AllHanded(c, id, roots[1..]);
      var frames := FramesOf(c.printDouble, roots);
      assert frames[0] == Frame(c.printDouble, roots[0]) && frames[1..] == FramesOf(c.printDouble, roots[1..]);
      var ms := Handed(c, id, frames[1..], "").routed;
      var m := Arrived(c, frames[0]).m;
      assert ([m] + ms)[1..] == ms && [] + ms == ms;
    }
  }

  /** Messages whose frames end where chunks end are routed, each as it was sent and in the order sent. */
  lemma AlignedTrainIsRouted(c: Config, id: nat, roots: seq<Value>, chunks: seq<string>)
    requires !c.strictRoot && forall r :: r in roots ==> Fit(c, r)
    requires Chunks(chunks) && Concat(chunks) == Concat(FramesOf(c.printDouble, roots))
    requires Aligned(FramesOf(c.printDouble, roots), chunks)
    ensures var run := ReceiveRun(c, id, ReadsOf(chunks), "");
            run.end == Going && run.buffer == "" && SentInOrder(c, id, roots, run.routed)
  {
    var frames := FramesOf(c.printDouble, roots);
    FramesWhole(c, roots);
    AllHanded(c, id, roots);
    hide *;
    FramesSurviveIff(frames, chunks);
    StartHands(c, id, chunks);
  }

  lemma StartHands(c: Config, id: nat, chunks: seq<string>)
    ensures var fed := FeedAll(START, chunks);
            ReceiveRun(c, id, ReadsOf(chunks), "") == Handed(c, id, fed.frames, fed.buffer)
  {
    hide ReceiveRun, ReadsOf, FeedAll, Handed;
    LoopAssembles(c, id, START, chunks);
    assert FeedAll(START, chunks).frames[0..] == FeedAll(START, chunks).frames;
  }

  // ----- how often a text holds the begin sentinel -----

  function Begins(s: string): nat {
    if s == "" then 0 else (if SENTINEL_BEGIN <= s then 1 else 0) + Begins(s[1..])
  }

  lemma {:induction false} BeginsAtLeast(a: string, b: string)
    ensures Begins(a + b) >= Begins(a) + Begins(b)
  {
    if a == "" {
      assert a + b == b;
    } else {
      assert (a + b)[1..] == a[1..] + b;
      BeginsAtLeast(a[1..], b);
    }
  }

  /** No sentinel begins in one text and ends in the next if that begins with '#' or a new line. */
  lemma {:induction false} BeginsExactly(a: string, b: string)
    requires b != "" ==> b[0] == '#' || b[0] == '\n'
    ensures Begins(a + b) == Begins(a) + Begins(b)
  {
    if a == "" {
      assert a + b == b;
    } else {
      assert (a + b)[1..] == a[1..] + b;
      BeginsExactly(a[1..], b);
      NotAcross(a, b);
    }
  }

  lemma NotAcross(a: string, b: string)
    requires a != "" && (b != "" ==> b[0] == '#' || b[0] == '\n')
    ensures SENTINEL_BEGIN <= a + b <==> SENTINEL_BEGIN <= a
  {
    if |a| < 6 && |a + b| >= 6 {
      assert (a + b)[|a|] == b[0];
      assert SENTINEL_BEGIN[|a|] != '#' && SENTINEL_BEGIN[|a|] != '\n';
    } else if |a| >= 6 {
      assert (a + b)[..6] == a[..6];
    }
  }

  lemma {:induction false} NoBegin(s: string)
    requires !Contains(s, SENTINEL_BEGIN)
    ensures Begins(s) == 0
  {
    if s != "" {
      if SENTINEL_BEGIN <= s {
        assert OccursAt(s, SENTINEL_BEGIN, 0);
      }
      forall i | 0 <= i <= |s[1..]| ensures !OccursAt(s[1..], SENTINEL_BEGIN, i) {
        if OccursAt(s[1..], SENTINEL_BEGIN, i) {
          assert s[i + 1..i + 1 + 6] == s[1..][i..i + 6];
          assert OccursAt(s, SENTINEL_BEGIN, i + 1);
        }
      }
      NoBegin(s[1..]);
    }
  }

  lemma ShortHasNone(s: string)
    requires |s| < 6
    ensures Begins(s) == 0
  {
    NoBegin(s);
  }

  lemma CompleteBegins(g: string)
    requires Complete(g)
    ensures Begins(g) >= 1
  {
    var i :| 0 <= i <= |g| && OccursAt(g, SENTINEL_BEGIN, i);
    assert g[i..][..6] == g[i..i + 6] == SENTINEL_BEGIN;
    assert g == g[..i] + g[i..];
    BeginsAtLeast(g[..i], g[i..]);
  }

  lemma FrameBeginsOnce(p: Printer, root: Value)
    requires !Contains(StyledText(p, root), SENTINEL_BEGIN)
    ensures Begins(Frame(p, root)) == 1 && SENTINEL_BEGIN <= Frame(p, root)
  {
    var text := StyledText(p, root);
    NoBegin(text);
    hide StyledText, Contains;
    TextBeginsOnce(text);
    assert SENTINEL_BEGIN + "\n" + text + "\n" + SENTINEL_END ==
             SENTINEL_BEGIN + ("\n" + (text + ("\n" + SENTINEL_END)));
  }

  lemma TextBeginsOnce(text: string)
    requires Begins(text) == 0
    ensures Begins(SENTINEL_BEGIN + ("\n" + (text + ("\n" + SENTINEL_END)))) == 1
  {
    var tail := text + ("\n" + SENTINEL_END);
    BeginsExactly(text, "\n" + SENTINEL_END);
    ShortHasNone("\n" + SENTINEL_END);
    assert ("\n" + tail)[1..] == tail;
    BeginsExactly(SENTINEL_BEGIN, "\n" + tail);
    ShortHasNone(SENTINEL_BEGIN[1..]);
  }

  // ----- messages routed from chunks that cut through frames -----

  /** A frame that begins once, at its start. */
  predicate BeginsOnce(f: string) {
    SENTINEL_BEGIN <= f && Begins(f) == 1
  }

  lemma {:induction false} TrainBegins(frames: seq<string>)
    requires forall f :: f in frames ==> BeginsOnce(f)
    ensures Begins(Concat(frames)) == |frames| && (frames != [] ==> SENTINEL_BEGIN <= Concat(frames))
  {
    hide Begins;
    if frames == [] {
      ShortHasNone("");
    } else {
      assert frames[0] in frames;
      TrainBegins(frames[1..]);
      BeginsExactly(frames[0], Concat(frames[1..]));
    }
  }

  lemma {:induction false} HandedBegin(gs: seq<string>, buffer: string)
    requires forall i :: 0 <= i < |gs| ==> Complete(gs[i])
    ensures |gs| <= Begins(Concat(gs) + buffer)
  {
    hide Complete, Begins;
    if gs != [] {
      HandedBegin(gs[1..], buffer);
      CompleteBegins(gs[0]);
      BeginsAtLeast(gs[0], Concat(gs[1..]) + buffer);
      assert gs[0] + (Concat(gs[1..]) + buffer) == gs[0] + Concat(gs[1..]) + buffer;
    }
  }

  /** As many texts as frames, each complete, can only be the frames. */
  lemma {:induction false} AsManyAreSame(frames: seq<string>, gs: seq<string>, buffer: string)
    requires Whole(frames) && forall f :: f in frames ==> BeginsOnce(f)
    requires forall i :: 0 <= i < |gs| ==> Complete(gs[i])
    requires Concat(gs) + buffer == Concat(frames) && |gs| >= |frames|
    ensures gs == frames && buffer == ""
    decreases |frames|
  {
    hide Complete, Begins;
    if frames == [] {
      NoMore(gs, buffer);
    } else {
      var rest := Concat(gs[1..]) + buffer;
      assert frames[0] in frames;
      assert gs[0] + rest == frames[0] + Concat(frames[1..]) by {
        assert gs[0] + Concat(gs[1..]) + buffer == gs[0] + rest;
      }
      FirstIsFrame(frames[0], Concat(frames[1..]), gs[0], rest);
      HandedBegin(gs[1..], buffer);
      TrainBegins(frames[1..]);
      if gs[0] != frames[0] {
        CutLosesOne(frames[0], Concat(frames[1..]), gs[0], rest);
        assert false;
      }
      SameBehind(gs[0], rest, Concat(frames[1..]));
      AsManyAreSame(frames[1..], gs[1..], buffer);
    }
  }

  lemma NoMore(gs: seq<string>, buffer: string)
    requires (forall i :: 0 <= i < |gs| ==> Complete(gs[i])) && Concat(gs) + buffer == ""
    ensures gs == [] && buffer == ""
  {
    hide Complete;
    if gs != [] {
      NotEmpty(gs[0]);
    }
  }

  lemma FirstIsFrame(f: string, more: string, g: string, rest: string)
    requires CompleteAtEnd(f) && Complete(g) && g + rest == f + more
    ensures f <= g
  {
    hide Complete;
    assert g == (f + more)[..|g|];
    if |g| < |f| {
      CutFrame(f, more, |g|);
    }
  }

  lemma CutFrame(f: string, more: string, k: nat)
    requires k < |f| && CompleteAtEnd(f)
    ensures !Complete((f + more)[..k])
  {
    hide Complete;
    assert (f + more)[..k] == f[..k];
  }

  lemma CutLosesOne(f: string, more: string, g: string, rest: string)
    requires f <= g && f != g && g + rest == f + more && (more != "" ==> SENTINEL_BEGIN <= more)
    ensures more != "" && Begins(rest) < Begins(more)
  {
    var e := g[|f|..];
    assert g == f + e && f + (e + rest) == f + more;
    SameBehind(f, e + rest, more);
    assert more[1..] == e[1..] + rest;
    BeginsAtLeast(e[1..], rest);
  }

  lemma {:induction false} FewRouted(c: Config, id: nat, frames: seq<string>, buffer: string)
    ensures |Handed(c, id, frames, buffer).routed| <= |frames|
  {
    hide Arrived;
    if frames != [] {
      FewRouted(c, id, frames[1..], buffer);
    }
  }

  /** A message for another node, without a begin sentinel in its document. */
  ghost predicate Outbound(c: Config, id: nat, root: Value) {
    Fit(c, root) && FieldsOf(c.printDouble, root).to != id && !Contains(StyledText(c.printDouble, root), SENTINEL_BEGIN)
  }

  lemma {:induction false} AllRouted(c: Config, id: nat, roots: seq<Value>, ms: seq<Msg>)
    requires SentInOrder(c, id, roots, ms) && forall r :: r in roots ==> Outbound(c, id, r)
    ensures |ms| == |roots|
  {
    hide Fit, FieldsOf, Sent, Contains;
    if roots != [] {
      assert roots[0] in roots;
      AllRouted(c, id, roots[1..], ms[1..]);
    }
  }

  lemma {:induction false} FramesBeginOnce(c: Config, id: nat, roots: seq<Value>)
    requires forall r :: r in roots ==> Outbound(c, id, r)
    ensures forall f :: f in FramesOf(c.printDouble, roots) ==> BeginsOnce(f)
  {
    hide Fit, FieldsOf, Contains, StyledText, Frame, Begins;
    if roots != [] {
      assert roots[0] in roots;
      FrameBeginsOnce(c.printDouble, roots[0]);
      FramesBeginOnce(c, id, roots[1..]);
    }
  }

  /**
   * Of messages for other nodes, none with a sentinel in its document, as many are routed as were
   * sent if and only if each one's frame ends where a chunk ends; and then in order, as sent.
   */
  lemma MessagesSurviveIff(c: Config, id: nat, roots: seq<Value>, chunks: seq<string>)
    requires !c.strictRoot && forall r :: r in roots ==> Outbound(c, id, r)
    requires Chunks(chunks) && Concat(chunks) == Concat(FramesOf(c.printDouble, roots))
    ensures var run := ReceiveRun(c, id, ReadsOf(chunks), "");
            (|run.routed| == |roots| <==> Aligned(FramesOf(c.printDouble, roots), chunks)) &&
            (|run.routed| == |roots| ==> run.end == Going && run.buffer == "" && SentInOrder(c, id, roots, run.routed))
  {
    assert forall r :: r in roots ==> Fit(c, r);
    var frames := FramesOf(c.printDouble, roots);
    FramesWhole(c, roots);
    FramesBeginOnce(c, id, roots);
    hide *;
    var run := ReceiveRun(c, id, ReadsOf(chunks), "");
    if Aligned(frames, chunks) {
      AlignedTrainIsRouted(c, id, roots, chunks);
      AllRouted(c, id, roots, run.routed);
    } else if |run.routed| == |roots| {
      StartHands(c, id, chunks);
      var fed := FeedAll(START, chunks);
      FewRouted(c, id, fed.frames, fed.buffer);
      StartConserves(chunks);
      AsManyAreSame(frames, fed.frames, fed.buffer);
      assert fed == Assembly(frames, "");
      FramesSurviveIff(frames, chunks);
      assert false;
    }
  }

  lemma StartConserves(chunks: seq<string>)
    ensures var fed := FeedAll(START, chunks);
            Concat(fed.frames) + fed.buffer == Concat(chunks) &&
            forall i :: 0 <= i < |fed.frames| ==> Complete(fed.frames[i])
  {
    hide FeedAll, Complete, Concat;
    Conserved(START, chunks);
    assert FeedAll(START, chunks).frames[0..] == FeedAll(START, chunks).frames;
  }

  // ----- a begin sentinel inside a document -----

  /** The second frame is cut behind its opening line. */
  function CutBehindBegin(f: string, text: string): seq<string> {
    [f + (SENTINEL_BEGIN + "\n"), text + "\n" + SENTINEL_END]
  }

  lemma CutIsTrain(p: Printer, first: Value, second: Value)
    ensures var frames, chunks := FramesOf(p, [first, second]), CutBehindBegin(Frame(p, first), StyledText(p, second));
            Chunks(chunks) && Concat(chunks) == Concat(frames) && !Aligned(frames, chunks)
  {
    hide StyledText;
    var f, text, g := Frame(p, first), StyledText(p, second), Frame(p, second);
    assert f[0] == '#' && [first, second][1..] == [second] && [second][1..] == [];
    assert FramesOf(p, [second]) == [g] && FramesOf(p, [first, second]) == [f, g];
    hide Frame;
    CutMisses(f, g, f + (SENTINEL_BEGIN + "\n"), text + "\n" + SENTINEL_END);
  }

  lemma CutMisses(f: string, g: string, a: string, b: string)
    requires f != "" && b != "" && |a| == |f| + 7 && a + b == f + g
    ensures Chunks([a, b]) && Concat([a, b]) == Concat([f, g]) && !Aligned([f, g], [a, b])
  {
    TwoChunks(a, b);
    TwoChunks(f, g);
    NoneInside(a, b, |f|);
    hide Boundary, Concat;
    assert !Boundary([a, b], |Concat([f, g][..1])|);
  }

  lemma NoneInside(a: string, b: string, n: nat)
    requires n != 0 && n != |a| && n != |a| + |b|
    ensures !Boundary([a, b], n)
  {
    TwoChunks(a, b);
    hide Concat;
    forall j ensures !BoundaryAt([a, b], n, j) {
      assert j == 0 || j == 1 || j == 2 || j < 0 || j > 2;
    }
  }

  lemma TwoChunks(a: string, b: string)
    ensures Concat([a, b]) == a + b && Concat([a, b][..0]) == "" && Concat([a, b][..1]) == a &&
            Concat([a, b][..2]) == a + b
  {
    OneChunk(a);
    OneChunk(b);
    assert [a, b][..1] == [a] && [a, b][..2] == [a, b] && [a, b][1..] == [b];
  }

  lemma TwoRouted(c: Config, id: nat, a: string, b: string)
    requires Complete(a) && Complete(b) && Arrived(c, a).Message? && Arrived(c, b).Message?
    requires Arrived(c, a).m.to != id && Arrived(c, b).m.to != id
    ensures |ReceiveRun(c, id, ReadsOf([a, b]), "").routed| == 2
  {
    hide Complete, Arrived, ReceiveRun;
    StartHands(c, id, [a, b]);
    TwoFed(a, b);
    assert [a, b][1..] == [b] && [b][1..] == [];
    OneHanded(c, id, b);
  }

  lemma TwoFed(a: string, b: string)
    requires Complete(a) && Complete(b)
    ensures FeedAll(START, [a, b]) == Assembly([a, b], "")
  {
    hide Complete;
    assert [a, b][1..] == [b] && [b][1..] == [] && "" + a == a && "" + b == b;
    var first := Feed(START, a);
    assert first == Assembly([a], "");
    assert Feed(first, b) == Assembly([a, b], "");
    assert FeedAll(first, [b]) == FeedAll(Feed(first, b), []);
  }

  /** What is received is for the same node as the message sent. */
  ghost predicate ReceivedFor(c: Config, root: Value, raw: string) {
    Complete(raw) && Arrived(c, raw).Message? && FieldsOf(c.printDouble, root).Fields? &&
    Arrived(c, raw).m.to == FieldsOf(c.printDouble, root).to
  }

  lemma BehindFrame(c: Config, root: Value, more: string)
    requires Fit(c, root) && !c.strictRoot
    ensures ReceivedFor(c, root, Frame(c.printDouble, root) + more)
  {
    FrameComplete(c.printDouble, root);
    hide Frame, Receive, StyledText, Printable, FieldsOf, Canon, Strip, Contains;
    Wire.ManyFrames(c, root, more);
    HeldBehind(Frame(c.printDouble, root), more, SENTINEL_BEGIN);
    HeldBehind(Frame(c.printDouble, root), more, SENTINEL_END);
  }

  lemma HeldBehind(s: string, more: string, pattern: string)
    requires Contains(s, pattern)
    ensures Contains(s + more, pattern)
  {
    var i :| 0 <= i <= |s| && OccursAt(s, pattern, i);
    assert (s + more)[i..i + |pattern|] == s[i..i + |pattern|];
    assert OccursAt(s + more, pattern, i);
  }

  lemma WithoutOpening(c: Config, root: Value)
    requires Fit(c, root) && !c.strictRoot
    requires Contains(StyledText(c.printDouble, root), SENTINEL_BEGIN) && "{\n" <= StyledText(c.printDouble, root)
    ensures ReceivedFor(c, root, StyledText(c.printDouble, root) + "\n" + SENTINEL_END)
  {
    hide Frame, Receive, StyledText, FieldsOf, Canon, Strip, RealFree, WellFormed, Contains;
    Wire.OpeningUnneeded(c, root);
    Wire.WireRoundTrip(c, root);
    EndsComplete(StyledText(c.printDouble, root));
  }

  lemma EndsComplete(text: string)
    requires Contains(text, SENTINEL_BEGIN)
    ensures Complete(text + "\n" + SENTINEL_END)
  {
    hide Contains;
    HeldBehind(text, "\n" + SENTINEL_END, SENTINEL_BEGIN);
    assert text + ("\n" + SENTINEL_END) == text + "\n" + SENTINEL_END;
    HasEnd(text + "\n");
  }

  lemma HasEnd(s: string)
    ensures Contains(s + SENTINEL_END, SENTINEL_END)
  {
    assert OccursAt(s + SENTINEL_END, SENTINEL_END, |s|);
  }

  /**
   * A brace opens the document, and the begin sentinel is in it: behind any other message both are
   * routed although the first one's frame ends where no chunk ends.
   */
  lemma BeginInside(c: Config, id: nat, first: Value, second: Value)
    requires !c.strictRoot && Fit(c, first) && Fit(c, second)
    requires FieldsOf(c.printDouble, first).to != id && FieldsOf(c.printDouble, second).to != id
    requires Contains(StyledText(c.printDouble, second), SENTINEL_BEGIN) && "{\n" <= StyledText(c.printDouble, second)
    ensures var frames := FramesOf(c.printDouble, [first, second]);
            exists chunks :: Chunks(chunks) && Concat(chunks) == Concat(frames) && !Aligned(frames, chunks) &&
                             |ReceiveRun(c, id, ReadsOf(chunks), "").routed| == 2
  {
    var f, text := Frame(c.printDouble, first), StyledText(c.printDouble, second);
    var chunks := CutBehindBegin(f, text);
    hide *;
    CutIsTrain(c.printDouble, first, second);
    BehindFrame(c, first, SENTINEL_BEGIN + "\n");
    WithoutOpening(c, second);
    Unpacked(c, first, f + (SENTINEL_BEGIN + "\n"));
    Unpacked(c, second, text + "\n" + SENTINEL_END);
    TwoRouted(c, id, f + (SENTINEL_BEGIN + "\n"), text + "\n" + SENTINEL_END);
    CutInTwo(f, text);
    assert Chunks(chunks) && |ReceiveRun(c, id, ReadsOf(chunks), "").routed| == 2;
  }

  lemma Unpacked(c: Config, root: Value, raw: string)
    requires ReceivedFor(c, root, raw)
    ensures Complete(raw) && Arrived(c, raw).Message? && FieldsOf(c.printDouble, root).Fields?
    ensures Arrived(c, raw).m.to == FieldsOf(c.printDouble, root).to
  {
  }

  lemma CutInTwo(f: string, text: string)
    ensures CutBehindBegin(f, text) == [f + (SENTINEL_BEGIN + "\n"), text + "\n" + SENTINEL_END]
  {
  }

  /** Such a message. */
  lemma BeginCarried(c: Config)
    ensures var root := Carrying(SENTINEL_BEGIN);
            Fit(c, root) && FieldsOf(c.printDouble, root).to == 0 &&
            Contains(StyledText(c.printDouble, root), SENTINEL_BEGIN) && "{\n" <= StyledText(c.printDouble, root)
  {
    SentinelsHarmless();
    CarryingFits(c.printDouble, SENTINEL_BEGIN);
    CarryingHolds(SENTINEL_BEGIN);
    WithoutEnd(CarryingText(SENTINEL_BEGIN));
    hide StyledText, Printable, FieldsOf, Carrying, Contains;
  }

  lemma WithoutEnd(text: string)
    requires text == CarryingText(SENTINEL_BEGIN)
    ensures !Contains(text, SENTINEL_END)
  {
    forall i | 0 <= i <= |text| ensures !OccursAt(text, SENTINEL_END, i) {
      EndChars(text, i);
      hide OccursAt;
      if 0 <= i && i + 4 <= |text| && text[i] == '#' {
        assert i == 12;
      }
    }
  }
}

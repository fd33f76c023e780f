/** How frames are put together again from the chunks that `read` returns. */
module Frames {
  import opened Values
  import opened Layout
  import opened Messages

  /** `find(pattern) != npos`. */
  predicate Contains(s: string, pattern: string) {
    exists i :: 0 <= i <= |s| && OccursAt(s, pattern, i)
  }

  predicate OccursAt(s: string, pattern: string, i: int) {
    0 <= i <= |s| - |pattern| && s[i..i + |pattern|] == pattern
  }

  /** The buffer holds both sentinels. */
  predicate Complete(buffer: string) {
    Contains(buffer, SENTINEL_BEGIN) && Contains(buffer, SENTINEL_END)
  }

  /** That is, "#begin" stands somewhere in it, and "#end" somewhere. */
  lemma CompleteIff(buffer: string)
    ensures Complete(buffer) <==>
            (exists before, behind :: buffer == before + "#begin" + behind) &&
            (exists before, behind :: buffer == before + "#end" + behind)
  {
    hide Contains;
    ContainsIff(buffer, "#begin");
    ContainsIff(buffer, "#end");
  }

  lemma ContainsIff(s: string, pattern: string)
    ensures Contains(s, pattern) <==> exists before, behind :: s == before + pattern + behind
  {
    if i :| 0 <= i <= |s| && OccursAt(s, pattern, i) {
      assert s == s[..i] + pattern + s[i + |pattern|..];
    }
    if before, behind :| s == before + pattern + behind {
      assert OccursAt(s, pattern, |before|);
    }
  }

  /** What has been handed to `fromRawData` so far, and what the buffer still holds. */
  datatype Assembly = Assembly(frames: seq<string>, buffer: string)

  /** One pass of the loops that read: append the chunk, and hand a complete buffer over. */
  function Feed(a: Assembly, chunk: string): Assembly {
    var b := a.buffer + chunk;
    if Complete(b) then Assembly(a.frames + [b], "") else a.(buffer := b)
  }

  function FeedAll(a: Assembly, chunks: seq<string>): Assembly
    decreases |chunks|
  {
    if chunks == [] then a else FeedAll(Feed(a, chunks[0]), chunks[1..])
  }

  const START: Assembly := Assembly([], "")

  function Concat(chunks: seq<string>): string {
    if chunks == [] then "" else chunks[0] + Concat(chunks[1..])
  }

  predicate Chunks(chunks: seq<string>) {
    forall i :: 0 <= i < |chunks| ==> chunks[i] != ""
  }

  /** Both sentinels are in `text`, and in no proper prefix of it. */
  predicate CompleteAtEnd(text: string) {
    Complete(text) && forall k :: 0 <= k < |text| ==> !Complete(text[..k])
  }

  lemma {:induction false} FeedsPrefix(a: Assembly, chunks: seq<string>, text: string)
    requires Chunks(chunks) && chunks != [] && a.buffer + Concat(chunks) == text && CompleteAtEnd(text)
    ensures FeedAll(a, chunks) == Assembly(a.frames + [text], "")
    decreases |chunks|
  {
    hide Complete;
    var b := a.buffer + chunks[0];
    if |chunks| == 1 {
      assert chunks[1..] == [] && b == text by {
        assert chunks[0] + "" == chunks[0];
      }
    } else {
      var rest := chunks[1..];
      assert b + Concat(rest) == text;
      assert rest[0] == chunks[1] && |Concat(rest)| > 0;
      assert text[..|b|] == b;
      FeedsPrefix(Feed(a, chunks[0]), rest, text);
    }
  }

  /**
   * A text is handed over exactly once, whole, whichever way it is split, if and only if no proper
   * prefix of it holds both sentinels.
   */
  lemma ChunkingInvariance(text: string)
    requires Complete(text) && text != ""
    ensures CompleteAtEnd(text) <==>
            forall chunks :: Chunks(chunks) && Concat(chunks) == text ==> FeedAll(START, chunks) == Assembly([text], "")
  {
    hide Complete;
    if CompleteAtEnd(text) {
      forall chunks | Chunks(chunks) && Concat(chunks) == text
        ensures FeedAll(START, chunks) == Assembly([text], "")
      {
        assert "" + Concat(chunks) == text;
        FeedsPrefix(START, chunks, text);
        assert [] + [text] == [text];
      }
    } else {
      var k :| 0 <= k < |text| && Complete(text[..k]);
      SplitsEarly(text, k);
    }
  }

  lemma SplitsEarly(text: string, k: nat)
    requires k < |text| && Complete(text[..k])
    ensures exists chunks :: Chunks(chunks) && Concat(chunks) == text && FeedAll(START, chunks) != Assembly([text], "")
  {
    NotEmpty(text[..k]);
    hide Complete;
    var chunks := [text[..k], text[k..]];
    assert chunks[1..] == [text[k..]] && chunks[1..][1..] == [];
    assert Concat(chunks[1..]) == text[k..] by { assert text[k..] + "" == text[k..]; }
    assert Concat(chunks) == text by { assert text[..k] + text[k..] == text; }
    var first := Feed(START, text[..k]);
    assert "" + text[..k] == text[..k];
    assert first == Assembly([text[..k]], "") by { assert [] + [text[..k]] == [text[..k]]; }
    FeedKeeps(first, chunks[1..]);
    assert FeedAll(START, chunks) == FeedAll(first, chunks[1..]);
    assert FeedAll(START, chunks).frames[0] == text[..k];
  }

  lemma NotEmpty(s: string)
    requires Complete(s)
    ensures s != ""
  {
  }

  lemma {:induction false} FeedKeeps(a: Assembly, chunks: seq<string>)
    ensures a.frames <= FeedAll(a, chunks).frames
    decreases |chunks|
  {
    hide Complete;
    if chunks != [] {
      FeedKeeps(Feed(a, chunks[0]), chunks[1..]);
    }
  }

  // ----- which frames can be split anyhow -----

  lemma FrameComplete(p: Printer, root: Value)
    ensures Complete(Frame(p, root))
  {
    hide StyledText;
    var f := Frame(p, root);
    assert OccursAt(f, SENTINEL_BEGIN, 0);
    assert OccursAt(f, SENTINEL_END, |f| - 4);
  }

  /** The end sentinel, character by character. */
  lemma EndChars(s: string, i: int)
    ensures OccursAt(s, SENTINEL_END, i) <==>
            0 <= i && i + 4 <= |s| && s[i] == '#' && s[i + 1] == 'e' && s[i + 2] == 'n' && s[i + 3] == 'd'
  {
    if 0 <= i && i + 4 <= |s| {
      assert s[i..i + 4] == [s[i], s[i + 1], s[i + 2], s[i + 3]];
    }
  }

  predicate FrameOf(f: string, text: string) {
    |f| == |text| + 12 &&
    f[0] == '#' && f[1] == 'b' && f[2] == 'e' && f[3] == 'g' && f[4] == 'i' && f[5] == 'n' && f[6] == '\n' &&
    (forall j :: 0 <= j < |text| ==> f[j + 7] == text[j]) &&
    f[|text| + 7] == '\n' && f[|text| + 8] == '#'
  }

  lemma FrameChars(text: string)
    ensures FrameOf(SENTINEL_BEGIN + "\n" + text + "\n" + SENTINEL_END, text)
  {
  }

  /** Before its last character a frame holds the end sentinel only where its document does. */
  lemma EndInside(f: string, text: string, k: nat, i: int)
    requires FrameOf(f, text) && k < |f| && OccursAt(f[..k], SENTINEL_END, i)
    ensures Contains(text, SENTINEL_END)
  {
    EndChars(f[..k], i);
    EndChars(text, i - 7);
    hide OccursAt;
    assert i + 4 <= k && f[i] == '#' && f[i + 1] == 'e' && f[i + 2] == 'n' && f[i + 3] == 'd';
    assert i >= 7;
    assert i != |text| + 7 && i + 1 != |text| + 7 && i + 2 != |text| + 7 && i + 3 != |text| + 7;
    assert f[i - 7 + 7] == text[i - 7] && f[i - 6 + 7] == text[i - 6] && f[i - 5 + 7] == text[i - 5] &&
           f[i - 4 + 7] == text[i - 4];
    assert OccursAt(text, SENTINEL_END, i - 7);
  }

  lemma EndOutside(f: string, text: string, i: int)
    requires FrameOf(f, text) && OccursAt(text, SENTINEL_END, i)
    ensures Contains(f[..|f| - 1], SENTINEL_END)
  {
    EndChars(text, i);
    EndChars(f[..|f| - 1], i + 7);
    hide OccursAt;
    assert f[i + 7] == text[i] && f[i + 1 + 7] == text[i + 1] && f[i + 2 + 7] == text[i + 2] &&
           f[i + 3 + 7] == text[i + 3];
    assert OccursAt(f[..|f| - 1], SENTINEL_END, i + 7);
  }

  /** A frame is complete only at its end exactly if its document does not contain the end sentinel. */
  lemma FrameCompleteAtEnd(p: Printer, root: Value)
    ensures CompleteAtEnd(Frame(p, root)) <==> !Contains(StyledText(p, root), SENTINEL_END)
  {
    FrameChars(StyledText(p, root));
    hide StyledText, OccursAt, FrameOf;
    FrameComplete(p, root);
    var text, f := StyledText(p, root), Frame(p, root);
    if Contains(text, SENTINEL_END) {
      var i :| OccursAt(text, SENTINEL_END, i);
      EndOutside(f, text, i);
      BeginOccurs(text);
      assert Complete(f[..|f| - 1]);
    } else {
      forall k | 0 <= k < |f| ensures !Complete(f[..k]) {
        if Complete(f[..k]) {
          var i :| OccursAt(f[..k], SENTINEL_END, i);
          EndInside(f, text, k, i);
          assert false;
        }
      }
    }
  }

  lemma BeginOccurs(text: string)
    ensures var f := SENTINEL_BEGIN + "\n" + text + "\n" + SENTINEL_END;
            Contains(f[..|f| - 1], SENTINEL_BEGIN)
  {
    var f := SENTINEL_BEGIN + "\n" + text + "\n" + SENTINEL_END;
    assert OccursAt(f[..|f| - 1], SENTINEL_BEGIN, 0);
  }

  /** However a frame is split, `fromRawData` is called once, with the whole frame - if the payload allows it. */
  lemma FramesReassemble(p: Printer, root: Value)
    ensures !Contains(StyledText(p, root), SENTINEL_END) <==>
            forall chunks :: Chunks(chunks) && Concat(chunks) == Frame(p, root) ==>
                               FeedAll(START, chunks) == Assembly([Frame(p, root)], "")
  {
    hide StyledText, Complete, OccursAt;
    FrameCompleteAtEnd(p, root);
    FrameComplete(p, root);
    assert Frame(p, root)[0] == '#';
    ChunkingInvariance(Frame(p, root));
  }
}

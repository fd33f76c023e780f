/** Frames survive the wire: what a frame says comes out again, and is printed again unchanged. */
module Wire {
  import opened Text
  import opened Numbers
  import opened Strings
  import opened Tokens
  import opened Values
  import opened Parser
  import opened Layout
  import opened Streams
  import opened RoundTrip
  import opened Canonical
  import opened Messages

  // ----- no line of a styled document begins with '#' -----

  /** Every '#' has something before it on its line. */
  predicate HashFree(doc: string) {
    forall i :: 0 <= i < |doc| && doc[i] == '#' ==> i > 0 && doc[i - 1] != '\n'
  }

  /** Text within one line that does not begin with '#'. */
  predicate Tame(t: string) {
    '\n' !in t && (t != "" ==> t[0] != '#')
  }

  lemma HashFreeAppend(doc: string, t: string)
    requires HashFree(doc) && Tame(t)
    ensures HashFree(doc + t)
  {
    forall i | 0 <= i < |doc + t| && (doc + t)[i] == '#'
      ensures i > 0 && (doc + t)[i - 1] != '\n'
    {
      if i > |doc| {
        assert (doc + t)[i - 1] == t[i - 1 - |doc|];
        assert t[i - 1 - |doc|] in t;
      }
    }
  }

  lemma HashFreeNewline(doc: string)
    requires HashFree(doc)
    ensures HashFree(doc + "\n")
  {
  }

  lemma {:induction false} EscapesStayOnLine(s: string)
    ensures '\n' !in Escapes(s)
  {
    if s != "" {
      EscapesStayOnLine(s[1..]);
      assert '\n' !in Escape(s[0]);
    }
  }

  lemma QuoteTame(s: string)
    ensures Tame(Quote(s))
  {
    EscapesStayOnLine(s);
    hide Escapes;
  }

  lemma NumeralTame(i: int)
    ensures Tame(IntText(i))
  {
    hide Numeral;
  }

  lemma FlatTame(p: Printer, v: Value)
    requires RealFree(v) && !Filled(v)
    ensures Tame(Flat(p, v))
  {
    hide Quote, IntText, Size;
    match v.data
    case Int(i) => NumeralTame(i as int);
    case UInt(u) => NumeralTame(u as int);
    case Str(s) => QuoteTame(s);
    case _ =>
  }

  lemma IndentHashFree(doc: string, indent: nat)
    requires HashFree(doc)
    ensures HashFree(WriteIndent(doc, indent))
  {
    HashFreeNewline(doc);
    HashFreeAppend(doc, Spaces(indent));
    HashFreeAppend(doc + "\n", Spaces(indent));
  }

  lemma PutHashFree(doc: string, indent: nat, text: string)
    requires HashFree(doc) && Tame(text)
    ensures HashFree(PutIndented(doc, indent, text))
  {
    hide HashFree, Tame, WriteIndent;
    IndentHashFree(doc, indent);
    HashFreeAppend(WriteIndent(doc, indent), text);
  }

  lemma {:induction false} GetRealFree(es: Entries, key: Key)
    requires RealFreeOf(es)
    ensures RealFree(Get(es, key))
  {
    if es.Cons? {
      GetRealFree(es.rest, key);
    }
  }

  lemma {:induction false} StyledHashFree(p: Printer, doc: string, indent: nat, v: Value)
    requires RealFree(v) && HashFree(doc)
    ensures HashFree(Styled(p, doc, indent, v))
    decreases Weight(v), 0, 0
  {
    hide HashFree, Styled, StyledItems, StyledMembers, Flat, Size, Multiline, PutIndented, FlatItems, Join, AllFlat;
    if !Filled(v) {
      StyledFlat(p, doc, indent, v);
      FlatTame(p, v);
      HashFreeAppend(doc, Flat(p, v));
    } else if v.data.Arr? {
      var es := v.data.entries;
      StyledArray(p, doc, indent, v);
      if Multiline(p, es) {
        PutHashFree(doc, indent, "[");
        var d := PutIndented(doc, indent, "[");
        StyledItemsHashFree(p, d, indent + INDENT_SIZE, es, 0);
        PutHashFree(StyledItems(p, d, indent + INDENT_SIZE, es, 0), indent, "]");
      } else {
        LineHashFree(p, doc, es);
      }
    } else {
      var es := v.data.entries;
      StyledObject(p, doc, indent, v);
      PutHashFree(doc, indent, "{");
      var d := PutIndented(doc, indent, "{");
      StyledMembersHashFree(p, d, indent + INDENT_SIZE, es);
      PutHashFree(StyledMembers(p, d, indent + INDENT_SIZE, es), indent, "}");
    }
  }

  lemma {:induction false} StyledItemsHashFree(p: Printer, doc: string, indent: nat, es: Entries, index: nat)
    requires RealFreeOf(es) && index < Size(es) && HashFree(doc)
    ensures HashFree(StyledItems(p, doc, indent, es, index))
    decreases WeightOf(es), 1, Size(es) - index
  {
    hide HashFree, Styled, StyledItems, Size, WriteIndent, Get;
    StyledItemsStep(p, doc, indent, es, index);
    GetWeight(es, Idx(index));
    GetRealFree(es, Idx(index));
    IndentHashFree(doc, indent);
    StyledHashFree(p, WriteIndent(doc, indent), indent, At(es, index));
    var d := Styled(p, WriteIndent(doc, indent), indent, At(es, index));
    if index + 1 < Size(es) {
      HashFreeAppend(d, ",");
      StyledItemsHashFree(p, d + ",", indent, es, index + 1);
    }
  }

  lemma {:induction false} StyledMembersHashFree(p: Printer, doc: string, indent: nat, es: Entries)
    requires RealFreeOf(es) && es.Cons? && HashFree(doc)
    ensures HashFree(StyledMembers(p, doc, indent, es))
    decreases WeightOf(es), 1, 0
  {
    hide HashFree, Styled, StyledMembers, PutIndented, Quote;
    StyledMembersStep(p, doc, indent, es);
    var name := NameText(es.key);
    QuoteTame(name);
    PutHashFree(doc, indent, Quote(name));
    HashFreeAppend(PutIndented(doc, indent, Quote(name)), " : ");
    var start := PutIndented(doc, indent, Quote(name)) + " : ";
    StyledHashFree(p, start, indent, es.val);
    var d := Styled(p, start, indent, es.val);
    if es.rest.Cons? {
      HashFreeAppend(d, ",");
      StyledMembersHashFree(p, d + ",", indent, es.rest);
    }
  }

  lemma TameAppend(a: string, b: string)
    requires Tame(a) && Tame(b)
    ensures Tame(a + b)
  {
  }

  lemma {:induction false} JoinTame(p: Printer, es: Entries, index: nat)
    requires RealFreeOf(es) && AllFlat(es) && index < Size(es)
    ensures Tame(Join(FlatItems(p, es, index)))
    decreases Size(es) - index
  {
    hide Tame, Join, FlatItems, Flat, Size, Get, Filled;
    JoinItemsStep(p, es, index);
    GetRealFree(es, Idx(index));
    FlatTame(p, At(es, index));
    if index + 1 < Size(es) {
      JoinTame(p, es, index + 1);
      SeparatorTame();
      TameAppend(Flat(p, At(es, index)), ", ");
      TameAppend(Flat(p, At(es, index)) + ", ", Join(FlatItems(p, es, index + 1)));
    }
  }

  lemma LineHashFree(p: Printer, doc: string, es: Entries)
    requires RealFreeOf(es) && AllFlat(es) && Size(es) > 0 && HashFree(doc)
    ensures HashFree(doc + "[ " + Join(FlatItems(p, es, 0)) + " ]")
  {
    hide HashFree, Join, FlatItems, Size;
    JoinTame(p, es, 0);
    var line := Join(FlatItems(p, es, 0));
    HashFreeAppend(doc, "[ ");
    HashFreeAppend(doc + "[ ", line);
    HashFreeAppend(doc + "[ " + line, " ]");
  }

  lemma SeparatorTame()
    ensures Tame(", ")
  {
  }

  // ----- gathering the lines of a document -----

  lemma {:induction false} FirstLineEnds(s: string)
    ensures |FirstLine(s)| < |s| ==> s[|FirstLine(s)|] == '\n'
  {
    if s != "" && s[0] != '\n' {
      FirstLineEnds(s[1..]);
    }
  }

  lemma {:induction false} FirstLineOf(line: string, rest: string)
    requires '\n' !in line
    ensures FirstLine(line + "\n" + rest) == line
  {
    var s := line + "\n" + rest;
    if line != "" {
      assert s[1..] == line[1..] + "\n" + rest;
      FirstLineOf(line[1..], rest);
    }
  }

  lemma LinesStep(line: string, rest: string)
    requires '\n' !in line
    ensures Lines(line + "\n" + rest) == [line] + Lines(rest)
  {
    var s := line + "\n" + rest;
    FirstLineOf(line, rest);
    assert s[|line| + 1..] == rest;
    hide FirstLine;
    assert s != "" && |FirstLine(s)| < |s|;
  }

  /** No line that begins with '#' is a sentinel, hence a document without them is gathered as it is. */
  lemma {:induction false} GathersText(text: string, rest: string, data: string)
    requires HashFree(text)
    ensures Gather(Lines(text + "\n" + rest), false, true, data) == Gather(Lines(rest), false, true, data + "\n" + text)
    decreases |text|
  {
    var line := FirstLine(text);
    FirstLineEnds(text);
    NotSentinel(text);
    if |line| == |text| {
      assert line == text;
      LinesStep(line, rest);
      GatherLine(line, Lines(rest), data);
    } else {
      var text' := text[|line| + 1..];
      assert text == line + "\n" + text';
      assert text + "\n" + rest == line + "\n" + (text' + "\n" + rest);
      LinesStep(line, text' + "\n" + rest);
      GatherLine(line, Lines(text' + "\n" + rest), data);
      HashFreeTail(text, |line| + 1);
      hide Gather, Lines, FirstLine, HashFree;
      GathersText(text', rest, data + "\n" + line);
      assert data + "\n" + line + "\n" + text' == data + "\n" + text;
    }
  }

  lemma NotSentinel(text: string)
    requires HashFree(text)
    ensures FirstLine(text) != SENTINEL_BEGIN && FirstLine(text) != SENTINEL_END
  {
    if FirstLine(text) != "" {
      assert FirstLine(text)[0] == text[0];
    }
  }

  lemma HashFreeTail(text: string, k: nat)
    requires HashFree(text) && 0 < k <= |text| && text[k - 1] == '\n'
    ensures HashFree(text[k..])
  {
    forall i | 0 <= i < |text[k..]| && text[k..][i] == '#'
      ensures i > 0 && text[k..][i - 1] != '\n'
    {
      assert text[k + i] == '#';
    }
  }

  lemma GatherLine(line: string, rest: seq<string>, data: string)
    requires line != SENTINEL_BEGIN && line != SENTINEL_END
    ensures Gather([line] + rest, false, true, data) == Gather(rest, false, true, data + "\n" + line)
  {
    assert ([line] + rest)[1..] == rest;
  }

  /** What is gathered behind `data` begins on a new line. */
  lemma {:induction false} GatherExtends(lines: seq<string>, data: string)
    ensures var g := Gather(lines, false, true, data);
            g.ok && data <= g.data && (|g.data| > |data| ==> g.data[|data|] == '\n')
    decreases |lines|
  {
    if lines != [] {
      GatherExtends(lines[1..], data);
      GatherExtends(lines[1..], data + "\n" + lines[0]);
    }
  }

  lemma OpensFrame(rest: string)
    ensures Gather(Lines(SENTINEL_BEGIN + "\n" + rest), true, false, "") == Gather(Lines(rest), false, true, "")
  {
    LinesStep(SENTINEL_BEGIN, rest);
    assert ([SENTINEL_BEGIN] + Lines(rest))[1..] == Lines(rest);
    hide Lines;
  }

  /** A text that begins like a frame is gathered as the frame's document and perhaps more lines. */
  lemma GathersFrame(p: Printer, root: Value, rest: string)
    requires RealFree(root)
    ensures var g := Gather(Lines(SENTINEL_BEGIN + "\n" + StyledText(p, root) + "\n" + rest), true, false, "");
            var doc := "\n" + StyledText(p, root);
            g.ok && doc <= g.data && (|g.data| > |doc| ==> g.data[|doc|] == '\n')
    ensures rest == SENTINEL_END ==>
              Gather(Lines(SENTINEL_BEGIN + "\n" + StyledText(p, root) + "\n" + rest), true, false, "").data ==
                "\n" + StyledText(p, root)
  {
    hide *;
    var text := StyledText(p, root);
    StyledTextHashFree(p, root);
    assert SENTINEL_BEGIN + "\n" + text + "\n" + rest == SENTINEL_BEGIN + "\n" + (text + "\n" + rest);
    OpensFrame(text + "\n" + rest);
    GathersText(text, rest, "");
    assert "" + "\n" + text == "\n" + text;
    GatherExtends(Lines(rest), "\n" + text);
    if rest == SENTINEL_END {
      EndsFrame("\n" + text);
    }
  }

  /** A document whose first line is a brace is gathered without the opening sentinel too. */
  lemma BraceOpens(p: Printer, root: Value)
    requires RealFree(root) && "{\n" <= StyledText(p, root)
    ensures Gather(Lines(StyledText(p, root) + "\n" + SENTINEL_END), true, false, "") ==
            Gathered(true, "\n" + StyledText(p, root))
  {
    var text := StyledText(p, root);
    StyledTextHashFree(p, root);
    HashFreeTail(text, 2);
    hide *;
    BraceGathers(text[2..]);
    assert "{\n" + text[2..] == text;
  }

  lemma BraceGathers(text: string)
    requires HashFree(text)
    ensures Gather(Lines("{\n" + text + "\n" + SENTINEL_END), true, false, "") == Gathered(true, "\n" + ("{\n" + text))
  {
    hide *;
    assert "{\n" + text + "\n" + SENTINEL_END == "{" + "\n" + (text + "\n" + SENTINEL_END);
    LinesStep("{", text + "\n" + SENTINEL_END);
    BraceInserts(Lines(text + "\n" + SENTINEL_END));
    GathersText(text, SENTINEL_END, "\n{");
    EndsFrame("\n{" + "\n" + text);
    assert "\n{" + "\n" + text == "\n" + ("{\n" + text);
  }

  lemma BraceInserts(rest: seq<string>)
    ensures Gather(["{"] + rest, true, false, "") == Gather(rest, false, true, "\n{")
  {
    assert (["{"] + rest)[1..] == rest && "" + "\n" + "{" == "\n{";
  }

  lemma StyledTextHashFree(p: Printer, root: Value)
    requires RealFree(root)
    ensures HashFree(StyledText(p, root))
  {
    hide Styled;
    StyledHashFree(p, "", 0, root);
    HashFreeNewline(Styled(p, "", 0, root));
  }

  lemma EndsFrame(data: string)
    ensures Gather(Lines(SENTINEL_END), false, true, data) == Gathered(true, data)
  {
    LastLine(SENTINEL_END);
  }

  lemma {:induction false} NoBreak(s: string)
    requires '\n' !in s
    ensures FirstLine(s) == s
  {
    if s != "" {
      NoBreak(s[1..]);
    }
  }

  lemma LastLine(s: string)
    requires s != "" && '\n' !in s
    ensures Lines(s) == [s]
  {
    NoBreak(s);
    hide FirstLine;
  }

  // ----- fields -----

  lemma StripAsString(p: Printer, v: Value)
    ensures AsString(p, Strip(v)) == AsString(p, v) && AsString(p, Canon(v)) == AsString(p, v)
  {
    CanonShape(v);
    hide IntText, CanonItems, CanonMembers, StripOf;
  }

  lemma {:induction false} CanonGet(es: Entries, key: Key)
    ensures Find(CanonMembers(es), key) == match Find(es, key) case Some(v) => Some(Canon(v)) case None => None
  {
    hide Canon;
    if es.Cons? {
      CanonGet(es.rest, key);
    }
  }

  lemma FieldCanon(p: Printer, root: Value, key: string)
    ensures Field(p, Canon(root), key) == Field(p, root, key) && Field(p, Strip(root), key) == Field(p, root, key)
  {
    CanonShape(root);
    if root.data.Obj? {
      var es := root.data.entries;
      CanonGet(es, Name(key));
      StripGet(es, Name(key));
      StripAsString(p, Get(es, Name(key)));
    }
    hide Canon, StripOf, AsString, CanonMembers;
  }

  /** Canonical trees and trees without offsets have the same name, sender and destination. */
  lemma FieldsCanon(p: Printer, root: Value)
    ensures FieldsOf(p, Canon(root)) == FieldsOf(p, root) && FieldsOf(p, Strip(root)) == FieldsOf(p, root)
  {
    hide Field, Extract, Canon, Strip;
    FieldCanon(p, root, "message_name");
    FieldCanon(p, root, "message_from");
    FieldCanon(p, root, "message_to");
  }

  // ----- the round trip -----

  lemma LexOfDocument(p: Printer, root: Value, data: string)
    requires Printable(root)
    requires "\n" + StyledText(p, root) <= data
    requires |data| > |StyledText(p, root)| + 1 ==> data[|StyledText(p, root)| + 1] == '\n'
    ensures exists rest :: Lex(data) == TokensOf(root) + rest
  {
    hide Scans, Lex, Solid, StyledText, TokensOf, Printable;
    var text := StyledText(p, root);
    StyledTextScans(p, root);
    Blank("\n");
    Glue("\n", text, [], TokensOf(root));
    assert [] + TokensOf(root) == TokensOf(root);
    Unpack("\n" + text, TokensOf(root));
    var more := data[|text| + 1..];
    assert data == ("\n" + text) + more;
    LexAppend("\n" + text, more);
    assert Lex(data) == TokensOf(root) + Lex(more);
  }

  /** Whatever stands behind a frame's document, the message received is the one the frame was made from. */
  lemma FirstFrameWins(c: Config, root: Value, rest: string)
    requires Printable(root) && !c.strictRoot
    ensures var r := Receive(c, SENTINEL_BEGIN + "\n" + StyledText(c.printDouble, root) + "\n" + rest);
            Strip(r.json) == Canon(root) &&
            if FieldsOf(c.printDouble, root).NoFields? then r.Thrown?
            else r.Received? && r.ok && r.fields == FieldsOf(c.printDouble, root)
  {
    var p := c.printDouble;
    hide Gather, Lines, StyledText, TokensOf, Lex, Parse, FieldsOf, Canon, Strip, RealFree, WellFormed;
    GathersFrame(p, root, rest);
    var raw := SENTINEL_BEGIN + "\n" + StyledText(p, root) + "\n" + rest;
    assert raw != "" by { assert raw[0] == '#'; }
    var g := Gather(Lines(raw), true, false, "");
    LexOfDocument(p, root, g.data);
    var more :| Lex(g.data) == TokensOf(root) + more;
    ParsesDocument(c, g.data, NULL_VALUE, root, more);
    FieldsCanon(p, root);
    FieldsCanon(p, Parse(c, g.data, NULL_VALUE).node);
  }

  /**
   * `fromRawData(toString())`: parsing the line "#begin", the styled document and the line "#end"
   * gives the same JSON in canonical form and the same name, sender and destination; the conversion
   * of a field throws exactly if it does for the original.
   */
  lemma WireRoundTrip(c: Config, root: Value)
    requires Printable(root) && !c.strictRoot
    ensures Frame(c.printDouble, root) == "#begin\n" + StyledText(c.printDouble, root) + "\n#end"
    ensures var r := Receive(c, Frame(c.printDouble, root));
            Strip(r.json) == Canon(root) &&
            if FieldsOf(c.printDouble, root).NoFields? then r.Thrown?
            else r.Received? && r.ok && r.fields == FieldsOf(c.printDouble, root)
  {
    hide Receive, StyledText, FieldsOf, Canon, Strip;
    assert "\n#end" == "\n" + "#end" && "#begin\n" == "#begin" + "\n";
    FirstFrameWins(c, root, SENTINEL_END);
  }

  /** A buffer that holds several frames in a row yields exactly the first message. */
  lemma ManyFrames(c: Config, root: Value, more: string)
    requires Printable(root) && !c.strictRoot
    ensures var r := Receive(c, Frame(c.printDouble, root) + more);
            Strip(r.json) == Canon(root) &&
            if FieldsOf(c.printDouble, root).NoFields? then r.Thrown?
            else r.Received? && r.ok && r.fields == FieldsOf(c.printDouble, root)
  {
    hide Receive, StyledText, FieldsOf, Canon, Strip;
    var text := StyledText(c.printDouble, root);
    assert Frame(c.printDouble, root) + more == SENTINEL_BEGIN + "\n" + text + "\n" + (SENTINEL_END + more);
    FirstFrameWins(c, root, SENTINEL_END + more);
  }

  // ----- what stands before a frame -----

  predicate OneLiners(lines: seq<string>) {
    forall i :: 0 <= i < |lines| ==> '\n' !in lines[i]
  }

  /** Lines, each with its end. */
  function Ended(lines: seq<string>): string {
    if lines == [] then "" else lines[0] + "\n" + Ended(lines[1..])
  }

  lemma {:induction false} LinesOfEnded(lines: seq<string>, rest: string)
    requires OneLiners(lines)
    ensures Lines(Ended(lines) + rest) == lines + Lines(rest)
  {
    hide Lines;
    if lines == [] {
      assert "" + rest == rest && [] + Lines(rest) == Lines(rest);
    } else {
      LinesOfEnded(lines[1..], rest);
      LinesStep(lines[0], Ended(lines[1..]) + rest);
      assert Ended(lines) + rest == lines[0] + "\n" + (Ended(lines[1..]) + rest);
      assert [lines[0]] + (lines[1..] + Lines(rest)) == lines + Lines(rest);
    }
  }

  predicate NoSentinels(lines: seq<string>) {
    forall i :: 0 <= i < |lines| ==> lines[i] != "#begin" && lines[i] != "#end"
  }

  /** Before a begin sentinel nothing is gathered. */
  lemma {:induction false} JunkIgnored(lines: seq<string>, first: bool, rest: seq<string>)
    requires NoSentinels(lines) && (first && lines != [] ==> lines[0] != "{")
    ensures Gather(lines + ["#begin"] + rest, first, false, "") == Gather(rest, false, true, "")
    decreases |lines|
  {
    var all := lines + ["#begin"] + rest;
    if lines == [] {
      assert all[1..] == rest;
    } else {
      assert all[1..] == lines[1..] + ["#begin"] + rest && all[0] == lines[0];
      JunkIgnored(lines[1..], false, rest);
    }
  }

  /**
   * Whatever lines stand before a frame, its message is received, unless one of them is a sentinel or
   * the first is a brace.
   */
  lemma JunkBeforeFrame(c: Config, lines: seq<string>, p: Printer, root: Value)
    requires OneLiners(lines) && NoSentinels(lines) && (lines != [] ==> lines[0] != "{")
    ensures Receive(c, Ended(lines) + Frame(p, root)) == Receive(c, Frame(p, root))
  {
    hide Gather, Lines, StyledText, Parse, FieldsOf, Ended;
    var rest := StyledText(p, root) + "\n" + SENTINEL_END;
    var f := Frame(p, root);
    assert f == SENTINEL_BEGIN + "\n" + rest;
    LinesStep(SENTINEL_BEGIN, rest);
    LinesOfEnded(lines, f);
    JunkIgnored(lines, true, Lines(rest));
    OpensFrame(rest);
    assert lines + ([SENTINEL_BEGIN] + Lines(rest)) == lines + ["#begin"] + Lines(rest);
    assert f[0] == '#' && (Ended(lines) + f)[|Ended(lines)|] == '#';
    ReceiveOf(c, Ended(lines) + f);
    ReceiveOf(c, f);
  }

  lemma ReceiveOf(c: Config, raw: string)
    requires raw != ""
    ensures var g := Gather(Lines(raw), true, false, "");
            var o := Parse(c, g.data, NULL_VALUE);
            Receive(c, raw) ==
              if !o.ok then Received(false, NO_FIELDS, o.node)
              else if FieldsOf(c.printDouble, o.node).NoFields? then Thrown(o.node)
              else Received(g.ok, FieldsOf(c.printDouble, o.node), o.node)
  {
    hide Gather, Lines, Parse, FieldsOf;
  }

  /** A frame is received as the same message with the opening sentinel and, if a brace opens it, without. */
  lemma OpeningUnneeded(c: Config, root: Value)
    requires RealFree(root) && "{\n" <= StyledText(c.printDouble, root)
    ensures Receive(c, StyledText(c.printDouble, root) + "\n" + SENTINEL_END) == Receive(c, Frame(c.printDouble, root))
  {
    hide Gather, Lines, StyledText, Parse, FieldsOf;
    var p := c.printDouble;
    BraceOpens(p, root);
    GathersFrame(p, root, SENTINEL_END);
    var a, b := StyledText(p, root) + "\n" + SENTINEL_END, Frame(p, root);
    assert a[0] == '{' && b[0] == '#';
    ReceiveGathered(c, a, "\n" + StyledText(p, root));
    ReceiveGathered(c, b, "\n" + StyledText(p, root));
  }

  lemma ReceiveGathered(c: Config, raw: string, data: string)
    requires raw != "" && Gather(Lines(raw), true, false, "") == Gathered(true, data)
    ensures Receive(c, raw) ==
            var o := Parse(c, data, NULL_VALUE);
            if !o.ok then Received(false, NO_FIELDS, o.node)
            else if FieldsOf(c.printDouble, o.node).NoFields? then Thrown(o.node)
            else Received(true, FieldsOf(c.printDouble, o.node), o.node)
  {
    hide Gather, Lines, Parse, FieldsOf;
  }

  // ----- relays -----

  lemma {:induction false} StyledStrip(p: Printer, doc: string, indent: nat, v: Value, w: Value)
    requires Strip(v) == Strip(w)
    ensures Styled(p, doc, indent, v) == Styled(p, doc, indent, w)
  {
    hide Styled, Canon, Strip;
    CanonStrip(v);
    CanonStrip(w);
    StyledCanon(p, doc, indent, v);
    StyledCanon(p, doc, indent, w);
  }

  /** Canonical form does not depend on offsets. */
  lemma {:induction false} CanonStrip(v: Value)
    ensures Canon(Strip(v)) == Canon(v)
    decreases Weight(v), 0, 0
  {
    hide CanonItems, CanonMembers;
    if v.data.Arr? {
      StripSize(v.data.entries);
      CanonItemsStrip(v.data.entries, 0);
    } else if v.data.Obj? {
      CanonMembersStrip(v.data.entries);
    }
  }

  lemma {:induction false} StripSize(es: Entries)
    ensures Size(StripOf(es)) == Size(es)
  {
    if es.Cons? && es.rest.Cons? {
      StripSize(es.rest);
    }
  }

  lemma {:induction false} CanonItemsStrip(es: Entries, index: nat)
    ensures CanonItems(StripOf(es), index) == CanonItems(es, index)
    decreases WeightOf(es), 1, Size(es) - index
  {
    hide Canon, Get, Size, StripOf, Strip;
    StripSize(es);
    if index < Size(es) {
      GetWeight(es, Idx(index));
      StripGet(es, Idx(index));
      CanonStrip(At(es, index));
      CanonItemsStrip(es, index + 1);
    }
  }

  lemma {:induction false} CanonMembersStrip(es: Entries)
    ensures CanonMembers(StripOf(es)) == CanonMembers(es)
    decreases WeightOf(es), 1, 0
  {
    hide Canon, Strip;
    if es.Cons? {
      CanonStrip(es.val);
      CanonMembersStrip(es.rest);
    }
  }

  /** A relay that receives a frame and sends the message on sends the same text again. */
  lemma RelayIsStable(c: Config, root: Value)
    requires Printable(root) && !c.strictRoot
    ensures Frame(c.printDouble, Receive(c, Frame(c.printDouble, root)).json) == Frame(c.printDouble, root)
  {
    hide Receive, Styled, FieldsOf, Canon, Strip;
    var p := c.printDouble;
    WireRoundTrip(c, root);
    var json := Receive(c, Frame(p, root)).json;
    StripCanon(root);
    StyledStrip(p, "", 0, json, Canon(root));
    StyledCanon(p, "", 0, root);
  }

  /** The text after `hops` relays have received it and sent it on. */
  function Relayed(c: Config, text: string, hops: nat): string {
    if hops == 0 then text else Frame(c.printDouble, Receive(c, Relayed(c, text, hops - 1)).json)
  }

  lemma {:induction false} EveryHopIsStable(c: Config, root: Value, hops: nat)
    requires Printable(root) && !c.strictRoot
    ensures Relayed(c, Frame(c.printDouble, root), hops) == Frame(c.printDouble, root)
  {
    hide Receive, Frame, Printable;
    if hops > 0 {
      EveryHopIsStable(c, root, hops - 1);
      RelayIsStable(c, root);
    }
  }

  lemma {:induction false} StripCanon(v: Value)
    ensures Strip(Canon(v)) == Canon(v)
    decreases Weight(v), 0, 0
  {
    hide CanonItems, CanonMembers;
    CanonShape(v);
    if v.data.Arr? {
      StripCanonItems(v.data.entries, 0);
    } else if v.data.Obj? {
      StripCanonMembers(v.data.entries);
    }
  }

  lemma {:induction false} StripCanonItems(es: Entries, index: nat)
    ensures StripOf(CanonItems(es, index)) == CanonItems(es, index)
    decreases WeightOf(es), 1, Size(es) - index
  {
    hide Canon, Get, Size, Strip;
    if index < Size(es) {
      GetWeight(es, Idx(index));
      StripCanon(At(es, index));
      StripCanonItems(es, index + 1);
    }
  }

  lemma {:induction false} StripCanonMembers(es: Entries)
    ensures StripOf(CanonMembers(es)) == CanonMembers(es)
    decreases WeightOf(es), 1, 0
  {
    hide Canon, Strip;
    if es.Cons? {
      StripCanon(es.val);
      StripCanonMembers(es.rest);
    }
  }

  /** A new line in front of a text changes none of its tokens. */
  lemma NewlineFirst(s: string)
    ensures Lex("\n" + s) == Lex(s)
  {
    hide Lex;
    OnlyBlank("\n");
    BlankPrefix("\n", s);
  }

  lemma OnlyBlank(s: string)
    requires s == "\n"
    ensures ReadToken(s).text == ""
  {
    assert s[1..] == "" && SkipSpaces(s) == "";
  }
}

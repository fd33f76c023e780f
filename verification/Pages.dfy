/**
 * The layout of the styled writer, by another route: a value as a list of lines, each at a depth,
 * which are put on the page one after the other.
 */
module Pages {
  import opened Text
  import opened Numbers
  import opened Strings
  import opened Values
  import opened Layout
  import Streams
  import Tokens
  import Wire

  datatype Line = Line(depth: nat, text: string)

  // ----- the lines of a value -----

  /** The line an array is, if it is one. */
  function Row(p: Printer, es: Entries): string
    requires AllFlat(es)
  {
    "[ " + (if Size(es) == 0 then "" else Listed(p, es, 0)) + " ]"
  }

  /** The elements from `index` on, with a comma and a blank between them. */
  function Listed(p: Printer, es: Entries, index: nat): string
    requires AllFlat(es) && index < Size(es)
    decreases Size(es) - index
  {
    var text := Flat(p, At(es, index));
    if index + 1 == Size(es) then text else text + "," + " " + Listed(p, es, index + 1)
  }

  lemma {:induction false} ListedIsJoin(p: Printer, es: Entries, index: nat)
    requires AllFlat(es) && index < Size(es)
    ensures Listed(p, es, index) == Join(FlatItems(p, es, index))
    decreases Size(es) - index
  {
    hide Flat, Size, Get, Filled, Join, FlatItems;
    JoinItemsStep(p, es, index);
    if index + 1 < Size(es) {
      ListedIsJoin(p, es, index + 1);
      var text := Flat(p, At(es, index));
      assert text + "," + " " == text + ", ";
    }
  }

  lemma RowIsJoin(p: Printer, es: Entries)
    requires AllFlat(es) && Size(es) > 0
    ensures Row(p, es) == "[ " + Join(FlatItems(p, es, 0)) + " ]"
  {
    ListedIsJoin(p, es, 0);
    hide Listed, Join, FlatItems, Size;
  }

  /** Fewer than 25 elements, each without anything inside, on a line shorter than 74 characters. */
  predicate FitsRow(p: Printer, es: Entries) {
    AllFlat(es) && Size(es) < 25 && |Row(p, es)| < 74
  }

  function Deeper(ls: seq<Line>): (ms: seq<Line>)
    ensures |ms| == |ls|
  {
    seq(|ls|, i requires 0 <= i < |ls| => Line(ls[i].depth + 1, ls[i].text))
  }

  /** With `t` at the end of the last line. */
  function WithEnd(ls: seq<Line>, t: string): seq<Line>
    requires ls != []
  {
    var last := |ls| - 1;
    ls[..last] + [Line(ls[last].depth, ls[last].text + t)]
  }

  /** With `t` at the beginning of the first line. */
  function WithStart(t: string, ls: seq<Line>): seq<Line>
    requires ls != []
  {
    [Line(ls[0].depth, t + ls[0].text)] + ls[1..]
  }

  function LinesOf(p: Printer, v: Value): (ls: seq<Line>)
    ensures ls != [] && ls[0].depth == 0
    decreases Weight(v), 0, 0
  {
    if !Filled(v) then [Line(0, Flat(p, v))]
    else if v.data.Arr? then
      if FitsRow(p, v.data.entries) then [Line(0, Row(p, v.data.entries))]
      else [Line(0, "[")] + ItemLines(p, v.data.entries, 0) + [Line(0, "]")]
    else [Line(0, "{")] + MemberLines(p, v.data.entries) + [Line(0, "}")]
  }

  /** The elements one level deeper, with a comma behind each but the last. */
  function ItemLines(p: Printer, es: Entries, index: nat): seq<Line>
    requires index < Size(es)
    decreases WeightOf(es), 1, Size(es) - index
  {
    GetWeight(es, Idx(index));
    var ls := Deeper(LinesOf(p, At(es, index)));
    if index + 1 == Size(es) then ls else WithEnd(ls, ",") + ItemLines(p, es, index + 1)
  }

  /** The members one level deeper, each with its name in front. */
  function MemberLines(p: Printer, es: Entries): seq<Line>
    requires es.Cons?
    decreases WeightOf(es), 1, 0
  {
    var ls := WithStart(Quote(NameText(es.key)) + " : ", Deeper(LinesOf(p, es.val)));
    if es.rest.Nil? then ls else WithEnd(ls, ",") + MemberLines(p, es.rest)
  }

  // ----- on the page -----

  /** The lines below others, three blanks for each level. */
  function Below(depth: nat, ls: seq<Line>): string {
    if ls == [] then "" else "\n" + Spaces(3 * (depth + ls[0].depth)) + ls[0].text + Below(depth, ls[1..])
  }

  /** The same, except that the first line goes on where the page stands. */
  function From(depth: nat, ls: seq<Line>): string
    requires ls != []
  {
    ls[0].text + Below(depth, ls[1..])
  }

  lemma {:induction false} BelowBoth(depth: nat, ls: seq<Line>, ms: seq<Line>)
    ensures Below(depth, ls + ms) == Below(depth, ls) + Below(depth, ms)
  {
    hide Spaces;
    if ls == [] {
      assert ls + ms == ms;
    } else {
      assert (ls + ms)[1..] == ls[1..] + ms;
      BelowBoth(depth, ls[1..], ms);
      var first := "\n" + Spaces(3 * (depth + ls[0].depth)) + ls[0].text;
      assert first + (Below(depth, ls[1..]) + Below(depth, ms)) == first + Below(depth, ls[1..]) + Below(depth, ms);
    }
  }

  lemma {:induction false} BelowDeeper(depth: nat, ls: seq<Line>)
    ensures Below(depth, Deeper(ls)) == Below(depth + 1, ls)
  {
    hide Spaces;
    if ls != [] {
      assert Deeper(ls)[1..] == Deeper(ls[1..]);
      BelowDeeper(depth, ls[1..]);
      assert depth + (ls[0].depth + 1) == depth + 1 + ls[0].depth;
    }
  }

  lemma BelowOne(depth: nat, l: Line)
    ensures Below(depth, [l]) == "\n" + Spaces(3 * (depth + l.depth)) + l.text
  {
    hide Spaces;
    assert [l][1..] == [];
    assert "\n" + Spaces(3 * (depth + l.depth)) + l.text + "" == "\n" + Spaces(3 * (depth + l.depth)) + l.text;
  }

  lemma BelowFirst(depth: nat, ls: seq<Line>)
    requires ls != []
    ensures Below(depth, ls) == "\n" + Spaces(3 * (depth + ls[0].depth)) + From(depth, ls)
  {
    hide Spaces;
    var a := "\n" + Spaces(3 * (depth + ls[0].depth));
    assert a + ls[0].text + Below(depth, ls[1..]) == a + (ls[0].text + Below(depth, ls[1..]));
  }

  lemma BelowEnd(depth: nat, ls: seq<Line>, t: string)
    requires ls != []
    ensures Below(depth, WithEnd(ls, t)) == Below(depth, ls) + t
  {
    hide Spaces, Below;
    var last := |ls| - 1;
    var l := Line(ls[last].depth, ls[last].text + t);
    BelowBoth(depth, ls[..last], [l]);
    BelowBoth(depth, ls[..last], [ls[last]]);
    assert ls == ls[..last] + [ls[last]];
    BelowOne(depth, l);
    BelowOne(depth, ls[last]);
    var a := Below(depth, ls[..last]);
    var b := "\n" + Spaces(3 * (depth + l.depth));
    assert a + (b + (ls[last].text + t)) == a + (b + ls[last].text) + t;
  }

  /** A first line that goes on behind `t` and is deeper. */
  lemma FromDeeper(depth: nat, t: string, ls: seq<Line>)
    requires ls != [] && ls[0].depth == 0
    ensures Below(depth, WithStart(t, Deeper(ls))) == "\n" + Spaces(3 * (depth + 1)) + t + From(depth + 1, ls)
  {
    hide Spaces, Below;
    var ms := WithStart(t, Deeper(ls));
    BelowFirst(depth, ms);
    assert ms[1..] == Deeper(ls[1..]);
    BelowDeeper(depth, ls[1..]);
    var a := "\n" + Spaces(3 * (depth + 1));
    assert a + (t + ls[0].text + Below(depth + 1, ls[1..])) == a + t + (ls[0].text + Below(depth + 1, ls[1..]));
  }

  // ----- where the writer stands -----

  /** Something stands at the end of the line. */
  predicate Standing(doc: string) {
    doc != "" && doc[|doc| - 1] != ' ' && doc[|doc| - 1] != '\n'
  }

  /** The writer stands where a value goes: at the beginning of the page, or behind blanks. */
  predicate Ready(doc: string, indent: nat) {
    (doc == "" && indent == 0) || (doc != "" && doc[|doc| - 1] == ' ')
  }

  lemma IndentBelow(doc: string, depth: nat)
    requires Standing(doc)
    ensures WriteIndent(doc, 3 * depth) == doc + "\n" + Spaces(3 * depth)
    ensures depth > 0 ==> Ready(doc + "\n" + Spaces(3 * depth), 3 * depth)
  {
  }

  lemma IndentReady(doc: string, indent: nat, text: string)
    requires Ready(doc, indent)
    ensures PutIndented(doc, indent, text) == doc + text
  {
    if doc == "" {
      assert doc + Spaces(0) == doc;
    }
  }

  lemma StandsAtEnd(doc: string, text: string)
    requires Standing(text)
    ensures Standing(doc + text)
  {
  }

  lemma NumeralStands(i: int)
    ensures Standing(IntText(i))
  {
  }

  lemma FlatStands(p: Printer, v: Value)
    requires RealFree(v) && !Filled(v)
    ensures Standing(Flat(p, v))
  {
    match v.data
    case Int(i) => NumeralStands(i as int);
    case UInt(u) => NumeralStands(u as int);
    case _ =>
    hide IntText, Escapes;
  }

  // ----- when an array is one row -----

  lemma {:induction false} JoinLength(texts: seq<string>)
    ensures |Join(texts)| == TotalLength(texts) + if texts == [] then 0 else 2 * (|texts| - 1)
  {
    if |texts| == 1 {
      assert texts[1..] == [];
    } else if |texts| > 1 {
      JoinLength(texts[1..]);
    }
  }

  lemma RowIff(p: Printer, es: Entries)
    requires Size(es) > 0
    ensures Multiline(p, es) <==> !FitsRow(p, es)
  {
    if AllFlat(es) {
      JoinLength(FlatItems(p, es, 0));
      RowIsJoin(p, es);
    }
    hide Join, TotalLength, FlatItems, AllFlat, Size, Row;
  }

  // ----- the page -----

  lemma LinesOfArray(p: Printer, v: Value)
    requires v.data.Arr? && Filled(v)
    ensures LinesOf(p, v) ==
              if FitsRow(p, v.data.entries) then [Line(0, Row(p, v.data.entries))]
              else [Line(0, "[")] + ItemLines(p, v.data.entries, 0) + [Line(0, "]")]
  {
    hide ItemLines, FitsRow, Row, Size;
  }

  lemma LinesOfObject(p: Printer, v: Value)
    requires v.data.Obj? && Filled(v)
    ensures LinesOf(p, v) == [Line(0, "{")] + MemberLines(p, v.data.entries) + [Line(0, "}")]
  {
    hide MemberLines;
  }

  lemma LinesOfFlat(p: Printer, v: Value)
    requires !Filled(v)
    ensures LinesOf(p, v) == [Line(0, Flat(p, v))]
  {
    hide Flat, Filled;
  }

  lemma ItemLinesStep(p: Printer, es: Entries, index: nat)
    requires index < Size(es)
    ensures var ls := Deeper(LinesOf(p, At(es, index)));
            ItemLines(p, es, index) ==
              if index + 1 == Size(es) then ls else WithEnd(ls, ",") + ItemLines(p, es, index + 1)
  {
    hide LinesOf, Deeper, WithEnd, Size, Get;
  }

  lemma MemberLinesStep(p: Printer, es: Entries)
    requires es.Cons?
    ensures var ls := WithStart(Quote(NameText(es.key)) + " : ", Deeper(LinesOf(p, es.val)));
            MemberLines(p, es) == if es.rest.Nil? then ls else WithEnd(ls, ",") + MemberLines(p, es.rest)
  {
    hide LinesOf, Deeper, WithEnd, WithStart, Quote;
  }

  /** A line by itself. */
  lemma FromOne(depth: nat, text: string)
    ensures From(depth, [Line(0, text)]) == text
  {
    assert [Line(0, text)][1..] == [] && text + "" == text;
  }

  /** Lines between a bracket and its counterpart. */
  lemma FromBracketed(depth: nat, open: string, ls: seq<Line>, close: string)
    ensures From(depth, [Line(0, open)] + ls + [Line(0, close)]) ==
              open + Below(depth, ls) + "\n" + Spaces(3 * depth) + close
  {
    hide Below, Spaces;
    var all := [Line(0, open)] + ls + [Line(0, close)];
    assert all[1..] == ls + [Line(0, close)] && all[0] == Line(0, open);
    BelowBoth(depth, ls, [Line(0, close)]);
    BelowOne(depth, Line(0, close));
    assert depth + 0 == depth;
    Associates(open, Below(depth, ls), "\n" + Spaces(3 * depth) + close);
  }

  /** The closing of a container on the page. */
  lemma Closing(doc: string, depth: nat, open: string, ls: seq<Line>, close: string)
    requires Standing(doc + open + Below(depth, ls)) && Standing(close)
    ensures PutIndented(doc + open + Below(depth, ls), 3 * depth, close) ==
              doc + From(depth, [Line(0, open)] + ls + [Line(0, close)])
    ensures Standing(From(depth, [Line(0, open)] + ls + [Line(0, close)]))
  {
    hide Below, Spaces, WriteIndent;
    FromBracketed(depth, open, ls, close);
    IndentBelow(doc + open + Below(depth, ls), depth);
    var b := Below(depth, ls);
    assert doc + (open + b + "\n" + Spaces(3 * depth) + close) == doc + open + b + "\n" + Spaces(3 * depth) + close;
    StandsAtEnd(open + b + "\n" + Spaces(3 * depth), close);
  }

  lemma {:induction false} ValuePage(p: Printer, doc: string, depth: nat, v: Value)
    requires RealFree(v) && Ready(doc, 3 * depth)
    ensures Styled(p, doc, 3 * depth, v) == doc + From(depth, LinesOf(p, v)) && Standing(From(depth, LinesOf(p, v)))
    decreases Weight(v), 0, 0
  {
    hide Styled, StyledItems, StyledMembers, LinesOf, ItemLines, MemberLines, Flat, Size, Multiline, FitsRow, Row;
    hide Below, From, PutIndented, Ready, Standing, Join, FlatItems, AllFlat, WriteIndent, Spaces;
    if !Filled(v) {
      Streams.StyledFlat(p, doc, 3 * depth, v);
      LinesOfFlat(p, v);
      FromOne(depth, Flat(p, v));
      FlatStands(p, v);
    } else if v.data.Arr? {
      var es := v.data.entries;
      StyledArray(p, doc, 3 * depth, v);
      RowIff(p, es);
      LinesOfArray(p, v);
      if FitsRow(p, es) {
        RowPage(p, doc, depth, es);
      } else {
        IndentReady(doc, 3 * depth, "[");
        BracketStands(doc);
        ItemsPage(p, doc + "[", depth, es, 0);
        Closing(doc, depth, "[", ItemLines(p, es, 0), "]");
      }
    } else {
      var es := v.data.entries;
      StyledObject(p, doc, 3 * depth, v);
      LinesOfObject(p, v);
      IndentReady(doc, 3 * depth, "{");
      BracketStands(doc);
      MembersPage(p, doc + "{", depth, es);
      Closing(doc, depth, "{", MemberLines(p, es), "}");
    }
  }

  lemma BracketStands(doc: string)
    ensures Standing(doc + "[") && Standing(doc + "{") && Standing("]") && Standing("}") && Standing(doc + ",")
    ensures Ready(doc + " ", 3) && forall indent :: Ready(doc + " ", indent)
  {
  }

  lemma RowPage(p: Printer, doc: string, depth: nat, es: Entries)
    requires FitsRow(p, es) && Size(es) > 0
    ensures AllFlat(es) && doc + "[ " + Join(FlatItems(p, es, 0)) + " ]" == doc + From(depth, [Line(0, Row(p, es))])
    ensures Standing(From(depth, [Line(0, Row(p, es))]))
  {
    hide Join, FlatItems, Size, From, Row;
    RowIsJoin(p, es);
    FromOne(depth, Row(p, es));
    assert doc + ("[ " + Join(FlatItems(p, es, 0)) + " ]") == doc + "[ " + Join(FlatItems(p, es, 0)) + " ]";
  }

  /** An element on a line of its own, with what stands behind it. */
  lemma ItemPage(p: Printer, doc: string, depth: nat, v: Value, end: string)
    requires Standing(doc)
    requires var d := doc + "\n" + Spaces(3 * (depth + 1));
             Styled(p, d, 3 * (depth + 1), v) == d + From(depth + 1, LinesOf(p, v))
    ensures Styled(p, WriteIndent(doc, 3 * (depth + 1)), 3 * (depth + 1), v) + end ==
              doc + (Below(depth, Deeper(LinesOf(p, v))) + end)
  {
    hide Styled, LinesOf, Spaces, Below, From, WriteIndent, Deeper, Standing;
    IndentBelow(doc, depth + 1);
    var ls := LinesOf(p, v);
    BelowDeeper(depth, ls);
    BelowFirst(depth + 1, ls);
    assert depth + 1 + 0 == depth + 1;
    var a, b := "\n" + Spaces(3 * (depth + 1)), From(depth + 1, ls);
    assert doc + (a + b + end) == doc + a + b + end;
    assert doc + "\n" + Spaces(3 * (depth + 1)) == doc + a;
  }

  lemma {:induction false} ItemsPage(p: Printer, doc: string, depth: nat, es: Entries, index: nat)
    requires RealFreeOf(es) && Standing(doc) && index < Size(es)
    ensures StyledItems(p, doc, 3 * (depth + 1), es, index) == doc + Below(depth, ItemLines(p, es, index))
    ensures Standing(doc + Below(depth, ItemLines(p, es, index)))
    decreases WeightOf(es), 1, Size(es) - index
  {
    hide *;
    StyledItemsStep(p, doc, 3 * (depth + 1), es, index);
    ItemLinesStep(p, es, index);
    GetWeight(es, Idx(index));
    RealFreeAt(es, Idx(index));
    var v, d := At(es, index), doc + "\n" + Spaces(3 * (depth + 1));
    var ls := LinesOf(p, v);
    AtIs(es, index);
    IndentBelow(doc, depth + 1);
    ValuePage(p, d, depth + 1, v);
    DeeperLength(ls);
    ItemStands(doc, depth, ls);
    if index + 1 == Size(es) {
      ItemPage(p, doc, depth, v, "");
      assert doc + (Below(depth, Deeper(ls)) + "") == doc + Below(depth, Deeper(ls));
      assert Styled(p, WriteIndent(doc, 3 * (depth + 1)), 3 * (depth + 1), v) + "" ==
             Styled(p, WriteIndent(doc, 3 * (depth + 1)), 3 * (depth + 1), v);
    } else {
      ItemPage(p, doc, depth, v, ",");
      BelowEnd(depth, Deeper(ls), ",");
      var d' := doc + Below(depth, WithEnd(Deeper(ls), ","));
      CommaStands(doc, Below(depth, Deeper(ls)));
      ItemsPage(p, d', depth, es, index + 1);
      BelowBoth(depth, WithEnd(Deeper(ls), ","), ItemLines(p, es, index + 1));
      Associates(doc, Below(depth, WithEnd(Deeper(ls), ",")), Below(depth, ItemLines(p, es, index + 1)));
    }
  }

  lemma AtIs(es: Entries, index: nat)
    ensures At(es, index) == Get(es, Idx(index))
  {
    hide Get;
  }

  lemma DeeperLength(ls: seq<Line>)
    ensures |Deeper(ls)| == |ls|
  {
  }

  lemma CommaStands(doc: string, text: string)
    ensures Standing(doc + (text + ","))
  {
  }

  lemma ItemStands(doc: string, depth: nat, ls: seq<Line>)
    requires ls != [] && Standing(From(depth + 1, ls))
    ensures Standing(doc + Below(depth, Deeper(ls)))
  {
    hide Below, From, Spaces, Deeper, Standing;
    BelowDeeper(depth, ls);
    BelowFirst(depth + 1, ls);
    var a := "\n" + Spaces(3 * (depth + 1 + ls[0].depth));
    Associates(doc, a, From(depth + 1, ls));
    StandsAtEnd(doc + a, From(depth + 1, ls));
  }

  lemma {:induction false} RealFreeAt(es: Entries, key: Key)
    requires RealFreeOf(es)
    ensures RealFree(Get(es, key))
  {
    if es.Cons? {
      RealFreeAt(es.rest, key);
    }
  }

  /** The head of a member's line. */
  function Head(name: string): string {
    Quote(name) + " : "
  }

  /** A member on a line of its own, with what stands behind it. */
  lemma MemberPage(p: Printer, doc: string, depth: nat, name: string, v: Value, end: string)
    requires Standing(doc)
    requires var d := doc + "\n" + Spaces(3 * (depth + 1)) + Head(name);
             Styled(p, d, 3 * (depth + 1), v) == d + From(depth + 1, LinesOf(p, v))
    ensures Styled(p, PutIndented(doc, 3 * (depth + 1), Quote(name)) + " : ", 3 * (depth + 1), v) + end ==
              doc + (Below(depth, WithStart(Quote(name) + " : ", Deeper(LinesOf(p, v)))) + end)
  {
    hide Styled, LinesOf, Spaces, Below, From, WriteIndent, Deeper, Standing, Quote, WithStart;
    IndentBelow(doc, depth + 1);
    var ls := LinesOf(p, v);
    FromDeeper(depth, Head(name), ls);
    var a, b := "\n" + Spaces(3 * (depth + 1)), From(depth + 1, ls);
    assert doc + a + Quote(name) + " : " == doc + a + Head(name);
    assert doc + (a + Head(name) + b + end) == doc + a + Head(name) + b + end;
    assert doc + "\n" + Spaces(3 * (depth + 1)) == doc + a;
  }

  lemma {:induction false} MembersPage(p: Printer, doc: string, depth: nat, es: Entries)
    requires RealFreeOf(es) && Standing(doc) && es.Cons?
    ensures StyledMembers(p, doc, 3 * (depth + 1), es) == doc + Below(depth, MemberLines(p, es))
    ensures Standing(doc + Below(depth, MemberLines(p, es)))
    decreases WeightOf(es), 1, 0
  {
    hide *;
    FirstRealFree(es);
    StyledMembersStep(p, doc, 3 * (depth + 1), es);
    MemberLinesStep(p, es);
    var name, v := NameText(es.key), es.val;
    var d := doc + "\n" + Spaces(3 * (depth + 1)) + Head(name);
    var ls := LinesOf(p, v);
    HeadReady(doc + "\n" + Spaces(3 * (depth + 1)), name);
    FirstWeight(es);
    ValuePage(p, d, depth + 1, v);
    DeeperLength(ls);
    var ms := WithStart(Quote(name) + " : ", Deeper(ls));
    StartLength(Quote(name) + " : ", Deeper(ls));
    MemberStands(doc, depth, name, ls);
    if es.rest.Nil? {
      MemberPage(p, doc, depth, name, v, "");
      assert doc + (Below(depth, ms) + "") == doc + Below(depth, ms);
      assert Styled(p, PutIndented(doc, 3 * (depth + 1), Quote(name)) + " : ", 3 * (depth + 1), v) + "" ==
             Styled(p, PutIndented(doc, 3 * (depth + 1), Quote(name)) + " : ", 3 * (depth + 1), v);
    } else {
      MemberPage(p, doc, depth, name, v, ",");
      BelowEnd(depth, ms, ",");
      CommaStands(doc, Below(depth, ms));
      MembersPage(p, doc + Below(depth, WithEnd(ms, ",")), depth, es.rest);
      BelowBoth(depth, WithEnd(ms, ","), MemberLines(p, es.rest));
      Associates(doc, Below(depth, WithEnd(ms, ",")), Below(depth, MemberLines(p, es.rest)));
    }
  }

  lemma FirstRealFree(es: Entries)
    requires RealFreeOf(es) && es.Cons?
    ensures RealFree(es.val) && RealFreeOf(es.rest)
  {
  }

  lemma FirstWeight(es: Entries)
    requires es.Cons?
    ensures Weight(es.val) < WeightOf(es) && WeightOf(es.rest) < WeightOf(es)
  {
  }

  lemma HeadReady(doc: string, name: string)
    ensures forall indent :: Ready(doc + Head(name), indent)
  {
    hide Quote;
  }

  lemma StartLength(t: string, ls: seq<Line>)
    requires ls != []
    ensures |WithStart(t, ls)| == |ls|
  {
  }

  lemma MemberStands(doc: string, depth: nat, name: string, ls: seq<Line>)
    requires ls != [] && ls[0].depth == 0 && Standing(From(depth + 1, ls))
    ensures |Deeper(ls)| == |ls| && Standing(doc + Below(depth, WithStart(Quote(name) + " : ", Deeper(ls))))
  {
    hide Below, From, Spaces, Deeper, Standing, Quote, WithStart;
    DeeperLength(ls);
    FromDeeper(depth, Quote(name) + " : ", ls);
    var a := "\n" + Spaces(3 * (depth + 1)) + (Quote(name) + " : ");
    assert "\n" + Spaces(3 * (depth + 1)) + (Quote(name) + " : ") + From(depth + 1, ls) == a + From(depth + 1, ls);
    Associates(doc, a, From(depth + 1, ls));
    StandsAtEnd(doc + a, From(depth + 1, ls));
  }

  /** The lines of a document, each on its own. */
  function Page(ls: seq<Line>): string {
    if ls == [] then "" else Spaces(3 * ls[0].depth) + ls[0].text + "\n" + Page(ls[1..])
  }

  /** What the styled writer writes are the lines of the value, indented by three blanks a level. */
  lemma StyledIsPage(p: Printer, v: Value)
    requires RealFree(v)
    ensures StyledText(p, v) == Page(LinesOf(p, v))
  {
    hide Styled, LinesOf, From, Page, Below;
    ValuePage(p, "", 0, v);
    assert "" + From(0, LinesOf(p, v)) == From(0, LinesOf(p, v));
    FromIsPage(LinesOf(p, v));
  }

  lemma FromIsPage(ls: seq<Line>)
    requires ls != [] && ls[0].depth == 0
    ensures From(0, ls) + "\n" == Page(ls)
  {
    BelowIsPage(ls[1..]);
    assert Spaces(0) == "" && "" + ls[0].text == ls[0].text;
    Associates(ls[0].text, Below(0, ls[1..]), "\n");
    Associates(ls[0].text, "\n", Page(ls[1..]));
    hide Below, Spaces;
  }

  lemma {:induction false} BelowIsPage(ls: seq<Line>)
    ensures Below(0, ls) + "\n" == "\n" + Page(ls)
  {
    hide Spaces;
    if ls != [] {
      BelowIsPage(ls[1..]);
      assert 0 + ls[0].depth == ls[0].depth;
      var first := Spaces(3 * ls[0].depth) + ls[0].text;
      assert "\n" + Spaces(3 * ls[0].depth) + ls[0].text == "\n" + first;
      Associates("\n" + first, Below(0, ls[1..]), "\n");
      assert "\n" + first + ("\n" + Page(ls[1..])) == "\n" + (first + "\n" + Page(ls[1..]));
    }
  }

  // ----- arrays on one line -----

  lemma RowOnLine(p: Printer, es: Entries)
    requires RealFreeOf(es) && AllFlat(es) && Size(es) > 0
    ensures '\n' !in Row(p, es)
  {
    Wire.JoinTame(p, es, 0);
    RowIsJoin(p, es);
    hide Join, FlatItems, AllFlat, Row, Size;
  }

  /**
   * An array of values without anything inside is written on one line if and only if it has fewer
   * than 25 elements and that line is shorter than 74 characters.
   */
  lemma OneLineIff(p: Printer, v: Value)
    requires RealFree(v) && v.data.Arr? && Filled(v) && AllFlat(v.data.entries)
    ensures var row, text := Row(p, v.data.entries), StyledText(p, v);
            (text == row + "\n" <==> Size(v.data.entries) < 25 && |row| < 74) &&
            ('\n' in text[..|text| - 1] <==> !(Size(v.data.entries) < 25 && |row| < 74))
  {
    var es := v.data.entries;
    RowOnLine(p, es);
    RowBegins(p, es);
    StyledIsPage(p, v);
    LinesOfArray(p, v);
    hide Row, Join, FlatItems, AllFlat, StyledText, LinesOf, ItemLines, Size;
    var row, text := Row(p, es), StyledText(p, v);
    if FitsRow(p, es) {
      PageOfOne(row);
      assert text[..|text| - 1] == row;
    } else {
      PageOfMore("[", ItemLines(p, es, 0) + [Line(0, "]")]);
      assert [Line(0, "[")] + ItemLines(p, es, 0) + [Line(0, "]")] ==
               [Line(0, "[")] + (ItemLines(p, es, 0) + [Line(0, "]")]);
      assert text[1] == '\n' && text[..|text| - 1][1] == '\n';
      assert (row + "\n")[1] == ' ';
    }
  }

  lemma RowBegins(p: Printer, es: Entries)
    requires AllFlat(es)
    ensures |Row(p, es)| > 2 && Row(p, es)[1] == ' '
  {
    hide Listed, Size;
  }

  lemma PageOfOne(text: string)
    ensures Page([Line(0, text)]) == text + "\n"
  {
    assert [Line(0, text)][1..] == [] && Spaces(0) == "" && "" + text == text && text + "\n" + "" == text + "\n";
  }

  lemma PageOfMore(text: string, ls: seq<Line>)
    requires ls != [] && |text| == 1
    ensures var page := Page([Line(0, text)] + ls); |page| > 2 && page[1] == '\n'
  {
    var all := [Line(0, text)] + ls;
    assert all[1..] == ls && Spaces(0) == "" && "" + text == text;
    assert Page(all) == text + "\n" + Page(ls);
    assert Page(ls) != "";
  }

  // ----- the fast writer -----

  /**
   * Tokens one behind the other, without anything between them, but for a blank behind a colon if
   * that is asked for; nulls may be left out.
   */
  function Tight(ls: seq<Tokens.Lexeme>, yaml: bool, dropNulls: bool): string {
    if ls == [] then ""
    else
      (if ls[0].kind.NullWord? && dropNulls then ""
       else ls[0].text + if ls[0].kind.MemberSeparator? && yaml then " " else "") + Tight(ls[1..], yaml, dropNulls)
  }

  lemma {:induction false} TightBoth(ls: seq<Tokens.Lexeme>, ms: seq<Tokens.Lexeme>, yaml: bool, dropNulls: bool)
    ensures Tight(ls + ms, yaml, dropNulls) == Tight(ls, yaml, dropNulls) + Tight(ms, yaml, dropNulls)
  {
    if ls == [] {
      assert ls + ms == ms;
    } else {
      assert (ls + ms)[1..] == ls[1..] + ms;
      TightBoth(ls[1..], ms, yaml, dropNulls);
      var first := if ls[0].kind.NullWord? && dropNulls then ""
                   else ls[0].text + if ls[0].kind.MemberSeparator? && yaml then " " else "";
      Associates(first, Tight(ls[1..], yaml, dropNulls), Tight(ms, yaml, dropNulls));
    }
  }

  lemma TightOne(l: Tokens.Lexeme, yaml: bool, dropNulls: bool)
    ensures Tight([l], yaml, dropNulls) ==
              if l.kind.NullWord? && dropNulls then ""
              else l.text + if l.kind.MemberSeparator? && yaml then " " else ""
  {
    assert [l][1..] == [];
    var text := if l.kind.NullWord? && dropNulls then ""
                else l.text + if l.kind.MemberSeparator? && yaml then " " else "";
    assert text + "" == text;
  }

  lemma TightSigns(yaml: bool, dropNulls: bool)
    ensures Tight([], yaml, dropNulls) == "" && Tight([Streams.COMMA], yaml, dropNulls) == ","
    ensures Tight([Streams.OPEN_ARRAY], yaml, dropNulls) == "[" && Tight([Streams.CLOSE_ARRAY], yaml, dropNulls) == "]"
    ensures Tight([Streams.OPEN_OBJECT], yaml, dropNulls) == "{" &&
            Tight([Streams.CLOSE_OBJECT], yaml, dropNulls) == "}"
    ensures Tight([Streams.COLON], yaml, dropNulls) == if yaml then ": " else ":"
  {
    TightOne(Streams.COMMA, yaml, dropNulls);
    TightOne(Streams.OPEN_ARRAY, yaml, dropNulls);
    TightOne(Streams.CLOSE_ARRAY, yaml, dropNulls);
    TightOne(Streams.OPEN_OBJECT, yaml, dropNulls);
    TightOne(Streams.CLOSE_OBJECT, yaml, dropNulls);
    TightOne(Streams.COLON, yaml, dropNulls);
    assert "[" + "" == "[" && "]" + "" == "]" && "{" + "" == "{" && "}" + "" == "}" && "," + "" == ",";
    assert ":" + " " == ": " && ":" + "" == ":";
  }

  function TightOf(f: FastStyle, ls: seq<Tokens.Lexeme>): string {
    Tight(ls, f.yaml, f.dropNulls)
  }

  lemma FastScalar(f: FastStyle, v: Value)
    requires RealFree(v) && !v.data.Arr? && !v.data.Obj?
    ensures Fast(f, v) == TightOf(f, Streams.TokensOf(v))
  {
    var l := Streams.ScalarToken(v.data);
    TightOne(l, f.yaml, f.dropNulls);
    assert l.text + "" == l.text;
    hide Tight, IntText, Quote;
  }

  lemma FastContainer(f: FastStyle, v: Value)
    ensures v.data.Arr? ==> Fast(f, v) == "[" + FastItems(f, v.data.entries, 0) + "]"
    ensures v.data.Obj? ==> Fast(f, v) == "{" + FastMembers(f, v.data.entries, true) + "}"
  {
    hide FastItems, FastMembers, Quote, IntText;
  }

  /** What the fast writer writes are the tokens of the value, with nothing else between them. */
  lemma {:induction false} FastIsTight(f: FastStyle, v: Value)
    requires RealFree(v)
    ensures Fast(f, v) == TightOf(f, Streams.TokensOf(v))
    decreases Weight(v), 0, 0
  {
    hide Fast, FastItems, FastMembers, Tight, Size, Flat, Streams.TokensOf, Streams.ItemTokens, Streams.MemberTokens;
    FastContainer(f, v);
    TightSigns(f.yaml, f.dropNulls);
    if v.data.Arr? {
      var es := v.data.entries;
      Streams.ArrayTokens(v);
      var inner := if Size(es) == 0 then [] else Streams.ItemTokens(es, 0);
      ItemsAreTight(f, es, 0);
      TightBoth([Streams.OPEN_ARRAY], inner, f.yaml, f.dropNulls);
      TightBoth([Streams.OPEN_ARRAY] + inner, [Streams.CLOSE_ARRAY], f.yaml, f.dropNulls);
    } else if v.data.Obj? {
      var es := v.data.entries;
      Streams.ObjectTokens(v);
      var inner := if es.Nil? then [] else Streams.MemberTokens(es);
      MembersAreTight(f, es, true);
      TightBoth([Streams.OPEN_OBJECT], inner, f.yaml, f.dropNulls);
      TightBoth([Streams.OPEN_OBJECT] + inner, [Streams.CLOSE_OBJECT], f.yaml, f.dropNulls);
    } else {
      FastScalar(f, v);
    }
  }

  lemma {:induction false} ItemsAreTight(f: FastStyle, es: Entries, index: nat)
    requires RealFreeOf(es) && index <= Size(es)
    ensures FastItems(f, es, index) ==
              if index == Size(es) then ""
              else (if index == 0 then "" else ",") + TightOf(f, Streams.ItemTokens(es, index))
    decreases WeightOf(es), 1, Size(es) - index
  {
    hide Fast, FastItems, Tight, Size, Get, Streams.TokensOf, Streams.ItemTokens;
    if index == Size(es) {
      NoItems(f, es);
    } else {
      FastItemsStep(f, es, index);
      Streams.ItemTokensStep(es, index);
      GetWeight(es, Idx(index));
      RealFreeAt(es, Idx(index));
      FastIsTight(f, At(es, index));
      ItemsAreTight(f, es, index + 1);
      TightSigns(f.yaml, f.dropNulls);
      var ls := Streams.TokensOf(At(es, index));
      var a := (if index == 0 then "" else ",") + TightOf(f, ls);
      if index + 1 == Size(es) {
        assert ls + [] == ls && a + "" == a;
      } else {
        var more := Streams.ItemTokens(es, index + 1);
        TightBoth([Streams.COMMA], more, f.yaml, f.dropNulls);
        TightBoth(ls, [Streams.COMMA] + more, f.yaml, f.dropNulls);
        Associates(if index == 0 then "" else ",", TightOf(f, ls), "," + TightOf(f, more));
      }
    }
  }

  lemma NoItems(f: FastStyle, es: Entries)
    ensures FastItems(f, es, Size(es)) == ""
  {
    hide Size, Fast;
  }

  lemma {:induction false} MembersAreTight(f: FastStyle, es: Entries, first: bool)
    requires RealFreeOf(es)
    ensures FastMembers(f, es, first) ==
              if es.Nil? then "" else (if first then "" else ",") + TightOf(f, Streams.MemberTokens(es))
    decreases WeightOf(es), 1, 0
  {
    hide Fast, FastMembers, Tight, Quote, Streams.TokensOf, Streams.MemberTokens, FastMember;
    if es.Nil? {
      NoMembers(f, first);
    } else {
      FastMembersStep(f, es, first);
      Streams.MemberTokensStep(es);
      FirstRealFree(es);
      FirstWeight(es);
      FastIsTight(f, es.val);
      MembersAreTight(f, es.rest, false);
      var name := Tokens.Lexeme(Tokens.StringLiteral, Quote(NameText(es.key)));
      MemberIsTight(f, name, es.val, first, NameText(es.key));
      var ls := [name, Streams.COLON] + Streams.TokensOf(es.val);
      var a := FastMember(f, NameText(es.key), es.val, first);
      if es.rest.Nil? {
        assert ls + [] == ls && a + "" == a;
      } else {
        TightSigns(f.yaml, f.dropNulls);
        var more := Streams.MemberTokens(es.rest);
        TightBoth([Streams.COMMA], more, f.yaml, f.dropNulls);
        TightBoth(ls, [Streams.COMMA] + more, f.yaml, f.dropNulls);
        Associates(if first then "" else ",", TightOf(f, ls), "," + TightOf(f, more));
      }
    }
  }

  lemma NoMembers(f: FastStyle, first: bool)
    ensures FastMembers(f, Nil, first) == ""
  {
  }

  lemma MemberIsTight(f: FastStyle, name: Tokens.Lexeme, v: Value, first: bool, key: string)
    requires name == Tokens.Lexeme(Tokens.StringLiteral, Quote(key)) && Fast(f, v) == TightOf(f, Streams.TokensOf(v))
    ensures FastMember(f, key, v, first) ==
              (if first then "" else ",") + TightOf(f, [name, Streams.COLON] + Streams.TokensOf(v))
  {
    hide Fast, Tight, Quote, Streams.TokensOf;
    TightSigns(f.yaml, f.dropNulls);
    TightOne(name, f.yaml, f.dropNulls);
    assert name.text + "" == name.text;
    assert [name, Streams.COLON] == [name] + [Streams.COLON];
    TightBoth([name], [Streams.COLON], f.yaml, f.dropNulls);
    TightBoth([name, Streams.COLON], Streams.TokensOf(v), f.yaml, f.dropNulls);
    var a, b, d := if first then "" else ",", Quote(key), if f.yaml then ": " else ":";
    assert a + b + d + Fast(f, v) == a + (b + d + Fast(f, v));
  }

  /** Scalars and empty containers both writers print alike, hence without blanks too. */
  lemma FlatIsFast(f: FastStyle, v: Value)
    requires !Filled(v) && !f.dropNulls
    ensures Flat(f.double, v) == Fast(f, v)
  {
    if v.data.Arr? {
      assert Fast(f, v) == "[" + "" + "]";
    } else if v.data.Obj? {
      assert Fast(f, v) == "{" + "" + "}";
    }
    hide IntText, Quote;
  }
}

/**
 * Which token streams the reader accepts, as a grammar: that of sections 2 to 7 of RFC 8259 with the
 * leniencies of the reader written out as productions of their own.
 */
module Grammar {
  import opened Text
  import opened Strings
  import opened Tokens
  import opened Values
  import opened Parser
  import opened RoundTrip
  import opened Factoring
  import Locality

  /** A derivation of a value; `before` are comments. */
  datatype Tree =
    | Leaf(before: seq<Lexeme>, token: Lexeme)
    | Dropped(before: seq<Lexeme>)                // a value left out in front of a comma
    | ArrayOf(before: seq<Lexeme>, open: Lexeme, items: Items)
    | ObjectOf(before: seq<Lexeme>, open: Lexeme, members: Members)

  datatype Items =
    | NoItems(close: Lexeme)
    | LastItem(item: Tree, after: seq<Lexeme>, close: Lexeme)
    | MoreItems(item: Tree, after: seq<Lexeme>, comma: Lexeme, others: Items)

  datatype Members =
    | NoMembers(after: seq<Lexeme>, close: Lexeme)
    | LastMember(member: Member, after: seq<Lexeme>, close: Lexeme)
    | MoreMembers(member: Member, after: seq<Lexeme>, comma: Lexeme, others: Members)

  datatype Member = Member(before: seq<Lexeme>, name: Lexeme, colon: Lexeme, value: Tree)

  // ----- what a derivation derives -----

  function Yield(t: Tree): seq<Lexeme> {
    match t
    case Leaf(before, token) => before + [token]
    case Dropped(before) => before
    case ArrayOf(before, open, items) => before + [open] + ItemsYield(items)
    case ObjectOf(before, open, members) => before + [open] + MembersYield(members)
  }

  function ItemsYield(items: Items): seq<Lexeme> {
    match items
    case NoItems(close) => [close]
    case LastItem(item, after, close) => Yield(item) + after + [close]
    case MoreItems(item, after, comma, others) => Yield(item) + after + [comma] + ItemsYield(others)
  }

  function MembersYield(members: Members): seq<Lexeme> {
    match members
    case NoMembers(after, close) => after + [close]
    case LastMember(m, after, close) => MemberYield(m) + after + [close]
    case MoreMembers(m, after, comma, others) => MemberYield(m) + after + [comma] + MembersYield(others)
  }

  function MemberYield(m: Member): seq<Lexeme> {
    m.before + [m.name, m.colon] + Yield(m.value)
  }

  // ----- which derivations there are -----

  predicate Comments(ls: seq<Lexeme>) {
    forall i :: 0 <= i < |ls| ==> ls[i].kind.Comment?
  }

  /** Comments before a value have to be allowed; all others need not. */
  predicate MayPrecede(c: Config, ls: seq<Lexeme>) {
    Comments(ls) && (ls != [] ==> c.allowComments)
  }

  function TokenOf(l: Lexeme): Token {
    Token(l.kind, l.text, "")
  }

  function NameIn(c: Config, l: Lexeme): MemberName {
    NameOf(c, TokenOf(l))
  }

  predicate ValidTree(c: Config, t: Tree) {
    MayPrecede(c, t.before) &&
    match t
    case Leaf(_, token) => ScalarOf(c, TokenOf(token)).Good?
    case Dropped(_) => c.allowDroppedNulls
    case ArrayOf(_, open, items) => open.kind.ArrayBegin? && ValidItems(c, items)
    case ObjectOf(_, open, members) => open.kind.ObjectBegin? && ValidMembers(c, members, "")
  }

  predicate ValidItems(c: Config, items: Items) {
    match items
    case NoItems(close) => close.kind.ArrayEnd?
    case LastItem(item, after, close) =>
      ValidTree(c, item) && !item.Dropped? && Comments(after) && close.kind.ArrayEnd?
    case MoreItems(item, after, comma, others) =>
      ValidTree(c, item) && (item.Dropped? ==> after == []) && Comments(after) && comma.kind.ArraySeparator? &&
      !others.NoItems? && ValidItems(c, others)
  }

  /** `last` is the name of the member before: behind an empty one the object may end as if there were none. */
  predicate ValidMembers(c: Config, members: Members, last: string) {
    match members
    case NoMembers(after, close) => last == "" && Comments(after) && close.kind.ObjectEnd?
    case LastMember(m, after, close) =>
      ValidMember(c, m) && !m.value.Dropped? && Comments(after) && close.kind.ObjectEnd?
    case MoreMembers(m, after, comma, others) =>
      ValidMember(c, m) && (m.value.Dropped? ==> after == []) && Comments(after) && Separates(after, comma) &&
      ValidMembers(c, others, NameIn(c, m.name).name)
  }

  predicate ValidMember(c: Config, m: Member)
    ensures ValidMember(c, m) ==> NameIn(c, m.name).Named?
  {
    Comments(m.before) && NameIn(c, m.name).Named? && m.colon.kind.MemberSeparator? && ValidTree(c, m.value)
  }

  /** Behind comments anything but a closing brace will do for a comma. */
  predicate Separates(after: seq<Lexeme>, comma: Lexeme) {
    if after == [] then comma.kind.ArraySeparator? else !comma.kind.ObjectEnd? && !comma.kind.Comment?
  }

  // ----- what a derivation denotes -----

  function Meaning(c: Config, t: Tree): Value
    requires ValidTree(c, t)
  {
    match t
    case Leaf(_, token) => Plain(ScalarOf(c, TokenOf(token)).data)
    case Dropped(_) => Plain(Null)
    case ArrayOf(_, _, items) => Plain(Arr(ItemsMeaning(c, items, Nil, 0)))
    case ObjectOf(_, _, members) => Plain(Obj(MembersMeaning(c, members, "", Nil)))
  }

  function ItemsMeaning(c: Config, items: Items, es: Entries, index: nat): Entries
    requires ValidItems(c, items)
  {
    match items
    case NoItems(_) => es
    case LastItem(item, _, _) => Put(es, Idx(index), Meaning(c, item))
    case MoreItems(item, _, _, others) => ItemsMeaning(c, others, Put(es, Idx(index), Meaning(c, item)), index + 1)
  }

  /** Of members with the same name the last one counts. */
  function MembersMeaning(c: Config, members: Members, last: string, es: Entries): Entries
    requires ValidMembers(c, members, last)
  {
    match members
    case NoMembers(_, _) => es
    case LastMember(m, _, _) => WithMember(c, m, es)
    case MoreMembers(m, _, _, others) => MembersMeaning(c, others, NameIn(c, m.name).name, WithMember(c, m, es))
  }

  function WithMember(c: Config, m: Member, es: Entries): Entries
    requires ValidMember(c, m)
  {
    Put(es, Name(CStr(NameIn(c, m.name).name)), Meaning(c, m.value))
  }

  /** The tokens `ls` begin with those of `t`, and `rest` is what follows. */
  predicate Derivation(c: Config, ls: seq<Lexeme>, t: Tree, rest: seq<Lexeme>) {
    ValidTree(c, t) && ls == Yield(t) + rest && (t.Dropped? ==> rest != [] && rest[0].kind.ArraySeparator?)
  }

  // ----- comments -----

  lemma {:induction false} CommentsRead(r: string) returns (cs: seq<Lexeme>)
    ensures Comments(cs)
    ensures var t := SkipComments(r);
            t.text != "" ==> Lex(r) == cs + [Lexeme(t.kind, t.text)] + Lex(t.rest)
    ensures cs == [] <==> !ReadToken(r).kind.Comment?
    ensures cs == [] ==> SkipComments(r) == ReadToken(r)
    decreases |r|
  {
    hide *;
    var t := ReadToken(r);
    LexUnfolds(r, t);
    SkipUnfolds(r);
    if t.kind.Comment? {
      Shrinks(r);
      var l := Lexeme(t.kind, t.text);
      var more := CommentsRead(t.rest);
      cs := [l] + more;
      CommentsCons(l, more);
      var u := SkipComments(r);
      assert [l] + (more + [Lexeme(u.kind, u.text)] + Lex(u.rest)) == cs + [Lexeme(u.kind, u.text)] + Lex(u.rest);
    } else {
      cs := [];
      CommentsCons(Lexeme(t.kind, t.text), []);
    }
  }

  lemma Shrinks(r: string)
    ensures ReadToken(r).kind.Comment? ==> |ReadToken(r).rest| < |r| && ReadToken(r).text != ""
  {
    hide CutToken;
  }

  lemma CommentsCons(l: Lexeme, ls: seq<Lexeme>)
    ensures Comments([l] + ls) <==> l.kind.Comment? && Comments(ls)
    ensures Comments([])
  {
    assert ([l] + ls)[0] == l && ([l] + ls)[1..] == ls;
  }

  lemma SkipUnfolds(r: string)
    ensures var t := ReadToken(r); SkipComments(r) == if t.kind.Comment? then SkipComments(t.rest) else t
  {
    hide ReadToken;
  }

  lemma {:induction false} CommentsSkipped(c: Config, r: string, cs: seq<Lexeme>, l: Lexeme, ls: seq<Lexeme>)
    requires Lex(r) == cs + [l] + ls && Comments(cs) && !l.kind.Comment?
    ensures var t := SkipComments(r); t.kind == l.kind && t.text == l.text && Lex(t.rest) == ls && t.text != ""
    ensures cs == [] <==> !ReadToken(r).kind.Comment?
    ensures cs == [] ==> SkipComments(r) == ReadToken(r)
    decreases |cs|
  {
    hide *;
    LexStep(r);
    SkipUnfolds(r);
    if cs == [] {
      assert Lex(r) == [l] + ls;
      ReadsToken(c, r, l, ls);
    } else {
      CommentsCons(cs[0], cs[1..]);
      assert cs == [cs[0]] + cs[1..];
      assert Lex(r) == [cs[0]] + (cs[1..] + [l] + ls);
      ReadsToken(c, r, cs[0], cs[1..] + [l] + ls);
      CommentsSkipped(c, ReadToken(r).rest, cs[1..], l, ls);
    }
  }

  lemma SignificantRead(c: Config, r: string) returns (cs: seq<Lexeme>)
    ensures MayPrecede(c, cs)
    ensures var t := Significant(c, r);
            t.text != "" ==> Lex(r) == cs + [Lexeme(t.kind, t.text)] + Lex(t.rest)
  {
    hide *;
    SignificantCases(c, r);
    if c.allowComments {
      cs := CommentsRead(r);
    } else {
      cs := [];
      LexUnfolds(r, ReadToken(r));
    }
    PrecedeCases(c, cs);
  }

  lemma SignificantCases(c: Config, r: string)
    ensures Significant(c, r) == if c.allowComments then SkipComments(r) else ReadToken(r)
  {
    hide ReadToken, SkipComments, Suffix;
  }

  lemma PrecedeCases(c: Config, cs: seq<Lexeme>)
    ensures MayPrecede(c, cs) <==> Comments(cs) && (cs != [] ==> c.allowComments)
    ensures Comments([])
  {
  }

  lemma SignificantSkipped(c: Config, r: string, cs: seq<Lexeme>, l: Lexeme, ls: seq<Lexeme>)
    requires Lex(r) == cs + [l] + ls && MayPrecede(c, cs) && !l.kind.Comment?
    ensures var t := Significant(c, r); t.kind == l.kind && t.text == l.text && Lex(t.rest) == ls && t.text != ""
  {
    hide *;
    PrecedeCases(c, cs);
    CommentsSkipped(c, r, cs, l, ls);
    SignificantCases(c, r);
  }

  // ----- the ends of elements and members -----

  lemma ElementEndCases(c: Config, n: int, r: string, v: Outcome, node: Value)
    requires Suffix(v.rest, r) && |v.errors| == (if v.ok then 0 else 1) && node.data.Arr?
    ensures var s, t := ElementEnd(c, n, r, v, node), SkipComments(v.rest);
            if v.ok && t.kind.ArrayEnd? then s == Last(Outcome(true, node, t.rest, []))
            else if v.ok && t.kind.ArraySeparator? then s == More(node, t.rest)
            else s.Last? && !s.o.ok
  {
    hide ReadToken, SkipComments, Suffix, Recover;
  }

  /** A member is followed by another exactly behind a comma, or behind a comment and anything but a closing brace. */
  lemma MemberEndCases(c: Config, n: int, r: string, v: Outcome, node: Value)
    requires Suffix(v.rest, r) && |v.errors| == (if v.ok then 0 else 1) && node.data.Obj?
    ensures var s, comma, t := MemberEnd(c, n, r, v, node), ReadToken(v.rest), SkipComments(v.rest);
            (s.More? <==> v.ok && (comma.kind.ArraySeparator? || (comma.kind.Comment? && !t.kind.ObjectEnd?))) &&
            (s.More? ==> s == More(node, t.rest)) &&
            (s.Last? && s.o.ok <==> v.ok && (comma.kind.ObjectEnd? || (comma.kind.Comment? && t.kind.ObjectEnd?))) &&
            (s.Last? && s.o.ok ==> s.o == Outcome(true, node, t.rest, []))
  {
    SkipUnfolds(v.rest);
    hide ReadToken, SkipComments, Suffix, Recover;
  }

  // ----- what is accepted has a derivation -----

  /** A value that is read has a derivation, which denotes it. */
  lemma {:induction false} ValueDerived(c: Config, n: int, r: string, node: Value) returns (t: Tree)
    requires ReadValue(c, n, r, node).ok
    ensures var o := ReadValue(c, n, r, node);
            Derivation(c, Lex(r), t, Lex(o.rest)) && Strip(o.node) == Meaning(c, t)
    decreases |r|, 1
  {
    hide Significant, ReadMembers, ReadArray, ReadValue, ScalarOf, Suffix, Lex, ReadToken;
    ValueUnfold(c, n, r, node);
    var token := Significant(c, r);
    var l := Lexeme(token.kind, token.text);
    var cs := SignificantRead(c, r);
    SameLiterals(c, token, TokenOf(l));
    if token.kind.ObjectBegin? {
      var ms := MembersDerived(c, n, token.rest, Value(Obj(Nil), StartOf(n, token), 0), "");
      t := ObjectOf(cs, l, ms);
      Concatenate([], cs, l, MembersYield(ms), Lex(ReadValue(c, n, r, node).rest));
    } else if token.kind.ArrayBegin? {
      var items := ArrayDerived(c, n, token.rest, Value(Arr(Nil), StartOf(n, token), 0));
      t := ArrayOf(cs, l, items);
      Concatenate([], cs, l, ItemsYield(items), Lex(ReadValue(c, n, r, node).rest));
    } else if token.kind.ArraySeparator? && c.allowDroppedNulls {
      t := Dropped(cs);
      RereadSignificant(c, r);
      LexUnfolds(token.text + token.rest, token);
      assert cs + ([l] + Lex(token.rest)) == cs + [l] + Lex(token.rest);
    } else {
      t := Leaf(cs, l);
      Locality.GoodLiteral(c, n, token, node);
      NotEnd(c, token);
      PlainScalar(c, token);
    }
  }

  lemma NotEnd(c: Config, t: Token)
    ensures ScalarOf(c, t).Good? ==> !t.kind.EndOfStream? && !t.kind.Comment? && !t.kind.ArrayEnd?
    ensures NameOf(c, t).Named? ==> !t.kind.ObjectEnd? && !t.kind.Comment?
  {
    hide DecodeString, NumberData, NumberText, CStr;
  }

  lemma {:induction false} ArrayDerived(c: Config, n: int, r: string, node: Value) returns (items: Items)
    requires node.data == Arr(Nil) && ReadArray(c, n, r, node).ok
    ensures var o := ReadArray(c, n, r, node);
            ValidItems(c, items) && Lex(r) == ItemsYield(items) + Lex(o.rest) &&
            o.node.data.Arr? && StripOf(o.node.data.entries) == ItemsMeaning(c, items, Nil, 0)
    decreases |r|, 4
  {
    hide ReadArray, ReadElements, SkipSpaces, Suffix, Lex;
    ArrayUnfold(c, n, r, node);
    PeekFactors(r);
    var s := SkipSpaces(r);
    if s != "" && s[0] == ']' {
      items := NoItems(Lex(r)[0]);
      assert Lex(r) == [Lex(r)[0]] + Lex(r)[1..];
    } else {
      Locality.SuffixLength(s, r);
      items := ItemsDerived(c, n, s, node, 0);
    }
  }

  lemma {:induction false} ItemsDerived(c: Config, n: int, r: string, node: Value, index: nat) returns (items: Items)
    requires node.data.Arr? && ReadElements(c, n, r, node, index).ok
    ensures var o := ReadElements(c, n, r, node, index);
            ValidItems(c, items) && !items.NoItems? && Lex(r) == ItemsYield(items) + Lex(o.rest) && o.node.data.Arr? &&
            StripOf(o.node.data.entries) == ItemsMeaning(c, items, StripOf(node.data.entries), index)
    decreases |r|, 3
  {
    hide ReadElements, ReadElement, ReadValue, ElementEnd, Suffix, Get, Put, Lex, SkipComments, ReadToken, Strip,
         StripOf, Comments, Yield, ValidTree, Meaning;
    var es := node.data.entries;
    ElementsUnfold(c, n, r, node, index);
    ElementUnfold(c, n, r, node, index);
    var v := ReadValue(c, n, r, At(es, index));
    var node' := node.(data := Arr(Put(es, Idx(index), v.node)));
    ElementEndCases(c, n, r, v, node');
    var item := ValueDerived(c, n, r, At(es, index));
    StripPut(es, Idx(index), v.node);
    var cs := CommentsRead(v.rest);
    var t := SkipComments(v.rest);
    NextToken(v.rest);
    var l := Lexeme(t.kind, t.text);
    if t.kind.ArrayEnd? {
      items := LastItem(item, cs, l);
      Concatenate(Yield(item), cs, l, [], Lex(t.rest));
    } else {
      var others := ItemsDerived(c, n, t.rest, node', index + 1);
      items := MoreItems(item, cs, l, others);
      var last := Lex(ReadElements(c, n, r, node, index).rest);
      Concatenate(Yield(item), cs, l, ItemsYield(others), last);
    }
  }

  lemma Concatenate(a: seq<Lexeme>, cs: seq<Lexeme>, l: Lexeme, b: seq<Lexeme>, rest: seq<Lexeme>)
    ensures a + (cs + [l] + (b + rest)) == a + cs + [l] + b + rest
    ensures a + (cs + [l] + rest) == a + cs + [l] + rest
  {
  }

  lemma {:induction false} MembersDerived(c: Config, n: int, r: string, node: Value, name: string) returns (ms: Members)
    requires node.data.Obj? && ReadMembers(c, n, r, node, name).ok
    ensures var o := ReadMembers(c, n, r, node, name);
            ValidMembers(c, ms, name) && Lex(r) == MembersYield(ms) + Lex(o.rest) && o.node.data.Obj? &&
            StripOf(o.node.data.entries) == MembersMeaning(c, ms, name, StripOf(node.data.entries))
    decreases |r|, 0
  {
    hide ReadMembers, ReadMember, Suffix, SkipComments, NameOf, Fail, Lex, ReadToken, Strip, StripOf;
    MembersUnfold(c, n, r, node, name);
    var cs := CommentsRead(r);
    var t := SkipComments(r);
    var l := Lexeme(t.kind, t.text);
    SameLiterals(c, t, TokenOf(l));
    if t.kind.ObjectEnd? && name == "" {
      ms := NoMembers(cs, l);
    } else {
      var s := ReadMember(c, n, t.rest, node, NameIn(c, l).name);
      if s.More? {
        MoreToRead(c, n, s.rest, s.node, NameIn(c, l).name);
      }
      var member, after, comma := MemberRead(c, n, t.rest, node, cs, l);
      var o := ReadMembers(c, n, r, node, name);
      if s.Last? {
        ms := LastMember(member, after, comma);
      } else {
        Locality.SuffixLength(s.rest, t.rest);
        var others := MembersDerived(c, n, s.rest, s.node, NameIn(c, l).name);
        ms := MoreMembers(member, after, comma, others);
        Concatenate(MemberYield(member), after, comma, MembersYield(others), Lex(o.rest));
      }
    }
  }

  /** A member, and what separates it from the next one or ends the object, from behind its name. */
  lemma {:induction false} MemberRead(c: Config, n: int, r: string, node: Value, cs: seq<Lexeme>, l: Lexeme)
    returns (member: Member, after: seq<Lexeme>, comma: Lexeme)
    requires node.data.Obj? && Comments(cs) && NameIn(c, l).Named?
    requires var s := ReadMember(c, n, r, node, NameIn(c, l).name); (s.Last? ==> s.o.ok) && (s.More? ==> s.rest != "")
    ensures ValidMember(c, member) && Comments(after) && member.before == cs && member.name == l
    ensures var s := ReadMember(c, n, r, node, NameIn(c, l).name);
            var node' := if s.Last? then s.o.node else s.node;
            cs + [l] + Lex(r) == MemberYield(member) + after + [comma] + Lex(if s.Last? then s.o.rest else s.rest) &&
            (s.Last? ==> comma.kind.ObjectEnd? && !member.value.Dropped?) &&
            (s.More? ==> Separates(after, comma) && (member.value.Dropped? ==> after == [])) &&
            node'.data.Obj? && StripOf(node'.data.entries) == WithMember(c, member, StripOf(node.data.entries))
    decreases |r|, 2
  {
    hide ReadMembers, ReadMember, ReadToken, ReadValue, MemberEnd, Suffix, Get, Put, CStr, Fail, Lex, SkipComments,
         NameOf, Strip, StripOf, Comments, Yield, ValidTree, Meaning;
    var name := NameIn(c, l).name;
    var es, colon := node.data.entries, ReadToken(r);
    LexUnfolds(r, colon);
    if !colon.kind.MemberSeparator? {
      NoColon(c, n, r, node, name);
      assert false;
    }
    var key := Name(CStr(name));
    MemberUnfold(c, n, r, node, name);
    var v := ReadValue(c, n, colon.rest, Get(es, key));
    var node' := node.(data := Obj(Put(es, key, v.node)));
    MemberEndCases(c, n, r, v, node');
    var value := ValueDerived(c, n, colon.rest, Get(es, key));
    StripPut(es, key, v.node);
    member := Member(cs, l, Lexeme(colon.kind, colon.text), value);
    after := CommentsRead(v.rest);
    var t := SkipComments(v.rest);
    comma := Lexeme(t.kind, t.text);
    NextToken(v.rest);
    Regroup(cs, l, member.colon, Yield(value), after, comma, Lex(t.rest));
  }

  lemma Regroup(cs: seq<Lexeme>, l: Lexeme, colon: Lexeme, value: seq<Lexeme>, after: seq<Lexeme>, comma: Lexeme,
                rest: seq<Lexeme>)
    ensures cs + [l] + ([colon] + (value + (after + [comma] + rest))) ==
              cs + [l, colon] + value + after + [comma] + rest
  {
  }

  lemma MoreToRead(c: Config, n: int, r: string, node: Value, name: string)
    requires node.data.Obj? && ReadMembers(c, n, r, node, name).ok
    ensures r != ""
  {
    hide Fail, ReadMember, Suffix;
    MembersUnfold(c, n, r, node, name);
  }

  lemma NextToken(r: string)
    ensures Lex(r) != [] && Lex(r)[0].kind.ArraySeparator? ==>
              ReadToken(r).kind.ArraySeparator? && SkipComments(r) == ReadToken(r)
  {
    LexUnfolds(r, ReadToken(r));
    SkipUnfolds(r);
    hide ReadToken, Lex, SkipComments;
  }

  // ----- what has a derivation is accepted -----

  lemma FirstOfTree(c: Config, t: Tree, rest: seq<Lexeme>)
    requires ValidTree(c, t) && (t.Dropped? ==> rest != [] && rest[0].kind.ArraySeparator?)
    ensures var ls := Yield(t) + rest; ls != [] && !ls[0].kind.ArrayEnd?
  {
    if t.Leaf? {
      NotEnd(c, TokenOf(t.token));
    }
  }

  /** A text whose tokens have a derivation is read as what the derivation denotes, up to its end. */
  lemma {:induction false} ValueReads(c: Config, n: int, r: string, node: Value, t: Tree, rest: seq<Lexeme>)
    requires Derivation(c, Lex(r), t, rest)
    ensures var o := ReadValue(c, n, r, node); o.ok && Strip(o.node) == Meaning(c, t) && Lex(o.rest) == rest
    decreases t
  {
    hide Significant, ReadMembers, ReadArray, ReadValue, ScalarOf, Suffix, Lex, ReadToken, Comments;
    ValueUnfold(c, n, r, node);
    var token := Significant(c, r);
    match t
    case Leaf(before, l) =>
      NotEnd(c, TokenOf(l));
      SignificantSkipped(c, r, before, l, rest);
      SameLiterals(c, token, TokenOf(l));
      GoodKinds(c, token);
      PlainScalar(c, token);
    case Dropped(before) =>
      assert before + rest == before + [rest[0]] + rest[1..];
      SignificantSkipped(c, r, before, rest[0], rest[1..]);
      RereadSignificant(c, r);
      LexUnfolds(token.text + token.rest, token);
      assert [rest[0]] + rest[1..] == rest;
    case ArrayOf(before, open, items) =>
      Concatenate([], before, open, ItemsYield(items), rest);
      SignificantSkipped(c, r, before, open, ItemsYield(items) + rest);
      ArrayReads(c, n, token.rest, Value(Arr(Nil), StartOf(n, token), 0), items, rest);
    case ObjectOf(before, open, members) =>
      Concatenate([], before, open, MembersYield(members), rest);
      SignificantSkipped(c, r, before, open, MembersYield(members) + rest);
      MembersRead(c, n, token.rest, Value(Obj(Nil), StartOf(n, token), 0), "", members, rest);
  }

  lemma {:induction false} ArrayReads(c: Config, n: int, r: string, node: Value, items: Items, rest: seq<Lexeme>)
    requires node.data == Arr(Nil) && ValidItems(c, items) && Lex(r) == ItemsYield(items) + rest
    ensures var o := ReadArray(c, n, r, node);
            o.ok && o.node.data.Arr? && StripOf(o.node.data.entries) == ItemsMeaning(c, items, Nil, 0) &&
            Lex(o.rest) == rest
    decreases items, 1
  {
    hide ReadArray, ReadElements, SkipSpaces, Suffix, Lex, Yield, ValidTree;
    ArrayUnfold(c, n, r, node);
    PeekFactors(r);
    if !items.NoItems? {
      var more := match items
        case LastItem(_, after, close) => after + [close] + rest
        case MoreItems(_, after, comma, others) => after + [comma] + (ItemsYield(others) + rest);
      FirstOfTree(c, items.item, more);
      assert Lex(r) == Yield(items.item) + more;
      ItemsRead(c, n, SkipSpaces(r), node, 0, items, rest);
    }
  }

  lemma {:induction false} ItemsRead(c: Config, n: int, r: string, node: Value, index: nat, items: Items,
                                     rest: seq<Lexeme>)
    requires node.data.Arr? && ValidItems(c, items) && !items.NoItems? && Lex(r) == ItemsYield(items) + rest
    ensures var o := ReadElements(c, n, r, node, index);
            o.ok && o.node.data.Arr? && Lex(o.rest) == rest &&
            StripOf(o.node.data.entries) == ItemsMeaning(c, items, StripOf(node.data.entries), index)
    decreases items, 0
  {
    hide ReadElements, ReadElement, ReadValue, ElementEnd, Suffix, Get, Put, Lex, SkipComments, ReadToken, Strip,
         StripOf, Comments, Yield, ValidTree, Meaning;
    var es := node.data.entries;
    ElementsUnfold(c, n, r, node, index);
    ElementUnfold(c, n, r, node, index);
    var last := if items.LastItem? then items.close else items.comma;
    var more := if items.LastItem? then [] else ItemsYield(items.others);
    Concatenate(Yield(items.item), items.after, last, more, rest);
    assert [] + rest == rest && (items.after + [last] + (more + rest))[0] == (items.after + [last])[0];
    ValueReads(c, n, r, At(es, index), items.item, items.after + [last] + (more + rest));
    var v := ReadValue(c, n, r, At(es, index));
    var node' := node.(data := Arr(Put(es, Idx(index), v.node)));
    ElementEndCases(c, n, r, v, node');
    StripPut(es, Idx(index), v.node);
    CommentsSkipped(c, v.rest, items.after, last, more + rest);
    if items.MoreItems? {
      ItemsRead(c, n, SkipComments(v.rest).rest, node', index + 1, items.others, rest);
    }
  }

  lemma {:induction false} MembersRead(c: Config, n: int, r: string, node: Value, name: string, ms: Members,
                                       rest: seq<Lexeme>)
    requires node.data.Obj? && ValidMembers(c, ms, name) && Lex(r) == MembersYield(ms) + rest
    ensures var o := ReadMembers(c, n, r, node, name);
            o.ok && o.node.data.Obj? && Lex(o.rest) == rest &&
            StripOf(o.node.data.entries) == MembersMeaning(c, ms, name, StripOf(node.data.entries))
    decreases ms, 1
  {
    hide ReadMembers, ReadMember, Suffix, SkipComments, NameOf, Fail, Lex, ReadToken, Strip, StripOf, Comments,
         WithMember, ValidTree, Yield;
    MembersUnfold(c, n, r, node, name);
    var t := SkipComments(r);
    match ms
    case NoMembers(after, close) =>
      CommentsSkipped(c, r, after, close, rest);
    case LastMember(m, after, close) =>
      NotEnd(c, TokenOf(m.name));
      Spread(m.before, m.name, m.colon, Yield(m.value), after, close, [], rest);
      var behind := [m.colon] + (Yield(m.value) + (after + [close] + rest));
      CommentsSkipped(c, r, m.before, m.name, behind);
      SameLiterals(c, t, TokenOf(m.name));
      MemberReads(c, n, t.rest, node, ms, rest);
    case MoreMembers(m, after, comma, others) =>
      NotEnd(c, TokenOf(m.name));
      Spread(m.before, m.name, m.colon, Yield(m.value), after, comma, MembersYield(others), rest);
      var behind := [m.colon] + (Yield(m.value) + (after + [comma] + (MembersYield(others) + rest)));
      CommentsSkipped(c, r, m.before, m.name, behind);
      SameLiterals(c, t, TokenOf(m.name));
      MemberReads(c, n, t.rest, node, ms, MembersYield(others) + rest);
      var s := ReadMember(c, n, t.rest, node, NameIn(c, m.name).name);
      MembersRead(c, n, s.rest, s.node, NameIn(c, m.name).name, others, rest);
  }

  lemma Spread(before: seq<Lexeme>, name: Lexeme, colon: Lexeme, value: seq<Lexeme>, after: seq<Lexeme>,
               comma: Lexeme, others: seq<Lexeme>, rest: seq<Lexeme>)
    ensures before + [name, colon] + value + after + [comma] + others + rest ==
            before + [name] + ([colon] + (value + (after + [comma] + (others + rest))))
    ensures before + [name, colon] + value + after + [comma] + rest ==
            before + [name] + ([colon] + (value + (after + [comma] + rest)))
  {
  }

  /** The first member of `ms`, from behind its name. */
  lemma {:induction false} MemberReads(c: Config, n: int, r: string, node: Value, ms: Members, rest: seq<Lexeme>)
    requires node.data.Obj? && !ms.NoMembers? && ValidMember(c, ms.member) && Comments(ms.after)
    requires (ms.LastMember? ==> ms.close.kind.ObjectEnd? && !ms.member.value.Dropped?) &&
             (ms.MoreMembers? ==> Separates(ms.after, ms.comma) && (ms.member.value.Dropped? ==> ms.after == []))
    requires var m, last := ms.member, if ms.LastMember? then ms.close else ms.comma;
             Lex(r) == [m.colon] + (Yield(m.value) + (ms.after + [last] + rest))
    ensures var s := ReadMember(c, n, r, node, NameIn(c, ms.member.name).name);
            var node' := if s.Last? then s.o.node else s.node;
            (s.Last? <==> ms.LastMember?) && (s.Last? ==> s.o.ok) &&
            Lex(if s.Last? then s.o.rest else s.rest) == rest &&
            node'.data.Obj? && StripOf(node'.data.entries) == WithMember(c, ms.member, StripOf(node.data.entries))
    decreases ms, 0
  {
    hide ReadMember, ReadToken, ReadValue, MemberEnd, Suffix, Get, Put, CStr, Fail, Lex, SkipComments, NameOf, Strip,
         StripOf, Comments, Yield, ValidTree, Meaning;
    var m, last := ms.member, if ms.LastMember? then ms.close else ms.comma;
    var name := NameIn(c, m.name).name;
    var behind := ms.after + [last] + rest;
    var es, colon := node.data.entries, ReadToken(r);
    ReadsToken(c, r, m.colon, Yield(m.value) + behind);
    var key := Name(CStr(name));
    MemberUnfold(c, n, r, node, name);
    assert behind[0] == (ms.after + [last])[0];
    ValueReads(c, n, colon.rest, Get(es, key), m.value, behind);
    var v := ReadValue(c, n, colon.rest, Get(es, key));
    MemberEndCases(c, n, r, v, node.(data := Obj(Put(es, key, v.node))));
    StripPut(es, key, v.node);
    CommentsSkipped(c, v.rest, ms.after, last, rest);
  }

  // ----- a token stream has one derivation at most -----

  lemma {:induction false} CommentsAgree(cs: seq<Lexeme>, l: Lexeme, ls: seq<Lexeme>, cs': seq<Lexeme>, l': Lexeme,
                                         ls': seq<Lexeme>)
    requires cs + [l] + ls == cs' + [l'] + ls' && Comments(cs) && Comments(cs') && !l.kind.Comment? && !l'.kind.Comment?
    ensures cs == cs' && l == l' && ls == ls'
  {
    var all := cs + [l] + ls;
    assert all[0] == (cs + [l])[0] && all[0] == (cs' + [l'])[0];
    if cs != [] && cs' != [] {
      assert cs[1..] + [l] + ls == all[1..] == cs'[1..] + [l'] + ls';
      CommentsAgree(cs[1..], l, ls, cs'[1..], l', ls');
    } else if cs == [] && cs' == [] {
      assert ls == all[1..] == ls';
    }
  }

  predicate LeafKind(k: Kind) {
    k.StringLiteral? || k.NumberLiteral? || k.TrueWord? || k.FalseWord? || k.NullWord?
  }

  /** A derivation as far as the kinds of its tokens go. */
  predicate ShapedTree(t: Tree) {
    Comments(t.before) &&
    match t
    case Leaf(_, token) => LeafKind(token.kind)
    case Dropped(_) => true
    case ArrayOf(_, open, items) => open.kind.ArrayBegin? && ShapedItems(items)
    case ObjectOf(_, open, members) => open.kind.ObjectBegin? && ShapedMembers(members)
  }

  predicate ShapedItems(items: Items) {
    match items
    case NoItems(close) => close.kind.ArrayEnd?
    case LastItem(item, after, close) =>
      ShapedTree(item) && !item.Dropped? && Comments(after) && close.kind.ArrayEnd?
    case MoreItems(item, after, comma, others) =>
      ShapedTree(item) && (item.Dropped? ==> after == []) && Comments(after) && comma.kind.ArraySeparator? &&
      !others.NoItems? && ShapedItems(others)
  }

  predicate ShapedMembers(members: Members) {
    match members
    case NoMembers(after, close) => Comments(after) && close.kind.ObjectEnd?
    case LastMember(m, after, close) =>
      ShapedMember(m) && !m.value.Dropped? && Comments(after) && close.kind.ObjectEnd?
    case MoreMembers(m, after, comma, others) =>
      ShapedMember(m) && (m.value.Dropped? ==> after == []) && Comments(after) && Separates(after, comma) &&
      ShapedMembers(others)
  }

  predicate ShapedMember(m: Member) {
    Comments(m.before) && (m.name.kind.StringLiteral? || m.name.kind.NumberLiteral?) && m.colon.kind.MemberSeparator? &&
    ShapedTree(m.value)
  }

  lemma {:induction false} ValidShaped(c: Config, t: Tree)
    requires ValidTree(c, t)
    ensures ShapedTree(t)
    decreases t
  {
    match t
    case Leaf(_, token) => GoodLeaf(c, token);
    case Dropped(_) =>
    case ArrayOf(_, _, items) => ValidItemsShaped(c, items);
    case ObjectOf(_, _, members) => ValidMembersShaped(c, members, "");
  }

  lemma GoodLeaf(c: Config, l: Lexeme)
    ensures ScalarOf(c, TokenOf(l)).Good? ==> LeafKind(l.kind)
    ensures NameIn(c, l).Named? ==> l.kind.StringLiteral? || l.kind.NumberLiteral?
  {
    hide DecodeString, NumberData, NumberText, CStr;
  }

  lemma {:induction false} ValidItemsShaped(c: Config, items: Items)
    requires ValidItems(c, items)
    ensures ShapedItems(items)
    decreases items
  {
    hide ValidTree, ShapedTree, Comments;
    if !items.NoItems? {
      ValidShaped(c, items.item);
      if items.MoreItems? {
        ValidItemsShaped(c, items.others);
      }
    }
  }

  lemma {:induction false} ValidMembersShaped(c: Config, ms: Members, last: string)
    requires ValidMembers(c, ms, last)
    ensures ShapedMembers(ms)
    decreases ms
  {
    hide ValidTree, ShapedTree, Comments, NameIn;
    if !ms.NoMembers? {
      ValidShaped(c, ms.member.value);
      GoodLeaf(c, ms.member.name);
      if ms.MoreMembers? {
        ValidMembersShaped(c, ms.others, NameIn(c, ms.member.name).name);
      }
    }
  }

  /** A value left out has its comma behind it. */
  predicate Follows(t: Tree, rest: seq<Lexeme>) {
    t.Dropped? ==> rest != [] && rest[0].kind.ArraySeparator?
  }

  lemma FirstShaped(t: Tree, rest: seq<Lexeme>)
    requires ShapedTree(t) && Follows(t, rest)
    ensures var ls := Yield(t) + rest; ls != [] && !ls[0].kind.ArrayEnd?
  {
    hide ItemsYield, MembersYield, ShapedItems, ShapedMembers;
  }

  function Head(t: Tree, a: seq<Lexeme>): Lexeme
    requires t.Dropped? ==> a != []
  {
    match t
    case Leaf(_, token) => token
    case Dropped(_) => a[0]
    case ArrayOf(_, open, _) => open
    case ObjectOf(_, open, _) => open
  }

  function Tail(t: Tree, a: seq<Lexeme>): seq<Lexeme>
    requires t.Dropped? ==> a != []
  {
    match t
    case Leaf(_, _) => a
    case Dropped(_) => a[1..]
    case ArrayOf(_, _, items) => ItemsYield(items) + a
    case ObjectOf(_, _, members) => MembersYield(members) + a
  }

  lemma HeadFirst(t: Tree, a: seq<Lexeme>)
    requires ShapedTree(t) && Follows(t, a)
    ensures Yield(t) + a == t.before + [Head(t, a)] + Tail(t, a)
    ensures var h := Head(t, a);
            !h.kind.Comment? &&
            (t.Leaf? <==> !h.kind.ArraySeparator? && !h.kind.ArrayBegin? && !h.kind.ObjectBegin?) &&
            (t.Dropped? <==> h.kind.ArraySeparator?) && (t.ArrayOf? <==> h.kind.ArrayBegin?)
  {
    hide ItemsYield, MembersYield, ShapedItems, ShapedMembers;
    if t.Dropped? {
      assert a == [a[0]] + a[1..];
    }
  }

  /** No two derivations derive the same tokens. */
  lemma {:induction false} SameTree(t: Tree, a: seq<Lexeme>, u: Tree, b: seq<Lexeme>)
    requires ShapedTree(t) && Follows(t, a)
    requires ShapedTree(u) && Follows(u, b)
    requires Yield(t) + a == Yield(u) + b
    ensures t == u && a == b
    decreases t
  {
    HeadFirst(t, a);
    HeadFirst(u, b);
    hide ItemsYield, MembersYield, Yield, Comments;
    CommentsAgree(t.before, Head(t, a), Tail(t, a), u.before, Head(u, b), Tail(u, b));
    match t
    case Leaf(_, _) =>
    case Dropped(_) => assert a == [a[0]] + a[1..] && b == [b[0]] + b[1..];
    case ArrayOf(_, _, items) => SameItems(items, a, u.items, b);
    case ObjectOf(_, _, members) => SameMembers(members, a, u.members, b);
  }

  /** What follows the first item. */
  function BehindItem(items: Items, a: seq<Lexeme>): seq<Lexeme>
    requires !items.NoItems?
  {
    if items.LastItem? then items.after + [items.close] + a
    else items.after + [items.comma] + (ItemsYield(items.others) + a)
  }

  lemma ItemFirst(items: Items, a: seq<Lexeme>)
    requires ShapedItems(items) && !items.NoItems?
    ensures ItemsYield(items) + a == Yield(items.item) + BehindItem(items, a)
    ensures var rest := BehindItem(items, a);
            ShapedTree(items.item) && Follows(items.item, rest)
    ensures ItemsYield(items) + a != [] && !(ItemsYield(items) + a)[0].kind.ArrayEnd?
  {
    FirstShaped(items.item, BehindItem(items, a));
    hide Yield, ShapedTree;
    var last := if items.LastItem? then items.close else items.comma;
    Concatenate(Yield(items.item), items.after, last, if items.LastItem? then [] else ItemsYield(items.others), a);
  }

  lemma {:induction false} SameItems(items: Items, a: seq<Lexeme>, items': Items, b: seq<Lexeme>)
    requires ShapedItems(items) && ShapedItems(items') && ItemsYield(items) + a == ItemsYield(items') + b
    ensures items == items' && a == b
    decreases items
  {
    if items.NoItems? || items'.NoItems? {
      if !items.NoItems? {
        ItemFirst(items, a);
      } else if !items'.NoItems? {
        ItemFirst(items', b);
      }
      hide ShapedItems;
      assert (ItemsYield(items) + a)[1..] == (ItemsYield(items') + b)[1..];
    } else {
      ItemFirst(items, a);
      ItemFirst(items', b);
      SameTree(items.item, BehindItem(items, a), items'.item, BehindItem(items', b));
      hide Yield, ShapedTree, ItemsYield, Comments;
      var last := if items.LastItem? then items.close else items.comma;
      var last' := if items'.LastItem? then items'.close else items'.comma;
      CommentsAgree(items.after, last, if items.LastItem? then a else ItemsYield(items.others) + a,
                    items'.after, last', if items'.LastItem? then b else ItemsYield(items'.others) + b);
      if items.MoreItems? {
        SameItems(items.others, a, items'.others, b);
      }
    }
  }

  /** What follows the value of the first member. */
  function BehindMember(ms: Members, a: seq<Lexeme>): seq<Lexeme>
    requires !ms.NoMembers?
  {
    if ms.LastMember? then ms.after + [ms.close] + a else ms.after + [ms.comma] + (MembersYield(ms.others) + a)
  }

  lemma MemberFirst(ms: Members, a: seq<Lexeme>)
    requires ShapedMembers(ms) && !ms.NoMembers?
    ensures var m, rest := ms.member, BehindMember(ms, a);
            MembersYield(ms) + a == m.before + [m.name] + ([m.colon] + (Yield(m.value) + rest)) &&
            Comments(m.before) && !m.name.kind.Comment? && !m.name.kind.ObjectEnd? &&
            ShapedTree(m.value) && Follows(m.value, rest)
  {
    hide Yield, ShapedTree, Comments;
    var m := ms.member;
    Spread(m.before, m.name, m.colon, Yield(m.value), ms.after, if ms.LastMember? then ms.close else ms.comma,
           if ms.LastMember? then [] else MembersYield(ms.others), a);
  }

  lemma {:induction false} SameMembers(ms: Members, a: seq<Lexeme>, ms': Members, b: seq<Lexeme>)
    requires ShapedMembers(ms) && ShapedMembers(ms') && MembersYield(ms) + a == MembersYield(ms') + b
    ensures ms == ms' && a == b
    decreases ms
  {
    if !ms.NoMembers? {
      MemberFirst(ms, a);
    }
    if !ms'.NoMembers? {
      MemberFirst(ms', b);
    }
    hide Yield, ShapedTree, Comments;
    if ms.NoMembers? || ms'.NoMembers? {
      var (cs, l, ls) := if ms.NoMembers? then (ms.after, ms.close, a)
                         else (ms.member.before, ms.member.name,
                               [ms.member.colon] + (Yield(ms.member.value) + BehindMember(ms, a)));
      var (cs', l', ls') := if ms'.NoMembers? then (ms'.after, ms'.close, b)
                            else (ms'.member.before, ms'.member.name,
                                  [ms'.member.colon] + (Yield(ms'.member.value) + BehindMember(ms', b)));
      CommentsAgree(cs, l, ls, cs', l', ls');
    } else {
      SameFirstMember(ms, a, ms', b);
      if ms.MoreMembers? {
        SameMembers(ms.others, a, ms'.others, b);
      }
    }
  }

  lemma {:induction false} SameFirstMember(ms: Members, a: seq<Lexeme>, ms': Members, b: seq<Lexeme>)
    requires ShapedMembers(ms) && ShapedMembers(ms') && MembersYield(ms) + a == MembersYield(ms') + b
    requires !ms.NoMembers? && !ms'.NoMembers?
    ensures ms.member == ms'.member && ms.after == ms'.after && (ms.LastMember? <==> ms'.LastMember?)
    ensures ms.LastMember? ==> ms.close == ms'.close && a == b
    ensures ms.MoreMembers? ==> ms.comma == ms'.comma && MembersYield(ms.others) + a == MembersYield(ms'.others) + b
    decreases ms, 0
  {
    MemberFirst(ms, a);
    MemberFirst(ms', b);
    hide Yield, ShapedTree, Comments, MembersYield;
    var m, m' := ms.member, ms'.member;
    CommentsAgree(m.before, m.name, [m.colon] + (Yield(m.value) + BehindMember(ms, a)),
                  m'.before, m'.name, [m'.colon] + (Yield(m'.value) + BehindMember(ms', b)));
    SameRest(m.colon, Yield(m.value) + BehindMember(ms, a), m'.colon, Yield(m'.value) + BehindMember(ms', b));
    SameTree(m.value, BehindMember(ms, a), m'.value, BehindMember(ms', b));
    var l, l' := if ms.LastMember? then ms.close else ms.comma, if ms'.LastMember? then ms'.close else ms'.comma;
    CommentsAgree(ms.after, l, if ms.LastMember? then a else MembersYield(ms.others) + a,
                  ms'.after, l', if ms'.LastMember? then b else MembersYield(ms'.others) + b);
  }

  lemma SameRest(l: Lexeme, ls: seq<Lexeme>, l': Lexeme, ls': seq<Lexeme>)
    requires [l] + ls == [l'] + ls'
    ensures l == l' && ls == ls'
  {
    assert ([l] + ls)[0] == l && ([l'] + ls')[0] == l' && ([l] + ls)[1..] == ls && ([l'] + ls')[1..] == ls';
  }

  // ----- the results -----

  lemma OneDerivation(c: Config, ls: seq<Lexeme>, t: Tree, rest: seq<Lexeme>, u: Tree, rest': seq<Lexeme>)
    requires Derivation(c, ls, t, rest) && Derivation(c, ls, u, rest')
    ensures t == u && rest == rest'
  {
    ValidShaped(c, t);
    ValidShaped(c, u);
    hide ValidTree, ShapedTree, Yield;
    SameTree(t, rest, u, rest');
  }

  /** A value is read if and only if the tokens begin with one that the grammar derives. */
  lemma AcceptedIff(c: Config, n: int, r: string, node: Value)
    ensures ReadValue(c, n, r, node).ok <==> exists t, rest :: Derivation(c, Lex(r), t, rest)
  {
    hide Derivation, ReadValue, Lex, Meaning;
    if ReadValue(c, n, r, node).ok {
      var t := ValueDerived(c, n, r, node);
    }
    if exists t, rest :: Derivation(c, Lex(r), t, rest) {
      var t, rest :| Derivation(c, Lex(r), t, rest);
      ValueReads(c, n, r, node, t, rest);
    }
  }

  /** A document is accepted if and only if the grammar derives a beginning of it, which is what it is read as. */
  lemma DocumentAcceptedIff(c: Config, doc: string, root: Value)
    requires !c.strictRoot
    ensures Parse(c, doc, root).ok <==> exists t, rest :: Derivation(c, Lex(doc), t, rest)
    ensures forall t, rest :: Derivation(c, Lex(doc), t, rest) ==> Strip(Parse(c, doc, root).node) == Meaning(c, t)
  {
    AcceptedIff(c, |doc|, doc, root);
    hide Derivation, ReadValue, Lex, Meaning, Significant, Strip;
    forall t, rest | Derivation(c, Lex(doc), t, rest)
      ensures ValidTree(c, t) && Strip(Parse(c, doc, root).node) == Meaning(c, t)
    {
      ValueReads(c, |doc|, doc, root, t, rest);
      DerivationValid(c, Lex(doc), t, rest);
    }
  }

  lemma DerivationValid(c: Config, ls: seq<Lexeme>, t: Tree, rest: seq<Lexeme>)
    requires Derivation(c, ls, t, rest)
    ensures ValidTree(c, t)
  {
  }

  /** An object at the front of a document. */
  lemma ObjectAccepted(c: Config, doc: string, root: Value, open: Lexeme, members: Members)
    requires open.kind.ObjectBegin? && ValidMembers(c, members, "") && Lex(doc) == [open] + MembersYield(members)
    ensures Parse(c, doc, root).ok && Strip(Parse(c, doc, root).node) == Plain(Obj(MembersMeaning(c, members, "", Nil)))
  {
    var t := ObjectOf([], open, members);
    hide ReadValue, Significant, Lex, ValidMembers, MembersYield, MembersMeaning;
    assert [] + [open] + MembersYield(members) + [] == [open] + MembersYield(members);
    ValueReads(c, |doc|, doc, root, t, []);
    StripKind(ReadValue(c, |doc|, doc, root).node);
  }
}

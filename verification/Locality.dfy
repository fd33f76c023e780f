/** The offsets of a parsed tree: nested, disjoint, and each the text of its value. */
module Locality {
  import opened Text
  import opened Tokens
  import opened Values
  import opened Parser
  import opened RoundTrip
  import opened Factoring
  import opened Characters

  // ----- a successful reading does not look behind its end -----

  lemma TailIs(a: string, b: string, rest: string)
    requires Suffix(rest, a + b) && |rest| >= |b|
    ensures rest == Shorter(rest, |b|) + b
  {
    var k := |a + b| - |rest|;
    assert (a + b)[k..][|rest| - |b|..] == (a + b)[|a|..] == b;
  }

  lemma SuffixLength(a: string, b: string)
    requires Suffix(a, b)
    ensures |a| <= |b|
  {
  }

  lemma {:induction false} CommentsRestrict(a: string, b: string)
    requires |SkipComments(a + b).rest| >= |b|
    ensures SkipComments(a) == SkipComments(a + b).(rest := Shorter(SkipComments(a + b).rest, |b|))
    decreases |a|
  {
    hide ReadToken, Suffix;
    var t := ReadToken(a + b);
    SuffixLength(SkipComments(t.rest).rest, t.rest);
    TokenRestricts(a, b);
    if t.kind.Comment? {
      TailIs(a, b, t.rest);
      CommentsRestrict(Shorter(t.rest, |b|), b);
    }
  }

  lemma SignificantRestricts(c: Config, a: string, b: string)
    requires |Significant(c, a + b).rest| >= |b|
    ensures Significant(c, a) == Significant(c, a + b).(rest := Shorter(Significant(c, a + b).rest, |b|))
  {
    hide ReadToken, SkipComments, Suffix;
    if c.allowComments {
      CommentsRestrict(a, b);
    } else {
      TokenRestricts(a, b);
    }
  }

  /** `o'` is `o`, read from a text that is shorter by `k` characters. */
  ghost predicate Shortened(o: Outcome, o': Outcome, k: nat) {
    o.ok && o'.ok && |o.rest| >= k && o'.rest == Shorter(o.rest, k) && Strip(o'.node) == Strip(o.node)
  }

  lemma GoodLiteral(c: Config, n: int, t: Token, node: Value)
    requires LiteralOutcome(c, n, t, node).ok
    ensures ScalarOf(c, t).Good? && LiteralOutcome(c, n, t, node).rest == t.rest
    ensures LiteralOutcome(c, n, t, node).node == Value(ScalarOf(c, t).data, StartOf(n, t), EndOf(n, t))
  {
    hide ScalarOf;
  }

  lemma {:induction false} ValueRestricts(c: Config, n: int, n': int, a: string, b: string, node: Value, node': Value)
    requires !c.allowDroppedNulls && ReadValue(c, n, a + b, node).ok && |ReadValue(c, n, a + b, node).rest| >= |b|
    ensures Shortened(ReadValue(c, n, a + b, node), ReadValue(c, n', a, node'), |b|)
    decreases |a|, 1
  {
    hide ReadValue, ReadMembers, ReadArray, Significant, Suffix, Strip, LiteralOutcome, Shorter;
    var t := Significant(c, a + b);
    ValueUnfold(c, n, a + b, node);
    ValueUnfold(c, n', a, node');
    if t.kind.ObjectBegin? {
      var start := Value(Obj(Nil), StartOf(n, t), 0);
      SuffixLength(ReadMembers(c, n, t.rest, start, "").rest, t.rest);
      SignificantRestricts(c, a, b);
      var t' := Significant(c, a);
      var start' := Value(Obj(Nil), StartOf(n', t'), 0);
      Fresh(start, start');
      TailIs(a, b, t.rest);
      ShorterLength(t.rest, a, b);
      MembersRestrict(c, n, n', t'.rest, b, start, start', "");
      StripOffsets(ReadMembers(c, n, t.rest, start, "").node, StartOf(n, t),
                   n - |ReadMembers(c, n, t.rest, start, "").rest|);
      LimitsShorten(ReadMembers(c, n, t.rest, start, ""), ReadMembers(c, n', t'.rest, start', ""), |b|, n, n');
    } else if t.kind.ArrayBegin? {
      var start := Value(Arr(Nil), StartOf(n, t), 0);
      SuffixLength(ReadArray(c, n, t.rest, start).rest, t.rest);
      SignificantRestricts(c, a, b);
      var t' := Significant(c, a);
      var start' := Value(Arr(Nil), StartOf(n', t'), 0);
      Fresh(start, start');
      TailIs(a, b, t.rest);
      ShorterLength(t.rest, a, b);
      ArrayRestricts(c, n, n', t'.rest, b, start, start');
      LimitsShorten(ReadArray(c, n, t.rest, start), ReadArray(c, n', t'.rest, start'), |b|, n, n');
    } else {
      GoodLiteral(c, n, t, node);
      SignificantRestricts(c, a, b);
      var t' := Significant(c, a);
      SameLiterals(c, t, t');
      LiteralShortens(c, n, n', t, t', node, node', |b|);
    }
  }

  lemma ShorterLength(rest: string, a: string, b: string)
    requires Suffix(rest, a + b) && |rest| >= |b|
    ensures |Shorter(rest, |b|)| <= |a|
    ensures |rest| < |a + b| ==> |Shorter(rest, |b|)| < |a|
  {
  }

  lemma LimitsShorten(o: Outcome, o': Outcome, k: nat, n: int, n': int)
    requires Shortened(o, o', k)
    ensures Shortened(o.(node := o.node.(limit := n - |o.rest|)), o'.(node := o'.node.(limit := n' - |o'.rest|)), k)
  {
    StripOffsets(o.node, o.node.start, n - |o.rest|);
    StripOffsets(o'.node, o'.node.start, n' - |o'.rest|);
    hide Strip, Shorter;
  }

  lemma LiteralShortens(c: Config, n: int, n': int, t: Token, t': Token, node: Value, node': Value, k: nat)
    requires ScalarOf(c, t).Good? && ScalarOf(c, t') == ScalarOf(c, t) && |t.rest| >= k && t'.rest == Shorter(t.rest, k)
    ensures Shortened(LiteralOutcome(c, n, t, node), LiteralOutcome(c, n', t', node'), k)
  {
    PlainScalar(c, t);
    StripScalar(Value(ScalarOf(c, t).data, StartOf(n, t), EndOf(n, t)), ScalarOf(c, t).data);
    StripScalar(Value(ScalarOf(c, t).data, StartOf(n', t'), EndOf(n', t')), ScalarOf(c, t).data);
    hide ScalarOf, Strip, Shorter;
  }

  /** The elements that are read are not all blank. */
  lemma {:induction false} ElementsConsume(c: Config, n: int, r: string, node: Value, index: nat)
    requires node.data.Arr? && ReadElements(c, n, r, node, index).ok
    ensures |ReadElements(c, n, r, node, index).rest| < |r|
    decreases |r|
  {
    hide ReadElements, ReadElement, Suffix;
    ElementsUnfold(c, n, r, node, index);
    var s := ReadElement(c, n, r, node, index);
    if s.More? {
      ElementsConsume(c, n, s.rest, s.node, index + 1);
    } else {
      LastConsumes(c, n, r, node, index);
    }
  }

  lemma LastConsumes(c: Config, n: int, r: string, node: Value, index: nat)
    requires node.data.Arr? && ReadElement(c, n, r, node, index).Last? && ReadElement(c, n, r, node, index).o.ok
    ensures |ReadElement(c, n, r, node, index).o.rest| < |r|
  {
    hide ReadElement, ReadValue, SkipComments, Suffix, Get, Put;
    ElementUnfold(c, n, r, node, index);
    SuffixLength(ReadValue(c, n, r, At(node.data.entries, index)).rest, r);
  }

  lemma {:induction false} ArrayRestricts(c: Config, n: int, n': int, a: string, b: string, node: Value, node': Value)
    requires !c.allowDroppedNulls && node.data.Arr? && node'.data.Arr? && Strip(node) == Strip(node')
    requires ReadArray(c, n, a + b, node).ok && |ReadArray(c, n, a + b, node).rest| >= |b|
    ensures Shortened(ReadArray(c, n, a + b, node), ReadArray(c, n', a, node'), |b|)
    decreases |a|, 4
  {
    hide ReadArray, ReadElements, Suffix, Strip, SkipSpaces;
    ArrayUnfold(c, n, a + b, node);
    ArrayUnfold(c, n', a, node');
    var s := SkipSpaces(a + b);
    if s != "" && s[0] == ']' {
      SpacesRestrict(a, b);
      assert SkipSpaces(a)[1..] == Shorter(s[1..], |b|);
    } else {
      ElementsConsume(c, n, s, node, 0);
      SpacesRestrict(a, b);
      SpacesExtend(a, b);
      SuffixLength(SkipSpaces(a), a);
      hide Shorter;
      ElementsRestrict(c, n, n', SkipSpaces(a), b, node, node', 0);
    }
  }

  lemma {:induction false} ElementsRestrict(c: Config, n: int, n': int, a: string, b: string, node: Value,
                                            node': Value, index: nat)
    requires !c.allowDroppedNulls && node.data.Arr? && node'.data.Arr? && Strip(node) == Strip(node')
    requires ReadElements(c, n, a + b, node, index).ok && |ReadElements(c, n, a + b, node, index).rest| >= |b|
    ensures Shortened(ReadElements(c, n, a + b, node, index), ReadElements(c, n', a, node', index), |b|)
    decreases |a|, 3
  {
    hide ReadElements, ReadElement, ReadValue, Suffix, Strip, Shorter, Get, Put, SkipComments;
    ElementsUnfold(c, n, a + b, node, index);
    ElementsUnfold(c, n', a, node', index);
    ElementUnfold(c, n, a + b, node, index);
    ElementUnfold(c, n', a, node', index);
    var v := ReadValue(c, n, a + b, At(node.data.entries, index));
    var t := SkipComments(v.rest);
    var s := ReadElement(c, n, a + b, node, index);
    SuffixTrans(t.rest, v.rest, a + b);
    if s.More? {
      SuffixLength(ReadElements(c, n, s.rest, s.node, index + 1).rest, s.rest);
    }
    ValueRestricts(c, n, n', a, b, At(node.data.entries, index), At(node'.data.entries, index));
    var v' := ReadValue(c, n', a, At(node'.data.entries, index));
    TailIs(a, b, v.rest);
    CommentsRestrict(Shorter(v.rest, |b|), b);
    SamePut(node, node', Idx(index), v.node, v'.node);
    if s.More? {
      TailIs(a, b, t.rest);
      ShorterLength(t.rest, a, b);
      var s' := ReadElement(c, n', a, node', index);
      ElementsRestrict(c, n, n', s'.rest, b, s.node, s'.node, index + 1);
    }
  }

  lemma {:induction false} MembersRestrict(c: Config, n: int, n': int, a: string, b: string, node: Value,
                                           node': Value, name: string)
    requires !c.allowDroppedNulls && node.data.Obj? && node'.data.Obj? && Strip(node) == Strip(node')
    requires ReadMembers(c, n, a + b, node, name).ok && |ReadMembers(c, n, a + b, node, name).rest| >= |b|
    ensures Shortened(ReadMembers(c, n, a + b, node, name), ReadMembers(c, n', a, node', name), |b|)
    decreases |a|, 0
  {
    hide ReadMembers, ReadMember, Suffix, Strip, Shorter, SkipComments, NameOf, Fail;
    MembersUnfold(c, n, a + b, node, name);
    MembersUnfold(c, n', a, node', name);
    var t := SkipComments(a + b);
    if t.kind.ObjectEnd? && name == "" {
      CommentsRestrict(a, b);
    } else {
      var name' := NameOf(c, t).name;
      var s := ReadMember(c, n, t.rest, node, name');
      if s.More? {
        SuffixLength(ReadMembers(c, n, s.rest, s.node, name').rest, s.rest);
        SuffixLength(s.rest, t.rest);
      } else {
        SuffixLength(s.o.rest, t.rest);
      }
      CommentsRestrict(a, b);
      var t' := SkipComments(a);
      SameLiterals(c, t, t');
      TailIs(a, b, t.rest);
      ShorterLength(t.rest, a, b);
      MemberRestricts(c, n, n', t'.rest, b, node, node', name');
      if s.More? {
        var s' := ReadMember(c, n', t'.rest, node', name');
        SuffixLength(s'.rest, t'.rest);
        MembersRestrict(c, n, n', s'.rest, b, s.node, s'.node, name');
      }
    }
  }

  ghost predicate ShortenedStep(s: Step, s': Step, b: string) {
    match (s, s')
    case (Last(o), Last(o')) => Shortened(o, o', |b|)
    case (More(node, rest), More(node', rest')) => Strip(node) == Strip(node') && rest == rest' + b
    case _ => false
  }

  lemma {:induction false} MemberRestricts(c: Config, n: int, n': int, a: string, b: string, node: Value,
                                           node': Value, name: string)
    requires !c.allowDroppedNulls && node.data.Obj? && node'.data.Obj? && Strip(node) == Strip(node')
    requires var s := ReadMember(c, n, a + b, node, name);
             (s.Last? ==> s.o.ok && |s.o.rest| >= |b|) && (s.More? ==> |s.rest| >= |b|)
    ensures ShortenedStep(ReadMember(c, n, a + b, node, name), ReadMember(c, n', a, node', name), b)
    ensures ReadMember(c, n', a, node', name).More? ==> |ReadMember(c, n', a, node', name).rest| <= |a|
    decreases |a|, 2
  {
    hide ReadMember, ReadToken, ReadValue, MemberEnd, Suffix, Strip, Shorter, Get, Put, CStr, Fail, ShortenedStep;
    var colon := ReadToken(a + b);
    if !colon.kind.MemberSeparator? {
      NoColon(c, n, a + b, node, name);
      assert false;
    } else {
      var key := Name(CStr(name));
      MemberUnfold(c, n, a + b, node, name);
      var v := ReadValue(c, n, colon.rest, Get(node.data.entries, key));
      var node1 := node.(data := Obj(Put(node.data.entries, key, v.node)));
      var s := ReadMember(c, n, a + b, node, name);
      EndFollows(c, n, a + b, v, node1);
      SuffixLength(v.rest, colon.rest);
      TokenRestricts(a, b);
      TailIs(a, b, colon.rest);
      ShorterLength(colon.rest, a, b);
      var colon' := ReadToken(a);
      MemberUnfold(c, n', a, node', name);
      ValueRestricts(c, n, n', colon'.rest, b, Get(node.data.entries, key), Get(node'.data.entries, key));
      var v' := ReadValue(c, n', colon'.rest, Get(node'.data.entries, key));
      SamePut(node, node', key, v.node, v'.node);
      EndRestricts(c, n, n', a, b, v, v', node1, node'.(data := Obj(Put(node'.data.entries, key, v'.node))));
      if ReadMember(c, n', a, node', name).More? {
        SuffixLength(ReadMember(c, n', a, node', name).rest, a);
      }
    }
  }

  /** What ends a member well lies behind its value. */
  lemma EndFollows(c: Config, n: int, r: string, v: Outcome, node: Value)
    requires Suffix(v.rest, r) && |v.errors| == (if v.ok then 0 else 1) && node.data.Obj?
    ensures var s := MemberEnd(c, n, r, v, node);
            (s.Last? && s.o.ok ==> v.ok && |s.o.rest| <= |v.rest|) && (s.More? ==> v.ok && |s.rest| <= |v.rest|)
  {
    hide ReadToken, SkipComments, Suffix, Recover;
    SuffixLength(SkipComments(v.rest).rest, v.rest);
  }

  lemma EndRestricts(c: Config, n: int, n': int, a: string, b: string, v: Outcome, v': Outcome, node: Value,
                     node': Value)
    requires Suffix(v.rest, a + b) && Suffix(v'.rest, a) && v.errors == v'.errors == [] && Shortened(v, v', |b|)
    requires node.data.Obj? && node'.data.Obj? && Strip(node) == Strip(node')
    requires var s := MemberEnd(c, n, a + b, v, node);
             (s.Last? ==> s.o.ok && |s.o.rest| >= |b|) && (s.More? ==> |s.rest| >= |b|)
    ensures ShortenedStep(MemberEnd(c, n, a + b, v, node), MemberEnd(c, n', a, v', node'), b)
  {
    hide ReadToken, SkipComments, Suffix, Recover, Strip, Shorter;
    TailIs(a, b, v.rest);
    var comma, last := ReadToken(v.rest), SkipComments(v.rest);
    if comma.kind in {ObjectEnd, ArraySeparator, Comment} {
      FirstIsLonger(v.rest);
      SuffixTrans(last.rest, v.rest, a + b);
      TailIs(a, b, last.rest);
      TokenRestricts(v'.rest, b);
      CommentsRestrict(v'.rest, b);
    }
  }

  lemma FirstIsLonger(r: string)
    ensures |ReadToken(r).rest| >= |SkipComments(r).rest|
  {
    hide ReadToken, Suffix;
    SuffixLength(SkipComments(ReadToken(r).rest).rest, ReadToken(r).rest);
  }

  // ----- the text of a node -----

  /** The text a value was read from. */
  function TextOf(doc: string, v: Value): string
    requires 0 <= v.start <= v.limit <= |doc|
  {
    doc[v.start..v.limit]
  }

  /**
   * Parsing the text of `v` alone succeeds, uses all of it and yields an equal value; and it begins
   * neither with a blank nor with a comment.
   */
  ghost predicate Reparses(c: Config, doc: string, v: Value)
    requires 0 <= v.start < v.limit <= |doc|
  {
    var o := ReadValue(c, |TextOf(doc, v)|, TextOf(doc, v), NULL_VALUE);
    o.ok && Strip(o.node) == Strip(v) && o.rest == "" && doc[v.start] !in " \t\n\r/"
  }

  /** `v` lies where its offsets say, and so do all values in it, inside it and clear of each other. */
  ghost predicate Located(c: Config, doc: string, v: Value) {
    0 <= v.start < v.limit <= |doc| && Reparses(c, doc, v) &&
    match v.data
    case Arr(es) => LocatedIn(c, doc, es, v.start, v.limit)
    case Obj(es) => LocatedIn(c, doc, es, v.start, v.limit)
    case _ => true
  }

  ghost predicate LocatedIn(c: Config, doc: string, es: Entries, low: int, high: int) {
    es.Cons? ==>
      low <= es.val.start && es.val.limit <= high && Located(c, doc, es.val) &&
      Apart(es.val, es.rest) && LocatedIn(c, doc, es.rest, low, high)
  }

  predicate Apart(v: Value, es: Entries) {
    es.Cons? ==> (v.limit <= es.val.start || es.val.limit <= v.start) && Apart(v, es.rest)
  }

  lemma {:induction false} BehindAll(c: Config, doc: string, es: Entries, low: int, high: int, v: Value)
    requires LocatedIn(c, doc, es, low, high) && high <= v.start
    ensures Apart(v, es)
  {
    hide Reparses;
    if es.Cons? {
      BehindAll(c, doc, es.rest, low, high, v);
    }
  }

  lemma {:induction false} ApartPut(u: Value, es: Entries, key: Key, v: Value)
    requires Apart(u, es) && u.limit <= v.start
    ensures Apart(u, Put(es, key, v))
  {
    if es.Cons? {
      ApartPut(u, es.rest, key, v);
    }
  }

  /** A value read behind all others may be put under any key. */
  lemma {:induction false} LocatedPut(c: Config, doc: string, es: Entries, low: int, mid: int, high: int, key: Key,
                                      v: Value)
    requires LocatedIn(c, doc, es, low, mid) && Located(c, doc, v) && low <= mid <= v.start && v.limit <= high
    ensures LocatedIn(c, doc, Put(es, key, v), low, high)
  {
    hide Reparses;
    BehindAll(c, doc, es, low, mid, v);
    Widen(c, doc, es, low, mid, high);
    if es.Cons? {
      BehindAll(c, doc, es.rest, low, mid, v);
      ApartPut(es.val, es.rest, key, v);
      LocatedPut(c, doc, es.rest, low, mid, high, key, v);
    }
  }

  lemma {:induction false} Widen(c: Config, doc: string, es: Entries, low: int, mid: int, high: int)
    requires LocatedIn(c, doc, es, low, mid) && mid <= high
    ensures LocatedIn(c, doc, es, low, high)
  {
    hide Located;
    if es.Cons? {
      Widen(c, doc, es.rest, low, mid, high);
    }
  }

  // ----- parsing a part of a document alone -----

  lemma SignificantAgain(c: Config, r: string)
    ensures var t := Significant(c, r); Significant(c, t.text + t.rest) == t
  {
    hide ReadToken, Suffix;
    RereadSignificant(c, r);
  }

  lemma SameValueAgain(c: Config, n: int, r: string, node: Value)
    requires !c.allowDroppedNulls && ReadValue(c, n, r, node).ok
    ensures var t := Significant(c, r); ReadValue(c, n, t.text + t.rest, node) == ReadValue(c, n, r, node)
  {
    hide Significant, ReadMembers, ReadArray, ReadValue, LiteralOutcome, Suffix;
    var t := Significant(c, r);
    SignificantAgain(c, r);
    ValueUnfold(c, n, r, node);
    ValueUnfold(c, n, t.text + t.rest, node);
  }

  /** Where a value that is read begins and ends. */
  lemma Extent(c: Config, doc: string, r: string, node: Value)
    requires !c.allowDroppedNulls && Suffix(r, doc) && ReadValue(c, |doc|, r, node).ok
    ensures var t, o := Significant(c, r), ReadValue(c, |doc|, r, node);
            var s := t.text + t.rest;
            t.text != "" && Suffix(s, doc) && |o.rest| < |s| <= |r| && o.node.limit == |doc| - |o.rest| &&
            Suffix(o.rest, s)
  {
    hide Significant, ReadMembers, ReadArray, ReadValue, LiteralOutcome;
    var t := Significant(c, r);
    ValueUnfold(c, |doc|, r, node);
    if !t.kind.ObjectBegin? && !t.kind.ArrayBegin? {
      GoodLiteral(c, |doc|, t, node);
      GoodKinds(c, t);
    }
    hide Suffix;
    SuffixTrans(t.text + t.rest, r, doc);
    TextSuffix(t.text, t.rest);
    SuffixTrans(ReadValue(c, |doc|, r, node).rest, t.rest, t.text + t.rest);
  }

  lemma TextSuffix(text: string, rest: string)
    ensures Suffix(rest, text + rest)
  {
  }

  lemma PartOf(doc: string, s: string, rest: string)
    requires Suffix(s, doc) && Suffix(rest, s)
    ensures doc[|doc| - |s|..|doc| - |rest|] + rest == s
  {
  }

  /** A token begins with no blank, and with a slash only if it is a comment or an error. */
  lemma TokenBegins(r: string)
    ensures var t := ReadToken(r);
            t.text != "" ==>
              t.text[0] !in " \t\n\r" && (!t.kind.Comment? && !t.kind.Erroneous? ==> t.text[0] != '/')
  {
    ReadTokenIs(r);
    var s := SkipSpaces(r);
    if s != "" {
      BlankIsSpace(s[0]);
      SlashKinds(s);
      assert s[0] == ReadToken(r).text[0];
    }
    hide CutToken, SkipSpaces, Suffix, Space;
  }

  lemma SlashKinds(s: string)
    requires s != ""
    ensures s[0] == '/' ==> CutToken(s).kind.Comment? || CutToken(s).kind.Erroneous?
  {
    hide ScanComment;
  }

  lemma {:induction false} NonCommentBegins(r: string)
    ensures var t := SkipComments(r);
            t.text != "" && !t.kind.Erroneous? ==> t.text[0] !in " \t\n\r/"
    decreases |r|
  {
    hide ReadToken, Suffix;
    TokenBegins(r);
    SkipStep(r);
    var t := ReadToken(r);
    if t.kind.Comment? && t.text != "" {
      NonCommentBegins(t.rest);
    } else if t.text != "" {
      NoBlankNoSlash(t.text[0]);
    }
  }

  lemma SkipStep(r: string)
    ensures var t := ReadToken(r);
            SkipComments(r) == if t.kind.Comment? && t.text != "" then SkipComments(t.rest) else t
  {
    hide ReadToken;
  }

  lemma NoBlankNoSlash(c: char)
    ensures c in " \t\n\r/" <==> c in " \t\n\r" || c == '/'
  {
    assert " \t\n\r/" == " \t\n\r" + ['/'];
  }

  lemma SignificantBegins(c: Config, r: string)
    ensures var t := Significant(c, r);
            t.text != "" && !t.kind.Erroneous? && !t.kind.Comment? ==> t.text[0] !in " \t\n\r/"
  {
    NonCommentBegins(r);
    TokenBegins(r);
    hide ReadToken, SkipComments;
    if ReadToken(r).text != "" {
      NoBlankNoSlash(ReadToken(r).text[0]);
    }
  }

  /** No value is read from an error or a comment. */
  lemma ReadKinds(c: Config, n: int, r: string, node: Value)
    requires ReadValue(c, n, r, node).ok
    ensures !Significant(c, r).kind.Erroneous? && !Significant(c, r).kind.Comment?
  {
    var t := Significant(c, r);
    if t.kind.Erroneous? || t.kind.Comment? {
      ReadsLiteral(c, n, r, node);
      NoScalar(c, t);
    }
    hide Significant, ReadValue, ScalarOf;
  }

  lemma NoScalar(c: Config, t: Token)
    requires t.kind.Erroneous? || t.kind.Comment?
    ensures ScalarOf(c, t).Wrong?
  {
  }

  lemma ReparsesAlone(c: Config, doc: string, r: string, node: Value)
    requires !c.allowDroppedNulls && Suffix(r, doc) && ReadValue(c, |doc|, r, node).ok
    requires ReadValue(c, |doc|, r, node).node.start == StartOf(|doc|, Significant(c, r))
    ensures var v := ReadValue(c, |doc|, r, node).node;
            0 <= v.start < v.limit <= |doc| && Reparses(c, doc, v)
  {
    hide Significant, ReadValue, Suffix, Strip;
    Extent(c, doc, r, node);
    SameValueAgain(c, |doc|, r, node);
    var t, o := Significant(c, r), ReadValue(c, |doc|, r, node);
    var s := t.text + t.rest;
    SuffixLength(s, doc);
    PartOf(doc, s, o.rest);
    var w := doc[o.node.start..o.node.limit];
    assert w + o.rest == s;
    assert doc[o.node.start] == s[0] == t.text[0];
    ReadKinds(c, |doc|, r, node);
    SignificantBegins(c, r);
    ValueRestricts(c, |doc|, |w|, w, o.rest, node, NULL_VALUE);
  }

  // ----- every node of a parsed document -----

  lemma {:induction false} ValuesLocated(c: Config, doc: string, r: string, node: Value)
    requires !c.allowDroppedNulls && Suffix(r, doc) && ReadValue(c, |doc|, r, node).ok
    ensures var o := ReadValue(c, |doc|, r, node);
            Located(c, doc, o.node) && |doc| - |r| <= o.node.start && o.node.limit == |doc| - |o.rest|
    decreases |r|, 1
  {
    hide Significant, ReadMembers, ReadArray, ReadValue, LiteralOutcome, Suffix, Reparses;
    Extent(c, doc, r, node);
    ValueUnfold(c, |doc|, r, node);
    var n, t := |doc|, Significant(c, r);
    SuffixTrans(t.rest, r, doc);
    if t.kind.ObjectBegin? {
      MembersLocated(c, doc, t.rest, Value(Obj(Nil), StartOf(n, t), 0), "");
    } else if t.kind.ArrayBegin? {
      ArrayLocated(c, doc, t.rest, Value(Arr(Nil), StartOf(n, t), 0));
    } else {
      GoodLiteral(c, n, t, node);
      PlainScalar(c, t);
    }
    ReparsesAlone(c, doc, r, node);
  }

  lemma {:induction false} ArrayLocated(c: Config, doc: string, r: string, node: Value)
    requires !c.allowDroppedNulls && Suffix(r, doc) && node.data == Arr(Nil) && node.start <= |doc| - |r|
    requires ReadArray(c, |doc|, r, node).ok
    ensures var o := ReadArray(c, |doc|, r, node);
            o.node.start == node.start && o.node.data.Arr? &&
            LocatedIn(c, doc, o.node.data.entries, node.start, |doc| - |o.rest|)
    decreases |r|, 4
  {
    hide ReadArray, ReadElements, SkipSpaces, Suffix;
    ArrayUnfold(c, |doc|, r, node);
    var s := SkipSpaces(r);
    SuffixTrans(s, r, doc);
    if !(s != "" && s[0] == ']') {
      ElementsLocated(c, doc, s, node, 0);
    }
  }

  lemma {:induction false} ElementsLocated(c: Config, doc: string, r: string, node: Value, index: nat)
    requires !c.allowDroppedNulls && Suffix(r, doc) && node.data.Arr? && node.start <= |doc| - |r|
    requires LocatedIn(c, doc, node.data.entries, node.start, |doc| - |r|)
    requires ReadElements(c, |doc|, r, node, index).ok
    ensures var o := ReadElements(c, |doc|, r, node, index);
            o.node.start == node.start && o.node.data.Arr? &&
            LocatedIn(c, doc, o.node.data.entries, node.start, |doc| - |o.rest|)
    decreases |r|, 3
  {
    hide ReadElements, ReadElement, ReadValue, Suffix, Get, Put, Located, LocatedIn, SkipComments;
    var n, es := |doc|, node.data.entries;
    ElementsUnfold(c, n, r, node, index);
    ElementUnfold(c, n, r, node, index);
    var v := ReadValue(c, n, r, At(es, index));
    ValuesLocated(c, doc, r, At(es, index));
    var t := SkipComments(v.rest);
    SuffixTrans(t.rest, v.rest, r);
    SuffixLength(t.rest, v.rest);
    LocatedPut(c, doc, es, node.start, n - |r|, n - |t.rest|, Idx(index), v.node);
    var s := ReadElement(c, n, r, node, index);
    if s.More? {
      SuffixTrans(s.rest, r, doc);
      ElementsLocated(c, doc, s.rest, s.node, index + 1);
    }
  }

  lemma {:induction false} MembersLocated(c: Config, doc: string, r: string, node: Value, name: string)
    requires !c.allowDroppedNulls && Suffix(r, doc) && node.data.Obj? && node.start <= |doc| - |r|
    requires LocatedIn(c, doc, node.data.entries, node.start, |doc| - |r|)
    requires ReadMembers(c, |doc|, r, node, name).ok
    ensures var o := ReadMembers(c, |doc|, r, node, name);
            o.node.start == node.start && o.node.data.Obj? &&
            LocatedIn(c, doc, o.node.data.entries, node.start, |doc| - |o.rest|)
    decreases |r|, 0
  {
    hide ReadMembers, ReadMember, Suffix, SkipComments, NameOf, LocatedIn, Fail;
    var n := |doc|;
    MembersUnfold(c, n, r, node, name);
    var t := SkipComments(r);
    SuffixTrans(t.rest, r, doc);
    SuffixLength(t.rest, r);
    Widen(c, doc, node.data.entries, node.start, n - |r|, n - |t.rest|);
    if !(t.kind.ObjectEnd? && name == "") {
      var name' := NameOf(c, t).name;
      MemberLocated(c, doc, t.rest, node, name');
      var s := ReadMember(c, n, t.rest, node, name');
      if s.More? {
        SuffixTrans(s.rest, t.rest, doc);
        SuffixLength(s.rest, t.rest);
        MembersLocated(c, doc, s.rest, s.node, name');
      }
    }
  }

  /** An object under construction that begins at `start` and has been read up to `end`. */
  ghost predicate LocatedNode(c: Config, doc: string, v: Value, start: int, end: int) {
    v.data.Obj? && v.start == start && LocatedIn(c, doc, v.data.entries, start, end)
  }

  lemma {:induction false} MemberLocated(c: Config, doc: string, r: string, node: Value, name: string)
    requires !c.allowDroppedNulls && Suffix(r, doc) && node.data.Obj? && node.start <= |doc| - |r|
    requires LocatedIn(c, doc, node.data.entries, node.start, |doc| - |r|)
    ensures var s := ReadMember(c, |doc|, r, node, name);
            s.Last? && s.o.ok ==> LocatedNode(c, doc, s.o.node, node.start, |doc| - |s.o.rest|)
    ensures var s := ReadMember(c, |doc|, r, node, name);
            s.More? ==> LocatedNode(c, doc, s.node, node.start, |doc| - |s.rest|)
    decreases |r|, 2
  {
    hide ReadMember, ReadToken, ReadValue, MemberEnd, Suffix, Get, Put, CStr, Fail, Located, LocatedIn;
    var n, es, colon := |doc|, node.data.entries, ReadToken(r);
    if !colon.kind.MemberSeparator? {
      NoColon(c, n, r, node, name);
    } else {
      var key := Name(CStr(name));
      MemberUnfold(c, n, r, node, name);
      var v := ReadValue(c, n, colon.rest, Get(es, key));
      var node' := node.(data := Obj(Put(es, key, v.node)));
      EndFollows(c, n, r, v, node');
      EndKeeps(c, n, r, v, node');
      if v.ok {
        SuffixTrans(colon.rest, r, doc);
        SuffixLength(colon.rest, r);
        SuffixLength(v.rest, colon.rest);
        ValuesLocated(c, doc, colon.rest, Get(es, key));
        LocatedPut(c, doc, es, node.start, n - |r|, n - |v.rest|, key, v.node);
        var s := MemberEnd(c, n, r, v, node');
        var rest := if s.Last? then s.o.rest else s.rest;
        if s.More? || s.o.ok {
          Widen(c, doc, node'.data.entries, node.start, n - |v.rest|, n - |rest|);
        }
      }
    }
  }

  lemma EndKeeps(c: Config, n: int, r: string, v: Outcome, node: Value)
    requires Suffix(v.rest, r) && |v.errors| == (if v.ok then 0 else 1) && node.data.Obj?
    ensures var s := MemberEnd(c, n, r, v, node);
            (s.Last? ==> s.o.node == node) && (s.More? ==> s.node == node)
  {
    hide ReadToken, SkipComments, Suffix, Recover;
  }

  /**
   * After a successful parse every value lies inside its parent, clear of its siblings, and the text
   * between its offsets parses by itself to an equal value.
   */
  lemma ParsedTreeIsLocated(c: Config, doc: string, root: Value)
    requires !c.allowDroppedNulls && Parse(c, doc, root).ok
    ensures Located(c, doc, Parse(c, doc, root).node)
  {
    hide ReadValue, Significant, Located, Suffix;
    Whole(doc);
    ValuesLocated(c, doc, doc, root);
  }

  lemma Whole(doc: string)
    ensures Suffix(doc, doc)
  {
  }

  /**
   * Where nulls may be dropped, a comma in place of a value is one, and stays unread.  Its offsets
   * are those of the character before it, hence -1 and 0 at the beginning of a document.
   */
  lemma DroppedNull(c: Config, before: string, rest: string, node: Value)
    requires AllBlank(before)
    ensures var doc := before + "," + rest;
            var o := ReadValue(c, |doc|, doc, node);
            if c.allowDroppedNulls then o == Outcome(true, Value(Null, |before| - 1, |before|), "," + rest, [])
            else !o.ok && o.rest == rest
  {
    hide *;
    var doc := before + "," + rest;
    var t := Token(ArraySeparator, ",", rest);
    assert doc == before + ("," + rest);
    BlanksAreSkipped(before, "," + rest);
    CommaIsFixed();
    FixedTokens(",", rest);
    StartsAt(doc, t);
    CommaSignificant(c, doc, t);
    if c.allowDroppedNulls {
      ReadsDropped(c, |doc|, doc, node);
    } else {
      ReadsLiteral(c, |doc|, doc, node);
      CommaIsNone(c, t);
    }
  }

  lemma CommaSignificant(c: Config, doc: string, t: Token)
    requires ReadToken(doc) == t && t.kind.ArraySeparator?
    ensures Significant(c, doc) == t
  {
    hide ReadToken, Suffix;
  }

  lemma CommaIsFixed()
    ensures FixedKind(",") == Some(ArraySeparator)
  {
  }

  lemma StartsAt(doc: string, t: Token)
    ensures StartOf(|doc|, t) == |doc| - |t.rest| - |t.text|
  {
  }

  lemma CommaIsNone(c: Config, t: Token)
    requires t.kind.ArraySeparator?
    ensures ScalarOf(c, t) == Wrong(ValueExpected)
  {
  }
}

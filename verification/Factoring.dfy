/** Parsing depends on the token stream alone. */
module Factoring {
  import opened Text
  import opened Strings
  import opened Tokens
  import opened Values
  import opened Parser
  import opened RoundTrip

  /** Tokens that differ in nothing but where they stand. */
  predicate SameToken(t: Token, t': Token) {
    t.kind == t'.kind && t.text == t'.text && Lex(t.rest) == Lex(t'.rest)
  }

  ghost predicate SameErrors(es: seq<ErrorInfo>, es': seq<ErrorInfo>) {
    |es| == |es'| && forall i :: 0 <= i < |es| ==> es[i].problem == es'[i].problem
  }

  /** Outcomes that differ in nothing but offsets. */
  ghost predicate Alike(o: Outcome, o': Outcome) {
    o.ok == o'.ok && Strip(o.node) == Strip(o'.node) && Lex(o.rest) == Lex(o'.rest) && SameErrors(o.errors, o'.errors)
  }

  ghost predicate AlikeStep(s: Step, s': Step) {
    match (s, s')
    case (Last(o), Last(o')) => Alike(o, o')
    case (More(node, rest), More(node', rest')) => Strip(node) == Strip(node') && Lex(rest) == Lex(rest')
    case _ => false
  }

  lemma SameFirst(r: string, r': string)
    requires Lex(r) == Lex(r')
    ensures SameToken(ReadToken(r), ReadToken(r'))
  {
    if Lex(r) != [] {
      LexStep(r);
      LexStep(r');
    } else {
      NoLexemes(r);
      NoLexemes(r');
    }
    hide Lex, ReadToken;
  }

  lemma NoLexemes(r: string)
    requires Lex(r) == []
    ensures ReadToken(r) == Token(EndOfStream, "", "")
  {
    hide CutToken;
    LexUnfolds(r, ReadToken(r));
  }

  lemma {:induction false} SameSignificant(r: string, r': string)
    requires Lex(r) == Lex(r')
    ensures SameToken(SkipComments(r), SkipComments(r'))
    decreases |r|
  {
    hide Lex, ReadToken;
    SameFirst(r, r');
    if ReadToken(r).kind.Comment? {
      SameSignificant(ReadToken(r).rest, ReadToken(r').rest);
    }
  }

  lemma {:induction false} SameRecovery(r: string, r': string, until: Kind)
    requires Lex(r) == Lex(r')
    ensures Lex(Recover(r, until)) == Lex(Recover(r', until))
    decreases |r|
  {
    hide Lex, ReadToken;
    SameFirst(r, r');
    if ReadToken(r).kind != until && !ReadToken(r).kind.EndOfStream? {
      SameRecovery(ReadToken(r).rest, ReadToken(r').rest, until);
    }
  }

  lemma SameFailure(problem: Problem, n: int, n': int, t: Token, t': Token, r: string, r': string, node: Value,
                    node': Value, until: Kind)
    requires Suffix(t.rest, r) && Suffix(t'.rest, r') && SameToken(t, t') && Strip(node) == Strip(node')
    ensures Alike(Fail(problem, n, t, r, node, until), Fail(problem, n', t', r', node', until))
  {
    hide Lex, Recover, Strip, Suffix;
    SameRecovery(t.rest, t'.rest, until);
  }

  /** Reading a token again from its first character gives the same token. */
  lemma Reread(r: string)
    ensures var t := ReadToken(r); ReadToken(t.text + t.rest) == t
  {
    SkipTwice(r);
    hide CutToken, MakeToken;
    assert ReadToken(SkipSpaces(r)) == ReadToken(r);
  }

  lemma {:induction false} RereadSignificant(c: Config, r: string)
    ensures var t := SkipComments(r); ReadToken(t.text + t.rest) == t
    ensures var t := Significant(c, r); ReadToken(t.text + t.rest) == t
    decreases |r|
  {
    hide ReadToken, Suffix, SkipSpaces;
    Reread(r);
    if ReadToken(r).kind.Comment? {
      RereadSignificant(c, ReadToken(r).rest);
    }
  }

  lemma SameUnread(c: Config, r: string, r': string)
    requires SameToken(Significant(c, r), Significant(c, r'))
    ensures var t, t' := Significant(c, r), Significant(c, r'); Lex(t.text + t.rest) == Lex(t'.text + t'.rest)
  {
    hide Significant, ReadToken, Lex;
    RereadSignificant(c, r);
    RereadSignificant(c, r');
    var t, t' := Significant(c, r), Significant(c, r');
    LexUnfolds(t.text + t.rest, t);
    LexUnfolds(t'.text + t'.rest, t');
  }

  /** The test for an empty array depends on the next token. */
  lemma PeekFactors(r: string)
    ensures (SkipSpaces(r) != "" && SkipSpaces(r)[0] == ']') <==> (Lex(r) != [] && Lex(r)[0].kind.ArrayEnd?)
    ensures Lex(SkipSpaces(r)) == Lex(r)
    ensures SkipSpaces(r) != "" && SkipSpaces(r)[0] == ']' ==> Lex(SkipSpaces(r)[1..]) == Lex(r)[1..]
  {
    if Lex(r) != [] {
      Peek(r);
      LexStep(r);
    } else {
      NoLexemes(r);
      hide Lex, CutToken;
      SkipTwice(r);
      SpacesDecide(SkipSpaces(r), r);
      assert SkipSpaces(r) == "" + "";
    }
  }

  lemma SameLiterals(c: Config, t: Token, t': Token)
    requires t.kind == t'.kind && t.text == t'.text
    ensures ScalarOf(c, t) == ScalarOf(c, t') && NameOf(c, t) == NameOf(c, t')
  {
    hide NumberData, DecodeString, CStr;
  }

  // ----- the parser, in two texts side by side -----

  lemma ValueUnfold(c: Config, n: int, r: string, node: Value)
    ensures var t := Significant(c, r);
            ReadValue(c, n, r, node) ==
              if t.kind.ObjectBegin? then
                var o := ReadMembers(c, n, t.rest, Value(Obj(Nil), StartOf(n, t), 0), "");
                o.(node := o.node.(limit := n - |o.rest|))
              else if t.kind.ArrayBegin? then
                var o := ReadArray(c, n, t.rest, Value(Arr(Nil), StartOf(n, t), 0));
                o.(node := o.node.(limit := n - |o.rest|))
              else if t.kind.ArraySeparator? && c.allowDroppedNulls then
                Outcome(true, Value(Null, StartOf(n, t) - 1, StartOf(n, t)), t.text + t.rest, [])
              else LiteralOutcome(c, n, t, node)
  {
    hide Significant, ReadMembers, ReadArray, Suffix, ScalarOf;
  }

  /** A value of one token, or the error it is. */
  function LiteralOutcome(c: Config, n: int, t: Token, node: Value): Outcome {
    match ScalarOf(c, t)
    case Good(data) => Outcome(true, Value(data, StartOf(n, t), EndOf(n, t)), t.rest, [])
    case Wrong(problem) =>
      var node' := if problem.ValueExpected? then node.(start := StartOf(n, t), limit := EndOf(n, t)) else node;
      Outcome(false, node', t.rest, [ErrorAt(problem, n, t)])
  }

  lemma SameLiteralOutcome(c: Config, n: int, n': int, t: Token, t': Token, node: Value, node': Value)
    requires SameToken(t, t') && Strip(node) == Strip(node')
    ensures Alike(LiteralOutcome(c, n, t, node), LiteralOutcome(c, n', t', node'))
  {
    SameLiterals(c, t, t');
    StripOffsets(node, StartOf(n, t), EndOf(n, t));
    StripOffsets(node', StartOf(n', t'), EndOf(n', t'));
    if ScalarOf(c, t).Good? {
      PlainScalar(c, t);
      StripScalar(Value(ScalarOf(c, t).data, StartOf(n, t), EndOf(n, t)), ScalarOf(c, t).data);
      StripScalar(Value(ScalarOf(c, t).data, StartOf(n', t'), EndOf(n', t')), ScalarOf(c, t).data);
    }
    hide Lex, ScalarOf, Strip;
  }

  lemma PlainScalar(c: Config, t: Token)
    requires ScalarOf(c, t).Good?
    ensures !ScalarOf(c, t).data.Arr? && !ScalarOf(c, t).data.Obj?
  {
    hide DecodeString, CStr;
  }

  lemma StripOffsets(v: Value, start: int, limit: int)
    ensures Strip(v.(start := start, limit := limit)) == Strip(v)
  {
  }

  lemma AlikeLimits(o: Outcome, o': Outcome, limit: int, limit': int)
    requires Alike(o, o')
    ensures Alike(o.(node := o.node.(limit := limit)), o'.(node := o'.node.(limit := limit')))
  {
    StripOffsets(o.node, o.node.start, limit);
    StripOffsets(o'.node, o'.node.start, limit');
    hide Lex, Strip;
  }

  lemma {:induction false} ValuesFactor(c: Config, n: int, n': int, r: string, r': string, node: Value, node': Value)
    requires Lex(r) == Lex(r') && Strip(node) == Strip(node')
    ensures Alike(ReadValue(c, n, r, node), ReadValue(c, n', r', node'))
    decreases |r|, 1
  {
    hide Lex, ReadToken, SkipComments, ReadValue, ReadMembers, ReadArray, Suffix, Alike, Strip, LiteralOutcome,
         SameToken;
    SameTokens(c, r, r');
    var t, t' := Significant(c, r), Significant(c, r');
    ValueUnfold(c, n, r, node);
    ValueUnfold(c, n', r', node');
    KindsOf(t, t');
    if t.kind.ObjectBegin? {
      var start, start' := Value(Obj(Nil), StartOf(n, t), 0), Value(Obj(Nil), StartOf(n', t'), 0);
      Fresh(start, start');
      MembersFactor(c, n, n', t.rest, t'.rest, start, start', "");
      var o, o' := ReadMembers(c, n, t.rest, start, ""), ReadMembers(c, n', t'.rest, start', "");
      AlikeLimits(o, o', n - |o.rest|, n' - |o'.rest|);
    } else if t.kind.ArrayBegin? {
      var start, start' := Value(Arr(Nil), StartOf(n, t), 0), Value(Arr(Nil), StartOf(n', t'), 0);
      Fresh(start, start');
      ArraysFactor(c, n, n', t.rest, t'.rest, start, start');
      var o, o' := ReadArray(c, n, t.rest, start), ReadArray(c, n', t'.rest, start');
      AlikeLimits(o, o', n - |o.rest|, n' - |o'.rest|);
    } else if t.kind.ArraySeparator? && c.allowDroppedNulls {
      SameUnread(c, r, r');
      AlikeNulls(ReadValue(c, n, r, node), ReadValue(c, n', r', node'));
    } else {
      SameLiteralOutcome(c, n, n', t, t', node, node');
    }
  }

  lemma SameTokens(c: Config, r: string, r': string)
    requires Lex(r) == Lex(r')
    ensures SameToken(Significant(c, r), Significant(c, r'))
  {
    hide Lex, ReadToken, SkipComments;
    SameFirst(r, r');
    SameSignificant(r, r');
  }

  lemma KindsOf(t: Token, t': Token)
    requires SameToken(t, t')
    ensures t.kind == t'.kind && t.text == t'.text && Lex(t.rest) == Lex(t'.rest)
  {
    hide Lex;
  }

  lemma Fresh(v: Value, v': Value)
    requires v.data == v'.data && (v.data == Obj(Nil) || v.data == Arr(Nil))
    ensures Strip(v) == Strip(v')
  {
  }

  lemma AlikeNulls(o: Outcome, o': Outcome)
    requires o.ok && o'.ok && o.node.data.Null? && o'.node.data.Null? && o.errors == o'.errors == []
    requires Lex(o.rest) == Lex(o'.rest)
    ensures Alike(o, o')
  {
    hide Lex;
  }

  lemma {:induction false} ArraysFactor(c: Config, n: int, n': int, r: string, r': string, node: Value, node': Value)
    requires Lex(r) == Lex(r') && Strip(node) == Strip(node') && node.data.Arr? && node'.data.Arr?
    ensures Alike(ReadArray(c, n, r, node), ReadArray(c, n', r', node'))
    decreases |r|, 4
  {
    hide Lex, SkipSpaces, ReadArray, ReadElements, Strip;
    PeekFactors(r);
    PeekFactors(r');
    ArrayUnfold(c, n, r, node);
    ArrayUnfold(c, n', r', node');
    if !(SkipSpaces(r) != "" && SkipSpaces(r)[0] == ']') {
      ElementsFactor(c, n, n', SkipSpaces(r), SkipSpaces(r'), node, node', 0);
    }
  }

  lemma {:induction false} ElementsFactor(c: Config, n: int, n': int, r: string, r': string, node: Value,
                                          node': Value, index: nat)
    requires Lex(r) == Lex(r') && Strip(node) == Strip(node') && node.data.Arr? && node'.data.Arr?
    ensures Alike(ReadElements(c, n, r, node, index), ReadElements(c, n', r', node', index))
    decreases |r|, 3
  {
    hide Lex, ReadElements, ReadElement, ReadValue, Suffix, Strip, Get, Put, Alike;
    ElementsUnfold(c, n, r, node, index);
    ElementsUnfold(c, n', r', node', index);
    ElementFactors(c, n, n', r, r', node, node', index);
    var s, s' := ReadElement(c, n, r, node, index), ReadElement(c, n', r', node', index);
    if s.More? {
      ElementsFactor(c, n, n', s.rest, s'.rest, s.node, s'.node, index + 1);
    }
  }

  lemma {:induction false} ElementFactors(c: Config, n: int, n': int, r: string, r': string, node: Value,
                                          node': Value, index: nat)
    requires Lex(r) == Lex(r') && Strip(node) == Strip(node') && node.data.Arr? && node'.data.Arr?
    ensures AlikeStep(ReadElement(c, n, r, node, index), ReadElement(c, n', r', node', index))
    decreases |r|, 2
  {
    hide Lex, ReadElement, ReadValue, Suffix, Strip, Get, Put, Alike, ElementEnd, AlikeStep;
    ElementUnfold(c, n, r, node, index);
    ElementUnfold(c, n', r', node', index);
    SameGet(node, node', Idx(index));
    ValuesFactor(c, n, n', r, r', At(node.data.entries, index), At(node'.data.entries, index));
    var v, v' := ReadValue(c, n, r, At(node.data.entries, index)), ReadValue(c, n', r', At(node'.data.entries, index));
    AlikeParts(v, v');
    SamePut(node, node', Idx(index), v.node, v'.node);
    ElementEndsFactor(c, n, n', r, r', v, v', node.(data := Arr(Put(node.data.entries, Idx(index), v.node))),
                      node'.(data := Arr(Put(node'.data.entries, Idx(index), v'.node))));
  }

  lemma AlikeParts(o: Outcome, o': Outcome)
    requires Alike(o, o')
    ensures o.ok == o'.ok && Strip(o.node) == Strip(o'.node) && Lex(o.rest) == Lex(o'.rest)
  {
    hide Lex, Strip;
  }

  lemma SameGet(node: Value, node': Value, key: Key)
    requires Strip(node) == Strip(node') && (node.data.Arr? || node.data.Obj?) && (node'.data.Arr? || node'.data.Obj?)
    ensures Strip(Get(node.data.entries, key)) == Strip(Get(node'.data.entries, key))
  {
    StripGet(node.data.entries, key);
    StripGet(node'.data.entries, key);
    hide Get;
  }

  lemma SamePut(node: Value, node': Value, key: Key, v: Value, v': Value)
    requires Strip(node) == Strip(node') && Strip(v) == Strip(v')
    requires (node.data.Arr? && node'.data.Arr?) || (node.data.Obj? && node'.data.Obj?)
    ensures var es, es' := Put(node.data.entries, key, v), Put(node'.data.entries, key, v');
            Strip(node.(data := Arr(es))) == Strip(node'.(data := Arr(es'))) &&
            Strip(node.(data := Obj(es))) == Strip(node'.(data := Obj(es')))
  {
    StripPut(node.data.entries, key, v);
    StripPut(node'.data.entries, key, v');
    hide Put;
  }

  lemma ElementEndsFactor(c: Config, n: int, n': int, r: string, r': string, v: Outcome, v': Outcome, node: Value,
                          node': Value)
    requires Suffix(v.rest, r) && |v.errors| == (if v.ok then 0 else 1)
    requires Suffix(v'.rest, r') && |v'.errors| == (if v'.ok then 0 else 1)
    requires Alike(v, v') && Strip(node) == Strip(node') && node.data.Arr? && node'.data.Arr?
    ensures AlikeStep(ElementEnd(c, n, r, v, node), ElementEnd(c, n', r', v', node'))
  {
    hide Lex, Recover, SkipComments, Suffix, Strip;
    if !v.ok {
      SameRecovery(v.rest, v'.rest, ArrayEnd);
    } else {
      SameSignificant(v.rest, v'.rest);
      var t, t' := SkipComments(v.rest), SkipComments(v'.rest);
      SuffixTrans(t.rest, v.rest, r);
      SuffixTrans(t'.rest, v'.rest, r');
      SameFailure(MissingElementSeparator, n, n', t, t', r, r', node, node', ArrayEnd);
      hide Fail;
    }
  }

  lemma {:induction false} MembersFactor(c: Config, n: int, n': int, r: string, r': string, node: Value, node': Value,
                                         name: string)
    requires Lex(r) == Lex(r') && Strip(node) == Strip(node') && node.data.Obj? && node'.data.Obj?
    ensures Alike(ReadMembers(c, n, r, node, name), ReadMembers(c, n', r', node', name))
    decreases |r|, 0
  {
    hide Lex, ReadMembers, ReadMember, SkipComments, NameOf, Suffix, Strip, Fail;
    MembersUnfold(c, n, r, node, name);
    MembersUnfold(c, n', r', node', name);
    SameSignificant(r, r');
    var t, t' := SkipComments(r), SkipComments(r');
    SameLiterals(c, t, t');
    match NameOf(c, t)
    case Unnamed(problem) =>
      SameFailure(problem, n, n', t, t', r, r', node, node', ObjectEnd);
    case Named(name') =>
      MemberFactors(c, n, n', t.rest, t'.rest, node, node', name');
      var s, s' := ReadMember(c, n, t.rest, node, name'), ReadMember(c, n', t'.rest, node', name');
      if s.More? {
        SuffixTrans(s.rest, t.rest, r);
        MembersFactor(c, n, n', s.rest, s'.rest, s.node, s'.node, name');
      }
  }

  lemma {:induction false} MemberFactors(c: Config, n: int, n': int, r: string, r': string, node: Value, node': Value,
                                         name: string)
    requires Lex(r) == Lex(r') && Strip(node) == Strip(node') && node.data.Obj? && node'.data.Obj?
    ensures AlikeStep(ReadMember(c, n, r, node, name), ReadMember(c, n', r', node', name))
    decreases |r|, 2
  {
    hide Lex, ReadMember, ReadToken, ReadValue, Suffix, Strip, Get, Put, Alike, MemberEnd, AlikeStep, CStr, Fail;
    SameFirst(r, r');
    var colon, colon' := ReadToken(r), ReadToken(r');
    if !colon.kind.MemberSeparator? {
      NoColon(c, n, r, node, name);
      NoColon(c, n', r', node', name);
      SameFailure(MissingColon, n, n', colon, colon', r, r', node, node', ObjectEnd);
      LastAlike(ReadMember(c, n, r, node, name), ReadMember(c, n', r', node', name));
    } else {
      var key := Name(CStr(name));
      MemberUnfold(c, n, r, node, name);
      MemberUnfold(c, n', r', node', name);
      SameGet(node, node', key);
      ValuesFactor(c, n, n', colon.rest, colon'.rest, Get(node.data.entries, key), Get(node'.data.entries, key));
      var v := ReadValue(c, n, colon.rest, Get(node.data.entries, key));
      var v' := ReadValue(c, n', colon'.rest, Get(node'.data.entries, key));
      AlikeParts(v, v');
      SamePut(node, node', key, v.node, v'.node);
      MemberEndsFactor(c, n, n', r, r', v, v', node.(data := Obj(Put(node.data.entries, key, v.node))),
                       node'.(data := Obj(Put(node'.data.entries, key, v'.node))));
    }
  }

  lemma LastAlike(s: Step, s': Step)
    requires s.Last? && s'.Last? && Alike(s.o, s'.o)
    ensures AlikeStep(s, s')
  {
    hide Alike;
  }

  lemma MemberEndsFactor(c: Config, n: int, n': int, r: string, r': string, v: Outcome, v': Outcome, node: Value,
                         node': Value)
    requires Suffix(v.rest, r) && |v.errors| == (if v.ok then 0 else 1)
    requires Suffix(v'.rest, r') && |v'.errors| == (if v'.ok then 0 else 1)
    requires Alike(v, v') && Strip(node) == Strip(node') && node.data.Obj? && node'.data.Obj?
    ensures AlikeStep(MemberEnd(c, n, r, v, node), MemberEnd(c, n', r', v', node'))
  {
    hide Lex, Recover, SkipComments, ReadToken, Suffix, Strip;
    if !v.ok {
      SameRecovery(v.rest, v'.rest, ObjectEnd);
    } else {
      SameFirst(v.rest, v'.rest);
      SameSignificant(v.rest, v'.rest);
      var comma, comma' := ReadToken(v.rest), ReadToken(v'.rest);
      SuffixTrans(comma.rest, v.rest, r);
      SuffixTrans(comma'.rest, v'.rest, r');
      SameFailure(MissingMemberSeparator, n, n', comma, comma', r, r', node, node', ObjectEnd);
      hide Fail;
    }
  }

  /**
   * Two texts with the same token stream parse to the same value, with the same success flag and
   * the same kinds of errors; only offsets may differ.
   */
  lemma ParsingFactors(c: Config, doc: string, doc': string, root: Value)
    requires Lex(doc) == Lex(doc')
    ensures Alike(Parse(c, doc, root), Parse(c, doc', root))
  {
    hide Lex, ReadValue, Significant, Suffix, Strip;
    ValuesFactor(c, |doc|, |doc'|, doc, doc', root, root);
    var o, o' := ReadValue(c, |doc|, doc, root), ReadValue(c, |doc'|, doc', root);
    SameTokens(c, o.rest, o'.rest);
    KindOfStripped(o.node);
    KindOfStripped(o'.node);
  }

  lemma KindOfStripped(v: Value)
    ensures Strip(v).data.Arr? == v.data.Arr? && Strip(v).data.Obj? == v.data.Obj?
  {
  }
}

/** What the reader's errors say: at which token of the document, and what is wrong with it. */
module Diagnoses {
  import opened Text
  import opened Numbers
  import opened Strings
  import opened Tokens
  import opened Values
  import opened Parser

  /** Why no value, name or sign could be read at the token t. */
  predicate Explains(c: Config, problem: Problem, t: Token) {
    match problem
    case ValueExpected =>
      t.kind in {EndOfStream, ObjectEnd, ArrayEnd, MemberSeparator, Comment, Erroneous} ||
      (t.kind.ArraySeparator? && !c.allowDroppedNulls)
    case NotANumber => t.kind.NumberLiteral? && NumberOf(t.text).Double? && c.scanDouble(t.text).None?
    case BadString(fault) => t.kind.StringLiteral? && |t.text| >= 2 && DecodeString(t.text) == Bad(fault)
    case MissingColon => !t.kind.MemberSeparator?
    case MissingMemberSeparator => !t.kind.ObjectEnd? && !t.kind.ArraySeparator? && !t.kind.Comment?
    case MissingMemberName => !t.kind.StringLiteral? && (t.kind.NumberLiteral? ==> !c.allowNumericKeys)
    case MissingElementSeparator => !t.kind.ArrayEnd? && !t.kind.ArraySeparator? && !t.kind.Comment?
    case RootNotContainer => false
  }

  /** The error is at the token read from q, a part of r. */
  ghost predicate ErrorAtToken(c: Config, n: int, r: string, q: string, e: ErrorInfo) {
    Suffix(q, r) && e == ErrorAt(e.problem, n, ReadToken(q)) && Explains(c, e.problem, ReadToken(q))
  }

  ghost predicate Explained(c: Config, n: int, r: string, es: seq<ErrorInfo>) {
    |es| == 1 && exists q :: ErrorAtToken(c, n, r, q, es[0])
  }

  lemma Further(c: Config, n: int, q: string, r: string, es: seq<ErrorInfo>)
    requires Explained(c, n, q, es) && Suffix(q, r)
    ensures Explained(c, n, r, es)
  {
    hide Explains, ReadToken, Suffix;
    var p :| ErrorAtToken(c, n, q, p, es[0]);
    SuffixTrans(p, q, r);
    assert ErrorAtToken(c, n, r, p, es[0]);
  }

  lemma Here(c: Config, n: int, r: string, q: string, problem: Problem)
    requires Suffix(q, r) && Explains(c, problem, ReadToken(q))
    ensures Explained(c, n, r, [ErrorAt(problem, n, ReadToken(q))])
  {
    hide Explains, ReadToken, Suffix;
    var e := ErrorAt(problem, n, ReadToken(q));
    assert e.problem == problem;
    assert [e][0] == e && ErrorAtToken(c, n, r, q, e);
  }

  lemma SuffixSelf(r: string)
    ensures Suffix(r, r)
  {
  }

  /** The token behind comments is one of the text. */
  lemma {:induction false} SkippedFrom(r: string) returns (q: string)
    ensures Suffix(q, r) && SkipComments(r) == ReadToken(q)
    decreases |r|
  {
    hide ReadToken, Suffix;
    SkippingStep(r);
    var t := ReadToken(r);
    if t.kind.Comment? && t.text != "" {
      q := SkippedFrom(t.rest);
      SuffixTrans(q, t.rest, r);
    } else {
      q := r;
      SuffixSelf(r);
    }
  }

  lemma SkippingStep(r: string)
    ensures var t := ReadToken(r);
            SkipComments(r) == (if t.kind.Comment? && t.text != "" then SkipComments(t.rest) else t) &&
            Suffix(t.rest, r) && (t.text != "" ==> |t.rest| < |r|)
  {
    hide ReadToken, Suffix;
  }

  lemma SignificantFrom(c: Config, r: string) returns (q: string)
    ensures Suffix(q, r) && Significant(c, r) == ReadToken(q)
  {
    hide ReadToken, Suffix, SkipComments;
    if c.allowComments {
      q := SkippedFrom(r);
    } else {
      q := r;
      SuffixSelf(r);
    }
  }

  lemma WrongScalar(c: Config, t: Token)
    requires ScalarOf(c, t).Wrong? && !t.kind.ObjectBegin? && !t.kind.ArrayBegin?
    requires !(t.kind.ArraySeparator? && c.allowDroppedNulls) && (t.kind.StringLiteral? ==> StringToken(t.text))
    ensures Explains(c, ScalarOf(c, t).problem, t)
  {
    hide DecodeString, NumberOf, WellScanned;
  }

  lemma WrongName(c: Config, t: Token)
    requires NameOf(c, t).Unnamed? && (t.kind.StringLiteral? ==> StringToken(t.text))
    ensures Explains(c, NameOf(c, t).problem, t)
  {
    hide DecodeString, NumberOf, WellScanned;
  }

  lemma {:induction false} ValueExplained(c: Config, n: int, r: string, node: Value)
    requires !ReadValue(c, n, r, node).ok
    ensures Explained(c, n, r, ReadValue(c, n, r, node).errors)
    decreases |r|, 1
  {
    hide Significant, ReadMembers, ReadArray, ReadValue, ScalarOf, Suffix, Explained, ReadToken, Explains, StringToken;
    var t := Significant(c, r);
    var q := SignificantFrom(c, r);
    SignificantBounds(c, r);
    if t.kind.ObjectBegin? {
      ReadsObject(c, n, r, node);
      MembersExplained(c, n, t.rest, Value(Obj(Nil), StartOf(n, t), 0), "");
      Further(c, n, t.rest, r, ReadValue(c, n, r, node).errors);
    } else if t.kind.ArrayBegin? {
      ReadsArray(c, n, r, node);
      ArrayExplained(c, n, t.rest, Value(Arr(Nil), StartOf(n, t), 0));
      Further(c, n, t.rest, r, ReadValue(c, n, r, node).errors);
    } else if t.kind.ArraySeparator? && c.allowDroppedNulls {
      ReadsDropped(c, n, r, node);
    } else {
      ReadsLiteral(c, n, r, node);
      LiteralShape(q);
      WrongScalar(c, t);
      Here(c, n, r, q, ScalarOf(c, t).problem);
    }
  }

  lemma SignificantBounds(c: Config, r: string)
    ensures var t := Significant(c, r); Suffix(t.rest, r) && (t.text != "" ==> |t.rest| < |r|)
    ensures Significant(c, r).text == "" ==> Significant(c, r).kind.EndOfStream?
  {
    hide ReadToken, Suffix, SkipComments;
  }

  lemma {:induction false} MembersExplained(c: Config, n: int, r: string, node: Value, name: string)
    requires node.data.Obj? && !ReadMembers(c, n, r, node, name).ok
    ensures Explained(c, n, r, ReadMembers(c, n, r, node, name).errors)
    decreases |r|, 0
  {
    hide ReadMembers, ReadMember, Suffix, SkipComments, NameOf, Fail, Explained, ReadToken, Explains, StringToken;
    MembersUnfold(c, n, r, node, name);
    var t := SkipComments(r);
    var q := SkippedFrom(r);
    SkipBounds(r);
    if !(t.kind.ObjectEnd? && name == "") {
      var m := NameOf(c, t);
      if m.Unnamed? {
        LiteralShape(q);
        WrongName(c, t);
        Here(c, n, r, q, m.problem);
        FailIs(m.problem, n, t, r, node, ObjectEnd);
      } else {
        NamedToken(c, t);
        var s := ReadMember(c, n, t.rest, node, m.name);
        if s.Last? {
          MemberExplained(c, n, t.rest, node, m.name);
          Further(c, n, t.rest, r, s.o.errors);
        } else {
          MemberMore(c, n, t.rest, node, m.name);
          MembersExplained(c, n, s.rest, s.node, m.name);
          Further(c, n, s.rest, t.rest, ReadMembers(c, n, r, node, name).errors);
          Further(c, n, t.rest, r, ReadMembers(c, n, r, node, name).errors);
        }
      }
    }
  }

  lemma SkipBounds(r: string)
    ensures var t := SkipComments(r); Suffix(t.rest, r) && (t.text != "" ==> |t.rest| < |r|)
    ensures SkipComments(r).text == "" ==> SkipComments(r).kind.EndOfStream?
  {
    hide ReadToken, Suffix;
  }

  lemma NamedToken(c: Config, t: Token)
    requires NameOf(c, t).Named?
    ensures !t.kind.EndOfStream?
  {
    hide DecodeString, NumberOf;
  }

  lemma MemberMore(c: Config, n: int, r: string, node: Value, name: string)
    requires node.data.Obj? && ReadMember(c, n, r, node, name).More?
    ensures var s := ReadMember(c, n, r, node, name); Suffix(s.rest, r) && s.node.data.Obj? && |s.rest| <= |r|
  {
    hide ReadMember, Suffix;
    assert Suffix(ReadMember(c, n, r, node, name).rest, r);
    SuffixShorter(ReadMember(c, n, r, node, name).rest, r);
  }

  lemma SuffixShorter(q: string, r: string)
    requires Suffix(q, r)
    ensures |q| <= |r|
  {
  }

  lemma FailIs(problem: Problem, n: int, t: Token, r: string, node: Value, until: Kind)
    requires Suffix(t.rest, r)
    ensures !Fail(problem, n, t, r, node, until).ok
    ensures Fail(problem, n, t, r, node, until).errors == [ErrorAt(problem, n, t)]
  {
    hide Recover, Suffix;
  }

  lemma {:induction false} MemberExplained(c: Config, n: int, r: string, node: Value, name: string)
    requires node.data.Obj? && ReadMember(c, n, r, node, name).Last? && !ReadMember(c, n, r, node, name).o.ok
    ensures Explained(c, n, r, ReadMember(c, n, r, node, name).o.errors)
    decreases |r|, 2
  {
    hide ReadMember, ReadToken, ReadValue, MemberEnd, Suffix, Get, Put, CStr, Fail, Explained, Recover, SkipComments;
    var colon := ReadToken(r);
    ReadBounds(r);
    if !colon.kind.MemberSeparator? {
      NoColon(c, n, r, node, name);
      SuffixSelf(r);
      FailIs(MissingColon, n, colon, r, node, ObjectEnd);
      Here(c, n, r, r, MissingColon);
    } else {
      var key := Name(CStr(name));
      MemberUnfold(c, n, r, node, name);
      var v := ReadValue(c, n, colon.rest, Get(node.data.entries, key));
      var node' := node.(data := Obj(Put(node.data.entries, key, v.node)));
      MemberEndUnfold(c, n, r, v, node');
      if !v.ok {
        ValueExplained(c, n, colon.rest, Get(node.data.entries, key));
        Further(c, n, colon.rest, r, v.errors);
      } else {
        Here(c, n, r, v.rest, MissingMemberSeparator);
      }
    }
  }

  lemma ReadBounds(r: string)
    ensures var t := ReadToken(r); Suffix(t.rest, r) && (t.text != "" ==> |t.rest| < |r|)
    ensures ReadToken(r).text == "" ==> ReadToken(r).kind.EndOfStream?
  {
    hide ReadToken, Suffix;
  }

  lemma {:induction false} ArrayExplained(c: Config, n: int, r: string, node: Value)
    requires node.data.Arr? && !ReadArray(c, n, r, node).ok
    ensures Explained(c, n, r, ReadArray(c, n, r, node).errors)
    decreases |r|, 4
  {
    hide ReadElements, SkipSpaces, Suffix, Explained;
    var s := SkipSpaces(r);
    assert Suffix(s, r);
    SuffixShorter(s, r);
    ElementsExplained(c, n, s, node, 0);
    Further(c, n, s, r, ReadArray(c, n, r, node).errors);
  }

  lemma {:induction false} ElementsExplained(c: Config, n: int, r: string, node: Value, index: nat)
    requires node.data.Arr? && !ReadElements(c, n, r, node, index).ok
    ensures Explained(c, n, r, ReadElements(c, n, r, node, index).errors)
    decreases |r|, 3
  {
    hide ReadElements, ReadElement, Suffix, Explained;
    ElementsUnfold(c, n, r, node, index);
    var s := ReadElement(c, n, r, node, index);
    if s.Last? {
      ElementExplained(c, n, r, node, index);
    } else {
      ElementsExplained(c, n, s.rest, s.node, index + 1);
      Further(c, n, s.rest, r, ReadElements(c, n, r, node, index).errors);
    }
  }

  lemma {:induction false} ElementExplained(c: Config, n: int, r: string, node: Value, index: nat)
    requires node.data.Arr? && ReadElement(c, n, r, node, index).Last? && !ReadElement(c, n, r, node, index).o.ok
    ensures Explained(c, n, r, ReadElement(c, n, r, node, index).o.errors)
    decreases |r|, 2
  {
    hide ReadElement, ReadToken, ReadValue, ElementEnd, Suffix, Get, Put, Fail, Explained, Recover, SkipComments;
    ElementUnfold(c, n, r, node, index);
    var v := ReadValue(c, n, r, At(node.data.entries, index));
    var node' := node.(data := Arr(Put(node.data.entries, Idx(index), v.node)));
    ElementEndUnfold(c, n, r, v, node');
    if !v.ok {
      ValueExplained(c, n, r, At(node.data.entries, index));
    } else {
      var q := SkippedFrom(v.rest);
      SuffixTrans(q, v.rest, r);
      NoCommentLeft(v.rest);
      Here(c, n, r, q, MissingElementSeparator);
    }
  }

  lemma NoCommentLeft(r: string)
    ensures !SkipComments(r).kind.Comment?
  {
  }

  lemma ElementEndUnfold(c: Config, n: int, r: string, v: Outcome, node: Value)
    requires Suffix(v.rest, r) && |v.errors| == (if v.ok then 0 else 1) && node.data.Arr?
    ensures var t := SkipComments(v.rest);
            ElementEnd(c, n, r, v, node) ==
              if !v.ok then Last(Outcome(false, node, Recover(v.rest, ArrayEnd), v.errors))
              else if t.kind.ArrayEnd? then Last(Outcome(true, node, t.rest, []))
              else if t.kind.ArraySeparator? then More(node, t.rest)
              else
                Last(Outcome(false, node, Recover(t.rest, ArrayEnd), [ErrorAt(MissingElementSeparator, n, t)]))
  {
    hide SkipComments, Recover, Suffix;
  }

  /**
   * The one error recorded for a document that cannot be read is at a token of the document, with
   * the offsets of its characters, and says what is wrong with that token.
   */
  lemma ErrorsAreExplained(c: Config, doc: string, root: Value) returns (q: string)
    requires !Parse(c, doc, root).ok && !c.strictRoot
    ensures Suffix(q, doc)
    ensures var t, e := ReadToken(q), Parse(c, doc, root).errors[0];
            0 <= e.start <= e.end <= |doc| && doc[e.start..e.end] == t.text && doc[e.end..] == t.rest &&
            Explains(c, e.problem, t)
  {
    hide ReadValue, ReadToken, Suffix, Significant, Explains;
    SuffixSelf(doc);
    ValueExplained(c, |doc|, doc, root);
    var e := Parse(c, doc, root).errors[0];
    q :| ErrorAtToken(c, |doc|, doc, q, e);
    Where(doc, q);
  }

  lemma Where(doc: string, q: string)
    requires Suffix(q, doc)
    ensures var t := ReadToken(q);
            var start, end := StartOf(|doc|, t), EndOf(|doc|, t);
            0 <= start <= end <= |doc| && doc[start..end] == t.text && doc[end..] == t.rest
  {
    hide ReadToken, Suffix;
    var t := ReadToken(q);
    TokenEnds(q);
    SuffixTrans(t.text + t.rest, q, doc);
    Sliced(doc, t.text, t.rest);
  }

  lemma TokenEnds(q: string)
    ensures var t := ReadToken(q); Suffix(t.text + t.rest, q)
  {
    hide ReadToken, Suffix;
  }

  lemma Sliced(doc: string, a: string, b: string)
    requires Suffix(a + b, doc)
    ensures var start, end := |doc| - |a| - |b|, |doc| - |b|;
            0 <= start <= end <= |doc| && doc[start..end] == a && doc[end..] == b
  {
    var m := |doc| - |a + b|;
    assert doc[m..] == a + b;
    assert doc[m..][..|a|] == a && doc[m..][|a|..] == b;
    assert doc[m..][..|a|] == doc[m..m + |a|] && doc[m..][|a|..] == doc[m + |a|..];
  }

  // ----- recovery -----

  /**
   * Recovery goes on behind the first token of the kind asked for, or the first end of the stream,
   * whichever comes first.
   */
  lemma {:induction false} RecoversBehindFirst(r: string, until: Kind) returns (before: seq<Lexeme>, t: Token)
    ensures forall i :: 0 <= i < |before| ==> before[i].kind != until && !before[i].kind.EndOfStream?
    ensures t.kind == until || t.kind.EndOfStream?
    ensures Recover(r, until) == t.rest
    ensures Lex(r) == before + if t.text == "" then [] else [Lexeme(t.kind, t.text)] + Lex(t.rest)
    decreases |r|
  {
    hide ReadToken, Suffix;
    RecoverStep(r, until);
    t := ReadToken(r);
    ReadBounds(r);
    LexUnfolds(r, t);
    if t.kind == until || t.kind.EndOfStream? {
      before := [];
    } else {
      var first := Lexeme(t.kind, t.text);
      before, t := RecoversBehindFirst(t.rest, until);
      before := [first] + before;
    }
  }

  lemma RecoverStep(r: string, until: Kind)
    ensures var t := ReadToken(r);
            Recover(r, until) == if t.kind == until || t.kind.EndOfStream? then t.rest else Recover(t.rest, until)
  {
    hide ReadToken;
  }

  /** What is left stands behind a token of the text that is of the kind asked for, or ends the stream. */
  ghost predicate LeftBehind(r: string, rest: string, until: Kind) {
    exists q :: EndsAt(q, r, rest, until)
  }

  ghost predicate EndsAt(q: string, r: string, rest: string, until: Kind) {
    Suffix(q, r) && ReadToken(q).rest == rest && (ReadToken(q).kind == until || ReadToken(q).kind == EndOfStream)
  }

  lemma LeftBehindFurther(q: string, r: string, rest: string, until: Kind)
    requires LeftBehind(q, rest, until) && Suffix(q, r)
    ensures LeftBehind(r, rest, until)
  {
    hide ReadToken, Suffix;
    var p :| EndsAt(p, q, rest, until);
    SuffixTrans(p, q, r);
    assert EndsAt(p, r, rest, until);
  }

  lemma {:induction false} RecoveredBehind(q: string, r: string, until: Kind)
    requires Suffix(q, r)
    ensures LeftBehind(r, Recover(q, until), until)
    decreases |q|
  {
    hide ReadToken, Suffix, Recover;
    RecoverStep(q, until);
    var t := ReadToken(q);
    ReadBounds(q);
    SuffixTrans(t.rest, q, r);
    if t.kind == until || t.kind.EndOfStream? {
      assert EndsAt(q, r, t.rest, until);
    } else {
      RecoveredBehind(t.rest, r, until);
    }
  }

  lemma FailedBehind(problem: Problem, n: int, t: Token, r: string, node: Value, until: Kind)
    requires Suffix(t.rest, r)
    ensures LeftBehind(r, Fail(problem, n, t, r, node, until).rest, until)
  {
    hide Recover, Suffix, LeftBehind;
    RecoveredBehind(t.rest, r, until);
  }

  lemma {:induction false} MembersLeave(c: Config, n: int, r: string, node: Value, name: string)
    requires node.data.Obj? && !ReadMembers(c, n, r, node, name).ok
    ensures LeftBehind(r, ReadMembers(c, n, r, node, name).rest, ObjectEnd)
    decreases |r|
  {
    hide ReadMembers, ReadMember, Suffix, SkipComments, NameOf, Fail, LeftBehind, ReadToken;
    MembersUnfold(c, n, r, node, name);
    var t := SkipComments(r);
    SkipBounds(r);
    if !(t.kind.ObjectEnd? && name == "") {
      var m := NameOf(c, t);
      if m.Unnamed? {
        FailedBehind(m.problem, n, t, r, node, ObjectEnd);
      } else {
        NamedToken(c, t);
        var s := ReadMember(c, n, t.rest, node, m.name);
        if s.Last? {
          MemberLeaves(c, n, t.rest, node, m.name);
          LeftBehindFurther(t.rest, r, s.o.rest, ObjectEnd);
        } else {
          MemberMore(c, n, t.rest, node, m.name);
          MembersLeave(c, n, s.rest, s.node, m.name);
          SuffixTrans(s.rest, t.rest, r);
          LeftBehindFurther(s.rest, r, ReadMembers(c, n, r, node, name).rest, ObjectEnd);
        }
      }
    }
  }

  lemma MemberLeaves(c: Config, n: int, r: string, node: Value, name: string)
    requires node.data.Obj? && ReadMember(c, n, r, node, name).Last? && !ReadMember(c, n, r, node, name).o.ok
    ensures LeftBehind(r, ReadMember(c, n, r, node, name).o.rest, ObjectEnd)
  {
    hide ReadMember, ReadToken, ReadValue, MemberEnd, Suffix, Get, Put, CStr, Fail, Recover, SkipComments, LeftBehind;
    var colon := ReadToken(r);
    ReadBounds(r);
    if !colon.kind.MemberSeparator? {
      NoColon(c, n, r, node, name);
      FailedBehind(MissingColon, n, colon, r, node, ObjectEnd);
    } else {
      var key := Name(CStr(name));
      MemberUnfold(c, n, r, node, name);
      var v := ReadValue(c, n, colon.rest, Get(node.data.entries, key));
      MemberEndUnfold(c, n, r, v, node.(data := Obj(Put(node.data.entries, key, v.node))));
      ReadBounds(v.rest);
      SuffixTrans(ReadToken(v.rest).rest, v.rest, r);
      RecoveredBehind(if v.ok then ReadToken(v.rest).rest else v.rest, r, ObjectEnd);
    }
  }

  lemma {:induction false} ElementsLeave(c: Config, n: int, r: string, node: Value, index: nat)
    requires node.data.Arr? && !ReadElements(c, n, r, node, index).ok
    ensures LeftBehind(r, ReadElements(c, n, r, node, index).rest, ArrayEnd)
    decreases |r|
  {
    hide ReadElements, ReadElement, Suffix, LeftBehind;
    ElementsUnfold(c, n, r, node, index);
    var s := ReadElement(c, n, r, node, index);
    if s.Last? {
      ElementLeaves(c, n, r, node, index);
    } else {
      ElementsLeave(c, n, s.rest, s.node, index + 1);
      LeftBehindFurther(s.rest, r, ReadElements(c, n, r, node, index).rest, ArrayEnd);
    }
  }

  lemma ElementLeaves(c: Config, n: int, r: string, node: Value, index: nat)
    requires node.data.Arr? && ReadElement(c, n, r, node, index).Last? && !ReadElement(c, n, r, node, index).o.ok
    ensures LeftBehind(r, ReadElement(c, n, r, node, index).o.rest, ArrayEnd)
  {
    hide ReadElement, ReadToken, ReadValue, ElementEnd, Suffix, Get, Put, Fail, Recover, SkipComments, LeftBehind;
    ElementUnfold(c, n, r, node, index);
    var v := ReadValue(c, n, r, At(node.data.entries, index));
    ElementEndUnfold(c, n, r, v, node.(data := Arr(Put(node.data.entries, Idx(index), v.node))));
    SkipBounds(v.rest);
    SuffixTrans(SkipComments(v.rest).rest, v.rest, r);
    RecoveredBehind(if v.ok then SkipComments(v.rest).rest else v.rest, r, ArrayEnd);
  }

  /**
   * Behind an object or array that cannot be read, reading goes on behind a closing brace or bracket
   * of the text, or at its end; and what is left is always a part of the text behind the opening.
   */
  lemma FailuresLeave(c: Config, n: int, r: string, node: Value)
    requires !ReadValue(c, n, r, node).ok
    ensures var t, rest := Significant(c, r), ReadValue(c, n, r, node).rest;
            match t.kind
            case ObjectBegin => LeftBehind(t.rest, rest, ObjectEnd)
            case ArrayBegin => LeftBehind(t.rest, rest, ArrayEnd)
            case _ => rest == t.rest
  {
    hide Significant, ReadMembers, ReadArray, ReadElements, ReadValue, ScalarOf, Suffix, LeftBehind, ReadToken,
         SkipSpaces;
    var t := Significant(c, r);
    if t.kind.ObjectBegin? {
      ReadsObject(c, n, r, node);
      MembersLeave(c, n, t.rest, Value(Obj(Nil), StartOf(n, t), 0), "");
    } else if t.kind.ArrayBegin? {
      ReadsArray(c, n, r, node);
      var s := SkipSpaces(t.rest);
      ElementsOfArray(c, n, t.rest, Value(Arr(Nil), StartOf(n, t), 0));
      ElementsLeave(c, n, s, Value(Arr(Nil), StartOf(n, t), 0), 0);
      LeftBehindFurther(s, t.rest, ReadValue(c, n, r, node).rest, ArrayEnd);
    } else if t.kind.ArraySeparator? && c.allowDroppedNulls {
      ReadsDropped(c, n, r, node);
    } else {
      ReadsLiteral(c, n, r, node);
    }
  }

  lemma ElementsOfArray(c: Config, n: int, r: string, node: Value)
    requires node.data.Arr? && !ReadArray(c, n, r, node).ok
    ensures var s := SkipSpaces(r); Suffix(s, r) && ReadArray(c, n, r, node) == ReadElements(c, n, s, node, 0)
  {
    hide ReadElements, SkipSpaces, Suffix;
  }
}

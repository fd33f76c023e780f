/** `Reader`: the parser over a cursor, an error list and a stack of the values under construction. */
module Reading {
  import opened Text
  import opened Numbers
  import opened Strings
  import opened Tokens
  import opened Values
  import opened Parser

  /** A token as a range of the document. */
  datatype Range = Range(kind: Kind, start: nat, end: nat)

  datatype Stack = Empty | Pushed(top: Value, below: Stack)

  /**
   * The stack holds the values themselves: the value on top is worked on and written back into its
   * parent when it is popped.
   */
  class Reader {
    const cfg: Config
    var doc: string
    var current: nat
    var errors: seq<ErrorInfo>
    var nodes: Stack

    constructor (cfg: Config)
      ensures this.cfg == cfg && doc == "" && current == 0 && errors == [] && nodes == Empty
    {
      this.cfg := cfg;
      doc, current, errors, nodes := "", 0, [], Empty;
    }

    // ----- scanning -----

    method GetNextChar() returns (c: char)
      requires current <= |doc|
      modifies this`current
      ensures if old(current) == |doc| then c == NUL && current == old(current)
              else c == doc[old(current)] && current == old(current) + 1
    {
      if current == |doc| {
        return NUL;
      }
      c := doc[current];
      current := current + 1;
    }

    /** `*current_`: the text is followed by a NUL. */
    function Peek(): char
      requires current <= |doc|
      reads this
    {
      if current == |doc| then NUL else doc[current]
    }

    method SkipBlanks()
      requires current <= |doc|
      modifies this`current
      ensures old(current) <= current <= |doc| && doc[current..] == SkipSpaces(old(doc[current..]))
    {
      hide Suffix;
      while current != |doc|
        invariant old(current) <= current <= |doc|
        invariant SkipSpaces(doc[current..]) == SkipSpaces(old(doc[current..]))
        decreases |doc| - current
      {
        var c := doc[current];
        if c == ' ' || c == '\t' || c == '\r' || c == '\n' {
          assert doc[current..][1..] == doc[current + 1..];
          current := current + 1;
        } else {
          break;
        }
      }
    }

    method MatchWord(pattern: string) returns (ok: bool)
      requires current <= |doc|
      modifies this`current
      ensures old(current) <= current <= |doc|
      ensures Scan(ok, doc[current..]) == ScanWord(old(doc[current..]), pattern)
    {
      if |doc| - current < |pattern| {
        return false;
      }
      var index := |pattern|;
      while index > 0
        invariant 0 <= index <= |pattern|
        invariant doc[current + index..current + |pattern|] == pattern[index..]
      {
        index := index - 1;
        if doc[current + index] != pattern[index] {
          assert doc[current..][index] != pattern[index];
          return false;
        }
      }
      assert doc[current..][..|pattern|] == pattern;
      current := current + |pattern|;
      ok := true;
    }

    method ReadCStyleComment() returns (ok: bool)
      requires current <= |doc|
      modifies this`current
      ensures old(current) <= current <= |doc|
      ensures Scan(ok, doc[current..]) == ScanCStyle(old(doc[current..]))
    {
      hide Suffix;
      while current != |doc|
        invariant old(current) <= current <= |doc|
        invariant ScanCStyle(doc[current..]) == ScanCStyle(old(doc[current..]))
        decreases |doc| - current
      {
        ghost var r := doc[current..];
        var c := GetNextChar();
        assert doc[current..] == r[1..];
        if c == '*' && Peek() == '/' {
          assert r[2..] == doc[current + 1..];
          break;
        }
      }
      var last := GetNextChar();
      ok := last == '/';
    }

    method ReadCppStyleComment()
      requires current <= |doc|
      modifies this`current
      ensures old(current) <= current <= |doc|
      ensures doc[current..] == SkipLine(old(doc[current..]))
    {
      hide Suffix;
      while current != |doc|
        invariant old(current) <= current <= |doc|
        invariant SkipLine(doc[current..]) == SkipLine(old(doc[current..]))
        decreases |doc| - current
      {
        ghost var r := doc[current..];
        var c := GetNextChar();
        assert doc[current..] == r[1..];
        if c == '\r' || c == '\n' {
          return;
        }
      }
    }

    method ReadComment() returns (ok: bool)
      requires current <= |doc|
      modifies this`current
      ensures old(current) <= current <= |doc|
      ensures Scan(ok, doc[current..]) == ScanComment(old(doc[current..]))
    {
      hide Suffix, ScanCStyle, SkipLine;
      ghost var r := doc[current..];
      var c := GetNextChar();
      ok := false;
      if c == '*' {
        assert doc[current..] == r[1..];
        ok := ReadCStyleComment();
      } else if c == '/' {
        assert doc[current..] == r[1..];
        ReadCppStyleComment();
        ok := true;
      } else if r != "" {
        assert doc[current..] == r[1..];
      }
    }

    method ReadNumber()
      requires current <= |doc|
      modifies this`current
      ensures old(current) <= current <= |doc|
      ensures doc[current..] == SkipNumber(old(doc[current..]))
    {
      hide Suffix;
      while current != |doc|
        invariant old(current) <= current <= |doc|
        invariant SkipNumber(doc[current..]) == SkipNumber(old(doc[current..]))
        decreases |doc| - current
      {
        if !('0' <= doc[current] <= '9') && doc[current] !in {'.', 'e', 'E', '+', '-'} {
          break;
        }
        assert doc[current..][1..] == doc[current + 1..];
        current := current + 1;
      }
    }

    method ReadString() returns (ok: bool)
      requires current <= |doc|
      modifies this`current
      ensures old(current) <= current <= |doc|
      ensures Scan(ok, doc[current..]) == ScanString(old(doc[current..]))
    {
      hide Suffix;
      var c := NUL;
      while current != |doc|
        invariant old(current) <= current <= |doc| && c != '"'
        invariant ScanString(doc[current..]) == ScanString(old(doc[current..]))
        decreases |doc| - current
      {
        ghost var r := doc[current..];
        c := GetNextChar();
        assert doc[current..] == r[1..];
        if c == '\\' {
          var skipped := GetNextChar();
          assert |r| > 1 ==> doc[current..] == r[2..];
        } else if c == '"' {
          break;
        }
      }
      ok := c == '"';
    }

    /** The range `t` is the token `s`, and the cursor stands behind it. */
    ghost predicate Cursor(t: Range, s: Token)
      reads this
    {
      t.kind == s.kind && t.start <= t.end == current <= |doc| && doc[current..] == s.rest &&
      doc[t.start..t.end] == s.text
    }

    /** The switch of `readToken`, behind the first character `c`. */
    method ScanBehind(c: char, ghost s: string) returns (kind: Kind)
      requires current <= |doc| && s != "" && s[0] == c && doc[current..] == s[1..]
      modifies this`current
      ensures old(current) <= current <= |doc| && CutToken(s) == Cut(kind, doc[current..])
    {
      hide Suffix, ScanString, ScanComment, SkipNumber, ScanWord;
      var ok := true;
      if c == '{' {
        kind := ObjectBegin;
      } else if c == '}' {
        kind := ObjectEnd;
      } else if c == '[' {
        kind := ArrayBegin;
      } else if c == ']' {
        kind := ArrayEnd;
      } else if c == '"' {
        kind := StringLiteral;
        ok := ReadString();
      } else if c == '/' {
        kind := Comment;
        ok := ReadComment();
      } else if '0' <= c <= '9' || c == '-' {
        kind := NumberLiteral;
        ReadNumber();
      } else if c == 't' {
        kind := TrueWord;
        ok := MatchWord("rue");
      } else if c == 'f' {
        kind := FalseWord;
        ok := MatchWord("alse");
      } else if c == 'n' {
        kind := NullWord;
        ok := MatchWord("ull");
      } else if c == ',' {
        kind := ArraySeparator;
      } else if c == ':' {
        kind := MemberSeparator;
      } else if c == NUL {
        kind := EndOfStream;
      } else {
        ok := false;
        kind := Erroneous;
      }
      if !ok {
        kind := Erroneous;
      }
    }

    /** `readToken`; it always returns true. */
    method NextToken() returns (t: Range)
      requires current <= |doc|
      modifies this`current
      ensures old(current) <= current && Cursor(t, ReadToken(old(doc[current..])))
    {
      hide Suffix, SkipSpaces, CutToken, MakeToken;
      SkipBlanks();
      var start := current;
      var kind := EndOfStream;
      var c := GetNextChar();
      if start < |doc| {
        ghost var s := doc[start..];
        assert doc[current..] == s[1..];
        kind := ScanBehind(c, s);
        RangeText(doc, start, current, kind);
      }
      t := Range(kind, start, current);
    }

    // ----- tokens between values -----

    /** The loops that step over comments; `t` is the token last read, from the text `from`. */
    method StepOverComments(t: Range, ghost from: string) returns (u: Range)
      requires Cursor(t, ReadToken(from))
      modifies this`current
      ensures old(current) <= current && Cursor(u, SkipComments(from))
    {
      hide ReadToken, Suffix;
      u := t;
      ghost var r := from;
      while u.kind.Comment?
        invariant old(current) <= current && Cursor(u, ReadToken(r))
        invariant SkipComments(r) == SkipComments(from)
        decreases |doc| - current, u.kind.Comment?
      {
        r := doc[current..];
        u := NextToken();
      }
    }

    method NextNonComment() returns (t: Range)
      requires current <= |doc|
      modifies this`current
      ensures old(current) <= current && Cursor(t, SkipComments(old(doc[current..])))
    {
      ghost var r := doc[current..];
      t := NextToken();
      t := StepOverComments(t, r);
    }

    method SkipCommentTokens() returns (t: Range)
      requires current <= |doc|
      modifies this`current
      ensures old(current) <= current && Cursor(t, Significant(cfg, old(doc[current..])))
    {
      if cfg.allowComments {
        t := NextNonComment();
      } else {
        t := NextToken();
      }
    }

    method RecoverFromError(skipUntil: Kind)
      requires current <= |doc|
      modifies this`current, this`errors
      ensures old(current) <= current <= |doc| && doc[current..] == Recover(old(doc[current..]), skipUntil)
      ensures errors == old(errors)
    {
      hide ReadToken, Suffix;
      var errorCount := |errors|;
      while true
        invariant old(current) <= current <= |doc| && errors == old(errors)
        invariant Recover(doc[current..], skipUntil) == Recover(old(doc[current..]), skipUntil)
        decreases |doc| - current
      {
        var skip := NextToken();
        if skip.kind == skipUntil || skip.kind.EndOfStream? {
          break;
        }
      }
      errors := errors[..errorCount];
    }

    // ----- errors -----

    method AddError(problem: Problem, t: Range) returns (ok: bool)
      modifies this`errors
      ensures !ok && errors == old(errors) + [ErrorInfo(problem, t.start, t.end)]
    {
      errors := errors + [ErrorInfo(problem, t.start, t.end)];
      ok := false;
    }

    method AddErrorAndRecover(problem: Problem, t: Range, skipUntil: Kind) returns (ok: bool)
      requires current <= |doc|
      modifies this`current, this`errors
      ensures !ok && errors == old(errors) + [ErrorInfo(problem, t.start, t.end)]
      ensures old(current) <= current <= |doc| && doc[current..] == Recover(old(doc[current..]), skipUntil)
    {
      ok := AddError(problem, t);
      RecoverFromError(skipUntil);
    }

    // ----- literals -----

    method DecodeNumberToken(t: Range) returns (d: Option<Data>)
      requires t.start <= t.end <= |doc| && NumberToken(doc[t.start..t.end])
      modifies this`errors
      ensures d == NumberData(cfg, doc[t.start..t.end])
      ensures d.Some? ==> (d.value.Int? || d.value.UInt? || d.value.Real?) && errors == old(errors)
      ensures d.None? ==> errors == old(errors) + [ErrorInfo(NotANumber, t.start, t.end)]
    {
      var text := doc[t.start..t.end];
      var n := DecodeNumber(text);
      match n
      case Signed(i) =>
        d := Some(Int(i));
      case Unsigned(u) =>
        d := Some(UInt(u));
      case Double =>
        match cfg.scanDouble(text)
        case Some(bits) =>
          d := Some(Real(bits));
        case None =>
          var failed := AddError(NotANumber, t);
          d := None;
    }

    method DecodeStringToken(t: Range) returns (d: Decoded)
      requires t.start <= t.end <= |doc| && StringToken(doc[t.start..t.end])
      modifies this`errors
      ensures d == DecodeString(doc[t.start..t.end])
      ensures errors == if d.Bad? then old(errors) + [ErrorInfo(BadString(d.fault), t.start, t.end)] else old(errors)
    {
      d := RunDecodeString(doc[t.start..t.end]);
      if d.Bad? {
        var failed := AddError(BadString(d.fault), t);
      }
    }

    method DecodeName(t: Range) returns (m: MemberName)
      requires t.start <= t.end <= |doc|
      requires t.kind.StringLiteral? ==> StringToken(doc[t.start..t.end])
      requires t.kind.NumberLiteral? ==> NumberToken(doc[t.start..t.end])
      modifies this`errors
      ensures m == NameOf(cfg, Token(t.kind, doc[t.start..t.end], doc[t.end..]))
      ensures errors == if m.Unnamed? then old(errors) + [ErrorInfo(m.problem, t.start, t.end)] else old(errors)
    {
      hide DecodeString, NumberData, StringToken, NumberToken;
      if t.kind.StringLiteral? {
        assert |doc[t.start..t.end]| >= 2 by {
          StringTokenLength(doc[t.start..t.end]);
        }
        var d := DecodeStringToken(t);
        m := if d.Bad? then Unnamed(BadString(d.fault)) else Named(d.text);
      } else if t.kind.NumberLiteral? && cfg.allowNumericKeys {
        var d := DecodeNumberToken(t);
        m := if d.None? then Unnamed(NotANumber) else Named(NumberText(cfg, d.value));
      } else {
        var failed := AddError(MissingMemberName, t);
        m := Unnamed(MissingMemberName);
      }
    }

    // ----- values -----

    function Top(): Value
      requires nodes.Pushed?
      reads this
    {
      nodes.top
    }

    /** The assignments to `currentValue()`. */
    method SetTop(v: Value)
      requires nodes.Pushed?
      modifies this`nodes
      ensures nodes == Pushed(v, old(nodes).below)
    {
      nodes := Pushed(v, nodes.below);
    }

    /** A reading that started with the stack `was` and the errors `errs` has come out as `o`. */
    ghost predicate Yields(o: Outcome, ok: bool, was: Stack, errs: seq<ErrorInfo>)
      requires was.Pushed?
      reads this
    {
      current <= |doc| && ok == o.ok && doc[current..] == o.rest &&
      errors == errs + o.errors && nodes == Pushed(o.node, was.below)
    }

    /** The cases of `readValue` for tokens that are values by themselves, and for all other tokens. */
    method ReadLiteral(t: Range) returns (ok: bool)
      requires t.start <= t.end <= |doc| && nodes.Pushed?
      requires t.kind.StringLiteral? ==> StringToken(doc[t.start..t.end])
      requires t.kind.NumberLiteral? ==> NumberToken(doc[t.start..t.end])
      modifies this`errors, this`nodes
      ensures match ScalarOf(cfg, Token(t.kind, doc[t.start..t.end], doc[t.end..]))
              case Good(data) =>
                ok && errors == old(errors) &&
                nodes == Pushed(Value(data, t.start, t.end), old(nodes).below)
              case Wrong(problem) =>
                !ok && errors == old(errors) + [ErrorInfo(problem, t.start, t.end)] &&
                nodes == Pushed(if problem.ValueExpected? then old(Top()).(start := t.start, limit := t.end)
                                else old(Top()),
                                old(nodes).below)
    {
      hide DecodeString, NumberData, StringToken, NumberToken;
      ok := true;
      if t.kind.NumberLiteral? {
        var d := DecodeNumberToken(t);
        ok := d.Some?;
        if ok {
          SetTop(Value(d.value, t.start, t.end));
        }
      } else if t.kind.StringLiteral? {
        StringTokenLength(doc[t.start..t.end]);
        var d := DecodeStringToken(t);
        ok := d.Decoded?;
        if ok {
          SetTop(Value(Str(CStr(d.text)), t.start, t.end));
        }
      } else if t.kind.TrueWord? {
        SetTop(Value(Bool(true), t.start, t.end));
      } else if t.kind.FalseWord? {
        SetTop(Value(Bool(false), t.start, t.end));
      } else if t.kind.NullWord? {
        SetTop(Value(Null, t.start, t.end));
      } else {
        SetTop(Top().(start := t.start, limit := t.end));
        ok := AddError(ValueExpected, t);
      }
    }

    method ReadValue() returns (ok: bool)
      requires current <= |doc| && nodes.Pushed?
      modifies this`current, this`errors, this`nodes
      ensures old(current) <= current
      ensures Yields(Parser.ReadValue(cfg, |doc|, old(doc[current..]), old(Top())), ok, old(nodes), old(errors))
      decreases |doc| - current, 1
    {
      hide Significant, Suffix, ScalarOf, StringToken, NumberToken, ReadMembers, Parser.ReadArray, Parser.ReadValue;
      ghost var r, node, n := doc[current..], Top(), |doc|;
      LiteralShapes(cfg, r);
      var t := SkipCommentTokens();
      ghost var s := Significant(cfg, r);
      Offsets(doc, t, s);
      if t.kind.ObjectBegin? {
        ReadsObject(cfg, n, r, node);
        ok := ReadObject(t);
        RestLength(doc, current);
        SetTop(Top().(limit := current));
      } else if t.kind.ArrayBegin? {
        ReadsArray(cfg, n, r, node);
        ok := ReadArray(t);
        RestLength(doc, current);
        SetTop(Top().(limit := current));
      } else if t.kind.ArraySeparator? && cfg.allowDroppedNulls {
        ReadsDropped(cfg, n, r, node);
        current := current - 1;
        SetTop(Value(Null, current - 1, current));
        ok := true;
      } else {
        ReadsLiteral(cfg, n, r, node);
        ok := ReadLiteral(t);
      }
    }

    /** The value of `node` once its entry `key` is `v`. */
    static function WithEntry(node: Value, key: Key, v: Value): Value
      requires node.data.Arr? || node.data.Obj?
    {
      match node.data
      case Arr(es) => node.(data := Arr(Put(es, key, v)))
      case Obj(es) => node.(data := Obj(Put(es, key, v)))
    }

    /** Pushes the entry `key` of the value on top, reads into it, and pops it. */
    method ReadEntry(key: Key) returns (ok: bool, ghost v: Outcome)
      requires current <= |doc| && nodes.Pushed? && (Top().data.Arr? || Top().data.Obj?)
      modifies this`current, this`errors, this`nodes
      ensures v == Parser.ReadValue(cfg, |doc|, old(doc[current..]), Get(old(Top()).data.entries, key))
      ensures old(current) <= current
      ensures Yields(v.(node := WithEntry(old(Top()), key, v.node)), ok, old(nodes), old(errors))
      decreases |doc| - current, 2
    {
      hide Suffix, Get, Put, Parser.ReadValue;
      var node := Top();
      nodes := Pushed(Get(node.data.entries, key), nodes);
      v := Parser.ReadValue(cfg, |doc|, doc[current..], Top());
      ok := ReadValue();
      var value := Top();
      nodes := nodes.below;
      SetTop(WithEntry(node, key, value));
    }

    /** A pass through a container's loop has led to `s`; `done` says that the loop is left with `ok`. */
    ghost predicate Stepped(s: Step, done: bool, ok: bool, was: Stack, errs: seq<ErrorInfo>)
      requires was.Pushed?
      reads this
    {
      match s
      case Last(o) => done && Yields(o, ok, was, errs)
      case More(node, rest) => !done && Yields(Outcome(true, node, rest, []), true, was, errs)
    }

    /** The loop body of `readObject` behind the member's name. */
    method ReadMember(name: string) returns (done: bool, ok: bool)
      requires current <= |doc| && nodes.Pushed? && Top().data.Obj?
      modifies this`current, this`errors, this`nodes
      ensures old(current) <= current
      ensures Stepped(Parser.ReadMember(cfg, |doc|, old(doc[current..]), old(Top()), name), done, ok,
                      old(nodes), old(errors))
      decreases |doc| - current, 3
    {
      hide SkipComments, ReadToken, Suffix, Put, Get, Parser.ReadValue, Recover, CStr, Parser.ReadMember, MemberEnd;
      ghost var r, node, n := doc[current..], Top(), |doc|;
      done := true;
      var colon := NextToken();
      Offsets(doc, colon, ReadToken(r));
      if !colon.kind.MemberSeparator? {
        NoColon(cfg, n, r, node, name);
        ok := AddErrorAndRecover(MissingColon, colon, ObjectEnd);
        return;
      }
      MemberUnfold(cfg, n, r, node, name);
      ghost var v;
      ok, v := ReadEntry(Name(CStr(name)));
      MemberEndUnfold(cfg, n, r, v, WithEntry(node, Name(CStr(name)), v.node));
      if !ok {
        RecoverFromError(ObjectEnd);
        return;
      }
      var comma := NextToken();
      Offsets(doc, comma, ReadToken(v.rest));
      if comma.kind !in {ObjectEnd, ArraySeparator, Comment} {
        ok := AddErrorAndRecover(MissingMemberSeparator, comma, ObjectEnd);
        return;
      }
      comma := StepOverComments(comma, v.rest);
      done := comma.kind.ObjectEnd?;
    }

    method ReadObject(tokenStart: Range) returns (ok: bool)
      requires current <= |doc| && nodes.Pushed?
      modifies this`current, this`errors, this`nodes
      ensures old(current) <= current
      ensures Yields(ReadMembers(cfg, |doc|, old(doc[current..]), Value(Obj(Nil), tokenStart.start, 0), ""),
                     ok, old(nodes), old(errors))
      decreases |doc| - current, 0
    {
      hide SkipComments, ReadToken, Suffix, NameOf, StringToken, NumberToken, Parser.ReadMember, ReadMembers, Recover;
      ghost var target := ReadMembers(cfg, |doc|, doc[current..], Value(Obj(Nil), tokenStart.start, 0), "");
      SetTop(Value(Obj(Nil), tokenStart.start, 0));
      var name := "";
      var done := false;
      ok := false;
      while !done
        invariant old(current) <= current <= |doc| && nodes.Pushed?
        invariant done ==> Yields(target, ok, old(nodes), old(errors))
        invariant !done ==> errors == old(errors) && nodes.below == old(nodes).below && Top().data.Obj?
        invariant !done ==> target == ReadMembers(cfg, |doc|, doc[current..], Top(), name)
        decreases |doc| - current, !done
      {
        LiteralShapes(cfg, doc[current..]);
        MembersUnfold(cfg, |doc|, doc[current..], Top(), name);
        var tokenName := NextNonComment();
        if tokenName.kind.ObjectEnd? && name == "" {
          return true;
        }
        var m := DecodeName(tokenName);
        if m.Unnamed? {
          RecoverFromError(ObjectEnd);
          return false;
        }
        name := m.name;
        done, ok := ReadMember(name);
      }
    }

    method ReadArray(tokenStart: Range) returns (ok: bool)
      requires current <= |doc| && nodes.Pushed?
      modifies this`current, this`errors, this`nodes
      ensures old(current) <= current
      ensures Yields(Parser.ReadArray(cfg, |doc|, old(doc[current..]), Value(Arr(Nil), tokenStart.start, 0)),
                     ok, old(nodes), old(errors))
      decreases |doc| - current, 5
    {
      hide SkipSpaces, ReadToken, Suffix, Parser.ReadElement, ReadElements;
      ghost var target := Parser.ReadArray(cfg, |doc|, doc[current..], Value(Arr(Nil), tokenStart.start, 0));
      SetTop(Value(Arr(Nil), tokenStart.start, 0));
      SkipBlanks();
      if Peek() == ']' {
        EmptyArray(doc[current..]);
        var endArray := NextToken();
        return true;
      }
      var index := 0;
      var done := false;
      ok := false;
      while !done
        invariant old(current) <= current <= |doc| && nodes.Pushed?
        invariant done ==> Yields(target, ok, old(nodes), old(errors))
        invariant !done ==> errors == old(errors) && nodes.below == old(nodes).below && Top().data.Arr?
        invariant !done ==> target == ReadElements(cfg, |doc|, doc[current..], Top(), index)
        decreases |doc| - current, !done
      {
        ElementsUnfold(cfg, |doc|, doc[current..], Top(), index);
        done, ok := ReadElement(index);
        index := index + 1;
      }
    }

    /** The loop body of `readArray`. */
    method ReadElement(index: nat) returns (done: bool, ok: bool)
      requires current <= |doc| && nodes.Pushed? && Top().data.Arr?
      modifies this`current, this`errors, this`nodes
      ensures old(current) <= current
      ensures Stepped(Parser.ReadElement(cfg, |doc|, old(doc[current..]), old(Top()), index), done, ok,
                      old(nodes), old(errors))
      decreases |doc| - current, 4
    {
      hide SkipComments, Suffix, Put, Get, Parser.ReadValue, Recover;
      done := true;
      ghost var v;
      ok, v := ReadEntry(Idx(index));
      if !ok {
        RecoverFromError(ArrayEnd);
        return;
      }
      var t := NextNonComment();
      if t.kind !in {ArraySeparator, ArrayEnd} {
        ok := AddErrorAndRecover(MissingElementSeparator, t, ArrayEnd);
        return;
      }
      done := t.kind.ArrayEnd?;
    }

    // ----- documents -----

    method Parse(document: string, root: Value) returns (ok: bool, result: Value)
      modifies this
      ensures doc == document && current <= |doc| && nodes == Pushed(result, Empty)
      ensures var o := Parser.Parse(cfg, document, root);
              ok == o.ok && result == o.node && errors == o.errors && doc[current..] == o.rest
    {
      hide Significant, Parser.ReadValue, Suffix;
      doc, current, errors := document, 0, [];
      while nodes.Pushed?
        invariant doc == document && current == 0 && errors == []
        decreases nodes
      {
        nodes := nodes.below;
      }
      nodes := Pushed(root, nodes);
      assert doc[0..] == document;
      ok := ReadValue();
      var token := SkipCommentTokens();
      result := Top();
      if cfg.strictRoot && !result.data.Arr? && !result.data.Obj? {
        token := Range(Erroneous, 0, |doc|);
        ok := AddError(RootNotContainer, token);
      }
    }
  }

  /** The offsets of a range are those of its token. */
  lemma Offsets(doc: string, t: Range, s: Token)
    requires t.start <= t.end <= |doc| && doc[t.end..] == s.rest && doc[t.start..t.end] == s.text
    ensures StartOf(|doc|, s) == t.start && EndOf(|doc|, s) == t.end
    ensures |s.text| == 1 ==> t.end >= 1 && doc[t.end - 1..] == s.text + s.rest
  {
    assert |s.rest| == |doc| - t.end && |s.text| == t.end - t.start;
    if |s.text| == 1 {
      assert doc[t.end - 1..] == doc[t.start..t.end] + doc[t.end..];
    }
  }

  lemma RestLength(doc: string, current: nat)
    requires current <= |doc|
    ensures |doc[current..]| == |doc| - current
  {
  }

  lemma RangeText(doc: string, start: nat, current: nat, kind: Kind)
    requires start <= current <= |doc|
    requires Suffix(doc[current..], doc[start..])
    ensures MakeToken(doc[start..], Cut(kind, doc[current..])) == Token(kind, doc[start..current], doc[current..])
  {
    assert doc[start..][..current - start] == doc[start..current];
  }

  lemma EmptyArray(s: string)
    requires s != "" && s[0] == ']'
    ensures ReadToken(s).rest == s[1..]
  {
  }

  lemma StringTokenLength(text: string)
    requires StringToken(text)
    ensures |text| >= 2
  {
  }

  /** The literal tokens a value or a name is read from have the form their decoders expect. */
  lemma LiteralShapes(c: Config, r: string)
    ensures var t := Significant(c, r);
            (t.kind.StringLiteral? ==> StringToken(t.text)) && (t.kind.NumberLiteral? ==> NumberToken(t.text)) &&
            (t.kind.ArraySeparator? ==> |t.text| == 1)
    ensures var t := SkipComments(r);
            (t.kind.StringLiteral? ==> StringToken(t.text)) && (t.kind.NumberLiteral? ==> NumberToken(t.text))
    decreases |r|
  {
    hide ReadToken, StringToken, NumberToken;
    LiteralShape(r);
    SeparatorShape(r);
    if ReadToken(r).kind.Comment? && ReadToken(r).text != "" {
      LiteralShapes(c.(allowComments := true), ReadToken(r).rest);
    }
  }

  lemma SeparatorShape(r: string)
    ensures ReadToken(r).kind.ArraySeparator? ==> ReadToken(r).text == ","
  {
    hide ScanString, ScanComment, ScanWord, SkipNumber, SkipSpaces;
  }
}

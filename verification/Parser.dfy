/**
 * What `Reader` computes, as functions of the text that is left to read.  `n` is the length of the
 * whole document, so that the offset of a suffix `r` is `n - |r|`.  Comments are never collected.
 */
module Parser {
  import opened Text
  import opened Numbers
  import opened Strings
  import opened Tokens
  import opened Values

  /** The reader's features, and the two C library conversions of doubles, which are left open. */
  datatype Config = Config(
    allowComments: bool,
    strictRoot: bool,
    allowDroppedNulls: bool,
    allowNumericKeys: bool,
    scanDouble: string -> Option<nat>,
    printDouble: nat -> string
  )

  datatype Problem =
    | ValueExpected
    | NotANumber
    | BadString(fault: Fault)
    | MissingColon
    | MissingMemberSeparator
    | MissingMemberName
    | MissingElementSeparator
    | RootNotContainer

  datatype ErrorInfo = ErrorInfo(problem: Problem, start: int, end: int)

  datatype Outcome = Outcome(ok: bool, node: Value, rest: string, errors: seq<ErrorInfo>)

  function StartOf(n: int, t: Token): int {
    n - |t.rest| - |t.text|
  }

  function EndOf(n: int, t: Token): int {
    n - |t.rest|
  }

  function ErrorAt(problem: Problem, n: int, t: Token): ErrorInfo {
    ErrorInfo(problem, StartOf(n, t), EndOf(n, t))
  }

  // ----- tokens between values -----

  /** The first token that is not a comment. */
  function SkipComments(r: string): (t: Token)
    ensures Suffix(t.rest, r) && (t.text != "" ==> |t.rest| < |r|)
    ensures t.text == "" ==> t == Token(EndOfStream, "", "")
    ensures Suffix(t.text + t.rest, r)
    ensures !t.kind.Comment?
    decreases |r|
  {
    hide *;
    var t := ReadToken(r);
    if t.kind.Comment? && t.text != "" then
      var u := SkipComments(t.rest);
      SuffixTrans(u.rest, t.rest, r);
      SuffixTrans(u.text + u.rest, t.rest, r);
      u
    else t
  }

  /** `skipCommentTokens`. */
  function Significant(c: Config, r: string): (t: Token)
    ensures Suffix(t.rest, r) && (t.text != "" ==> |t.rest| < |r|)
    ensures t.text == "" ==> t == Token(EndOfStream, "", "")
    ensures Suffix(t.text + t.rest, r)
  {
    hide CutToken;
    if c.allowComments then SkipComments(r) else ReadToken(r)
  }

  /** `recoverFromError`: where reading goes on. */
  function Recover(r: string, until: Kind): (rest: string)
    ensures Suffix(rest, r)
    decreases |r|
  {
    hide CutToken;
    var t := ReadToken(r);
    if t.kind == until || t.kind.EndOfStream? then t.rest else Recover(t.rest, until)
  }

  // ----- scalars -----

  function NumberData(c: Config, text: string): Option<Data> {
    match NumberOf(text)
    case Signed(i) => Some(Int(i))
    case Unsigned(u) => Some(UInt(u))
    case Double =>
      match c.scanDouble(text)
      case Some(bits) => Some(Real(bits))
      case None => None
  }

  /** `asString` of a number. */
  function NumberText(c: Config, d: Data): string
    requires d.Int? || d.UInt? || d.Real?
  {
    match d
    case Int(i) => IntText(i as int)
    case UInt(u) => IntText(u as int)
    case Real(bits) => c.printDouble(bits)
  }

  datatype Scalar = Good(data: Data) | Wrong(problem: Problem)

  /** The value of a one-token literal; strings are kept up to their first NUL. */
  function ScalarOf(c: Config, t: Token): Scalar {
    match t.kind
    case NullWord => Good(Null)
    case TrueWord => Good(Bool(true))
    case FalseWord => Good(Bool(false))
    case NumberLiteral =>
      (match NumberData(c, t.text)
       case Some(d) => Good(d)
       case None => Wrong(NotANumber))
    case StringLiteral =>
      if |t.text| < 2 then Wrong(ValueExpected)
      else
        (match DecodeString(t.text)
         case Decoded(s, _) => Good(Str(CStr(s)))
         case Bad(f) => Wrong(BadString(f)))
    case _ => Wrong(ValueExpected)
  }

  datatype MemberName = Named(name: string) | Unnamed(problem: Problem)

  /** The name of an object member: a string, or a number where numeric keys are allowed. */
  function NameOf(c: Config, t: Token): (m: MemberName)
    ensures m.Named? ==> !t.kind.EndOfStream?
  {
    if t.kind.StringLiteral? && |t.text| >= 2 then
      match DecodeString(t.text)
      case Decoded(s, _) => Named(s)
      case Bad(f) => Unnamed(BadString(f))
    else if t.kind.NumberLiteral? && c.allowNumericKeys then
      match NumberData(c, t.text)
      case Some(d) => Named(NumberText(c, d))
      case None => Unnamed(NotANumber)
    else Unnamed(MissingMemberName)
  }

  // ----- values -----

  /** An error at the token `t`, which was read from `r`, and the recovery from it. */
  function Fail(problem: Problem, n: int, t: Token, ghost r: string, node: Value, until: Kind): (o: Outcome)
    requires Suffix(t.rest, r)
    ensures Suffix(o.rest, r) && !o.ok && o.node == node && |o.errors| == 1
  {
    var rest := Recover(t.rest, until);
    SuffixTrans(rest, t.rest, r);
    Outcome(false, node, rest, [ErrorAt(problem, n, t)])
  }

  /** `readValue`; `node` is the value as it was before. */
  function ReadValue(c: Config, n: int, r: string, node: Value): (o: Outcome)
    ensures Suffix(o.rest, r) && |o.errors| == (if o.ok then 0 else 1)
    decreases |r|, 1
  {
    hide *;
    var t := Significant(c, r);
    if t.kind.ObjectBegin? then
      var o := ReadMembers(c, n, t.rest, Value(Obj(Nil), StartOf(n, t), 0), "");
      SuffixTrans(o.rest, t.rest, r);
      o.(node := o.node.(limit := n - |o.rest|))
    else if t.kind.ArrayBegin? then
      var o := ReadArray(c, n, t.rest, Value(Arr(Nil), StartOf(n, t), 0));
      SuffixTrans(o.rest, t.rest, r);
      o.(node := o.node.(limit := n - |o.rest|))
    else if t.kind.ArraySeparator? && c.allowDroppedNulls then
      // the comma is un-read
      Outcome(true, Value(Null, StartOf(n, t) - 1, StartOf(n, t)), t.text + t.rest, [])
    else
      match ScalarOf(c, t)
      case Good(data) => Outcome(true, Value(data, StartOf(n, t), EndOf(n, t)), t.rest, [])
      case Wrong(problem) =>
        var node' := if problem.ValueExpected? then node.(start := StartOf(n, t), limit := EndOf(n, t)) else node;
        Outcome(false, node', t.rest, [ErrorAt(problem, n, t)])
  }

  /** What one pass through the loop of a container leads to. */
  datatype Step = Last(o: Outcome) | More(node: Value, rest: string)

  /** The loop of `readObject`; `name` is the name of the member before. */
  function ReadMembers(c: Config, n: int, r: string, node: Value, name: string): (o: Outcome)
    requires node.data.Obj?
    ensures Suffix(o.rest, r) && |o.errors| == (if o.ok then 0 else 1)
    ensures o.node.data.Obj?
    decreases |r|, 0
  {
    hide *;
    var t := SkipComments(r);
    if t.kind.ObjectEnd? && name == "" then Outcome(true, node, t.rest, [])
    else
      match NameOf(c, t)
      case Unnamed(problem) => Fail(problem, n, t, r, node, ObjectEnd)
      case Named(name') =>
        match ReadMember(c, n, t.rest, node, name')
        case Last(o) => SuffixTrans(o.rest, t.rest, r); o
        case More(node', rest) =>
          SuffixTrans(rest, t.rest, r);
          var o := ReadMembers(c, n, rest, node', name');
          SuffixTrans(o.rest, rest, r);
          o
  }

  /** A member, from behind its name to behind the comma or brace that ends it. */
  function ReadMember(c: Config, n: int, r: string, node: Value, name: string): (s: Step)
    requires node.data.Obj?
    ensures s.Last? ==> Suffix(s.o.rest, r) && |s.o.errors| == (if s.o.ok then 0 else 1) && s.o.node.data.Obj?
    ensures s.More? ==> Suffix(s.rest, r) && s.node.data.Obj?
    decreases |r|, 2
  {
    hide *;
    var colon := ReadToken(r);
    if !colon.kind.MemberSeparator? then Last(Fail(MissingColon, n, colon, r, node, ObjectEnd))
    else
      var key := Name(CStr(name));
      var v := ReadValue(c, n, colon.rest, Get(node.data.entries, key));
      SuffixTrans(v.rest, colon.rest, r);
      MemberEnd(c, n, r, v, node.(data := Obj(Put(node.data.entries, key, v.node))))
  }

  /** What follows the value `v` of a member. */
  function MemberEnd(c: Config, n: int, ghost r: string, v: Outcome, node: Value): (s: Step)
    requires Suffix(v.rest, r) && |v.errors| == (if v.ok then 0 else 1) && node.data.Obj?
    ensures s.Last? ==> Suffix(s.o.rest, r) && |s.o.errors| == (if s.o.ok then 0 else 1) && s.o.node.data.Obj?
    ensures s.More? ==> Suffix(s.rest, r) && s.node.data.Obj?
  {
    hide *;
    if !v.ok then
      var rest := Recover(v.rest, ObjectEnd);
      SuffixTrans(rest, v.rest, r);
      Last(Outcome(false, node, rest, v.errors))
    else
      var comma := ReadToken(v.rest);
      SuffixTrans(comma.rest, v.rest, r);
      if comma.kind !in {ObjectEnd, ArraySeparator, Comment} then
        Last(Fail(MissingMemberSeparator, n, comma, r, node, ObjectEnd))
      else
        // behind a comment any token passes for a comma
        var last := SkipComments(v.rest);
        SuffixTrans(last.rest, v.rest, r);
        if last.kind.ObjectEnd? then Last(Outcome(true, node, last.rest, [])) else More(node, last.rest)
  }

  /** `readArray`, from behind the bracket. */
  function ReadArray(c: Config, n: int, r: string, node: Value): (o: Outcome)
    requires node.data.Arr?
    ensures Suffix(o.rest, r) && |o.errors| == (if o.ok then 0 else 1)
    ensures o.node.data.Arr?
    decreases |r|, 4
  {
    var s := SkipSpaces(r);
    if s != "" && s[0] == ']' then Outcome(true, node, s[1..], [])
    else ReadElements(c, n, s, node, 0)
  }

  function ReadElements(c: Config, n: int, r: string, node: Value, index: nat): (o: Outcome)
    requires node.data.Arr?
    ensures Suffix(o.rest, r) && |o.errors| == (if o.ok then 0 else 1)
    ensures o.node.data.Arr?
    decreases |r|, 3
  {
    hide *;
    match ReadElement(c, n, r, node, index)
    case Last(o) => o
    case More(node', rest) =>
      var o := ReadElements(c, n, rest, node', index + 1);
      SuffixTrans(o.rest, rest, r);
      o
  }

  /** An element, to behind the comma or bracket that ends it. */
  function ReadElement(c: Config, n: int, r: string, node: Value, index: nat): (s: Step)
    requires node.data.Arr?
    ensures s.Last? ==> Suffix(s.o.rest, r) && |s.o.errors| == (if s.o.ok then 0 else 1) && s.o.node.data.Arr?
    ensures s.More? ==> Suffix(s.rest, r) && |s.rest| < |r| && s.node.data.Arr?
    decreases |r|, 2
  {
    hide *;
    var v := ReadValue(c, n, r, At(node.data.entries, index));
    ElementEnd(c, n, r, v, node.(data := Arr(Put(node.data.entries, Idx(index), v.node))))
  }

  function ElementEnd(c: Config, n: int, ghost r: string, v: Outcome, node: Value): (s: Step)
    requires Suffix(v.rest, r) && |v.errors| == (if v.ok then 0 else 1) && node.data.Arr?
    ensures s.Last? ==> Suffix(s.o.rest, r) && |s.o.errors| == (if s.o.ok then 0 else 1) && s.o.node.data.Arr?
    ensures s.More? ==> Suffix(s.rest, r) && |s.rest| < |r| && s.node.data.Arr?
  {
    hide *;
    if !v.ok then
      var rest := Recover(v.rest, ArrayEnd);
      SuffixTrans(rest, v.rest, r);
      Last(Outcome(false, node, rest, v.errors))
    else
      var t := SkipComments(v.rest);
      SuffixTrans(t.rest, v.rest, r);
      if t.kind.ArrayEnd? then Last(Outcome(true, node, t.rest, []))
      else if t.kind.ArraySeparator? then More(node, t.rest)
      else Last(Fail(MissingElementSeparator, n, t, r, node, ArrayEnd))
  }

  // ----- the parser, one step at a time -----

  lemma ReadsObject(c: Config, n: int, r: string, node: Value)
    requires Significant(c, r).kind.ObjectBegin?
    ensures var t := Significant(c, r);
            var o := ReadMembers(c, n, t.rest, Value(Obj(Nil), StartOf(n, t), 0), "");
            ReadValue(c, n, r, node) == o.(node := o.node.(limit := n - |o.rest|))
  {
    hide Significant, ReadMembers, Suffix;
  }

  lemma ReadsArray(c: Config, n: int, r: string, node: Value)
    requires Significant(c, r).kind.ArrayBegin?
    ensures var t := Significant(c, r);
            var o := ReadArray(c, n, t.rest, Value(Arr(Nil), StartOf(n, t), 0));
            ReadValue(c, n, r, node) == o.(node := o.node.(limit := n - |o.rest|))
  {
    hide Significant, ReadArray, Suffix;
  }

  lemma ReadsDropped(c: Config, n: int, r: string, node: Value)
    requires Significant(c, r).kind.ArraySeparator? && c.allowDroppedNulls
    ensures var t := Significant(c, r);
            ReadValue(c, n, r, node) ==
              Outcome(true, Value(Null, StartOf(n, t) - 1, StartOf(n, t)), t.text + t.rest, [])
  {
    hide Significant, Suffix;
  }

  /** All other tokens are a value by themselves or none. */
  lemma ReadsLiteral(c: Config, n: int, r: string, node: Value)
    requires var kind := Significant(c, r).kind;
             !kind.ObjectBegin? && !kind.ArrayBegin? && !(kind.ArraySeparator? && c.allowDroppedNulls)
    ensures var t := Significant(c, r);
            var s := ScalarOf(c, t);
            ReadValue(c, n, r, node) ==
              if s.Good? then Outcome(true, Value(s.data, StartOf(n, t), EndOf(n, t)), t.rest, [])
              else
                Outcome(false,
                        if s.problem.ValueExpected? then node.(start := StartOf(n, t), limit := EndOf(n, t)) else node,
                        t.rest, [ErrorAt(s.problem, n, t)])
  {
    hide Significant, ScalarOf, Suffix;
  }

  lemma ReadsScalar(c: Config, n: int, r: string, node: Value)
    requires ScalarOf(c, Significant(c, r)).Good?
    ensures var t := Significant(c, r);
            ReadValue(c, n, r, node) ==
              Outcome(true, Value(ScalarOf(c, t).data, StartOf(n, t), EndOf(n, t)), t.rest, [])
  {
    GoodKinds(c, Significant(c, r));
    hide Significant, ScalarOf, Suffix;
  }

  lemma GoodKinds(c: Config, t: Token)
    ensures ScalarOf(c, t).Good? ==>
              !t.kind.ObjectBegin? && !t.kind.ArrayBegin? && !t.kind.ArraySeparator? && !t.kind.EndOfStream?
  {
  }

  lemma MemberUnfold(c: Config, n: int, r: string, node: Value, name: string)
    requires node.data.Obj? && ReadToken(r).kind.MemberSeparator?
    ensures var v := ReadValue(c, n, ReadToken(r).rest, Get(node.data.entries, Name(CStr(name))));
            Suffix(v.rest, r) &&
            ReadMember(c, n, r, node, name) ==
              MemberEnd(c, n, r, v, node.(data := Obj(Put(node.data.entries, Name(CStr(name)), v.node))))
  {
    var v := ReadValue(c, n, ReadToken(r).rest, Get(node.data.entries, Name(CStr(name))));
    SuffixTrans(v.rest, ReadToken(r).rest, r);
    hide ReadToken, ReadValue, CStr, Get, Put, MemberEnd, Suffix;
  }

  lemma NoColon(c: Config, n: int, r: string, node: Value, name: string)
    requires node.data.Obj? && !ReadToken(r).kind.MemberSeparator?
    ensures ReadMember(c, n, r, node, name) == Last(Fail(MissingColon, n, ReadToken(r), r, node, ObjectEnd))
  {
    hide ReadToken, Fail, Suffix;
  }

  /** What follows a member's value, case by case. */
  lemma MemberEndUnfold(c: Config, n: int, r: string, v: Outcome, node: Value)
    requires Suffix(v.rest, r) && |v.errors| == (if v.ok then 0 else 1) && node.data.Obj?
    ensures var comma, last := ReadToken(v.rest), SkipComments(v.rest);
            MemberEnd(c, n, r, v, node) ==
              if !v.ok then Last(Outcome(false, node, Recover(v.rest, ObjectEnd), v.errors))
              else if comma.kind !in {ObjectEnd, ArraySeparator, Comment} then
                Last(Outcome(false, node, Recover(comma.rest, ObjectEnd), [ErrorAt(MissingMemberSeparator, n, comma)]))
              else if last.kind.ObjectEnd? then Last(Outcome(true, node, last.rest, []))
              else More(node, last.rest)
  {
    hide ReadToken, SkipComments, Recover, Suffix;
  }

  lemma ElementUnfold(c: Config, n: int, r: string, node: Value, index: nat)
    requires node.data.Arr?
    ensures var v := ReadValue(c, n, r, At(node.data.entries, index));
            ReadElement(c, n, r, node, index) ==
              ElementEnd(c, n, r, v, node.(data := Arr(Put(node.data.entries, Idx(index), v.node))))
  {
    hide ReadValue, Get, Put, ElementEnd, Suffix;
  }

  lemma MembersUnfold(c: Config, n: int, r: string, node: Value, name: string)
    requires node.data.Obj?
    ensures var t := SkipComments(r);
            ReadMembers(c, n, r, node, name) ==
              if t.kind.ObjectEnd? && name == "" then Outcome(true, node, t.rest, [])
              else
                match NameOf(c, t)
                case Unnamed(problem) => Fail(problem, n, t, r, node, ObjectEnd)
                case Named(name') =>
                  match ReadMember(c, n, t.rest, node, name')
                  case Last(o) => o
                  case More(node', rest) => ReadMembers(c, n, rest, node', name')
  {
    hide SkipComments, NameOf, Fail, ReadMember, Suffix;
  }

  lemma ElementsUnfold(c: Config, n: int, r: string, node: Value, index: nat)
    requires node.data.Arr?
    ensures ReadElements(c, n, r, node, index) ==
              match ReadElement(c, n, r, node, index)
              case Last(o) => o
              case More(node', rest) => ReadElements(c, n, rest, node', index + 1)
  {
    hide ReadElement, Suffix;
  }

  /** `parse`: text behind the root value is ignored. */
  function Parse(c: Config, doc: string, root: Value): (o: Outcome)
    ensures !c.strictRoot ==> |o.errors| == (if o.ok then 0 else 1)
    ensures o.ok <==> o.errors == []
  {
    var o := ReadValue(c, |doc|, doc, root);
    var last := Significant(c, o.rest);
    if c.strictRoot && !o.node.data.Arr? && !o.node.data.Obj? then
      Outcome(false, o.node, last.rest, o.errors + [ErrorInfo(RootNotContainer, 0, |doc|)])
    else o.(rest := last.rest)
  }

  /** One error for a value that cannot be read, and one for a root the strict root feature refuses. */
  lemma ErrorsCounted(c: Config, doc: string, root: Value)
    ensures var o, v := Parse(c, doc, root), ReadValue(c, |doc|, doc, root);
            |o.errors| == (if v.ok then 0 else 1) +
                          (if c.strictRoot && !v.node.data.Arr? && !v.node.data.Obj? then 1 else 0)
    ensures Parse(c, doc, root).node == ReadValue(c, |doc|, doc, root).node
  {
    hide ReadValue, Significant;
  }
}

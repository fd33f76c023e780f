/** The login message of `TClientNode`, which is put together as text and parsed. */
module Logins {
  import opened Text
  import opened Numbers
  import opened Strings
  import opened Tokens
  import opened Values
  import opened Parser
  import opened Layout
  import opened Streams
  import opened RoundTrip
  import opened Messages
  import opened Grammar
  import Wire

  const MSG_LOGIN_NAME := "MSG_LOGIN"
  const BROKER_ID: nat := 1000

  /** A line of the text. */
  function Line(key: string, value: string): string {
    "\"" + key + "\": \"" + value + "\""
  }

  /** What stands between the sentinels. */
  function LoginDocument(id: nat): string {
    "{\n" + Line("message_name", MSG_LOGIN_NAME) + ",\n" + Line("message_from", Numeral(id)) + ",\n" +
    Line("message_to", Numeral(BROKER_ID)) + "\n}"
  }

  function LoginSource(id: nat): string {
    SENTINEL_BEGIN + "\n" + LoginDocument(id) + "\n" + SENTINEL_END + "\n"
  }

  /** The message it stands for. */
  function LoginRoot(id: nat): Value {
    Plain(Obj(Cons(Name("message_from"), Plain(Str(Numeral(id))),
              Cons(Name("message_name"), Plain(Str(MSG_LOGIN_NAME)),
              Cons(Name("message_to"), Plain(Str(Numeral(BROKER_ID))), Nil)))))
  }

  // ----- its tokens -----

  /** A string that is its own escaped form, without '#'. */
  predicate Simple(s: string) {
    forall i :: 0 <= i < |s| ==> !NeedsEscape(s[i]) && s[i] != NUL && s[i] != '#'
  }

  lemma SimpleStrings(id: nat)
    ensures Simple("message_name") && Simple("message_from") && Simple("message_to") && Simple(MSG_LOGIN_NAME)
    ensures Simple(Numeral(id))
  {
  }

  lemma SimpleQuote(s: string)
    requires Simple(s)
    ensures Quote(s) == "\"" + s + "\"" && NulFree(s) && '#' !in Quote(s)
  {
    NothingToEscape(s);
    hide Escapes, NeedsEscape;
  }

  function QuotedToken(s: string): Lexeme {
    Lexeme(StringLiteral, Quote(s))
  }

  function LineTokens(key: string, value: string): seq<Lexeme> {
    [QuotedToken(key), COLON, QuotedToken(value)]
  }

  lemma LineScans(key: string, value: string)
    requires Simple(key) && Simple(value)
    ensures Scans(Line(key, value), LineTokens(key, value)) && Framed(Line(key, value))
  {
    hide Scans, Quote, Simple;
    SimpleQuote(key);
    SimpleQuote(value);
    StringScans(key);
    StringScans(value);
    Punctuation(":");
    Blank(" ");
    Glue(":", " ", [COLON], []);
    assert [COLON] + [] == [COLON] && ":" + " " == ": ";
    Glue(": ", Quote(value), [COLON], [QuotedToken(value)]);
    Glue(Quote(key), ": " + Quote(value), [QuotedToken(key)], [COLON] + [QuotedToken(value)]);
    assert Quote(key) + (": " + Quote(value)) == Line(key, value);
    assert [QuotedToken(key)] + ([COLON] + [QuotedToken(value)]) == LineTokens(key, value);
  }

  /** A text that can stand next to any other. */
  predicate Framed(s: string) {
    s != "" && !NumberChar(s[0]) && !NumberChar(s[|s| - 1])
  }

  lemma GlueFramed(a: string, b: string, ls: seq<Lexeme>, ms: seq<Lexeme>)
    requires Scans(a, ls) && Scans(b, ms) && Framed(a) && Framed(b)
    ensures Scans(a + b, ls + ms) && Framed(a + b)
  {
    hide Scans;
    Glue(a, b, ls, ms);
  }

  function LoginTokens(id: nat): seq<Lexeme> {
    [OPEN_OBJECT] + (LineTokens("message_name", MSG_LOGIN_NAME) + ([COMMA] + (LineTokens("message_from", Numeral(id)) +
    ([COMMA] + (LineTokens("message_to", Numeral(BROKER_ID)) + [CLOSE_OBJECT])))))
  }

  lemma SignsScan()
    ensures Scans("{\n", [OPEN_OBJECT]) && Scans(",\n", [COMMA]) && Scans("\n}", [CLOSE_OBJECT])
    ensures Framed("{\n") && Framed(",\n") && Framed("\n}")
  {
    hide Scans;
    Punctuation("{");
    Punctuation(",");
    Punctuation("}");
    Blank("\n");
    Glue("{", "\n", [OPEN_OBJECT], []);
    Glue(",", "\n", [COMMA], []);
    Glue("\n", "}", [], [CLOSE_OBJECT]);
    assert [OPEN_OBJECT] + [] == [OPEN_OBJECT] && [COMMA] + [] == [COMMA] && [] + [CLOSE_OBJECT] == [CLOSE_OBJECT];
    assert "{" + "\n" == "{\n" && "," + "\n" == ",\n" && "\n" + "}" == "\n}";
  }

  lemma LoginScans(id: nat)
    ensures Scans(LoginDocument(id), LoginTokens(id))
  {
    SimpleStrings(id);
    SimpleStrings(BROKER_ID);
    SignsScan();
    hide Scans, Simple, Line, LineTokens, Framed, Numeral;
    LineScans("message_name", MSG_LOGIN_NAME);
    LineScans("message_from", Numeral(id));
    LineScans("message_to", Numeral(BROKER_ID));
    var a, b, d := Line("message_name", MSG_LOGIN_NAME), Line("message_from", Numeral(id)),
                   Line("message_to", Numeral(BROKER_ID));
    var ls, ms, ns := LineTokens("message_name", MSG_LOGIN_NAME), LineTokens("message_from", Numeral(id)),
                      LineTokens("message_to", Numeral(BROKER_ID));
    GlueFramed(d, "\n}", ns, [CLOSE_OBJECT]);
    GlueFramed(",\n", d + "\n}", [COMMA], ns + [CLOSE_OBJECT]);
    GlueFramed(b, ",\n" + (d + "\n}"), ms, [COMMA] + (ns + [CLOSE_OBJECT]));
    GlueFramed(",\n", b + (",\n" + (d + "\n}")), [COMMA], ms + ([COMMA] + (ns + [CLOSE_OBJECT])));
    GlueFramed(a, ",\n" + (b + (",\n" + (d + "\n}"))), ls, [COMMA] + (ms + ([COMMA] + (ns + [CLOSE_OBJECT]))));
    GlueFramed("{\n", a + (",\n" + (b + (",\n" + (d + "\n}")))), [OPEN_OBJECT],
               ls + ([COMMA] + (ms + ([COMMA] + (ns + [CLOSE_OBJECT])))));
    assert LoginDocument(id) == "{\n" + (a + (",\n" + (b + (",\n" + (d + "\n}")))));
  }

  lemma LineFree(key: string, value: string)
    requires Simple(key) && Simple(value)
    ensures FreeOf(LineTokens(key, value), '#')
  {
    SimpleQuote(key);
    SimpleQuote(value);
  }

  lemma FreeOfBoth(a: seq<Lexeme>, b: seq<Lexeme>, x: char)
    requires FreeOf(a, x) && FreeOf(b, x)
    ensures FreeOf(a + b, x)
  {
  }

  lemma SignsFree()
    ensures FreeOf([OPEN_OBJECT], '#') && FreeOf([COMMA], '#') && FreeOf([CLOSE_OBJECT], '#')
  {
  }

  lemma LoginHashFree(id: nat)
    ensures Wire.HashFree(LoginDocument(id))
  {
    hide Scans, Simple, LineTokens, LoginDocument, FreeOf, Lex, Numeral, Wire.HashFree;
    SimpleStrings(id);
    SimpleStrings(BROKER_ID);
    LineFree("message_name", MSG_LOGIN_NAME);
    LineFree("message_from", Numeral(id));
    LineFree("message_to", Numeral(BROKER_ID));
    SignsFree();
    LoginScans(id);
    Unpack(LoginDocument(id), LoginTokens(id));
    var ls, ms, ns := LineTokens("message_name", MSG_LOGIN_NAME), LineTokens("message_from", Numeral(id)),
                      LineTokens("message_to", Numeral(BROKER_ID));
    FreeOfBoth(ns, [CLOSE_OBJECT], '#');
    FreeOfBoth([COMMA], ns + [CLOSE_OBJECT], '#');
    FreeOfBoth(ms, [COMMA] + (ns + [CLOSE_OBJECT]), '#');
    FreeOfBoth([COMMA], ms + ([COMMA] + (ns + [CLOSE_OBJECT])), '#');
    FreeOfBoth(ls, [COMMA] + (ms + ([COMMA] + (ns + [CLOSE_OBJECT]))), '#');
    FreeOfBoth([OPEN_OBJECT], ls + ([COMMA] + (ms + ([COMMA] + (ns + [CLOSE_OBJECT])))), '#');
    OnlyInTokens(LoginDocument(id), '#');
    NoHash(LoginDocument(id));
  }

  lemma NoHash(s: string)
    requires '#' !in s
    ensures Wire.HashFree(s)
  {
  }

  // ----- what it is read as -----

  function LineMember(key: string, value: string): Member {
    Member([], QuotedToken(key), COLON, Leaf([], QuotedToken(value)))
  }

  lemma LineMemberIs(c: Config, key: string, value: string)
    requires Simple(key) && Simple(value)
    ensures ValidMember(c, LineMember(key, value)) && NameIn(c, QuotedToken(key)) == Named(key)
    ensures MemberYield(LineMember(key, value)) == LineTokens(key, value)
    ensures forall es :: WithMember(c, LineMember(key, value), es) == Put(es, Name(key), Plain(Str(value)))
  {
    hide Simple, Quote, NameOf, ScalarOf, Put, CStr;
    SimpleQuote(key);
    SimpleQuote(value);
    NameReadsBack(c, key, TokenOf(QuotedToken(key)));
    StringReadsBack(c, value);
    assert ValidTree(c, Leaf([], QuotedToken(value)));
  }

  lemma StringReadsBack(c: Config, value: string)
    requires NulFree(value)
    ensures ScalarOf(c, TokenOf(QuotedToken(value))) == Good(Str(value))
  {
    hide ScalarOf, Quote;
    ScalarReadsBack(c, Plain(Str(value)), TokenOf(QuotedToken(value)));
  }

  function LoginMembers(id: nat): Members {
    MoreMembers(LineMember("message_name", MSG_LOGIN_NAME), [], COMMA,
                MoreMembers(LineMember("message_from", Numeral(id)), [], COMMA,
                            LastMember(LineMember("message_to", Numeral(BROKER_ID)), [], CLOSE_OBJECT)))
  }

  lemma {:induction false} BeforeBehind(p: string, a: string, b: string)
    ensures Before(p + a, p + b) == Before(a, b)
  {
    if p == "" {
      assert p + a == a && p + b == b;
    } else {
      assert (p + a)[1..] == p[1..] + a && (p + b)[1..] == p[1..] + b;
      BeforeBehind(p[1..], a, b);
    }
  }

  lemma BeforeAt(p: string, a: string, b: string, pa: string, pb: string)
    requires a != "" && b != "" && a[0] < b[0] && pa == p + a && pb == p + b
    ensures Ordered(pa, pb)
  {
    assert Values.Before(a, b) && !Values.Before(b, a);
    BeforeBehind(p, a, b);
    BeforeBehind(p, b, a);
    BeforeTotal(pa, pb);
  }

  lemma KeysOrdered()
    ensures Ordered("message_from", "message_name") && Ordered("message_name", "message_to") &&
            Ordered("message_from", "message_to")
  {
    hide Ordered;
    BeforeAt("message_", "from", "name", "message_from", "message_name");
    BeforeAt("message_", "name", "to", "message_name", "message_to");
    BeforeAt("message_", "from", "to", "message_from", "message_to");
  }

  predicate Ordered(a: string, b: string) {
    KeyLess(Name(a), Name(b)) && !KeyLess(Name(b), Name(a)) && a != b
  }

  lemma ThreePuts(a: string, x: Value, b: string, y: Value, d: string, z: Value)
    requires Ordered(b, a) && Ordered(a, d) && Ordered(b, d)
    ensures Put(Put(Put(Nil, Name(a), x), Name(b), y), Name(d), z) ==
              Cons(Name(b), y, Cons(Name(a), x, Cons(Name(d), z, Nil)))
  {
    hide KeyLess;
    assert Put(Put(Nil, Name(a), x), Name(b), y) == Cons(Name(b), y, Cons(Name(a), x, Nil));
    assert Put(Cons(Name(a), x, Nil), Name(d), z) == Cons(Name(a), x, Cons(Name(d), z, Nil));
  }

  /** An object of three members. */
  lemma ThreeMembers(c: Config, m1: Member, m2: Member, m3: Member)
    requires ValidMember(c, m1) && ValidMember(c, m2) && ValidMember(c, m3)
    requires !m1.value.Dropped? && !m2.value.Dropped? && !m3.value.Dropped?
    ensures var ms := MoreMembers(m1, [], COMMA, MoreMembers(m2, [], COMMA, LastMember(m3, [], CLOSE_OBJECT)));
            ValidMembers(c, ms, "") &&
            MembersYield(ms) ==
              MemberYield(m1) + ([COMMA] + (MemberYield(m2) + ([COMMA] + (MemberYield(m3) + [CLOSE_OBJECT])))) &&
            MembersMeaning(c, ms, "", Nil) == WithMember(c, m3, WithMember(c, m2, WithMember(c, m1, Nil)))
  {
    hide ValidMember, MemberYield, WithMember, NameIn;
    var last := LastMember(m3, [], CLOSE_OBJECT);
    var more := MoreMembers(m2, [], COMMA, last);
    assert ValidMembers(c, last, NameIn(c, m2.name).name);
    assert ValidMembers(c, more, NameIn(c, m1.name).name);
    assert MembersYield(last) == MemberYield(m3) + [CLOSE_OBJECT];
    assert MembersYield(more) == MemberYield(m2) + ([COMMA] + MembersYield(last));
    var e1 := WithMember(c, m1, Nil);
    var e2 := WithMember(c, m2, e1);
    assert MembersMeaning(c, last, NameIn(c, m2.name).name, e2) == WithMember(c, m3, e2);
    assert MembersMeaning(c, more, NameIn(c, m1.name).name, e1) == WithMember(c, m3, e2);
  }

  lemma LoginParses(c: Config, id: nat, doc: string, root: Value)
    requires Lex(doc) == LoginTokens(id)
    ensures Parse(c, doc, root).ok && Strip(Parse(c, doc, root).node) == LoginRoot(id)
  {
    hide Parse, Lex, Strip, ValidMembers, MembersYield, MembersMeaning, LoginTokens, LoginMembers, LoginRoot;
    MembersAre(c, id);
    ObjectAccepted(c, doc, root, OPEN_OBJECT, LoginMembers(id));
  }

  lemma MembersAre(c: Config, id: nat)
    ensures ValidMembers(c, LoginMembers(id), "") && [OPEN_OBJECT] + MembersYield(LoginMembers(id)) == LoginTokens(id)
    ensures Plain(Obj(MembersMeaning(c, LoginMembers(id), "", Nil))) == LoginRoot(id)
  {
    hide Simple, ValidMember, ValidMembers, MembersYield, MembersMeaning, MemberYield, WithMember, LineTokens, Put,
         Numeral, NameIn, QuotedToken, Ordered;
    SimpleStrings(id);
    SimpleStrings(BROKER_ID);
    KeysOrdered();
    var n, f, t := Numeral(id), MSG_LOGIN_NAME, Numeral(BROKER_ID);
    LineMemberIs(c, "message_name", f);
    LineMemberIs(c, "message_from", n);
    LineMemberIs(c, "message_to", t);
    ThreeMembers(c, LineMember("message_name", f), LineMember("message_from", n), LineMember("message_to", t));
    ThreePuts("message_name", Plain(Str(f)), "message_from", Plain(Str(n)), "message_to", Plain(Str(t)));
  }

  /** The fields of the login message: the login's name, the client's own id and the broker's. */
  lemma LoginFields(p: Printer, id: nat)
    requires id < TWO_32
    ensures FieldsOf(p, LoginRoot(id)) == Fields(MSG_LOGIN_NAME, id, BROKER_ID)
  {
    hide FieldsOf, Numeral, KeyLess;
    KeysOrdered();
    var es := LoginRoot(id).data.entries;
    assert Get(es.rest, Name("message_name")) == Plain(Str(MSG_LOGIN_NAME));
    assert Find(es.rest.rest, Name("message_to")) == Some(Plain(Str(Numeral(BROKER_ID))));
    assert Find(es.rest, Name("message_to")) == Find(es.rest.rest, Name("message_to"));
    ReadsAddresses(p, LoginRoot(id), MSG_LOGIN_NAME, id, BROKER_ID);
  }

  lemma SourceGathered(id: nat)
    ensures Gather(Lines(LoginSource(id)), true, false, "") == Gathered(true, "\n" + LoginDocument(id))
  {
    hide Lines, Gather, LoginDocument, Wire.HashFree;
    LoginHashFree(id);
    var doc, end := LoginDocument(id), SENTINEL_END + "\n";
    assert LoginSource(id) == SENTINEL_BEGIN + "\n" + (doc + "\n" + end);
    Wire.OpensFrame(doc + "\n" + end);
    Wire.GathersText(doc, end, "");
    assert "" + "\n" + doc == "\n" + doc;
    EndLine("\n" + doc);
  }

  lemma EndLine(data: string)
    ensures Gather(Lines(SENTINEL_END + "\n"), false, true, data) == Gathered(true, data)
  {
    hide Lines;
    assert SENTINEL_END + "\n" + "" == SENTINEL_END + "\n";
    Wire.LinesStep(SENTINEL_END, "");
    assert ([SENTINEL_END] + Lines(""))[0] == SENTINEL_END;
  }

  /** The text of a login parses, as the message it stands for. */
  lemma LoginReceived(c: Config, id: nat)
    requires id < TWO_32
    ensures var r := Receive(c, LoginSource(id));
            r.Received? && r.ok && r.fields == Fields("MSG_LOGIN", id, 1000) && Strip(r.json) == LoginRoot(id)
  {
    hide Lines, Gather, LoginDocument, LoginTokens, LoginRoot, Parse, Strip, FieldsOf, Lex, Scans;
    SourceGathered(id);
    LoginScans(id);
    Unpack(LoginDocument(id), LoginTokens(id));
    Wire.NewlineFirst(LoginDocument(id));
    var data := "\n" + LoginDocument(id);
    LoginParses(c, id, data, NULL_VALUE);
    LoginFields(c.printDouble, id);
    Wire.FieldsCanon(c.printDouble, Parse(c, data, NULL_VALUE).node);
    assert LoginSource(id) != "";
  }

  lemma LoginRootPlain(id: nat)
    ensures Strip(LoginRoot(id)) == LoginRoot(id)
  {
    hide Numeral;
    var es := LoginRoot(id).data.entries;
    assert Strip(es.val) == es.val && Strip(es.rest.val) == es.rest.val && Strip(es.rest.rest.val) == es.rest.rest.val;
    assert StripOf(es.rest.rest) == es.rest.rest;
    assert StripOf(es.rest) == es.rest;
  }
}

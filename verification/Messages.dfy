/** `TMessage`: a styled JSON document between two sentinel lines. */
module Messages {
  import opened Text
  import opened Numbers
  import opened Values
  import opened Parser
  import opened Layout
  import Reading
  import Writers

  const SENTINEL_BEGIN := "#begin"
  const SENTINEL_END := "#end"

  // ----- lines -----

  function FirstLine(s: string): (line: string)
    ensures line <= s
    ensures '\n' !in line
  {
    if s == "" || s[0] == '\n' then "" else [s[0]] + FirstLine(s[1..])
  }

  /** What `std::getline` yields, call by call: a final newline does not open another line. */
  function Lines(s: string): seq<string>
    decreases |s|
  {
    if s == "" then []
    else
      var line := FirstLine(s);
      if |line| == |s| then [line] else [line] + Lines(s[|line| + 1..])
  }

  // ----- fromRawData -----

  datatype Gathered = Gathered(ok: bool, data: string)

  /** The loop of `fromRawData`; its flags `ok` and `insert` are always equal. */
  function Gather(lines: seq<string>, firstLine: bool, insert: bool, data: string): Gathered
    decreases |lines|
  {
    if lines == [] then Gathered(insert, data)
    else
      var item := lines[0];
      var insert' := insert || (firstLine && item == "{");
      if item == SENTINEL_BEGIN then Gather(lines[1..], false, true, data)
      else if item == SENTINEL_END then Gathered(insert', data)
      else Gather(lines[1..], false, insert', if insert' then data + "\n" + item else data)
  }

  // ----- parseData -----

  /** A string, or the exception that came instead. */
  datatype Attempt = Read(s: string) | Throws

  /** `asString`. */
  function AsString(p: Printer, v: Value): Attempt {
    match v.data
    case Null => Read("")
    case Str(s) => Read(s)
    case Bool(b) => Read(if b then "true" else "false")
    case Int(i) => Read(IntText(i as int))
    case UInt(u) => Read(IntText(u as int))
    case Real(bits) => Read(p(bits))
    case _ => Throws
  }

  /**
   * `asString` gives strings as they are, null as nothing, and all other scalars as the writers
   * print them; containers it throws for.
   */
  lemma AsStringIsPrinted(p: Printer, v: Value)
    ensures AsString(p, v) == match v.data
                              case Null => Read("")
                              case Str(s) => Read(s)
                              case Arr(_) => Throws
                              case Obj(_) => Throws
                              case _ => Read(Flat(p, v))
  {
    hide IntText;
  }

  /** `get(key, null).asString()`. */
  function Field(p: Printer, root: Value, key: string): Attempt {
    match root.data
    case Null => Read("")
    case Obj(es) => AsString(p, Get(es, Name(key)))
    case _ => Throws
  }

  predicate Whitespace(c: char) {
    c == ' ' || '\t' <= c <= '\r'
  }

  function SkipWhitespace(s: string): string {
    if s != "" && Whitespace(s[0]) then SkipWhitespace(s[1..]) else s
  }

  function LeadingDigits(s: string): (d: string)
    ensures OnlyDigits(d)
  {
    if s != "" && Digit(s[0]) then [s[0]] + LeadingDigits(s[1..]) else ""
  }

  function Unsign(s: string): string {
    if s != "" && (s[0] == '-' || s[0] == '+') then s[1..] else s
  }

  predicate Negative(s: string) {
    s != "" && s[0] == '-'
  }

  /**
   * `stream >> x` for a 32-bit unsigned x: blank text leaves it alone, text without digits makes it
   * 0, too large a number makes it the maximum, and a minus sign negates modulo 2^32.
   */
  function Extract(text: string, x: nat): (y: nat)
    requires x < TWO_32
    ensures y < TWO_32
  {
    var s := SkipWhitespace(text);
    if s == "" then x
    else
      var m := Magnitude(LeadingDigits(Unsign(s)));
      if m >= TWO_32 then TWO_32 - 1 else if Negative(s) && m > 0 then TWO_32 - m else m
  }

  /** What `isspace` holds of: blank, tab, new line, vertical tab, form feed and carriage return. */
  const WHITES := " \t\n\U{0B}\U{0C}\r"

  predicate AllWhite(s: string) {
    forall i :: 0 <= i < |s| ==> s[i] in WHITES
  }

  lemma IsWhite(c: char)
    ensures c in WHITES <==> Whitespace(c)
  {
    assert WHITES == [' ', '\t', '\n', '\U{0B}', '\U{0C}', '\r'];
    if Whitespace(c) && c != ' ' {
      assert c as int in {9, 10, 11, 12, 13};
    }
  }

  lemma {:induction false} BlanksSkipped(blanks: string, s: string)
    requires AllWhite(blanks) && (s == "" || !Whitespace(s[0]))
    ensures SkipWhitespace(blanks + s) == s
  {
    if blanks != "" {
      IsWhite(blanks[0]);
    }
    hide Whitespace;
    if blanks == "" {
      assert blanks + s == s;
    } else {
      assert (blanks + s)[1..] == blanks[1..] + s;
      BlanksSkipped(blanks[1..], s);
    }
  }

  lemma {:induction false} DigitsLead(digits: string, tail: string)
    requires OnlyDigits(digits) && (tail == "" || !Digit(tail[0]))
    ensures LeadingDigits(digits + tail) == digits
  {
    if digits == "" {
      assert digits + tail == tail;
    } else {
      assert (digits + tail)[1..] == digits[1..] + tail;
      DigitsLead(digits[1..], tail);
    }
  }

  /**
   * The number of a text is that of the digits behind blanks and a sign, capped at 2^32 - 1, or its
   * negative modulo 2^32; without digits it is 0; a blank text leaves the number as it was.
   */
  lemma Extracts(blanks: string, sign: string, digits: string, tail: string, x: nat)
    requires x < 0x1_0000_0000 && AllWhite(blanks) && sign in {"", "+", "-"} && OnlyDigits(digits)
    requires tail == "" || !Digit(tail[0])
    requires sign == "" && digits == "" && tail != "" ==> tail[0] !in WHITES && tail[0] != '+' && tail[0] != '-'
    ensures var s, m := sign + digits + tail, Magnitude(digits);
            Extract(blanks + s, x) ==
              if s == "" then x
              else if m >= 0x1_0000_0000 then 0xFFFF_FFFF
              else if sign == "-" && m > 0 then 0x1_0000_0000 - m
              else m
  {
    if tail != "" {
      IsWhite(tail[0]);
    }
    Signs(sign, digits, tail);
    BlanksSkipped(blanks, sign + digits + tail);
    DigitsLead(digits, tail);
    hide *;
    ExtractUnfolds(blanks + (sign + digits + tail), x);
  }

  lemma Signs(sign: string, digits: string, tail: string)
    requires sign in {"", "+", "-"} && OnlyDigits(digits)
    requires sign == "" && digits == "" && tail != "" ==> !Whitespace(tail[0]) && tail[0] != '+' && tail[0] != '-'
    ensures var s := sign + digits + tail;
            (s == "" || !Whitespace(s[0])) && Unsign(s) == digits + tail && (Negative(s) <==> sign == "-")
  {
    var s := sign + digits + tail;
    if sign == "" {
      assert s == digits + tail;
      if digits != "" {
        assert s[0] == digits[0];
      }
    } else {
      assert s[1..] == digits + tail;
    }
  }

  lemma ExtractUnfolds(text: string, x: nat)
    requires x < TWO_32
    ensures var s := SkipWhitespace(text);
            var m := Magnitude(LeadingDigits(Unsign(s)));
            Extract(text, x) ==
              if s == "" then x else if m >= TWO_32 then TWO_32 - 1 else if Negative(s) && m > 0 then TWO_32 - m else m
  {
    hide SkipWhitespace, LeadingDigits, Magnitude, Unsign, Negative;
  }

  /** `atoi`, for numbers an int can hold, converted to 32-bit unsigned. */
  function Atoi(text: string): nat {
    var s := SkipWhitespace(text);
    var m := Magnitude(LeadingDigits(Unsign(s)));
    (if Negative(s) then 0 - m else m) % TWO_32
  }

  /** The second attempt at the destination, with `atoi`, never finds anything else. */
  lemma AtoiAddsNothing(text: string, x: nat)
    requires x < TWO_32 && Extract(text, x) == 0
    ensures Atoi(text) == 0
  {
    hide LeadingDigits, SkipWhitespace;
    assert LeadingDigits("") == "" by {
      NoDigits();
    }
  }

  lemma NoDigits()
    ensures LeadingDigits("") == ""
  {
  }

  datatype Fields = Fields(name: string, from: nat, to: nat) | NoFields

  /** Name, sender and destination as `parseData` reads them off the root. */
  function FieldsOf(p: Printer, root: Value): (f: Fields)
    ensures f.Fields? ==> f.from < TWO_32 && f.to < TWO_32
  {
    match (Field(p, root, "message_name"), Field(p, root, "message_from"), Field(p, root, "message_to"))
    case (Read(name), Read(from), Read(to)) => Fields(name, Extract(from, 0), Extract(to, 0))
    case _ => NoFields
  }

  /** `null` is a message without a name, from 0 to 0; of all other documents only objects are messages. */
  lemma BareDocuments(p: Printer, root: Value)
    ensures root.data.Null? ==> FieldsOf(p, root) == Fields("", 0, 0)
    ensures !root.data.Null? && !root.data.Obj? ==> FieldsOf(p, root) == NoFields
    ensures root.data.Obj? && root.data.entries.Nil? ==> FieldsOf(p, root) == Fields("", 0, 0)
  {
    NothingExtracted();
    hide Extract;
  }

  lemma NothingExtracted()
    ensures Extract("", 0) == 0
  {
  }

  /** A 32-bit unsigned number, as a JSON number or as a decimal string. */
  predicate Spelled(d: Data, n: nat) {
    n < TWO_32 && ((d.Int? && d.i as int == n) || (d.UInt? && d.u as int == n) || d == Str(Numeral(n)))
  }

  lemma ExtractsNumeral(n: nat, x: nat)
    requires n < TWO_32 && x < TWO_32
    ensures Extract(Numeral(n), x) == n
  {
    MagnitudeOfNumeral(n);
    hide Numeral, Magnitude, Extract;
    Extracts("", "", Numeral(n), "", x);
    assert "" + ("" + Numeral(n) + "") == Numeral(n);
  }

  /** A message that says where it comes from and where it goes, either way, is read so. */
  lemma ReadsAddresses(p: Printer, root: Value, name: string, from: nat, to: nat)
    requires root.data.Obj?
    requires Get(root.data.entries, Name("message_name")).data == Str(name)
    requires Spelled(Get(root.data.entries, Name("message_from")).data, from)
    requires Spelled(Get(root.data.entries, Name("message_to")).data, to)
    ensures FieldsOf(p, root) == Fields(name, from, to)
  {
    ExtractsNumeral(from, 0);
    ExtractsNumeral(to, 0);
    hide Extract, Numeral, Get;
  }

  /** What `fromRawData` comes to. */
  datatype Received = Received(ok: bool, fields: Fields, json: Value) | Thrown(json: Value)

  const NO_FIELDS: Fields := Fields("error", 0, 0)

  function Receive(c: Config, raw: string): Received {
    if raw == "" then Received(false, NO_FIELDS, NULL_VALUE)
    else
      var g := Gather(Lines(raw), true, false, "");
      var o := Parse(c, g.data, NULL_VALUE);
      if !o.ok then Received(false, NO_FIELDS, o.node)
      else if FieldsOf(c.printDouble, o.node).NoFields? then Thrown(o.node)
      else Received(g.ok, FieldsOf(c.printDouble, o.node), o.node)
  }

  /** What does not parse is reported as a message called "error", from 0 to 0. */
  lemma UnreadIsError(c: Config, raw: string)
    requires raw == "" || !Parse(c, Gather(Lines(raw), true, false, "").data, NULL_VALUE).ok
    ensures var r := Receive(c, raw); r.Received? && !r.ok && r.fields == Fields("error", 0, 0)
  {
    hide Parse, Gather, Lines, FieldsOf;
  }

  // ----- toString -----

  function Frame(p: Printer, root: Value): string {
    SENTINEL_BEGIN + "\n" + StyledText(p, root) + "\n" + SENTINEL_END
  }

  /** `TMessage`; `cfg` stands for the reader every message holds. */
  class Message {
    const cfg: Config
    var from: nat
    var to: nat
    var name: string
    var rawData: string
    var jsonRep: Value

    constructor (cfg: Config, name: string, from: nat, to: nat)
      ensures this.cfg == cfg && this.name == name && this.from == from && this.to == to && jsonRep == NULL_VALUE
    {
      this.cfg := cfg;
      this.name, this.from, this.to := name, from, to;
      rawData, jsonRep := "", NULL_VALUE;
    }

    /** Parses `rawData`; `thrown` says that a field could not be converted to a string. */
    method ParseData() returns (result: bool, thrown: bool)
      requires from < TWO_32 && to < TWO_32
      modifies this
      ensures var o := Parse(cfg, rawData, old(jsonRep));
              jsonRep == o.node && rawData == old(rawData) && result == o.ok &&
              (!o.ok ==> !thrown && from == old(from) && to == old(to) && name == old(name)) &&
              (o.ok ==> thrown == FieldsOf(cfg.printDouble, jsonRep).NoFields?)
      ensures var theName, theFrom, theTo := Field(cfg.printDouble, jsonRep, "message_name"),
                                              Field(cfg.printDouble, jsonRep, "message_from"),
                                              Field(cfg.printDouble, jsonRep, "message_to");
              result ==>
                name == (if theName.Throws? then old(name) else theName.s) &&
                from == (if theName.Throws? || theFrom.Throws? then old(from) else Extract(theFrom.s, old(from))) &&
                to == (if thrown then old(to) else Extract(theTo.s, old(to)))
    {
      hide Parser.Parse, Extract, Field, FieldsOf;
      var reader := new Reading.Reader(cfg);
      result, jsonRep := reader.Parse(rawData, jsonRep);
      thrown := false;
      if result {
        thrown := ReadFields();
      }
    }

    /** The fields, one after the other, up to the first that cannot be converted. */
    method ReadFields() returns (thrown: bool)
      requires from < TWO_32 && to < TWO_32
      modifies this`name, this`from, this`to
      ensures thrown == FieldsOf(cfg.printDouble, jsonRep).NoFields?
      ensures var theName, theFrom, theTo := Field(cfg.printDouble, jsonRep, "message_name"),
                                              Field(cfg.printDouble, jsonRep, "message_from"),
                                              Field(cfg.printDouble, jsonRep, "message_to");
              name == (if theName.Throws? then old(name) else theName.s) &&
              from == (if theName.Throws? || theFrom.Throws? then old(from) else Extract(theFrom.s, old(from))) &&
              to == (if thrown then old(to) else Extract(theTo.s, old(to)))
    {
      hide Extract, Atoi, Field;
      var theName := Field(cfg.printDouble, jsonRep, "message_name");
      if theName.Throws? {
        return true;
      }
      name := theName.s;
      var theFrom := Field(cfg.printDouble, jsonRep, "message_from");
      if theFrom.Throws? {
        return true;
      }
      from := Extract(theFrom.s, from);
      var theTo := Field(cfg.printDouble, jsonRep, "message_to");
      if theTo.Throws? {
        return true;
      }
      ghost var to0 := to;
      to := Extract(theTo.s, to);
      if 0 == to {
        AtoiAddsNothing(theTo.s, to0);
        to := Atoi(theTo.s);
      }
      thrown := false;
    }

    /** `fromRawData`. */
    static method FromRawData(cfg: Config, raw: string) returns (m: Message, parsedOk: bool, thrown: bool)
      ensures fresh(m) && m.cfg == cfg
      ensures match Receive(cfg, raw)
              case Received(ok, fields, json) =>
                !thrown && parsedOk == ok && fields == Fields(m.name, m.from, m.to) && m.jsonRep == json
              case Thrown(json) => thrown && m.jsonRep == json
    {
      hide Parser.Parse, Extract, Lines, Field;
      m := new Message(cfg, "error", 0, 0);
      if raw == "" {
        return m, false, false;
      }
      var lines := Lines(raw);
      var insert, ok, data, firstLine := false, false, "", true;
      ghost var target := Gather(lines, true, false, "");
      var i := 0;
      while i < |lines|
        invariant 0 <= i <= |lines| && ok == insert
        invariant target == Gather(lines[i..], firstLine, insert, data)
      {
        var item := lines[i];
        ghost var rest := lines[i..];
        i := i + 1;
        assert rest[1..] == lines[i..];
        if firstLine {
          if item == "{" {
            ok := true;
            insert := true;
          }
          firstLine := false;
        }
        if SENTINEL_BEGIN == item {
          ok := true;
          insert := true;
          continue;
        }
        if SENTINEL_END == item {
          break;
        }
        if insert {
          data := data + "\n" + item;
        }
      }
      assert target == Gathered(ok, data);
      m.rawData := data;
      var parsed;
      parsed, thrown := m.ParseData();
      parsedOk := ok && parsed;
    }

    method ToString() returns (text: string)
      requires WellFormed(jsonRep)
      ensures text == Frame(cfg.printDouble, jsonRep)
    {
      var writer := new Writers.StyledWriter(cfg.printDouble);
      var styled := writer.Write(jsonRep);
      text := SENTINEL_BEGIN + "\n";
      text := text + styled;
      text := text + "\n";
      text := text + SENTINEL_END;
    }
  }
}

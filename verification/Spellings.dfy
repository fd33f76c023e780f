/** How the characters of a string can be written: every way the decoder knows, by tables. */
module Spellings {
  import opened Text
  import opened Utf8
  import opened Strings

  const LOWER := "0123456789abcdef"
  const UPPER := "0123456789ABCDEF"

  /** The letters behind a backslash, and what each of them stands for. */
  const LETTERS := "\"\\/bfnrt"
  const MEANINGS := "\"\\/\U{08}\U{0C}\n\r\t"

  // ----- hexadecimal digits -----

  /** A digit in the case asked for. */
  function HexDigitOf(d: nat, upper: bool): char
    requires d < 16
  {
    if upper then UPPER[d] else LOWER[d]
  }

  /** Four digits, the most significant first, each in a case of its own. */
  function HexText(v: nat, cases: seq<bool>): string
    requires v <= 0xFFFF && |cases| == 4
  {
    [HexDigitOf(v / 0x1000, cases[0]), HexDigitOf(v / 0x100 % 16, cases[1]), HexDigitOf(v / 0x10 % 16, cases[2]),
     HexDigitOf(v % 16, cases[3])]
  }

  lemma DigitsBelowTen(d: nat)
    requires d < 10
    ensures LOWER[d] == UPPER[d] == ('0' as int + d) as char
  {
    assert LOWER[0] == '0' && LOWER[1] == '1' && LOWER[2] == '2' && LOWER[3] == '3' && LOWER[4] == '4';
    assert LOWER[5] == '5' && LOWER[6] == '6' && LOWER[7] == '7' && LOWER[8] == '8' && LOWER[9] == '9';
    assert UPPER[0] == '0' && UPPER[1] == '1' && UPPER[2] == '2' && UPPER[3] == '3' && UPPER[4] == '4';
    assert UPPER[5] == '5' && UPPER[6] == '6' && UPPER[7] == '7' && UPPER[8] == '8' && UPPER[9] == '9';
  }

  lemma DigitsFromTen(d: nat)
    requires 10 <= d < 16
    ensures LOWER[d] == ('a' as int + d - 10) as char && UPPER[d] == ('A' as int + d - 10) as char
  {
    assert LOWER[10] == 'a' && LOWER[11] == 'b' && LOWER[12] == 'c' && LOWER[13] == 'd' && LOWER[14] == 'e';
    assert UPPER[10] == 'A' && UPPER[11] == 'B' && UPPER[12] == 'C' && UPPER[13] == 'D' && UPPER[14] == 'E';
    assert LOWER[15] == 'f' && UPPER[15] == 'F';
  }

  /** A digit of either case has the value of its place in the table. */
  lemma DigitValues(d: nat, upper: bool)
    requires d < 16
    ensures HexDigit(HexDigitOf(d, upper)) && HexDigitValue(HexDigitOf(d, upper)) == d
  {
    if d < 10 {
      DigitsBelowTen(d);
    } else {
      DigitsFromTen(d);
    }
  }

  /** There are no other digits. */
  lemma DigitIsInTable(c: char) returns (d: nat, upper: bool)
    requires HexDigit(c)
    ensures d < 16 && HexDigitOf(d, upper) == c
  {
    if c <= '9' {
      d, upper := c as int - '0' as int, true;
      DigitsBelowTen(d);
    } else if c <= 'F' {
      d, upper := c as int - 'A' as int + 10, true;
      DigitsFromTen(d);
    } else {
      d, upper := c as int - 'a' as int + 10, false;
      DigitsFromTen(d);
    }
  }

  lemma Nibbles(v: nat)
    requires v <= 0xFFFF
    ensures v / 0x1000 < 16 && ((v / 0x1000 * 16 + v / 0x100 % 16) * 16 + v / 0x10 % 16) * 16 + v % 16 == v
  {
    assert v / 0x100 == v / 0x1000 * 16 + v / 0x100 % 16 by { assert v / 0x1000 == v / 0x100 / 16; }
    assert v / 0x10 == v / 0x100 * 16 + v / 0x10 % 16 by { assert v / 0x100 == v / 0x10 / 16; }
  }

  /** Four digits decode to the number they are the text of, in whatever cases they are. */
  lemma HexTextDecodes(v: nat, cases: seq<bool>, rest: string)
    requires v <= 0xFFFF && |cases| == 4
    ensures HexQuad(HexText(v, cases) + rest) == CodePoint(v, rest)
  {
    Nibbles(v);
    DigitValues(v / 0x1000, cases[0]);
    DigitValues(v / 0x100 % 16, cases[1]);
    DigitValues(v / 0x10 % 16, cases[2]);
    DigitValues(v % 16, cases[3]);
    hide HexDigitOf, HexDigitValue, HexDigit;
    var b := HexText(v, cases) + rest;
    assert b[4..] == rest;
  }

  /** Whatever decodes as four digits is such a text. */
  lemma HexQuadIsText(b: string) returns (cases: seq<bool>)
    requires HexQuad(b).CodePoint?
    ensures |cases| == 4 && b == HexText(HexQuad(b).value, cases) + b[4..]
  {
    hide *;
    QuadDigits(b);
    var d0, u0 := DigitIsInTable(b[0]);
    var d1, u1 := DigitIsInTable(b[1]);
    var d2, u2 := DigitIsInTable(b[2]);
    var d3, u3 := DigitIsInTable(b[3]);
    cases := [u0, u1, u2, u3];
    DigitValues(d0, u0);
    DigitValues(d1, u1);
    DigitValues(d2, u2);
    DigitValues(d3, u3);
    PlacesOf(d0, d1, d2, d3);
    TextIs(HexQuad(b).value, cases);
    assert b[..4] == [b[0], b[1], b[2], b[3]] == HexText(HexQuad(b).value, cases);
    assert b == b[..4] + b[4..];
  }

  lemma QuadDigits(b: string)
    requires HexQuad(b).CodePoint?
    ensures |b| >= 4 && HexDigit(b[0]) && HexDigit(b[1]) && HexDigit(b[2]) && HexDigit(b[3])
    ensures HexQuad(b).value ==
              ((HexDigitValue(b[0]) * 16 + HexDigitValue(b[1])) * 16 + HexDigitValue(b[2])) * 16 + HexDigitValue(b[3])
    ensures HexQuad(b).value <= 0xFFFF && HexQuad(b).rest == b[4..]
  {
    hide HexDigit, HexDigitValue;
  }

  lemma TextIs(v: nat, cases: seq<bool>)
    requires v <= 0xFFFF && |cases| == 4
    ensures HexText(v, cases) ==
              [HexDigitOf(v / 0x1000, cases[0]), HexDigitOf(v / 0x100 % 16, cases[1]),
               HexDigitOf(v / 0x10 % 16, cases[2]), HexDigitOf(v % 16, cases[3])]
  {
    hide HexDigitOf;
  }

  lemma PlacesOf(d0: nat, d1: nat, d2: nat, d3: nat)
    requires d0 < 16 && d1 < 16 && d2 < 16 && d3 < 16
    ensures var v := ((d0 * 16 + d1) * 16 + d2) * 16 + d3;
            v <= 0xFFFF && v / 0x1000 == d0 && v / 0x100 % 16 == d1 && v / 0x10 % 16 == d2 && v % 16 == d3
  {
    var v := ((d0 * 16 + d1) * 16 + d2) * 16 + d3;
    assert v / 0x10 == (d0 * 16 + d1) * 16 + d2;
    assert v / 0x100 == v / 0x10 / 16 == d0 * 16 + d1;
    assert v / 0x1000 == v / 0x100 / 16 == d0;
  }

  // ----- the pieces of a string body -----

  /** A character as it is, a letter behind a backslash, a code unit, or two of them, the first a high surrogate. */
  datatype Piece =
    | Raw(c: char)
    | Short(k: nat)
    | Unit(v: nat, cases: seq<bool>)
    | Two(high: nat, cases: seq<bool>, low: nat, cases': seq<bool>)

  predicate HighSurrogate(v: nat) {
    0xD800 <= v <= 0xDBFF
  }

  predicate Proper(p: Piece) {
    match p
    case Raw(c) => c != '"' && c != '\\'
    case Short(k) => k < 8
    case Unit(v, cases) => v <= 0xFFFF && !HighSurrogate(v) && |cases| == 4
    case Two(high, cases, low, cases') => HighSurrogate(high) && low <= 0xFFFF && |cases| == 4 && |cases'| == 4
  }

  function PieceText(p: Piece): string
    requires Proper(p)
  {
    match p
    case Raw(c) => [c]
    case Short(k) => ['\\', LETTERS[k]]
    case Unit(v, cases) => "\\u" + HexText(v, cases)
    case Two(high, cases, low, cases') => "\\u" + HexText(high, cases) + "\\u" + HexText(low, cases')
  }

  /** Two units mean ten bits of each, whether or not the second one is a low surrogate. */
  function PieceMeaning(p: Piece): string
    requires Proper(p)
  {
    match p
    case Raw(c) => [c]
    case Short(k) => [MEANINGS[k]]
    case Unit(v, _) => CodePointToUtf8(v)
    case Two(high, _, low, _) => CodePointToUtf8(0x10000 + (high - 0xD800) * 0x400 + low % 0x400)
  }

  predicate AllProper(ps: seq<Piece>) {
    forall i :: 0 <= i < |ps| ==> Proper(ps[i])
  }

  function TextOf(ps: seq<Piece>): string
    requires AllProper(ps)
  {
    if ps == [] then "" else PieceText(ps[0]) + TextOf(ps[1..])
  }

  function MeaningOf(ps: seq<Piece>): string
    requires AllProper(ps)
  {
    if ps == [] then "" else PieceMeaning(ps[0]) + MeaningOf(ps[1..])
  }

  /** The eight letters behind a backslash, and no others. */
  lemma ShortEscapes(k: nat)
    requires k < 8
    ensures SimpleEscape(LETTERS[k]) == Some(MEANINGS[k]) && LETTERS[k] != 'u'
  {
    assert LETTERS == ['"', '\\', '/', 'b', 'f', 'n', 'r', 't'];
    assert MEANINGS == ['"', '\\', '/', BACKSPACE, FORM_FEED, '\n', '\r', '\t'];
  }

  lemma ShortIsInTable(c: char) returns (k: nat)
    requires SimpleEscape(c).Some?
    ensures k < 8 && LETTERS[k] == c
  {
    assert LETTERS == ['"', '\\', '/', 'b', 'f', 'n', 'r', 't'];
    k := if c == '"' then 0 else if c == '\\' then 1 else if c == '/' then 2 else if c == 'b' then 3
         else if c == 'f' then 4 else if c == 'n' then 5 else if c == 'r' then 6 else 7;
  }

  lemma UnitDecodes(v: nat, cases: seq<bool>, rest: string)
    requires v <= 0xFFFF && !HighSurrogate(v) && |cases| == 4
    ensures UnicodeCodePoint(HexText(v, cases) + rest) == CodePoint(v, rest)
  {
    HexTextDecodes(v, cases, rest);
    hide HexQuad, HexText;
  }

  lemma TwoDecode(high: nat, cases: seq<bool>, low: nat, cases': seq<bool>, rest: string)
    requires HighSurrogate(high) && low <= 0xFFFF && |cases| == 4 && |cases'| == 4
    ensures UnicodeCodePoint(HexText(high, cases) + ("\\u" + (HexText(low, cases') + rest))) ==
              CodePoint(0x10000 + (high - 0xD800) * 0x400 + low % 0x400, rest)
  {
    hide HexText, UnicodeCodePoint, HexQuad;
    var tail := "\\u" + (HexText(low, cases') + rest);
    HexTextDecodes(high, cases, tail);
    HexTextDecodes(low, cases', rest);
    TextIs(low, cases');
    assert tail[2..] == HexText(low, cases') + rest;
    JoinsUnits(HexText(high, cases) + tail, high, tail, low, rest);
  }

  lemma JoinsUnits(b: string, high: nat, tail: string, low: nat, rest: string)
    requires HexQuad(b) == CodePoint(high, tail) && HighSurrogate(high)
    requires |tail| >= 6 && tail[0] == '\\' && tail[1] == 'u' && HexQuad(tail[2..]) == CodePoint(low, rest)
    ensures UnicodeCodePoint(b) == CodePoint(0x10000 + (high - 0xD800) * 0x400 + low % 0x400, rest)
  {
    hide HexQuad;
    assert high % 0x400 == high - 0xD800 by { assert high == 54 * 0x400 + (high - 0xD800); }
  }

  lemma EscapeDecodes(b: string, cp: nat, rest: string)
    requires |b| >= 2 && b[0] == '\\' && b[1] == 'u' && UnicodeCodePoint(b[2..]) == CodePoint(cp, rest)
    ensures DecodeChars(b) == Prepend(CodePointToUtf8(cp), DecodeChars(rest))
  {
    hide UnicodeCodePoint, CodePointToUtf8;
  }

  lemma PlainDecodes(b: string)
    requires b != "" && b[0] != '"' && (b[0] == '\\' ==> |b| >= 2 && b[1] != 'u' && SimpleEscape(b[1]).Some?)
    ensures DecodeChars(b) ==
              if b[0] == '\\' then Prepend([SimpleEscape(b[1]).value], DecodeChars(b[2..]))
              else Prepend([b[0]], DecodeChars(b[1..]))
  {
    hide SimpleEscape;
  }

  lemma UnitPieceDecodes(v: nat, cases: seq<bool>, rest: string)
    requires Proper(Unit(v, cases))
    ensures DecodeChars(PieceText(Unit(v, cases)) + rest) == Prepend(CodePointToUtf8(v), DecodeChars(rest))
  {
    hide DecodeChars, HexText, UnicodeCodePoint, CodePointToUtf8, Prepend;
    var b := PieceText(Unit(v, cases)) + rest;
    UnitDecodes(v, cases, rest);
    assert b[2..] == HexText(v, cases) + rest;
    EscapeDecodes(b, v, rest);
  }

  lemma TwoText(p: Piece, rest: string)
    requires Proper(p) && p.Two?
    ensures PieceText(p) + rest == "\\u" + (HexText(p.high, p.cases) + ("\\u" + (HexText(p.low, p.cases') + rest)))
    ensures PieceMeaning(p) == CodePointToUtf8(0x10000 + (p.high - 0xD800) * 0x400 + p.low % 0x400)
  {
    hide HexText, CodePointToUtf8;
  }

  lemma TwoPieceDecodes(p: Piece, rest: string)
    requires Proper(p) && p.Two?
    ensures DecodeChars(PieceText(p) + rest) == Prepend(PieceMeaning(p), DecodeChars(rest))
  {
    hide DecodeChars, HexText, UnicodeCodePoint, CodePointToUtf8, Prepend, PieceText, PieceMeaning;
    TwoText(p, rest);
    var b := PieceText(p) + rest;
    TwoDecode(p.high, p.cases, p.low, p.cases', rest);
    assert b[2..] == HexText(p.high, p.cases) + ("\\u" + (HexText(p.low, p.cases') + rest));
    EscapeDecodes(b, 0x10000 + (p.high - 0xD800) * 0x400 + p.low % 0x400, rest);
  }

  lemma ShortPieceDecodes(k: nat, rest: string)
    requires k < 8
    ensures DecodeChars(PieceText(Short(k)) + rest) == Prepend([MEANINGS[k]], DecodeChars(rest))
  {
    hide DecodeChars, SimpleEscape, Prepend;
    ShortEscapes(k);
    var b := ['\\', LETTERS[k]] + rest;
    assert PieceText(Short(k)) + rest == b;
    PlainDecodes(b);
    assert b[2..] == rest;
  }

  lemma PieceDecodes(p: Piece, rest: string)
    requires Proper(p)
    ensures DecodeChars(PieceText(p) + rest) == Prepend(PieceMeaning(p), DecodeChars(rest))
  {
    hide DecodeChars, HexText, UnicodeCodePoint, CodePointToUtf8, SimpleEscape, Prepend;
    match p
    case Raw(c) =>
      var b := [c] + rest;
      PlainDecodes(b);
      assert b[1..] == rest;
    case Short(k) => ShortPieceDecodes(k, rest);
    case Unit(v, cases) => UnitPieceDecodes(v, cases, rest);
    case Two(_, _, _, _) => TwoPieceDecodes(p, rest);
  }

  /** A body decodes, piece by piece, to what its pieces mean. */
  lemma {:induction false} DecodesPieces(ps: seq<Piece>)
    requires AllProper(ps)
    ensures DecodeChars(TextOf(ps)) == Decoded(MeaningOf(ps), "")
  {
    hide PieceText, PieceMeaning, Proper;
    if ps != [] {
      PieceDecodes(ps[0], TextOf(ps[1..]));
      DecodesPieces(ps[1..]);
    }
  }

  lemma FirstPiece(b: string) returns (p: Piece, rest: string)
    requires b != "" && WellScanned(b) && DecodeChars(b).Decoded?
    ensures Proper(p) && b == PieceText(p) + rest && |rest| < |b| && WellScanned(rest) && DecodeChars(rest).Decoded?
  {
    if b[0] != '\\' {
      p, rest := Raw(b[0]), b[1..];
    } else if b[1] != 'u' {
      var k := ShortIsInTable(b[1]);
      p, rest := Short(k), b[2..];
    } else {
      SkipsCodePoint(b[2..]);
      p, rest := FirstUnits(b);
    }
  }

  lemma FirstUnits(b: string) returns (p: Piece, rest: string)
    requires |b| >= 2 && b[0] == '\\' && b[1] == 'u' && UnicodeCodePoint(b[2..]).CodePoint?
    ensures Proper(p) && b == PieceText(p) + rest && rest == UnicodeCodePoint(b[2..]).rest
  {
    var u := HexQuad(b[2..]);
    var cases := HexQuadIsText(b[2..]);
    assert b[2..][4..] == b[6..];
    hide HexText;
    if !HighSurrogate(u.value) {
      p, rest := Unit(u.value, cases), b[6..];
      assert b == "\\u" + b[2..];
    } else {
      var r := b[6..];
      var u' := HexQuad(r[2..]);
      var cases' := HexQuadIsText(r[2..]);
      p, rest := Two(u.value, cases, u'.value, cases'), r[2..][4..];
      assert r == "\\u" + r[2..];
      assert b == "\\u" + (HexText(u.value, cases) + ("\\u" + (HexText(u'.value, cases') + rest)));
    }
  }

  /** And a body that decodes is made of pieces: there is no other way to write a string. */
  lemma {:induction false} PiecesOf(b: string) returns (ps: seq<Piece>)
    requires WellScanned(b) && DecodeChars(b).Decoded?
    ensures AllProper(ps) && b == TextOf(ps)
    decreases |b|
  {
    if b == "" {
      ps := [];
    } else {
      var p, rest := FirstPiece(b);
      var others := PiecesOf(rest);
      hide *;
      ps := [p] + others;
      assert ps[0] == p && ps[1..] == others;
      PiecesCons(p, others);
    }
  }

  lemma PiecesCons(p: Piece, ps: seq<Piece>)
    requires Proper(p) && AllProper(ps)
    ensures AllProper([p] + ps) && TextOf([p] + ps) == PieceText(p) + TextOf(ps)
  {
    assert ([p] + ps)[1..] == ps;
  }

  ghost predicate Spelled(b: string, ps: seq<Piece>) {
    AllProper(ps) && b == TextOf(ps)
  }

  /** A scanned body decodes if and only if it is made of pieces, and then to what they mean. */
  lemma DecodesIffSpelled(b: string)
    requires WellScanned(b)
    ensures DecodeChars(b).Decoded? <==> exists ps :: Spelled(b, ps)
    ensures forall ps :: Spelled(b, ps) ==> DecodeChars(b) == Decoded(MeaningOf(ps), "")
  {
    hide DecodeChars, WellScanned;
    if DecodeChars(b).Decoded? {
      var ps := PiecesOf(b);
      assert Spelled(b, ps);
    }
    forall ps | Spelled(b, ps) ensures DecodeChars(b) == Decoded(MeaningOf(ps), "") {
      DecodesPieces(ps);
    }
  }

  // ----- scalar values -----

  /** The piece that spells a scalar value, with a surrogate pair where it takes one. */
  function PieceOf(cp: nat, cases: seq<bool>, cases': seq<bool>): Piece {
    if cp < 0x10000 then Unit(cp, cases)
    else Two(0xD800 + (cp - 0x10000) / 0x400, cases, 0xDC00 + (cp - 0x10000) % 0x400, cases')
  }

  /** The digits' cases are free. */
  predicate Cases(cases: seq<(seq<bool>, seq<bool>)>) {
    forall i :: 0 <= i < |cases| ==> |cases[i].0| == |cases[i].1| == 4
  }

  function PiecesFor(cps: seq<nat>, cases: seq<(seq<bool>, seq<bool>)>): (ps: seq<Piece>)
    requires |cps| == |cases|
    ensures |ps| == |cps| && forall i :: 0 <= i < |ps| ==> ps[i] == PieceOf(cps[i], cases[i].0, cases[i].1)
  {
    seq(|cps|, i requires 0 <= i < |cps| => PieceOf(cps[i], cases[i].0, cases[i].1))
  }

  lemma ScalarPiece(cp: nat, cases: seq<bool>, cases': seq<bool>)
    requires Scalar(cp) && |cases| == |cases'| == 4
    ensures Proper(PieceOf(cp, cases, cases')) && PieceMeaning(PieceOf(cp, cases, cases')) == CodePointToUtf8(cp)
  {
    if cp >= 0x10000 {
      SurrogateArithmetic(cp - 0x10000);
    }
    hide CodePointToUtf8;
  }

  lemma {:induction false} MeaningIsEncoding(cps: seq<nat>, cases: seq<(seq<bool>, seq<bool>)>)
    requires |cps| == |cases| && Cases(cases) && forall i :: 0 <= i < |cps| ==> Scalar(cps[i])
    ensures AllProper(PiecesFor(cps, cases)) && MeaningOf(PiecesFor(cps, cases)) == EncodeAll(cps)
    decreases |cps|
  {
    hide Proper, PieceMeaning, CodePointToUtf8, PieceOf;
    var ps := PiecesFor(cps, cases);
    forall i | 0 <= i < |ps| ensures Proper(ps[i]) {
      ScalarPiece(cps[i], cases[i].0, cases[i].1);
    }
    if cps != [] {
      ScalarPiece(cps[0], cases[0].0, cases[0].1);
      MeaningIsEncoding(cps[1..], cases[1..]);
      assert ps[1..] == PiecesFor(cps[1..], cases[1..]);
    }
  }

  /**
   * Scalar values written as \u escapes, with digits of any case and surrogate pairs, decode to
   * their UTF-8 encodings, and those decode to the same scalar values.
   */
  lemma DecodesSpelling(cps: seq<nat>, cases: seq<(seq<bool>, seq<bool>)>)
    requires |cps| == |cases| && Cases(cases) && forall i :: 0 <= i < |cps| ==> Scalar(cps[i])
    ensures AllProper(PiecesFor(cps, cases))
    ensures DecodeChars(TextOf(PiecesFor(cps, cases))) == Decoded(EncodeAll(cps), "")
    ensures DecodeAll(EncodeAll(cps)) == Some(cps)
  {
    hide *;
    MeaningIsEncoding(cps, cases);
    DecodesPieces(PiecesFor(cps, cases));
    ScalarsDecode(cps);
  }

  lemma ScalarsDecode(cps: seq<nat>)
    requires forall i :: 0 <= i < |cps| ==> Scalar(cps[i])
    ensures DecodeAll(EncodeAll(cps)) == Some(cps)
  {
    hide DecodeAll, EncodeAll;
    DecodesAll(cps);
  }

  // ----- how strings are quoted -----

  const ALL_UPPER := [true, true, true, true]

  /**
   * What is quoted is written as it is, but for quotes, backslashes and control characters: those
   * are written with a letter if there is one, else with four digits.  A slash stays as it is.
   */
  lemma EscapesByTable(c: char, k: nat)
    requires k < 8
    ensures (c == NUL || c >= ' ') && c != '"' && c != '\\' ==> Escape(c) == [c]
    ensures c == MEANINGS[k] && k != 2 ==> Escape(c) == PieceText(Short(k))
    ensures c != NUL && c < ' ' && c !in MEANINGS ==> Escape(c) == PieceText(Unit(c as int, ALL_UPPER))
  {
    assert LETTERS == ['"', '\\', '/', 'b', 'f', 'n', 'r', 't'];
    assert MEANINGS == ['"', '\\', '/', BACKSPACE, FORM_FEED, '\n', '\r', '\t'];
    if c != NUL && c < ' ' && c !in MEANINGS {
      InTable(c);
      ControlText(c);
    }
  }

  lemma InTable(c: char)
    ensures c in MEANINGS <==>
              c == '"' || c == '\\' || c == '/' || c == BACKSPACE || c == FORM_FEED || c == '\n' || c == '\r' ||
              c == '\t'
  {
    assert MEANINGS == ['"', '\\', '/', BACKSPACE, FORM_FEED, '\n', '\r', '\t'];
  }

  lemma ControlText(c: char)
    requires c < ' '
    ensures "\\u00" + [HexChar(c as int / 16), HexChar(c as int % 16)] == "\\u" + HexText(c as int, ALL_UPPER)
  {
    CharIsDigit(c as int / 16);
    CharIsDigit(c as int % 16);
    CharIsDigit(0);
    hide HexChar, HexDigitOf;
  }

  lemma CharIsDigit(d: nat)
    requires d < 16
    ensures HexChar(d) == HexDigitOf(d, true) && (d == 0 ==> HexChar(d) == '0')
  {
    if d < 10 {
      DigitsBelowTen(d);
    } else {
      DigitsFromTen(d);
    }
  }
}

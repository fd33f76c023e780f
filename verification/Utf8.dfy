/** `codePointToUTF8` and the decoding of section 3 of RFC 3629 that undoes it. */
module Utf8 {
  import opened Text

  const MAX_CODE_POINT: nat := 0x10FFFF

  /** A Unicode scalar value: a code point that is not half of a surrogate pair. */
  predicate Scalar(cp: nat) {
    cp <= MAX_CODE_POINT && !(0xD800 <= cp <= 0xDFFF)
  }

  function Byte(b: nat): (c: char)
    requires b < 256
    ensures c as int == b
  {
    b as char
  }

  /** The bit masks and shifts of the encoder, on non-negative numbers. */
  function CodePointToUtf8(cp: nat): (s: string)
    ensures s == "" <==> cp > MAX_CODE_POINT
  {
    if cp <= 0x7F then [Byte(cp)]
    else if cp <= 0x7FF then [Byte(0xC0 + cp / 64 % 32), Byte(0x80 + cp % 64)]
    else if cp <= 0xFFFF then
      [Byte(0xE0 + cp / 4096 % 16), Byte(0x80 + cp / 64 % 64), Byte(0x80 + cp % 64)]
    else if cp <= MAX_CODE_POINT then
      [Byte(0xF0 + cp / 262144 % 8), Byte(0x80 + cp / 4096 % 64), Byte(0x80 + cp / 64 % 64), Byte(0x80 + cp % 64)]
    else ""
  }

  function EncodeAll(cps: seq<nat>): string {
    if cps == [] then "" else CodePointToUtf8(cps[0]) + EncodeAll(cps[1..])
  }

  // ----- the reference decoder -----

  predicate Continuation(c: char) {
    0x80 <= c as int < 0xC0
  }

  /** The number of bytes a leading byte announces; 0 for a byte that cannot lead. */
  function Announced(c: char): (k: nat)
    ensures k <= 4
  {
    var b := c as int;
    if b < 0x80 then 1 else if 0xC0 <= b < 0xE0 then 2 else if 0xE0 <= b < 0xF0 then 3
    else if 0xF0 <= b < 0xF8 then 4 else 0
  }

  /** The payload bits of `k` bytes. */
  function Payload(s: string, k: nat): int
    requires 1 <= k <= 4 && k <= |s|
  {
    match k
    case 1 => s[0] as int
    case 2 => (s[0] as int - 0xC0) * 64 + (s[1] as int - 0x80)
    case 3 => (s[0] as int - 0xE0) * 4096 + (s[1] as int - 0x80) * 64 + (s[2] as int - 0x80)
    case _ => (s[0] as int - 0xF0) * 262144 + (s[1] as int - 0x80) * 4096
              + (s[2] as int - 0x80) * 64 + (s[3] as int - 0x80)
  }

  function Smallest(k: nat): nat {
    if k <= 1 then 0 else if k == 2 then 0x80 else if k == 3 then 0x800 else 0x10000
  }

  /** Decodes the first character: overlong forms, surrogates and stray bytes are refused. */
  function DecodeOne(s: string): Option<(nat, nat)> {
    if s == "" then None
    else
      var k := Announced(s[0]);
      if k == 0 || k > |s| || exists i :: 1 <= i < k && !Continuation(s[i]) then None
      else
        var cp := Payload(s, k);
        if cp >= Smallest(k) && Scalar(cp) then Some((cp, k)) else None
  }

  function DecodeAll(s: string): Option<seq<nat>>
    decreases |s|
  {
    if s == "" then Some([])
    else
      match DecodeOne(s)
      case None => None
      case Some((cp, k)) =>
        if k == 0 then None
        else
          match DecodeAll(s[k..])
          case None => None
          case Some(cps) => Some([cp] + cps)
  }

  lemma Sextets(cp: nat)
    ensures cp == cp / 64 * 64 + cp % 64
    ensures cp / 64 == cp / 4096 * 64 + cp / 64 % 64
    ensures cp / 4096 == cp / 262144 * 64 + cp / 4096 % 64
  {
    assert cp / 4096 == cp / 64 / 64;
    assert cp / 262144 == cp / 4096 / 64;
  }

  /** The first byte announces the length, and no shorter form would do. */
  lemma ShortestForm(cp: nat)
    requires cp <= MAX_CODE_POINT
    ensures var e := CodePointToUtf8(cp); Announced(e[0]) == |e| && cp >= Smallest(|e|)
  {
  }

  /** The payload bits of an encoded code point, surrogates included, are the code point. */
  lemma PayloadOf(cp: nat, s: string)
    requires cp <= MAX_CODE_POINT && CodePointToUtf8(cp) <= s
    ensures Payload(s, |CodePointToUtf8(cp)|) == cp
    ensures Announced(s[0]) == |CodePointToUtf8(cp)| && cp >= Smallest(|CodePointToUtf8(cp)|)
  {
    hide *;
    ShortestForm(cp);
    var e := CodePointToUtf8(cp);
    assert s[0] == e[0] && s[..|e|] == e;
    EncodedPayload(cp);
    PayloadOfPrefix(s, |e|);
  }

  lemma EncodedPayload(cp: nat)
    requires cp <= MAX_CODE_POINT
    ensures var e := CodePointToUtf8(cp); 1 <= |e| <= 4 && Payload(e, |e|) == cp
  {
    if cp > 0xFFFF {
      FourBytes(cp);
    } else if cp > 0x7FF {
      ThreeBytes(cp);
    }
  }

  lemma ThreeBytes(cp: nat)
    requires 0x7FF < cp <= 0xFFFF
    ensures var e := CodePointToUtf8(cp); |e| == 3 && Payload(e, 3) == cp
  {
    Sextets(cp);
    var e := CodePointToUtf8(cp);
    var a, b, d := cp / 4096 % 16, cp / 64 % 64, cp % 64;
    hide CodePointToUtf8;
    assert Payload(e, 3) == a * 4096 + b * 64 + d;
  }

  lemma FourBytes(cp: nat)
    requires 0xFFFF < cp <= MAX_CODE_POINT
    ensures var e := CodePointToUtf8(cp); |e| == 4 && Payload(e, 4) == cp
  {
    Sextets(cp);
    var e := CodePointToUtf8(cp);
    var a, b, d, f := cp / 262144 % 8, cp / 4096 % 64, cp / 64 % 64, cp % 64;
    hide CodePointToUtf8;
    assert Payload(e, 4) == a * 262144 + b * 4096 + d * 64 + f;
  }

  lemma PayloadOfPrefix(s: string, k: nat)
    requires 1 <= k <= 4 && k <= |s|
    ensures Payload(s, k) == Payload(s[..k], k)
  {
  }

  lemma DecodesOne(cp: nat, rest: string)
    requires Scalar(cp)
    ensures DecodeOne(CodePointToUtf8(cp) + rest) == Some((cp, |CodePointToUtf8(cp)|))
  {
    var e := CodePointToUtf8(cp);
    var s := e + rest;
    PayloadOf(cp, s);
    assert Announced(e[0]) == |e| && s[0] == e[0];
    assert forall i :: 1 <= i < |e| ==> s[i] == e[i] && Continuation(e[i]);
  }

  /** Encoded scalar values decode to themselves, hence no two sequences share an encoding. */
  lemma {:induction false} DecodesAll(cps: seq<nat>)
    requires forall i :: 0 <= i < |cps| ==> Scalar(cps[i])
    ensures DecodeAll(EncodeAll(cps)) == Some(cps)
  {
    if cps != [] {
      var rest := EncodeAll(cps[1..]);
      DecodesOne(cps[0], rest);
      DecodesAll(cps[1..]);
      assert EncodeAll(cps)[|CodePointToUtf8(cps[0])|..] == rest;
      assert [cps[0]] + cps[1..] == cps;
    }
  }
}

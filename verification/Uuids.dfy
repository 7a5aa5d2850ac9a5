/** 128-bit identifiers, their text form (section 4 of RFC 9562) and their order.
    Go strings are byte strings; here a `char` stands for one byte. */
module Uuids {
  import opened Wrappers

  type Nibble = n: nat | n < 16

  type Uuid = u: seq<Nibble> | |u| == 32 witness seq(32, i => 0)

  function HexDigit(n: Nibble): char {
    if n < 10 then (48 + n) as char else (87 + n) as char
  }

  predicate IsHex(c: char) {
    '0' <= c <= '9' || 'a' <= c <= 'f' || 'A' <= c <= 'F'
  }

  function HexValue(c: char): Nibble
    requires IsHex(c)
  {
    if c <= '9' then c as int - 48 else if c <= 'F' then c as int - 55 else c as int - 87
  }

  function HexText(ns: seq<Nibble>): string {
    seq(|ns|, i requires 0 <= i < |ns| => HexDigit(ns[i]))
  }

  predicate AllHex(s: string) {
    forall i :: 0 <= i < |s| ==> IsHex(s[i])
  }

  function HexValues(s: string): (ns: seq<Nibble>)
    requires AllHex(s)
    ensures |ns| == |s|
  {
    seq(|s|, i requires 0 <= i < |s| => HexValue(s[i]))
  }

  /** The canonical text: lower-case hex in groups of 8-4-4-4-12. */
  function ToText(u: Uuid): (s: string)
    ensures |s| == 36
  {
    HexText(u[..8]) + "-" + HexText(u[8..12]) + "-" + HexText(u[12..16]) + "-"
    + HexText(u[16..20]) + "-" + HexText(u[20..])
  }

  /** The five hex groups of a dashed text; bytes after the 36th are not examined. */
  function ParseDashed(s: string): Option<Uuid>
    requires |s| >= 36
  {
    if s[8] == '-' && s[13] == '-' && s[18] == '-' && s[23] == '-' && AllHex(s[..8])
       && AllHex(s[9..13]) && AllHex(s[14..18]) && AllHex(s[19..23]) && AllHex(s[24..36])
    then Some(HexValues(s[..8]) + HexValues(s[9..13]) + HexValues(s[14..18])
              + HexValues(s[19..23]) + HexValues(s[24..36]))
    else None
  }

  function Lower(c: char): char {
    if 'A' <= c <= 'Z' then (c as int + 32) as char else c
  }

  predicate IsUrnPrefix(s: string) {
    |s| == 9 && forall i :: 0 <= i < 9 ==> Lower(s[i]) == "urn:uuid:"[i]
  }

  /** The library's parser: canonical, URN, braced (the outer two bytes are not
      examined) and bare hex texts, in either letter case. */
  function Parse(s: string): Option<Uuid> {
    if |s| == 36 then ParseDashed(s)
    else if |s| == 45 then if IsUrnPrefix(s[..9]) then ParseDashed(s[9..]) else None
    else if |s| == 38 then ParseDashed(s[1..])
    else if |s| == 32 && AllHex(s) then Some(HexValues(s))
    else None
  }

  lemma HexRoundTrip(ns: seq<Nibble>)
    ensures AllHex(HexText(ns)) && HexValues(HexText(ns)) == ns
  {
  }

  lemma ParseToText(u: Uuid)
    ensures Parse(ToText(u)) == Some(u)
  {
    var s := ToText(u);
    assert s[..8] == HexText(u[..8]);
    assert s[9..13] == HexText(u[8..12]);
    assert s[14..18] == HexText(u[12..16]);
    assert s[19..23] == HexText(u[16..20]);
    assert s[24..36] == HexText(u[20..]);
    HexRoundTrip(u[..8]);
    HexRoundTrip(u[8..12]);
    HexRoundTrip(u[12..16]);
    HexRoundTrip(u[16..20]);
    HexRoundTrip(u[20..]);
    assert u == u[..8] + u[8..12] + u[12..16] + u[16..20] + u[20..];
  }

  /** Dashes stand in four places; the 32 digits fill the others in order, in lower case. */
  lemma TextShape(u: Uuid)
    ensures forall i :: i in {8, 13, 18, 23} ==> ToText(u)[i] == '-'
    ensures forall k :: 0 <= k < 32 ==>
              ToText(u)[k + if k < 8 then 0 else if k < 12 then 1 else if k < 16 then 2 else if k < 20 then 3 else 4]
                == "0123456789abcdef"[u[k]]
  {
    forall n: Nibble ensures HexDigit(n) == "0123456789abcdef"[n] {
      DigitTable(n);
    }
  }

  lemma DigitTable(n: Nibble)
    ensures HexDigit(n) == "0123456789abcdef"[n]
  {
  }

  /** The other forms in which an identifier is accepted. */
  lemma OtherFormsParse(u: Uuid, open: char, close: char)
    ensures Parse("urn:uuid:" + ToText(u)) == Some(u)
    ensures Parse([open] + ToText(u) + [close]) == Some(u)
    ensures Parse(HexText(u)) == Some(u)
  {
    ParseToText(u);
    var urn, braced := "urn:uuid:" + ToText(u), [open] + ToText(u) + [close];
    assert urn[..9] == "urn:uuid:" && urn[9..] == ToText(u);
    assert braced[1..][..36] == ToText(u);
    OnlyThirtySixCount(ToText(u), braced[1..]);
    HexRoundTrip(u);
  }

  lemma OnlyThirtySixCount(a: string, b: string)
    requires |a| == 36 && |b| >= 36 && b[..36] == a
    ensures ParseDashed(b) == ParseDashed(a)
  {
    assert b[..8] == a[..8] && b[9..13] == a[9..13] && b[14..18] == a[14..18] && b[19..23] == a[19..23]
        && b[24..36] == a[24..36];
    assert b[8] == a[8] && b[13] == a[13] && b[18] == a[18] && b[23] == a[23];
  }

  lemma ToTextInjective(a: Uuid, b: Uuid)
    requires ToText(a) == ToText(b)
    ensures a == b
  {
    ParseToText(a);
    ParseToText(b);
  }

  /** Big-endian value: the database compares identifiers byte by byte, which
      is the order of these numbers. */
  function Rank(ns: seq<Nibble>): nat {
    if ns == [] then 0 else 16 * Rank(ns[..|ns| - 1]) + ns[|ns| - 1]
  }

  lemma {:induction false} RankInjective(a: seq<Nibble>, b: seq<Nibble>)
    requires |a| == |b| && Rank(a) == Rank(b)
    ensures a == b
  {
    if a != [] {
      var n := |a| - 1;
      assert 16 * Rank(a[..n]) + a[n] == 16 * Rank(b[..n]) + b[n];
      RankInjective(a[..n], b[..n]);
      assert a == a[..n] + [a[n]] && b == b[..n] + [b[n]];
    }
  }

  /** The order is byte by byte: the first digit that differs decides. */
  lemma {:induction false} RankLexicographic(a: seq<Nibble>, b: seq<Nibble>, k: nat)
    requires |a| == |b| && k < |a| && a[..k] == b[..k] && a[k] < b[k]
    ensures Rank(a) < Rank(b)
  {
    var n := |a| - 1;
    if k < n {
      assert a[..n][..k] == a[..k] && b[..n][..k] == b[..k];
      RankLexicographic(a[..n], b[..n], k);
    }
  }

  predicate Less(a: Uuid, b: Uuid) {
    Rank(a) < Rank(b)
  }
}

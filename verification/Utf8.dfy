/** UTF-8 as `g_utf8_next_char` steps through it. */
module Utf8 {

  /** The jump table of `g_utf8_next_char`: how far the lead octet says its character reaches. */
  function Skip(c: char): (n: nat)
    ensures 1 <= n <= 6
  {
    var x := c as int;
    if x < 0xC0 then 1
    else if x < 0xE0 then 2
    else if x < 0xF0 then 3
    else if x < 0xF8 then 4
    else if x < 0xFC then 5
    else if x < 0xFE then 6
    else 1
  }

  /** The length of the character `s` begins with. */
  function CharLength(s: string): (n: nat)
    requires s != ""
    ensures 1 <= n <= |s|
  {
    if Skip(s[0]) <= |s| then Skip(s[0]) else |s|
  }

  predicate IsLead(c: char) {
    c as int < 0x80 || 0xC2 <= c as int <= 0xF4
  }

  predicate IsContinuation(c: char) {
    0x80 <= c as int <= 0xBF
  }

  /** `s` begins with one whole character. */
  predicate HasWholeChar(s: string) {
    s != "" && IsLead(s[0]) && Skip(s[0]) <= |s| &&
    (Skip(s[0]) >= 2 ==> IsContinuation(s[1])) &&
    (Skip(s[0]) >= 3 ==> IsContinuation(s[2])) &&
    (Skip(s[0]) >= 4 ==> IsContinuation(s[3]))
  }

  /** `s` is a sequence of whole characters; every UTF-8 text of RFC 3629 is one. */
  predicate WellFormed(s: string) {
    s == "" || (HasWholeChar(s) && WellFormed(s[CharLength(s)..]))
  }

  /** An ASCII octet is never inside a character, so cutting before one cuts between characters. */
  lemma {:induction false} WellFormedSplit(a: string, b: string)
    requires WellFormed(a + b)
    requires b == "" || (b[0] as int) < 0x80
    ensures WellFormed(a) && WellFormed(b)
  {
    if a == "" {
      assert a + b == b;
    } else {
      var s := a + b;
      var n := CharLength(s);
      assert s[0] == a[0];
      assert b != "" ==> s[|a|] == b[0];
      assert n <= |a|;
      assert s[n..] == a[n..] + b;
      WellFormedSplit(a[n..], b);
    }
  }

  lemma {:induction false} WellFormedConcat(a: string, b: string)
    requires WellFormed(a) && WellFormed(b)
    ensures WellFormed(a + b)
  {
    if a == "" {
      assert a + b == b;
    } else {
      var n := CharLength(a);
      assert (a + b)[n..] == a[n..] + b;
      WellFormedConcat(a[n..], b);
    }
  }

  // ----- the characters of RFC 3629 -----

  /** The octets of a code point, as section 3 of RFC 3629 gives them. */
  function Octets(cp: nat): string
    requires cp < 0x110000
  {
    if cp < 0x80 then [cp as char]
    else if cp < 0x800 then [(0xC0 + cp / 0x40) as char, (0x80 + cp % 0x40) as char]
    else if cp < 0x10000 then
      [(0xE0 + cp / 0x1000) as char, (0x80 + cp / 0x40 % 0x40) as char, (0x80 + cp % 0x40) as char]
    else
      [(0xF0 + cp / 0x40000) as char, (0x80 + cp / 0x1000 % 0x40) as char, (0x80 + cp / 0x40 % 0x40) as char,
       (0x80 + cp % 0x40) as char]
  }

  type CodePoint = cp: nat | cp < 0x110000

  function AllOctets(cps: seq<CodePoint>): string {
    if cps == [] then "" else Octets(cps[0]) + AllOctets(cps[1..])
  }

  /** Each code point is one character, neither less nor more. */
  lemma OneCharacter(cp: CodePoint, rest: string)
    ensures var s := Octets(cp) + rest; HasWholeChar(s) && CharLength(s) == |Octets(cp)|
  {
    var o, s := Octets(cp), Octets(cp) + rest;
    assert s[0] == o[0] && (|o| > 1 ==> s[1] == o[1]) && (|o| > 2 ==> s[2] == o[2]) && (|o| > 3 ==> s[3] == o[3]);
  }

  /** Every text of code points is well-formed. */
  lemma {:induction false} TextIsWellFormed(cps: seq<CodePoint>)
    ensures WellFormed(AllOctets(cps))
  {
    if cps != [] {
      var o, rest := Octets(cps[0]), AllOctets(cps[1..]);
      TextIsWellFormed(cps[1..]);
      OneCharacter(cps[0], rest);
      assert (o + rest)[|o|..] == rest;
    }
  }
}

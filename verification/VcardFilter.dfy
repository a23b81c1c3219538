/**
 The vCard 3.0 attribute filter: twelve removals, one for each clear bit of the mask, amount to one
 pass that drops a set of names.
 */
module VcardFilter {
  import opened Text
  import opened LogicalLines
  import opened PropertyRemover

  // ----- removal as an operation on lists of logical lines -----

  /** A list of lines, none the first, that would be read back as they are. */
  predicate GoodTail(ls: seq<string>) {
    ls == [] ||
    (ls[0] != "" && !IsBlank(ls[0][0]) && Logical(ls[0]) == [ls[0]] &&
     (|ls| > 1 ==> Terminated(ls[0])) && GoodTail(ls[1..]))
  }

  predicate GoodLines(ls: seq<string>) {
    ls == [] ||
    (ls[0] != "" && Logical(ls[0]) == [ls[0]] && (|ls| > 1 ==> Terminated(ls[0])) && GoodTail(ls[1..]))
  }

  lemma PrefixIsOne(t: string)
    requires t != ""
    ensures Logical(t[..EndFrom(t, 1)]) == [t[..EndFrom(t, 1)]]
  {
    var n := EndFrom(t, 1);
    var l := t[..n];
    forall m | 0 < m < n ensures !LineEndsAt(l, m) {
      assert !LineEndsAt(t, m);
    }
    LogicalOfOne(l);
  }

  lemma {:induction false} LogicalIsGoodTail(t: string)
    requires t == "" || !IsBlank(t[0])
    ensures GoodTail(Logical(t))
    decreases |t|
  {
    if t != "" {
      var n := EndFrom(t, 1);
      PrefixIsOne(t);
      LogicalIsGoodTail(t[n..]);
      assert n < |t| ==> CrlfAt(t[..n], n - 2) by {
        if n < |t| { assert LineEndsAt(t, n); }
      }
    }
  }

  lemma LogicalIsGood(t: string)
    ensures GoodLines(Logical(t))
  {
    if t != "" {
      var n := EndFrom(t, 1);
      PrefixIsOne(t);
      assert n < |t| ==> CrlfAt(t[..n], n - 2) by {
        if n < |t| { assert LineEndsAt(t, n); }
      }
      LogicalIsGoodTail(t[n..]);
    }
  }

  lemma {:induction false} KeptIsGoodTail(ls: seq<string>, names: set<string>)
    requires GoodTail(ls)
    ensures GoodTail(Kept(ls, names)) && |Kept(ls, names)| <= |ls|
  {
    if ls != [] {
      KeptIsGoodTail(ls[1..], names);
      var k := Kept(ls[1..], names);
      assert ([ls[0]] + k)[1..] == k;
    }
  }

  /** Lines that start with no blank and end in CRLF read back as they were put together. */
  lemma {:induction false} LogicalOfConcat(ls: seq<string>)
    requires GoodTail(ls)
    ensures Logical(Concat(ls)) == ls
    ensures ls != [] ==> Concat(ls) != "" && Concat(ls)[0] == ls[0][0]
  {
    if ls != [] {
      LogicalOfConcat(ls[1..]);
      JoinLine(ls[0], ls[1..]);
      assert [ls[0]] + ls[1..] == ls;
    }
  }

  lemma JoinLine(l: string, ls: seq<string>)
    requires l != "" && Logical(l) == [l] && (ls != [] ==> Terminated(l)) && GoodTail(ls)
    requires Logical(Concat(ls)) == ls && (ls != [] ==> Concat(ls) != "" && !IsBlank(Concat(ls)[0]))
    ensures Logical(l + Concat(ls)) == [l] + ls
  {
    var u := Concat(ls);
    var t := l + u;
    if ls == [] {
      assert t == l;
    } else {
      assert CrlfAt(t, |l| - 2);
      assert LineEndsAt(t, |l|);
      assert t[..|l|] == l && t[|l|..] == u;
      LogicalSplit(t, |l|);
    }
  }

  lemma LogicalOfKept(t: string, names: set<string>)
    ensures Logical(Removed(t, names)) == KeptLines(Logical(t), names)
  {
    var ls := Logical(t);
    LogicalIsGood(t);
    if ls != [] {
      var k := Kept(ls[1..], names);
      KeptIsGoodTail(ls[1..], names);
      LogicalOfConcat(k);
      JoinLine(ls[0], k);
      assert ([ls[0]] + k)[1..] == k;
    }
  }

  lemma {:induction false} KeptTwice(ls: seq<string>, a: set<string>, b: set<string>)
    ensures Kept(Kept(ls, a), b) == Kept(ls, a + b)
  {
    if ls != [] {
      KeptTwice(ls[1..], a, b);
      var k := Kept(ls[1..], a);
      assert ([ls[0]] + k)[1..] == k;
    }
  }

  /** Two removals are one removal of both sets of names. */
  lemma RemovedTwice(t: string, a: set<string>, b: set<string>)
    ensures Removed(Removed(t, a), b) == Removed(t, a + b)
  {
    LogicalOfKept(t, a);
    var ls := Logical(t);
    if ls != [] {
      KeptTwice(ls[1..], a, b);
      assert ([ls[0]] + Kept(ls[1..], a))[1..] == Kept(ls[1..], a);
    }
  }

  /** One removal after the other, in the order of the list. */
  function RemovedInTurn(t: string, names: seq<string>): string
    decreases names
  {
    if names == [] then t else RemovedInTurn(Removed(t, {names[0]}), names[1..])
  }

  function AllOf(names: seq<string>): set<string> {
    set i | 0 <= i < |names| :: names[i]
  }

  lemma AllOfCons(names: seq<string>)
    requires names != []
    ensures AllOf(names) == {names[0]} + AllOf(names[1..])
  {
    forall x | x in AllOf(names) ensures x in {names[0]} + AllOf(names[1..]) {
      var i :| 0 <= i < |names| && names[i] == x;
      assert i > 0 ==> names[1..][i - 1] == x;
    }
    forall x | x in AllOf(names[1..]) ensures x in AllOf(names) {
      var i :| 0 <= i < |names[1..]| && names[1..][i] == x;
      assert names[i + 1] == x;
    }
  }

  /** Single removals, however many, in whatever order and however often repeated, are one removal of
      the set of their names. */
  lemma {:induction false} OrderDoesNotMatter(t: string, names: seq<string>)
    ensures RemovedInTurn(t, names) == Removed(t, AllOf(names))
    decreases names
  {
    if names == [] {
      assert AllOf(names) == {};
      RemovedNone(t);
    } else {
      AllOfCons(names);
      hide Removed, AllOf;
      OrderDoesNotMatter(Removed(t, {names[0]}), names[1..]);
      RemovedTwice(t, {names[0]}, AllOf(names[1..]));
    }
  }

  lemma {:induction false} KeptNone(ls: seq<string>)
    ensures Kept(ls, {}) == ls
  {
    if ls != [] {
      KeptNone(ls[1..]);
      assert [ls[0]] + ls[1..] == ls;
    }
  }

  lemma RemovedNone(t: string)
    ensures Removed(t, {}) == t
  {
    ConcatOfLogical(t);
    if t != "" {
      KeptNone(Logical(t)[1..]);
      assert [Logical(t)[0]] + Logical(t)[1..] == Logical(t);
    }
  }

  /** The lines of one name, in order. */
  function Named(ls: seq<string>, name: string): seq<string> {
    if ls == [] then []
    else if NameOf(ls[0]) == Some(name) then [ls[0]] + Named(ls[1..], name)
    else Named(ls[1..], name)
  }

  lemma {:induction false} KeptNamed(ls: seq<string>, names: set<string>, name: string)
    requires name !in names
    ensures Named(Kept(ls, names), name) == Named(ls, name)
  {
    if ls != [] {
      KeptNamed(ls[1..], names, name);
      var k := Kept(ls[1..], names);
      assert ([ls[0]] + k)[1..] == k;
    }
  }

  /** The lines of a name that is not removed all stay, byte for byte and in order. */
  lemma OthersStay(t: string, names: set<string>, name: string)
    requires name !in names
    ensures Named(Logical(Removed(t, names)), name) == Named(Logical(t), name)
  {
    LogicalOfKept(t, names);
    var ls := Logical(t);
    if ls != [] {
      KeptNamed(ls[1..], names, name);
      assert ([ls[0]] + Kept(ls[1..], names))[1..] == Kept(ls[1..], names);
    }
  }

  predicate Has(ls: seq<string>, names: set<string>) {
    exists i :: 0 <= i < |ls| && NameOf(ls[i]).Some? && NameOf(ls[i]).value in names
  }

  lemma {:induction false} KeptHas(ls: seq<string>, names: set<string>)
    requires GoodTail(ls)
    ensures Has(Kept(ls, names), names) <==>
            ls != [] && !Terminated(ls[|ls| - 1]) && Has([ls[|ls| - 1]], names)
  {
    if ls != [] {
      KeptHas(ls[1..], names);
      HasCons(ls[0], Kept(ls[1..], names), names);
      HasOne(ls[0], names);
      if |ls| > 1 {
        assert ls[1..][|ls[1..]| - 1] == ls[|ls| - 1];
      } else {
        HasOne(ls[|ls| - 1], names);
      }
    }
  }

  lemma HasOne(l: string, names: set<string>)
    ensures Has([l], names) <==> NameOf(l).Some? && NameOf(l).value in names
  {
    assert [l][0] == l;
  }

  lemma HasCons(l: string, ls: seq<string>, names: set<string>)
    ensures Has([l] + ls, names) <==> Has([l], names) || Has(ls, names)
  {
    assert [l][0] == l;
    assert ([l] + ls)[0] == l;
    forall i | 0 <= i < |ls| ensures ([l] + ls)[i + 1] == ls[i] {}
    if Has(ls, names) {
      var i :| 0 <= i < |ls| && NameOf(ls[i]).Some? && NameOf(ls[i]).value in names;
      assert ([l] + ls)[i + 1] == ls[i];
    }
    if Has([l] + ls, names) {
      var i :| 0 <= i < |[l] + ls| && NameOf(([l] + ls)[i]).Some? && NameOf(([l] + ls)[i]).value in names;
      if i > 0 {
        assert ls[i - 1] == ([l] + ls)[i];
      }
    }
  }

  /** Behind the first line nothing of the removed names is left, exactly unless the text ends in
      such a line without its CRLF. */
  lemma AllGoneIff(t: string, names: set<string>)
    requires |Logical(t)| > 1
    ensures var last := Logical(t)[|Logical(t)| - 1];
            Has(Logical(Removed(t, names))[1..], names) <==> !Terminated(last) && Has([last], names)
  {
    LogicalOfKept(t, names);
    LogicalIsGood(t);
    var ls := Logical(t);
    KeptHas(ls[1..], names);
    assert ([ls[0]] + Kept(ls[1..], names))[1..] == Kept(ls[1..], names);
    assert ls[1..][|ls[1..]| - 1] == ls[|ls| - 1];
  }

  // ----- the mask -----

  const VCARD_PHOTO: nat := 0x8
  const VCARD_BDAY: nat := 0x10
  const VCARD_ADR: nat := 0x20
  const VCARD_EMAIL: nat := 0x100
  const VCARD_TITLE: nat := 0x1000
  const VCARD_ROLE: nat := 0x2000
  const VCARD_ORG: nat := 0x10000
  const VCARD_NOTE: nat := 0x20000
  const VCARD_REV: nat := 0x40000
  const VCARD_URL: nat := 0x100000
  const VCARD_UID: nat := 0x200000
  const VCARD_NICKNAME: nat := 0x800000

  /** `filter & flag` is not zero, for a `flag` of one bit. */
  predicate IsSet(filter: nat, flag: nat)
    requires flag > 0
  {
    (filter / flag) % 2 == 1
  }

  function Clears(filter: nat, flag: nat, name: string): set<string>
    requires flag > 0
  {
    if IsSet(filter, flag) then {} else {name}
  }

  /** The names whose bit is clear in the mask. */
  function Cleared(filter: nat): set<string> {
    Clears(filter, VCARD_PHOTO, "PHOTO") +
    Clears(filter, VCARD_BDAY, "BDAY") +
    Clears(filter, VCARD_ADR, "ADR") +
    Clears(filter, VCARD_EMAIL, "EMAIL") +
    Clears(filter, VCARD_TITLE, "TITLE") +
    Clears(filter, VCARD_ROLE, "ROLE") +
    Clears(filter, VCARD_ORG, "ORG") +
    Clears(filter, VCARD_NOTE, "NOTE") +
    Clears(filter, VCARD_REV, "REV") +
    Clears(filter, VCARD_URL, "URL") +
    Clears(filter, VCARD_UID, "UID") +
    Clears(filter, VCARD_NICKNAME, "NICKNAME")
  }

  function Filtered(vcard: string, filter: nat): string {
    Removed(vcard, Cleared(filter))
  }

  lemma {:induction false} UpperIs(s: string)
    requires forall i :: 0 <= i < |s| ==> 'A' <= s[i] <= 'Z'
    ensures UpperAll(s) == s
  {
    if s != "" {
      UpperIs(s[1..]);
      assert [s[0]] + s[1..] == s;
    }
  }

  predicate IsUpperName(name: string) {
    name != "" && forall i :: 0 <= i < |name| ==> 'A' <= name[i] <= 'Z'
  }

  /** Removes a property if its bit is clear. */
  method Filter(text: GString, filter: nat, flag: nat, name: string)
    requires flag > 0 && IsUpperName(name)
    modifies text
    ensures text.str == Removed(old(text.str), Clears(filter, flag, name))
  {
    UpperIs(name);
    RemovedNone(text.str);
    if !IsSet(filter, flag) {
      RemoveProperty(text, name);
    }
  }

  lemma NamesAreUpper()
    ensures IsUpperName("PHOTO")
    ensures IsUpperName("BDAY")
    ensures IsUpperName("ADR")
    ensures IsUpperName("EMAIL")
    ensures IsUpperName("TITLE")
    ensures IsUpperName("ROLE")
    ensures IsUpperName("ORG")
    ensures IsUpperName("NOTE")
    ensures IsUpperName("REV")
    ensures IsUpperName("URL")
    ensures IsUpperName("UID")
    ensures IsUpperName("NICKNAME")
  {
  }

  /** The filter: one removal after the other, which comes to dropping the cleared names in one pass. */
  method FilterV30(vcard: Option<string>, filter: nat) returns (r: Option<string>)
    ensures r == match vcard case None => None case Some(v) => Some(Filtered(v, filter))
  {
    if vcard.None? {
      return None;
    }
    var text := new GString(vcard.value);
    NamesAreUpper();
    FilterChain(vcard.value, filter);
    hide Removed, Clears, IsUpperName;
    Filter(text, filter, VCARD_PHOTO, "PHOTO");
    Filter(text, filter, VCARD_BDAY, "BDAY");
    Filter(text, filter, VCARD_ADR, "ADR");
    Filter(text, filter, VCARD_EMAIL, "EMAIL");
    Filter(text, filter, VCARD_TITLE, "TITLE");
    Filter(text, filter, VCARD_ROLE, "ROLE");
    Filter(text, filter, VCARD_ORG, "ORG");
    Filter(text, filter, VCARD_NOTE, "NOTE");
    Filter(text, filter, VCARD_REV, "REV");
    Filter(text, filter, VCARD_URL, "URL");
    Filter(text, filter, VCARD_UID, "UID");
    Filter(text, filter, VCARD_NICKNAME, "NICKNAME");
    r := Some(text.str);
  }

  lemma FilterChain(t: string, filter: nat)
    ensures Filtered(t, filter) ==
            Removed(Removed(Removed(Removed(Removed(Removed(
              Removed(Removed(Removed(Removed(Removed(Removed(t,
                Clears(filter, VCARD_PHOTO, "PHOTO")),
                Clears(filter, VCARD_BDAY, "BDAY")),
                Clears(filter, VCARD_ADR, "ADR")),
                Clears(filter, VCARD_EMAIL, "EMAIL")),
                Clears(filter, VCARD_TITLE, "TITLE")),
                Clears(filter, VCARD_ROLE, "ROLE")),
                Clears(filter, VCARD_ORG, "ORG")),
                Clears(filter, VCARD_NOTE, "NOTE")),
                Clears(filter, VCARD_REV, "REV")),
                Clears(filter, VCARD_URL, "URL")),
                Clears(filter, VCARD_UID, "UID")),
                Clears(filter, VCARD_NICKNAME, "NICKNAME"))
  {
    hide Removed, Clears;
    var s0 := Clears(filter, VCARD_PHOTO, "PHOTO");
    var s1 := s0 + Clears(filter, VCARD_BDAY, "BDAY");
    var s2 := s1 + Clears(filter, VCARD_ADR, "ADR");
    var s3 := s2 + Clears(filter, VCARD_EMAIL, "EMAIL");
    var s4 := s3 + Clears(filter, VCARD_TITLE, "TITLE");
    var s5 := s4 + Clears(filter, VCARD_ROLE, "ROLE");
    var s6 := s5 + Clears(filter, VCARD_ORG, "ORG");
    var s7 := s6 + Clears(filter, VCARD_NOTE, "NOTE");
    var s8 := s7 + Clears(filter, VCARD_REV, "REV");
    var s9 := s8 + Clears(filter, VCARD_URL, "URL");
    var s10 := s9 + Clears(filter, VCARD_UID, "UID");
    var s11 := s10 + Clears(filter, VCARD_NICKNAME, "NICKNAME");
    RemovedTwice(t, s0, Clears(filter, VCARD_BDAY, "BDAY"));
    RemovedTwice(t, s1, Clears(filter, VCARD_ADR, "ADR"));
    RemovedTwice(t, s2, Clears(filter, VCARD_EMAIL, "EMAIL"));
    RemovedTwice(t, s3, Clears(filter, VCARD_TITLE, "TITLE"));
    RemovedTwice(t, s4, Clears(filter, VCARD_ROLE, "ROLE"));
    RemovedTwice(t, s5, Clears(filter, VCARD_ORG, "ORG"));
    RemovedTwice(t, s6, Clears(filter, VCARD_NOTE, "NOTE"));
    RemovedTwice(t, s7, Clears(filter, VCARD_REV, "REV"));
    RemovedTwice(t, s8, Clears(filter, VCARD_URL, "URL"));
    RemovedTwice(t, s9, Clears(filter, VCARD_UID, "UID"));
    RemovedTwice(t, s10, Clears(filter, VCARD_NICKNAME, "NICKNAME"));
  }

  /** The property names and their bits, as the Phone Book Access Profile numbers them. */
  predicate HasBit(name: string, f: nat) {
    (name == "PHOTO" && f == 0x8) ||
    (name == "BDAY" && f == 0x10) ||
    (name == "ADR" && f == 0x20) ||
    (name == "EMAIL" && f == 0x100) ||
    (name == "TITLE" && f == 0x1000) ||
    (name == "ROLE" && f == 0x2000) ||
    (name == "ORG" && f == 0x10000) ||
    (name == "NOTE" && f == 0x20000) ||
    (name == "REV" && f == 0x40000) ||
    (name == "URL" && f == 0x100000) ||
    (name == "UID" && f == 0x200000) ||
    (name == "NICKNAME" && f == 0x800000)
  }

  lemma AtLeast(f: nat, d: nat)
    requires d >= 1
    ensures f * d >= f
  {
    assert f * d == f * (d - 1) + f;
  }

  lemma Exceeds(f: nat, a: nat, b: nat, s: nat)
    requires a > b && s < f
    ensures f * a > f * b + s
  {
    AtLeast(f, a - b);
    assert f * (a - b) == f * a - f * b;
  }

  lemma SameQuotient(f: nat, a: nat, r: nat, b: nat, s: nat)
    requires f * a + r == f * b + s && r < f && s < f
    ensures a == b
  {
    if a > b {
      Exceeds(f, a, b, s);
    } else if b > a {
      Exceeds(f, b, a, r);
    }
  }

  lemma DivideOut(n: nat, f: nat, q: nat, lo: nat)
    requires lo < f && n == f * q + lo
    ensures n / f == q
  {
    var x, r := n / f, n % f;
    assert n == f * x + r;
    SameQuotient(f, x, r, q, lo);
  }

  /** With the bit at `f` written out as `b`, `IsSet` is that bit. */
  lemma BitIs(filter: nat, f: nat, hi: nat, b: nat, lo: nat)
    requires b < 2 && lo < f && filter == f * (2 * hi + b) + lo
    ensures IsSet(filter, f) <==> b == 1
  {
    DivideOut(filter, f, 2 * hi + b, lo);
  }

  lemma ClearsIff(filter: nat, flag: nat, x: string, name: string)
    requires flag > 0
    ensures name in Clears(filter, flag, x) <==> name == x && !IsSet(filter, flag)
  {
  }

  lemma ClearedIff(filter: nat, name: string, f: nat)
    requires HasBit(name, f)
    ensures f > 0 && (name in Cleared(filter) <==> !IsSet(filter, f))
  {
    hide Clears, IsSet;
    ClearsIff(filter, VCARD_PHOTO, "PHOTO", name);
    ClearsIff(filter, VCARD_BDAY, "BDAY", name);
    ClearsIff(filter, VCARD_ADR, "ADR", name);
    ClearsIff(filter, VCARD_EMAIL, "EMAIL", name);
    ClearsIff(filter, VCARD_TITLE, "TITLE", name);
    ClearsIff(filter, VCARD_ROLE, "ROLE", name);
    ClearsIff(filter, VCARD_ORG, "ORG", name);
    ClearsIff(filter, VCARD_NOTE, "NOTE", name);
    ClearsIff(filter, VCARD_REV, "REV", name);
    ClearsIff(filter, VCARD_URL, "URL", name);
    ClearsIff(filter, VCARD_UID, "UID", name);
    ClearsIff(filter, VCARD_NICKNAME, "NICKNAME", name);
  }

  /** A property is removed if and only if its bit is 0 in the mask, whatever the other bits. */
  lemma ClearBitIff(filter: nat, name: string, f: nat, hi: nat, b: nat, lo: nat)
    requires HasBit(name, f) && b < 2 && lo < f && filter == f * (2 * hi + b) + lo
    ensures name in Cleared(filter) <==> b == 0
  {
    hide Cleared, HasBit, IsSet;
    ClearedIff(filter, name, f);
    BitIs(filter, f, hi, b, lo);
  }

  /** A mask with all twelve bits changes no text. */
  lemma FullMaskKeepsAll(t: string)
    ensures Filtered(t, 0xB73138) == t
  {
    assert Cleared(0xB73138) == {} by {
      assert IsSet(0xB73138, VCARD_PHOTO);
      assert IsSet(0xB73138, VCARD_BDAY);
      assert IsSet(0xB73138, VCARD_ADR);
      assert IsSet(0xB73138, VCARD_EMAIL);
      assert IsSet(0xB73138, VCARD_TITLE);
      assert IsSet(0xB73138, VCARD_ROLE);
      assert IsSet(0xB73138, VCARD_ORG);
      assert IsSet(0xB73138, VCARD_NOTE);
      assert IsSet(0xB73138, VCARD_REV);
      assert IsSet(0xB73138, VCARD_URL);
      assert IsSet(0xB73138, VCARD_UID);
      assert IsSet(0xB73138, VCARD_NICKNAME);
    }
    RemovedNone(t);
  }

  /** The twelve names. */
  const OPTIONAL: set<string> := {
    "PHOTO", "BDAY", "ADR", "EMAIL", "TITLE", "ROLE",
    "ORG", "NOTE", "REV", "URL", "UID", "NICKNAME"
  }

  /** An empty mask leaves no complete line of the twelve names behind the first line. */
  lemma EmptyMaskRemovesAll(t: string)
    requires |Logical(t)| > 1 && Terminated(Logical(t)[|Logical(t)| - 1])
    ensures Filtered(t, 0) == Removed(t, OPTIONAL)
    ensures !Has(Logical(Filtered(t, 0))[1..], OPTIONAL)
  {
    assert Cleared(0) == OPTIONAL;
    AllGoneIff(t, OPTIONAL);
  }

  const MANDATORY: set<string> := {"VERSION", "N", "FN", "TEL", "END"}

  /** A shape that tells the mandatory names from the twelve. */
  predicate Apart(name: string) {
    |name| == 1 || |name| == 2 || |name| == 7 || (|name| == 3 && (name[0] == 'T' || name[0] == 'E'))
  }

  lemma NotCleared(filter: nat, flag: nat, x: string, name: string)
    requires flag > 0 && Apart(name) && !Apart(x)
    ensures name !in Clears(filter, flag, x)
  {
  }

  lemma MandatoryNotCleared(filter: nat, name: string)
    requires name in MANDATORY
    ensures name !in Cleared(filter)
  {
    assert Apart(name);
    hide Clears;
    NotCleared(filter, VCARD_PHOTO, "PHOTO", name);
    NotCleared(filter, VCARD_BDAY, "BDAY", name);
    NotCleared(filter, VCARD_ADR, "ADR", name);
    NotCleared(filter, VCARD_EMAIL, "EMAIL", name);
    NotCleared(filter, VCARD_TITLE, "TITLE", name);
    NotCleared(filter, VCARD_ROLE, "ROLE", name);
    NotCleared(filter, VCARD_ORG, "ORG", name);
    NotCleared(filter, VCARD_NOTE, "NOTE", name);
    NotCleared(filter, VCARD_REV, "REV", name);
    NotCleared(filter, VCARD_URL, "URL", name);
    NotCleared(filter, VCARD_UID, "UID", name);
    NotCleared(filter, VCARD_NICKNAME, "NICKNAME", name);
  }

  /** Whatever the mask, the lines of VERSION, N, FN, TEL and END all stay as they are. */
  lemma MandatoryStays(vcard: string, filter: nat, name: string)
    requires name in MANDATORY
    ensures Named(Logical(Filtered(vcard, filter)), name) == Named(Logical(vcard), name)
  {
    MandatoryNotCleared(filter, name);
    OthersStay(vcard, Cleared(filter), name);
  }

  const FLAGS: set<nat> := {
    VCARD_PHOTO, VCARD_BDAY, VCARD_ADR, VCARD_EMAIL, VCARD_TITLE, VCARD_ROLE,
    VCARD_ORG, VCARD_NOTE, VCARD_REV, VCARD_URL, VCARD_UID, VCARD_NICKNAME
  }

  /** Every bit of the twelve that is set in `f` is set in `g`. */
  predicate AsksForMore(g: nat, f: nat) {
    forall flag | flag in FLAGS && flag > 0 :: IsSet(f, flag) ==> IsSet(g, flag)
  }

  lemma ClearsLess(g: nat, f: nat, flag: nat, name: string)
    requires flag > 0 && (IsSet(f, flag) ==> IsSet(g, flag))
    ensures Clears(g, flag, name) <= Clears(f, flag, name)
  {
  }

  lemma MoreClearsLess(g: nat, f: nat)
    requires AsksForMore(g, f)
    ensures Cleared(g) <= Cleared(f)
  {
    ClearsLess(g, f, VCARD_PHOTO, "PHOTO");
    ClearsLess(g, f, VCARD_BDAY, "BDAY");
    ClearsLess(g, f, VCARD_ADR, "ADR");
    ClearsLess(g, f, VCARD_EMAIL, "EMAIL");
    ClearsLess(g, f, VCARD_TITLE, "TITLE");
    ClearsLess(g, f, VCARD_ROLE, "ROLE");
    ClearsLess(g, f, VCARD_ORG, "ORG");
    ClearsLess(g, f, VCARD_NOTE, "NOTE");
    ClearsLess(g, f, VCARD_REV, "REV");
    ClearsLess(g, f, VCARD_URL, "URL");
    ClearsLess(g, f, VCARD_UID, "UID");
    ClearsLess(g, f, VCARD_NICKNAME, "NICKNAME");
    hide Clears;
  }

  /** Filtering is a set operation: filters commute, repeating one changes nothing, and a mask that asks
      for less can be applied after one that asks for more. */
  lemma FilterIsSetOperation(vcard: string, f: nat, g: nat)
    ensures Filtered(Filtered(vcard, f), g) == Filtered(Filtered(vcard, g), f)
    ensures Filtered(Filtered(vcard, f), g) == Removed(vcard, Cleared(f) + Cleared(g))
    ensures Filtered(Filtered(vcard, f), f) == Filtered(vcard, f)
    ensures AsksForMore(g, f) ==> Filtered(Filtered(vcard, g), f) == Filtered(vcard, f)
  {
    var a, b := Cleared(f), Cleared(g);
    if AsksForMore(g, f) {
      MoreClearsLess(g, f);
    }
    hide Cleared, Removed;
    RemovedTwice(vcard, a, b);
    RemovedTwice(vcard, b, a);
    RemovedTwice(vcard, a, a);
    assert a + b == b + a && a + a == a;
    assert b <= a ==> b + a == a;
  }
}

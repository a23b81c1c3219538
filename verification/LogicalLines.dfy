/**
 Folded text as section 5.8.1 of RFC 2425 has it: a physical line that starts with a blank goes on
 the line before it. What stands between two unfolded ends is a logical line, kept here with its
 folds and its CRLF.
 */
module LogicalLines {
  import opened Text

  /** A logical line ends at `n`: a CRLF stands before it and no continuation follows. */
  predicate LineEndsAt(t: string, n: nat) {
    n <= |t| && CrlfAt(t, n - 2) && (n == |t| || !IsBlank(t[n]))
  }

  /** The first place from `n` on where a logical line ends, the end of the text if there is none. */
  function EndFrom(t: string, n: nat): (e: nat)
    requires n <= |t|
    ensures n <= e <= |t|
    ensures e < |t| ==> LineEndsAt(t, e)
    ensures forall i :: n <= i < e ==> !LineEndsAt(t, i)
    decreases |t| - n
  {
    if n == |t| || LineEndsAt(t, n) then n else EndFrom(t, n + 1)
  }

  function Logical(t: string): (ls: seq<string>)
    ensures t != "" ==> |ls| >= 1
    decreases |t|
  {
    if t == "" then []
    else
      var n := EndFrom(t, 1);
      [t[..n]] + Logical(t[n..])
  }

  function Concat(ls: seq<string>): string {
    if ls == [] then "" else ls[0] + Concat(ls[1..])
  }

  predicate Terminated(l: string) {
    CrlfAt(l, |l| - 2)
  }

  // ----- names -----

  function Upper(c: char): char {
    if 'a' <= c <= 'z' then (c as int - 32) as char else c
  }

  function UpperAll(s: string): string {
    if s == "" then "" else [Upper(s[0])] + UpperAll(s[1..])
  }

  predicate IsSeparator(c: char) {
    c == ':' || c == ';'
  }

  /** The property name of a line, upper-cased: what stands before the first ':' or ';'. */
  function NameOf(l: string): Option<string> {
    if l == "" then None
    else if IsSeparator(l[0]) then Some("")
    else match NameOf(l[1..])
         case None => None
         case Some(n) => Some([Upper(l[0])] + n)
  }

  /** What a caller may give as a property name. */
  predicate IsName(name: string) {
    name != "" && !IsBlank(name[0]) &&
    forall i :: 0 <= i < |name| ==> !IsSeparator(name[i]) && name[i] != '\r' && name[i] != '\n'
  }

  // ----- dropping lines by name -----

  predicate Drops(l: string, names: set<string>) {
    Terminated(l) && NameOf(l).Some? && NameOf(l).value in names
  }

  function Kept(ls: seq<string>, names: set<string>): seq<string> {
    if ls == [] then []
    else if Drops(ls[0], names) then Kept(ls[1..], names)
    else [ls[0]] + Kept(ls[1..], names)
  }

  /** One pass over the logical lines: all but the first are dropped if their name is in the set. */
  function KeptLines(ls: seq<string>, names: set<string>): seq<string> {
    if ls == [] then [] else [ls[0]] + Kept(ls[1..], names)
  }

  function Removed(t: string, names: set<string>): string {
    Concat(KeptLines(Logical(t), names))
  }

  // ----- what lines and names are, octet by octet -----

  lemma {:induction false} UpperAllAt(s: string, i: nat)
    ensures |UpperAll(s)| == |s|
    ensures i < |s| ==> UpperAll(s)[i] == Upper(s[i])
  {
    if s != "" {
      UpperAllAt(s[1..], if i == 0 then 0 else i - 1);
    }
  }

  /** The same octet, or the same letter in the other case. */
  predicate SameLetter(c: char, d: char) {
    c == d || ('a' <= c <= 'z' && c as int == d as int + 32) || ('A' <= c <= 'Z' && d as int == c as int + 32)
  }

  lemma UpperIff(c: char, d: char)
    ensures Upper(c) == Upper(d) <==> SameLetter(c, d)
  {
  }

  /** Two texts are the same upper-cased exactly when they are the same but for the case of letters. */
  lemma SameUpperIff(a: string, b: string)
    ensures UpperAll(a) == UpperAll(b) <==> |a| == |b| && forall i :: 0 <= i < |a| ==> SameLetter(a[i], b[i])
  {
    UpperAllAt(a, 0);
    UpperAllAt(b, 0);
    hide UpperAll, Upper, SameLetter;
    forall i | 0 <= i < |a| && |a| == |b| ensures UpperAll(a)[i] == UpperAll(b)[i] <==> SameLetter(a[i], b[i]) {
      UpperAllAt(a, i);
      UpperAllAt(b, i);
      UpperIff(a[i], b[i]);
    }
  }

  /** The name of a line is what stands before its first ':' or ';', in upper case. */
  lemma {:induction false} NameOfAt(l: string, k: nat)
    requires k < |l| && (l[k] == ':' || l[k] == ';')
    requires forall i :: 0 <= i < k ==> l[i] != ':' && l[i] != ';'
    ensures NameOf(l) == Some(UpperAll(l[..k]))
  {
    if k > 0 {
      NameOfAt(l[1..], k - 1);
      assert l[1..][..k - 1] == l[..k][1..];
    }
  }

  /** A line without either has none. */
  lemma {:induction false} NamelessIff(l: string)
    ensures NameOf(l).None? <==> forall i :: 0 <= i < |l| ==> l[i] != ':' && l[i] != ';'
  {
    if l != "" {
      NamelessIff(l[1..]);
      assert forall i :: 1 <= i < |l| ==> l[i] == l[1..][i - 1];
    }
  }

  /** After `n` octets a CRLF ends, and no blank follows it. */
  predicate EndsUnfolded(t: string, n: nat) {
    2 <= n <= |t| && t[n - 2] == '\r' && t[n - 1] == '\n' && (n < |t| ==> t[n] != ' ' && t[n] != '\t')
  }

  /** The text cut at every unfolded CRLF, and nowhere else. */
  ghost predicate CutAtUnfolded(t: string, ls: seq<string>)
    decreases |ls|
  {
    if ls == [] then t == ""
    else
      ls[0] != "" && ls[0] <= t && (|ls[0]| == |t| || EndsUnfolded(t, |ls[0]|)) &&
      (forall n :: 0 < n < |ls[0]| ==> !EndsUnfolded(t, n)) && CutAtUnfolded(t[|ls[0]|..], ls[1..])
  }

  /** The logical lines are what the text is cut into at every CRLF that neither a space nor a tab follows. */
  lemma {:induction false} LogicalIsCut(t: string)
    ensures CutAtUnfolded(t, Logical(t))
    decreases |t|
  {
    if t != "" {
      var n := EndFrom(t, 1);
      LogicalIsCut(t[n..]);
      assert t[..n] <= t;
      assert forall i :: 0 < i <= |t| ==> (LineEndsAt(t, i) <==> EndsUnfolded(t, i));
    }
  }

  // ----- logical lines of a concatenation -----

  lemma EndsInPrefix(t: string, p: nat, n: nat)
    requires n <= p <= |t| && (p == |t| || p == n || n < p) && LineEndsAt(t, p)
    requires n < p
    ensures LineEndsAt(t[..p], n) <==> LineEndsAt(t, n)
  {
  }

  lemma EndsInSuffix(t: string, p: nat, n: nat)
    requires p <= |t| && 2 <= n && p + n <= |t|
    ensures LineEndsAt(t[p..], n) <==> LineEndsAt(t, p + n)
  {
  }

  /** Where a logical line ends, the lines before and after do not depend on each other. */
  lemma {:induction false} LogicalSplit(t: string, p: nat)
    requires LineEndsAt(t, p)
    ensures Logical(t) == Logical(t[..p]) + Logical(t[p..])
    decreases |t|
  {
    var n := EndFrom(t, 1);
    var a := t[..p];
    assert n <= p;
    var m := EndFrom(a, 1);
    if n < p {
      EndsInPrefix(t, p, n);
      if m < n { EndsInPrefix(t, p, m); }
      assert m == n;
      assert t[n..][..p - n] == a[n..] && t[n..][p - n..] == t[p..] && a[..n] == t[..n];
      assert !CrlfAt(t, p - 3);
      EndsInSuffix(t, n, p - n);
      LogicalSplit(t[n..], p - n);
    } else {
      if m < p { EndsInPrefix(t, p, m); }
      assert m == p && a[..p] == a && a[p..] == "";
      assert Logical(a) == [a] + [];
    }
  }

  /** A text with no logical end inside is one logical line. */
  lemma LogicalOfOne(t: string)
    requires t != "" && forall n :: 0 < n < |t| ==> !LineEndsAt(t, n)
    ensures Logical(t) == [t]
  {
    var n := EndFrom(t, 1);
    assert n == |t| && t[..n] == t && t[n..] == "";
  }

  lemma {:induction false} KeptConcat(a: seq<string>, b: seq<string>, names: set<string>)
    ensures Kept(a + b, names) == Kept(a, names) + Kept(b, names)
  {
    if a == [] {
      assert a + b == b;
    } else {
      assert (a + b)[1..] == a[1..] + b;
      KeptConcat(a[1..], b, names);
    }
  }

  lemma {:induction false} ConcatOfLogical(t: string)
    ensures Concat(Logical(t)) == t
    decreases |t|
  {
    if t != "" {
      var n := EndFrom(t, 1);
      ConcatOfLogical(t[n..]);
    }
  }

  // ----- names and folds -----

  predicate FoldAt(l: string, i: int) {
    CrlfAt(l, i) && i + 2 < |l| && IsBlank(l[i + 2])
  }

  /** The line with its folds undone: each CRLF and the one blank after it taken out. */
  function Unfold(l: string): string {
    if l == "" then ""
    else if FoldAt(l, 0) then Unfold(l[3..])
    else [l[0]] + Unfold(l[1..])
  }

  /** No fold stands before the first ':' or ';'. */
  predicate NameUnfolded(l: string) {
    l == "" || IsSeparator(l[0]) || (!FoldAt(l, 0) && NameUnfolded(l[1..]))
  }

  /** A line is taken for a property exactly when its unfolded name is that property's and the name
      itself is not folded: a name broken by a fold is not recognised. */
  lemma {:induction false} NameOfFolded(l: string, name: string)
    requires forall i :: 0 <= i < |name| ==> name[i] != '\r'
    ensures NameOf(l) == Some(name) <==> NameUnfolded(l) && NameOf(Unfold(l)) == Some(name)
  {
    if l == "" || IsSeparator(l[0]) {
    } else if FoldAt(l, 0) {
      assert NameOf(l).Some? ==> NameOf(l).value[0] == '\r';
    } else {
      var u := Unfold(l[1..]);
      assert ([l[0]] + u)[1..] == u;
      if name != "" {
        NameOfFolded(l[1..], name[1..]);
        assert [name[0]] + name[1..] == name;
        NameCons(l[0], l[1..], name);
        NameCons(l[0], u, name);
        assert [l[0]] + l[1..] == l;
      }
    }
  }

  lemma NameCons(c: char, l: string, name: string)
    requires !IsSeparator(c) && name != ""
    ensures NameOf([c] + l) == Some(name) <==> Upper(c) == name[0] && NameOf(l) == Some(name[1..])
  {
    assert ([c] + l)[1..] == l;
    if NameOf(l).Some? {
      assert ([Upper(c)] + NameOf(l).value)[1..] == NameOf(l).value;
    }
    assert [name[0]] + name[1..] == name;
  }

  /** Such a line: its name is TEL once unfolded, but it is not taken for one. */
  lemma FoldedNameEscapes()
    ensures NameOf(Unfold("TE\r\n L:5\r\n")) == Some("TEL")
    ensures NameOf("TE\r\n L:5\r\n") != Some("TEL")
  {
    var l := "TE\r\n L:5\r\n";
    UnfoldsTo(l, "TEL:5\r\n");
    assert l[2] == '\r' && l[3] == '\n' && l[4] == ' ';
    assert l[1..][0] == 'E' && l[1..][1..][0] == '\r';
    assert FoldAt(l[1..][1..], 0);
    assert !NameUnfolded(l[1..][1..]);
    assert !NameUnfolded(l[1..]);
    assert !NameUnfolded(l);
    NameOfFolded(l, "TEL");
  }

  lemma UnfoldCons(c: char, l: string)
    requires c != '\r'
    ensures Unfold([c] + l) == [c] + Unfold(l)
  {
    assert ([c] + l)[1..] == l && !FoldAt([c] + l, 0);
  }

  lemma UnfoldsTo(l: string, u: string)
    requires l == "TE\r\n L:5\r\n" && u == "TEL:5\r\n"
    ensures Unfold(l) == u && NameOf(u) == Some("TEL")
  {
    var rest := "L:5\r\n";
    PlainUnfolds(rest);
    NameIsTel();
    assert ['T'] + (['E'] + (FOLD + rest)) == l && ['T'] + (['E'] + rest) == u;
    hide Unfold;
    UnfoldFolded(rest);
    UnfoldCons('E', FOLD + rest);
    UnfoldCons('T', ['E'] + (FOLD + rest));
  }

  lemma UnfoldFolded(rest: string)
    ensures Unfold(FOLD + rest) == Unfold(rest)
  {
    assert (FOLD + rest)[3..] == rest && FoldAt(FOLD + rest, 0);
  }

  lemma NameIsTel()
    ensures NameOf("TEL:5\r\n") == Some("TEL")
  {
    assert NameOf(":5\r\n") == Some("");
    assert ['L'] + ":5\r\n" == "L:5\r\n" && ['E'] + "L:5\r\n" == "EL:5\r\n" && ['T'] + "EL:5\r\n" == "TEL:5\r\n";
    assert "L"[1..] == "" && "EL"[1..] == "L" && "TEL"[1..] == "EL";
    NameCons('L', ":5\r\n", "L");
    NameCons('E', "L:5\r\n", "EL");
    NameCons('T', "EL:5\r\n", "TEL");
  }

  lemma {:induction false} PlainUnfolds(l: string)
    requires forall i :: 0 <= i < |l| ==> !FoldAt(l, i)
    ensures Unfold(l) == l
  {
    if l != "" {
      assert !FoldAt(l, 0);
      forall i | 0 <= i < |l[1..]| ensures !FoldAt(l[1..], i) {
        assert !FoldAt(l, i + 1);
      }
      PlainUnfolds(l[1..]);
      assert [l[0]] + l[1..] == l;
    }
  }
}

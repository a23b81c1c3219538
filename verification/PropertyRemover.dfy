/**
 The in-place property remover. A cursor walks the text; when it has passed a whole matching
 property it erases it from the buffer and jumps back to the CRLF before it.
 */
module PropertyRemover {
  import opened Text
  import opened LogicalLines

  /** `g_ascii_strncasecmp(pos, name, strlen(name)) == 0`. */
  predicate MatchesAt(t: string, pos: nat, name: string) {
    pos + |name| <= |t| && forall i :: 0 <= i < |name| ==> Upper(t[pos + i]) == Upper(name[i])
  }

  predicate StartsAt(t: string, pos: nat, name: string) {
    MatchesAt(t, pos, name) && pos + |name| < |t| && IsSeparator(t[pos + |name|])
  }

  /** No property of that name starts after a CRLF before `p`. */
  ghost predicate Clean(t: string, p: int, name: string) {
    forall k {:trigger CrlfAt(t, k)} :: CrlfAt(t, k) && k + 2 <= p ==> !StartsAt(t, k + 2, name)
  }

  /** Between looking for a property and passing one: what the cursor has established. */
  ghost predicate Looking(t: string, pos: nat, name: string) {
    pos <= |t| && Clean(t, pos, name) && !CrlfAt(t, pos - 1)
  }

  ghost predicate Passing(t: string, st: int, pos: nat, name: string) {
    0 <= st && CrlfAt(t, st) && StartsAt(t, st + 2, name) && st + 2 + |name| < pos <= |t| &&
    Clean(t, st + 1, name) && !CrlfAt(t, pos - 1) &&
    forall n :: st + 2 < n <= pos ==> !LineEndsAt(t, n)
  }

  lemma UpperSame(c: char, d: char)
    requires Upper(c) == Upper(d) && (d == '\r' || d == '\n' || IsBlank(d) || IsSeparator(d))
    ensures c == d
  {
  }

  /** A matching name holds no CRLF, so the cursor may skip it. */
  lemma SkipName(t: string, pos: nat, name: string)
    requires IsName(name) && Looking(t, pos, name) && CrlfAt(t, pos) && MatchesAt(t, pos + 2, name)
    ensures forall k :: pos < k < pos + 2 + |name| ==> !CrlfAt(t, k)
  {
    forall k | pos < k < pos + 2 + |name| ensures !CrlfAt(t, k) {
      if k >= pos + 2 {
        assert Upper(t[pos + 2 + (k - pos - 2)]) == Upper(name[k - pos - 2]);
      }
    }
  }

  /** What matches at a place depends only on the octets there. */
  lemma StartsShift(t: string, p: nat, u: string, q: nat, name: string)
    requires p + |name| < |t| && q + |name| < |u|
    requires t[p..p + |name| + 1] == u[q..q + |name| + 1]
    ensures StartsAt(t, p, name) <==> StartsAt(u, q, name)
  {
    var w := t[p..p + |name| + 1];
    forall i | 0 <= i < |name|
      ensures Upper(t[p + i]) == Upper(name[i]) <==> Upper(u[q + i]) == Upper(name[i])
    {
      assert t[p + i] == w[i] == u[q + i];
    }
    assert t[p + |name|] == w[|name|] == u[q + |name|];
  }

  lemma NotBlank(t: string, p: nat, name: string)
    requires IsName(name) && MatchesAt(t, p, name)
    ensures p < |t| && !IsBlank(t[p]) && t[p] != '\n'
  {
    assert Upper(t[p + 0]) == Upper(name[0]);
    if IsBlank(t[p]) || t[p] == '\n' {
      UpperSame(name[0], t[p]);
    }
  }

  // ----- erasing -----

  lemma {:induction false} NameStarts(l: string, name: string)
    requires IsName(name) || (forall i :: 0 <= i < |name| ==> !IsSeparator(name[i]))
    ensures NameOf(l) == Some(UpperAll(name)) <==> StartsAt(l, 0, name)
  {
    if l == "" {
    } else if name == "" {
      assert UpperAll(name) == "";
    } else {
      var l', name' := l[1..], name[1..];
      NameStarts(l', name');
      assert UpperAll(name) == [Upper(name[0])] + UpperAll(name');
      assert UpperAll(name)[1..] == UpperAll(name') && UpperAll(name)[0] == Upper(name[0]);
      if IsSeparator(l[0]) {
        if Upper(l[0]) == Upper(name[0]) { UpperSame(name[0], l[0]); }
        assert !MatchesAt(l, 0, name);
      } else {
        assert MatchesAt(l, 0, name) <==> Upper(l[0]) == Upper(name[0]) && MatchesAt(l', 0, name') by {
          assert forall i :: 0 <= i < |name'| ==> name'[i] == name[i + 1];
          assert forall i :: 0 <= i < |l'| ==> l'[i] == l[i + 1];
        }
      }
    }
  }

  /** Erasing one complete matching property does not change what is left in the end. */
  lemma EraseStep(t: string, st: nat, pos: nat, name: string)
    requires IsName(name) && Passing'(t, st, pos, name) && LineEndsAt(t, pos)
    ensures st + 2 <= pos <= |t|
    ensures Removed(t[..st + 2] + t[pos..], {UpperAll(name)}) == Removed(t, {UpperAll(name)})
  {
    var names := {UpperAll(name)};
    var p := st + 2;
    var a, l, b := t[..p], t[p..pos], t[pos..];
    NotBlank(t, p, name);
    assert LineEndsAt(t, p);
    LogicalSplit(t, p);
    MatchedLine(t, p, pos, name);
    var t' := a + b;
    assert t'[..p] == a && t'[p..] == b;
    assert LineEndsAt(t', p);
    LogicalSplit(t', p);
    KeptOfParts(Logical(a), l, Logical(b), names);
  }

  /** As `Passing`, with the cursor already past the CRLF that may end the property. */
  ghost predicate Passing'(t: string, st: nat, pos: nat, name: string) {
    CrlfAt(t, st) && StartsAt(t, st + 2, name) && st + 2 + |name| < pos <= |t| &&
    forall n :: st + 2 < n < pos ==> !LineEndsAt(t, n)
  }

  /** The text from a matching start to the next logical end is one line, and is dropped. */
  lemma MatchedLine(t: string, p: nat, pos: nat, name: string)
    requires IsName(name) && 2 <= p && StartsAt(t, p, name) && p + |name| < pos <= |t| && LineEndsAt(t, pos)
    requires forall n :: p < n < pos ==> !LineEndsAt(t, n)
    ensures Logical(t[p..]) == [t[p..pos]] + Logical(t[pos..])
    ensures Drops(t[p..pos], {UpperAll(name)})
  {
    NotBlank(t, p, name);
    OneLine(t, p, pos);
    StartsInSlice(t, p, pos, name);
    NameStarts(t[p..pos], name);
    TerminatedSlice(t, p, pos);
  }

  lemma StartsInSlice(t: string, p: nat, pos: nat, name: string)
    requires p + |name| < pos <= |t|
    ensures StartsAt(t[p..pos], 0, name) <==> StartsAt(t, p, name)
  {
    var l := t[p..pos];
    assert t[p..p + |name| + 1] == l[0..0 + |name| + 1];
    StartsShift(t, p, l, 0, name);
  }

  lemma TerminatedSlice(t: string, p: nat, pos: nat)
    requires p + 2 <= pos <= |t|
    ensures Terminated(t[p..pos]) <==> CrlfAt(t, pos - 2)
  {
    var l := t[p..pos];
    assert l[|l| - 2] == t[pos - 2] && l[|l| - 1] == t[pos - 1];
  }

  lemma OneLine(t: string, p: nat, pos: nat)
    requires p + 2 <= pos <= |t| && LineEndsAt(t, pos)
    requires forall n :: p < n < pos ==> !LineEndsAt(t, n)
    ensures Logical(t[p..]) == [t[p..pos]] + Logical(t[pos..])
  {
    var r, n := t[p..], pos - p;
    EndsInSuffix(t, p, n);
    var e := EndFrom(r, 1);
    assert e <= n;
    if e < n && e >= 2 {
      EndsInSuffix(t, p, e);
    }
    assert !CrlfAt(r, 1 - 2);
    assert r[..n] == t[p..pos] && r[n..] == t[pos..];
  }

  lemma KeptOfParts(a: seq<string>, l: string, b: seq<string>, names: set<string>)
    requires a != [] && Drops(l, names)
    ensures KeptLines(a + ([l] + b), names) == KeptLines(a + b, names)
  {
    assert (a + ([l] + b))[1..] == a[1..] + ([l] + b) && (a + b)[1..] == a[1..] + b;
    assert (a + ([l] + b))[0] == a[0] && (a + b)[0] == a[0];
    KeptConcat(a[1..], [l] + b, names);
    KeptConcat(a[1..], b, names);
    assert ([l] + b)[1..] == b;
  }

  /** A name that starts before a CRLF ends before it. */
  lemma EndsBefore(t: string, k: nat, st: nat, name: string)
    requires IsName(name) && StartsAt(t, k, name) && k <= st && CrlfAt(t, st)
    ensures k + |name| < st
  {
    if st < k + |name| {
      assert Upper(t[k + (st - k)]) == Upper(name[st - k]);
      UpperSame(name[st - k], '\r');
    }
  }

  lemma PrefixSlice(t: string, a: nat, i: nat, j: nat)
    requires i <= j <= a <= |t|
    ensures t[..a][i..j] == t[i..j]
  {
  }

  lemma StartsBeforeErase(t: string, t': string, k: nat, st: nat, name: string)
    requires IsName(name) && StartsAt(t', k, name) && k <= st && st + 2 <= |t| && st + 2 <= |t'|
    requires CrlfAt(t', st) && t'[..st + 2] == t[..st + 2]
    ensures StartsAt(t, k, name)
  {
    EndsBefore(t', k, st, name);
    var e := k + |name| + 1;
    PrefixSlice(t', st + 2, k, e);
    PrefixSlice(t, st + 2, k, e);
    StartsShift(t', k, t, k, name);
  }

  lemma SamePrefix(t: string, t': string, st: nat)
    requires st + 2 <= |t| && st + 2 <= |t'| && t[..st + 2] == t'[..st + 2]
    ensures forall k :: k <= st ==> (CrlfAt(t', k) <==> CrlfAt(t, k))
    ensures t'[st] == t[st]
  {
    forall i | 0 <= i < st + 2 ensures t[i] == t'[i] {
      assert t[..st + 2][i] == t'[..st + 2][i];
    }
  }

  /** Before the erased property nothing that counts has changed. */
  lemma CleanAfterErase(t: string, st: nat, pos: nat, name: string)
    requires IsName(name) && CrlfAt(t, st) && st + 2 <= pos <= |t| && Clean(t, st + 1, name)
    ensures Looking(t[..st + 2] + t[pos..], st, name)
  {
    var a := t[..st + 2];
    var t' := a + t[pos..];
    assert t'[..st + 2] == a;
    SamePrefix(t, t', st);
    forall k | CrlfAt(t', k) && k + 2 <= st ensures !StartsAt(t', k + 2, name) {
      assert CrlfAt(t, k);
      if StartsAt(t', k + 2, name) {
        StartsBeforeErase(t, t', k + 2, st, name);
      }
    }
  }

  // ----- when nothing is left to erase -----

  /** A complete property of that name starts at `p`. */
  ghost predicate Droppable(t: string, p: nat, name: string) {
    StartsAt(t, p, name) && exists n :: p < n <= |t| && LineEndsAt(t, n)
  }

  lemma DroppedStarts(t: string, p: nat, n: nat, name: string)
    requires IsName(name) && 0 < n && p + n <= |t| && (p + n == |t| || LineEndsAt(t, p + n))
    requires Drops(t[p..p + n], {UpperAll(name)})
    ensures Droppable(t, p, name)
  {
    var l := t[p..p + n];
    NameStarts(l, name);
    StartsInSlice(t, p, p + n, name);
    TerminatedSlice(t, p, p + n);
    assert LineEndsAt(t, p + n);
  }

  /** No complete property of that name starts after a CRLF at or behind `p`. */
  ghost predicate NoneFrom(t: string, p: int, name: string) {
    forall k {:trigger CrlfAt(t, k)} :: p <= k && CrlfAt(t, k) ==> !Droppable(t, k + 2, name)
  }

  lemma NotDropped(t: string, p: nat, n: nat, name: string)
    requires IsName(name) && 2 <= p && CrlfAt(t, p - 2) && NoneFrom(t, p - 2, name)
    requires 0 < n && p + n <= |t| && (p + n == |t| || LineEndsAt(t, p + n))
    ensures !Drops(t[p..p + n], {UpperAll(name)}) && NoneFrom(t, p + n - 2, name)
  {
    if Drops(t[p..p + n], {UpperAll(name)}) {
      DroppedStarts(t, p, n, name);
    }
  }

  /** Of the text from `p` on, every logical line stays. */
  ghost predicate AllStays(t: string, p: nat, names: set<string>) {
    p <= |t| && Concat(Kept(Logical(t[p..]), names)) == t[p..]
  }

  /** The first logical line from `p` on is `n` octets long. */
  ghost predicate FirstIs(t: string, p: nat, n: nat) {
    0 < n && p + n <= |t| && (p + n == |t| || (LineEndsAt(t, p + n) && CrlfAt(t, p + n - 2))) &&
    Logical(t[p..]) == [t[p..p + n]] + Logical(t[p + n..])
  }

  lemma FirstStays(t: string, p: nat, n: nat, name: string)
    requires IsName(name) && 2 <= p && CrlfAt(t, p - 2) && NoneFrom(t, p - 2, name) && FirstIs(t, p, n)
    requires AllStays(t, p + n, {UpperAll(name)})
    ensures AllStays(t, p, {UpperAll(name)})
  {
    NotDropped(t, p, n, name);
    JoinSlices(t, p, n);
    hide Drops, Kept, Logical, Concat, UpperAll, NoneFrom, LineEndsAt, CrlfAt, IsName;
    KeepsStep(t[p..p + n], t[p + n..], t[p..], {UpperAll(name)});
  }

  lemma NoneAfter(t: string, p: nat, n: nat, name: string)
    requires NoneFrom(t, p - 2, name)
    ensures NoneFrom(t, p + n - 2, name)
  {
  }

  lemma {:induction false} KeepsAll(t: string, p: nat, name: string)
    requires IsName(name) && 2 <= p <= |t| && (p == |t| || CrlfAt(t, p - 2)) && NoneFrom(t, p - 2, name)
    ensures AllStays(t, p, {UpperAll(name)})
    decreases |t| - p
  {
    if p == |t| {
      EmptyRest(t[p..], {UpperAll(name)});
    } else {
      FirstLogical(t, p);
      var n := EndFrom(t[p..], 1);
      assert FirstIs(t, p, n);
      assert 0 < n && p + n <= |t| && (p + n == |t| || CrlfAt(t, p + n - 2));
      hide *;
      NoneAfter(t, p, n, name);
      KeepsAll(t, p + n, name);
      FirstStays(t, p, n, name);
    }
  }

  lemma KeepsStep(l: string, u: string, r: string, names: set<string>)
    requires r == l + u && Logical(r) == [l] + Logical(u) && !Drops(l, names)
    requires Concat(Kept(Logical(u), names)) == u
    ensures Concat(Kept(Logical(r), names)) == r
  {
    hide *;
    KeptCons(l, Logical(u), names);
  }

  lemma JoinSlices(t: string, p: nat, n: nat)
    requires p + n <= |t|
    ensures t[p..p + n] + t[p + n..] == t[p..]
  {
  }

  lemma FirstLogical(t: string, p: nat)
    requires p < |t|
    ensures FirstIs(t, p, EndFrom(t[p..], 1))
  {
    var r := t[p..];
    var n := EndFrom(r, 1);
    assert r[..n] == t[p..p + n] && r[n..] == t[p + n..];
    if n < |r| {
      EndsInSuffix(t, p, n);
    }
  }

  lemma KeptCons(l: string, ls: seq<string>, names: set<string>)
    ensures !Drops(l, names) ==> Concat(Kept([l] + ls, names)) == l + Concat(Kept(ls, names))
    ensures Concat(KeptLines([l] + ls, names)) == l + Concat(Kept(ls, names))
  {
    assert ([l] + ls)[1..] == ls;
    assert ([l] + Kept(ls, names))[1..] == Kept(ls, names);
  }

  lemma HeadOfText(t: string) returns (n: nat)
    requires t != ""
    ensures 0 < n <= |t| && (n == |t| || (2 <= n && CrlfAt(t, n - 2))) && Logical(t) == [t[..n]] + Logical(t[n..])
  {
    n := EndFrom(t, 1);
  }

  lemma RestStays(t: string, n: nat, name: string)
    requires IsName(name) && NoneFrom(t, 0, name) && n <= |t| && (n == |t| || (2 <= n && CrlfAt(t, n - 2)))
    ensures AllStays(t, n, {UpperAll(name)})
  {
    if n == |t| {
      EmptyRest(t[n..], {UpperAll(name)});
    } else {
      hide AllStays, IsName;
      NoneAfter(t, 2, n - 2, name);
      KeepsAll(t, n, name);
    }
  }

  lemma HeadStays(t: string, n: nat, names: set<string>)
    requires n <= |t| && Logical(t) == [t[..n]] + Logical(t[n..]) && AllStays(t, n, names)
    ensures Removed(t, names) == t
  {
    KeptCons(t[..n], Logical(t[n..]), names);
    hide Logical, KeptLines, Kept, Concat;
    assert t[..n] + t[n..] == t;
  }

  lemma NothingDropped(t: string, name: string)
    requires IsName(name)
    requires NoneFrom(t, 0, name)
    ensures Removed(t, {UpperAll(name)}) == t
  {
    if t != "" {
      hide *;
      var n := HeadOfText(t);
      RestStays(t, n, name);
      HeadStays(t, n, {UpperAll(name)});
    } else {
      assert Logical(t) == [];
    }
  }

  lemma EmptyRest(t: string, names: set<string>)
    requires t == ""
    ensures Concat(Kept(Logical(t), names)) == ""
  {
  }

  lemma LookedThrough(t: string, pos: nat, name: string)
    requires IsName(name) && Looking(t, pos, name) && pos >= |t|
    ensures Removed(t, {UpperAll(name)}) == t
  {
    NothingDropped(t, name);
  }

  lemma BlankStartsNothing(t: string, p: nat, name: string)
    requires IsName(name) && p < |t| && IsBlank(t[p])
    ensures !MatchesAt(t, p, name)
  {
    if MatchesAt(t, p, name) {
      NotBlank(t, p, name);
    }
  }

  lemma PassedThrough(t: string, st: nat, pos: nat, name: string)
    requires IsName(name) && Passing(t, st, pos, name) && pos >= |t|
    ensures Removed(t, {UpperAll(name)}) == t
  {
    forall k | 0 <= k && CrlfAt(t, k) ensures !Droppable(t, k + 2, name) {
      if k > st {
        assert !LineEndsAt(t, k + 2) && CrlfAt(t, (k + 2) - 2);
        assert k + 2 < |t| && IsBlank(t[k + 2]);
        BlankStartsNothing(t, k + 2, name);
      }
    }
    NothingDropped(t, name);
  }

  // ----- the cursor -----

  /** The loop's state: `orig` has become `t`, which has as much left to remove, and the cursor is
      either looking for a property or passing one that began behind `stPos`. */
  ghost predicate Walking(orig: string, t: string, matched: bool, stPos: nat, pos: nat, name: string) {
    (if matched then Passing(t, stPos, pos, name) else Looking(t, pos, name)) &&
    Removed(t, {UpperAll(name)}) == Removed(orig, {UpperAll(name)})
  }

  lemma LookAtCrlf(orig: string, t: string, st: nat, pos: nat, name: string)
    requires IsName(name) && Walking(orig, t, false, st, pos, name) && CrlfAt(t, pos)
    ensures var next := pos + 2 + |name|;
            if !MatchesAt(t, pos + 2, name) then Walking(orig, t, false, pos, pos + 2, name)
            else if IsSeparator(At(t, next)) then Walking(orig, t, true, pos, next + 1, name)
            else Walking(orig, t, false, pos, next, name)
  {
    hide Removed;
    if MatchesAt(t, pos + 2, name) {
      SkipName(t, pos, name);
    }
  }

  lemma PassCrlf(orig: string, t: string, st: nat, pos: nat, name: string)
    requires IsName(name) && Walking(orig, t, true, st, pos, name) && CrlfAt(t, pos)
    ensures st + 2 < pos && pos + 2 <= |t|
    ensures if IsBlank(At(t, pos + 2)) then Walking(orig, t, true, st, pos + 2, name)
            else Walking(orig, Cut(t, st + 2, pos + 2 - (st + 2)), false, st, st, name)
  {
    hide Removed;
    assert forall n :: st + 2 < n < pos + 2 ==> !LineEndsAt(t, n) by {
      assert !CrlfAt(t, pos + 1 - 2);
    }
    if !IsBlank(At(t, pos + 2)) {
      assert CrlfAt(t, pos + 2 - 2);
      EraseStep(t, st, pos + 2, name);
      CleanAfterErase(t, st, pos + 2, name);
    } else {
      assert !LineEndsAt(t, pos + 2);
    }
  }

  lemma StepOn(orig: string, t: string, matched: bool, st: nat, pos: nat, name: string)
    requires Walking(orig, t, matched, st, pos, name) && pos < |t| && !CrlfAt(t, pos)
    ensures Walking(orig, t, matched, st, pos + 1, name)
  {
    hide Removed;
    assert !CrlfAt(t, pos + 1 - 2) || !matched;
  }

  lemma WalkStarts(t: string, name: string)
    ensures Walking(t, t, false, 0, 0, name)
  {
  }

  lemma WalkEnds(orig: string, t: string, matched: bool, st: nat, pos: nat, name: string)
    requires IsName(name) && Walking(orig, t, matched, st, pos, name) && pos >= |t|
    ensures t == Removed(orig, {UpperAll(name)})
  {
    hide Removed;
    if matched {
      PassedThrough(t, st, pos, name);
    } else {
      LookedThrough(t, pos, name);
    }
  }

  /** One turn of the loop: the text gets shorter, or the cursor moves on. */
  method Advance(text: GString, name: string, ghost orig: string, p: nat, st: nat, m: bool)
    returns (pos: nat, stPos: nat, matched: bool)
    requires IsName(name) && Walking(orig, text.str, m, st, p, name) && p < |text.str|
    modifies text
    ensures Walking(orig, text.str, matched, stPos, pos, name)
    ensures |text.str| < |old(text.str)| || (text.str == old(text.str) && p < pos)
  {
    hide *;
    pos, stPos, matched := p, st, m;
    if !matched {
      if CrlfAt(text.str, pos) {
        LookAtCrlf(orig, text.str, stPos, pos, name);
        stPos := pos;
        pos := pos + 2;
        if MatchesAt(text.str, pos, name) {
          pos := pos + |name|;
          if IsSeparator(At(text.str, pos)) {
            matched := true;
            pos := pos + 1;
          }
        }
        return;
      }
    } else {
      if CrlfAt(text.str, pos) {
        PassCrlf(orig, text.str, stPos, pos, name);
        pos := pos + 2;
        if !IsBlank(At(text.str, pos)) {
          text.Erase(stPos + 2, pos - (stPos + 2));
          pos := stPos;
          matched := false;
        }
        return;
      }
    }
    StepOn(orig, text.str, matched, stPos, pos, name);
    pos := pos + 1;
  }

  /** Removes every complete property of that name but never the first line. The cursor may jump
      back, but only when the text gets shorter. */
  method RemoveProperty(text: GString, name: string)
    requires IsName(name)
    modifies text
    ensures text.str == Removed(old(text.str), {UpperAll(name)})
  {
    var pos: nat, stPos: nat, matched := 0, 0, false;
    ghost var orig := text.str;
    WalkStarts(orig, name);
    hide *;
    while pos < |text.str|
      invariant Walking(orig, text.str, matched, stPos, pos, name)
      decreases |text.str|, |text.str| - pos
    {
      pos, stPos, matched := Advance(text, name, orig, pos, stPos, matched);
    }
    WalkEnds(orig, text.str, matched, stPos, pos, name);
  }
}

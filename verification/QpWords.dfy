/** A blank-delimited word that fits on a line is never cut by a soft break. */
module QpWords {
  import opened Text
  import opened Utf8
  import opened QuotedPrintable
  import opened QpLayout

  /** In `a + w + b`, `w` is one of the segments words are wrapped by: it starts at a blank, at the
      start of the text or after a newline, and goes on to the next blank, newline or the end. */
  predicate IsWordIn(a: string, w: string, b: string) {
    w != "" && NoNewline(w) && (forall i :: 1 <= i < |w| ==> !IsBlank(w[i])) &&
    (IsBlank(w[0]) || a == "" || EndsInNewline(a)) &&
    (b == "" || IsBlank(b[0]) || b[0] == '\r' || b[0] == '\n')
  }

  lemma {:induction false} WellFormedAfter(a: string, b: string)
    requires WellFormed(a + b) && a != "" && (a[|a| - 1] as int) < 0x80
    ensures WellFormed(b)
  {
    var s := a + b;
    var n := CharLength(s);
    assert s[|a| - 1] == a[|a| - 1];
    assert n <= |a|;
    assert s[n..] == a[n..] + b;
    if n < |a| {
      WellFormedAfter(a[n..], b);
    } else {
      assert s[n..] == b;
    }
  }

  lemma WordIsWellFormed(a: string, w: string, b: string)
    requires WellFormed(a + w + b) && IsWordIn(a, w, b)
    ensures WellFormed(w)
  {
    WellFormedSplit(a + w, b);
    if IsBlank(w[0]) {
      WellFormedSplit(a, w);
    } else if a == "" {
      assert a + w == w;
    } else {
      WellFormedAfter(a, w);
    }
  }

  /** Once a word is begun the scan takes in all of it. */
  lemma {:induction false} ScanWord(u: string, v: string, b: string) returns (after: seq<Piece>)
    requires NoNewline(v) && (forall i :: 0 <= i < |v| ==> !IsBlank(v[i]))
    requires b == "" || IsBlank(b[0]) || b[0] == '\r' || b[0] == '\n'
    ensures Pieces(u, v + b) == [Word(u + v)] + after
    ensures PiecesText(after) == NormalNewlines(b)
    decreases |v|
  {
    if v == "" {
      assert v + b == b && u + v == u;
      after := Pieces(u, b)[1..];
      assert Pieces(u, b) == [Word(u)] + after;
      PiecesTextIs(u, b);
      PiecesTextCons(Word(u), after);
      assert (u + PiecesText(after))[|u|..] == PiecesText(after);
      assert (u + NormalNewlines(b))[|u|..] == NormalNewlines(b);
    } else {
      assert (v + b)[0] == v[0] && (v + b)[1..] == v[1..] + b;
      assert (u + [v[0]]) + v[1..] == u + v;
      after := ScanWord(u + [v[0]], v[1..], b);
    }
  }

  lemma {:induction false} ScanTo(seg: string, a: string, w: string, b: string)
      returns (before: seq<Piece>, after: seq<Piece>)
    requires IsWordIn(a, w, b) && (IsBlank(w[0]) || a != "" || seg == "")
    ensures Pieces(seg, a + w + b) == before + [Word(w)] + after
    ensures PiecesText(before) == seg + NormalNewlines(a)
    ensures PiecesText(after) == NormalNewlines(b)
    decreases |a|
  {
    var rest := a + w + b;
    if a == "" {
      assert rest[0] == w[0] && rest[1..] == w[1..] + b;
      assert [w[0]] + w[1..] == w;
      after := ScanWord([w[0]], w[1..], b);
      if IsBlank(w[0]) {
        before := [Word(seg)];
        PiecesTextCons(Word(seg), []);
        assert [Word(seg)] + [] == [Word(seg)];
      } else {
        before := [];
        assert "" + [w[0]] == [w[0]];
      }
    } else {
      before, after := ScanStep(seg, a, w, b);
    }
  }

  lemma NewlineInFront(seg: string, p: seq<Piece>, q: seq<Piece>)
    ensures [Word(seg)] + [Newline] + (p + q) == ([Word(seg)] + ([Newline] + p)) + q
    ensures PiecesText([Word(seg)] + ([Newline] + p)) == seg + (FOLD + PiecesText(p))
  {
    hide PiecesText;
    PiecesTextCons(Newline, p);
    PiecesTextCons(Word(seg), [Newline] + p);
    Assoc([Newline], p, q);
    Assoc([Word(seg)], [Newline] + p, q);
    Assoc([Word(seg)], [Newline], p + q);
  }

  lemma {:induction false} ScanNewline(seg: string, a: string, w: string, b: string)
      returns (before: seq<Piece>, after: seq<Piece>)
    requires IsWordIn(a, w, b) && a != "" && (a[0] == '\r' || a[0] == '\n')
    ensures Pieces(seg, a + w + b) == before + [Word(w)] + after
    ensures PiecesText(before) == seg + NormalNewlines(a)
    ensures PiecesText(after) == NormalNewlines(b)
    decreases |a|, 0
  {
    var rest := a + w + b;
    var n := NewlineLength(a);
    assert rest[0] == a[0] && NewlineLength(rest) == n;
    assert rest[n..] == a[n..] + w + b;
    assert Pieces(seg, rest) == [Word(seg)] + [Newline] + Pieces("", rest[n..]);
    assert NormalNewlines(a) == FOLD + NormalNewlines(a[n..]);
    hide Pieces, NormalNewlines, PiecesText;
    var p;
    p, after := ScanTo("", a[n..], w, b);
    before := [Word(seg)] + ([Newline] + p);
    NewlineInFront(seg, p, [Word(w)] + after);
    Assoc(before, [Word(w)], after);
    Assoc(p, [Word(w)], after);
    assert "" + NormalNewlines(a[n..]) == NormalNewlines(a[n..]);
  }

  lemma {:induction false} ScanStep(seg: string, a: string, w: string, b: string)
      returns (before: seq<Piece>, after: seq<Piece>)
    requires IsWordIn(a, w, b) && a != ""
    ensures Pieces(seg, a + w + b) == before + [Word(w)] + after
    ensures PiecesText(before) == seg + NormalNewlines(a)
    ensures PiecesText(after) == NormalNewlines(b)
    decreases |a|, 1
  {
    var rest := a + w + b;
    assert rest[0] == a[0] && rest[1..] == a[1..] + w + b;
    if a[0] == '\r' || a[0] == '\n' {
      before, after := ScanNewline(seg, a, w, b);
    } else if IsBlank(a[0]) {
      PiecesAtBlank(seg, rest);
      hide Pieces, PiecesText;
      var p;
      p, after := ScanTo([a[0]], a[1..], w, b);
      before := [Word(seg)] + p;
      PiecesTextCons(Word(seg), p);
      Assoc(p, [Word(w)], after);
      Assoc([Word(seg)], p, [Word(w)] + after);
      Assoc(before, [Word(w)], after);
    } else {
      PiecesAtOther(seg, rest);
      hide Pieces, PiecesText;
      Assoc(seg, [a[0]], NormalNewlines(a[1..]));
      before, after := ScanTo(seg + [a[0]], a[1..], w, b);
    }
  }

  lemma PiecesAtBlank(seg: string, rest: string)
    requires rest != "" && IsBlank(rest[0])
    ensures Pieces(seg, rest) == [Word(seg)] + Pieces([rest[0]], rest[1..])
  {
  }

  lemma PiecesAtOther(seg: string, rest: string)
    requires rest != "" && !IsBlank(rest[0]) && rest[0] != '\r' && rest[0] != '\n'
    ensures Pieces(seg, rest) == Pieces(seg + [rest[0]], rest[1..])
  {
  }

  lemma LayoutCons(p: Piece, ps: seq<Piece>, pos: nat)
    ensures Layout([p] + ps, pos) == PlacePiece(p, pos) + Layout(ps, ColumnAfter(pos, PlacePiece(p, pos)))
  {
    assert ([p] + ps)[0] == p && ([p] + ps)[1..] == ps;
  }

  lemma GoodParts(p: seq<Piece>, q: seq<Piece>)
    requires GoodPieces(p + q)
    ensures GoodPieces(p) && GoodPieces(q)
  {
    assert forall i :: 0 <= i < |p| ==> (p + q)[i] == p[i];
    assert forall i :: 0 <= i < |q| ==> (p + q)[i + |p|] == q[i];
  }

  lemma {:induction false} LayoutConcat(p: seq<Piece>, q: seq<Piece>, pos: nat)
    ensures Layout(p + q, pos) == Layout(p, pos) + Layout(q, ColumnAfter(pos, Layout(p, pos)))
    decreases |p|, 0
  {
    if p == [] {
      assert p + q == q;
      assert Layout(p, pos) == [];
    } else {
      var p0, p' := p[0], p[1..];
      assert p == [p0] + p';
      LayoutConcatStep(p0, p', q, pos);
    }
  }

  lemma {:induction false} LayoutConcatStep(p0: Piece, p': seq<Piece>, q: seq<Piece>, pos: nat)
    ensures Layout(([p0] + p') + q, pos) ==
            Layout([p0] + p', pos) + Layout(q, ColumnAfter(pos, Layout([p0] + p', pos)))
    decreases |p'|, 1
  {
    hide Layout, PlacePiece, ColumnAfter, Fits;
    var toks := PlacePiece(p0, pos);
    var c := ColumnAfter(pos, toks);
    var x := Layout(p', c);
    Assoc([p0], p', q);
    LayoutCons(p0, p' + q, pos);
    LayoutCons(p0, p', pos);
    LayoutConcat(p', q, c);
    FitsConcat(pos, toks, x);
    Assoc(toks, x, Layout(q, ColumnAfter(c, x)));
  }

  /** The word's own tokens stand in the layout, unbroken. */
  lemma WordPlaced(w: string, pos: nat) returns (pre: seq<Token>)
    requires WellFormed(w) && NoNewline(w) && pos <= LINEBREAK_LEN
    requires WidthAll(Units(w)) < LINEBREAK_LEN
    ensures AllValid(pre) && MeaningAll(pre) == ""
    ensures PlacePiece(Word(w), pos) == pre + Units(w)
  {
    UnitsOfWord(w);
    UncutIff(Units(w), pos);
    UncutIff(Units(w), 0);
    pre := if pos + WidthAll(Units(w)) > LINEBREAK_LEN && pos > 1 then [Soft] else [];
    assert MeaningAll([Soft]) == "";
  }

  /** Words stay whole: a word of encoded size at most 74 is printed without a break inside, what
      stands before it decodes to the text before it and what follows to the text after it. */
  lemma WordsStayWhole(a: string, w: string, b: string) returns (x: string, y: string)
    requires WellFormed(a + w + b) && IsWordIn(a, w, b)
    ensures WellFormed(w) && AllValid(Units(w))
    ensures WidthAll(Units(w)) <= 74 ==>
              EncodedText(a + w + b) == x + RenderAll(Units(w)) + y &&
              Decode(x) == Some(NormalNewlines(a)) && Decode(y) == Some(NormalNewlines(b))
  {
    WordIsWellFormed(a, w, b);
    var s := a + w + b;
    assert NoNewline(w);
    UnitsOfWord(w);
    x, y := "", "";
    if WidthAll(Units(w)) < LINEBREAK_LEN {
      assert "" + s == s;
      PiecesAreGood("", s);
      var before, after := ScanTo("", a, w, b);
      x, y := PrintAround(before, w, after);
      assert "" + NormalNewlines(a) == NormalNewlines(a);
    }
  }

  lemma PrintAround(before: seq<Piece>, w: string, after: seq<Piece>) returns (x: string, y: string)
    requires GoodPieces(before + [Word(w)] + after)
    requires WellFormed(w) && NoNewline(w) && AllValid(Units(w)) && WidthAll(Units(w)) < LINEBREAK_LEN
    ensures RenderAll(Layout(before + [Word(w)] + after, 0)) == x + RenderAll(Units(w)) + y
    ensures Decode(x) == Some(PiecesText(before)) && Decode(y) == Some(PiecesText(after))
  {
    var ps := before + ([Word(w)] + after);
    assert ps == before + [Word(w)] + after;
    GoodParts(before, [Word(w)] + after);
    GoodCons(Word(w), after);
    LayoutConcat(before, [Word(w)] + after, 0);
    var t1 := Layout(before, 0);
    var pos := ColumnAfter(0, t1);
    LayoutFits(before, 0);
    LayoutPlaced(before, 0);
    var pre := WordPlaced(w, pos);
    assert ([Word(w)] + after)[1..] == after;
    assert ([Word(w)] + after)[0] == Word(w);
    var t2 := Layout(after, ColumnAfter(pos, pre + Units(w)));
    LayoutPlaced(after, ColumnAfter(pos, pre + Units(w)));
    Assemble(t1, pre, Units(w), t2);
    MeaningOfConcat(t1, pre);
    DecodeAll(t1 + pre);
    DecodeAll(t2);
    x, y := RenderAll(t1 + pre), RenderAll(t2);
    assert MeaningAll(t1) + "" == MeaningAll(t1);
  }

  lemma Assemble(t1: seq<Token>, pre: seq<Token>, us: seq<Token>, t2: seq<Token>)
    requires AllValid(t1) && AllValid(pre) && AllValid(us) && AllValid(t2)
    ensures AllValid(t1 + (pre + us + t2))
    ensures RenderAll(t1 + (pre + us + t2)) == RenderAll(t1 + pre) + RenderAll(us) + RenderAll(t2)
  {
    hide RenderAll, Valid;
    Assoc(t1, pre + us, t2);
    Assoc(t1, pre, us);
    RenderConcat(t1 + pre, us);
    RenderConcat((t1 + pre) + us, t2);
  }
}

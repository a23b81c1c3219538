/**
 Where the encoder's soft line breaks fall: no line is too long, the column counter is exact,
 and neither a word that fits on a line nor a character is ever cut.
 */
module QpLayout {
  import opened Text
  import opened Utf8
  import opened QuotedPrintable

  // ----- columns -----

  predicate ShortLines(ls: seq<string>) {
    forall i :: 0 <= i < |ls| ==> |ls[i]| <= MAX_LINE
  }

  /** Lengthening the last line leaves the others as they are. */
  lemma ShortenLast(ls: seq<string>, r: string, more: seq<string>)
    requires |ls| > 0 && ShortLines(ls) && ShortLines(more) && |ls[|ls| - 1]| + |r| <= MAX_LINE
    ensures ShortLines(ls[..|ls| - 1] + [ls[|ls| - 1] + r] + more)
  {
    var x := ls[..|ls| - 1] + [ls[|ls| - 1] + r] + more;
    forall i | 0 <= i < |x| ensures |x[i]| <= MAX_LINE {
      if i < |ls| - 1 {
        assert x[i] == ls[i];
      } else if i >= |ls| {
        assert x[i] == more[i - |ls|];
      }
    }
  }

  /** `pos` is the exact column of `t`, and no line of `t` is over the limit. */
  ghost predicate Tracks(t: string, pos: nat) {
    pos == Column(t) && pos <= LINEBREAK_LEN &&
    ShortLines(Lines(t)) &&
    (t == "" || t[|t| - 1] != '\r')
  }

  /** No token of the stream, laid from column `pos`, passes the limit. */
  predicate Fits(pos: nat, toks: seq<Token>)
    decreases |toks|
  {
    toks == [] || (Advance(pos, toks[0]) <= LINEBREAK_LEN && Fits(Advance(pos, toks[0]), toks[1..]))
  }

  lemma {:induction false} FitsConcat(pos: nat, a: seq<Token>, b: seq<Token>)
    ensures Fits(pos, a + b) <==> Fits(pos, a) && Fits(ColumnAfter(pos, a), b)
    ensures ColumnAfter(pos, a + b) == ColumnAfter(ColumnAfter(pos, a), b)
    decreases |a|
  {
    if a == [] {
      assert a + b == b;
    } else {
      assert (a + b)[1..] == a[1..] + b;
      FitsConcat(Advance(pos, a[0]), a[1..], b);
    }
  }

  lemma {:induction false} TriplesShape(o: string)
    requires IsOctets(o)
    ensures |Triples(o)| == 3 * |o|
    ensures forall i :: 0 <= i < |Triples(o)| ==> Triples(o)[i] != '\r' && Triples(o)[i] != '\n'
    ensures o != "" ==> Triples(o)[|Triples(o)| - 1] != '='
  {
    if o != "" {
      HexRoundTrip((o[0] as int / 16) % 16);
      HexRoundTrip(o[0] as int % 16);
      TriplesShape(o[1..]);
    }
  }

  /** A token other than a soft break is exactly as wide as it says and holds no line break. */
  lemma UnitShape(u: Token)
    requires Valid(u) && !u.Soft?
    ensures |Render(u)| == Width(u) > 0 && Lines(Render(u)) == [Render(u)]
    ensures Render(u)[|Render(u)| - 1] != '=' && Render(u)[|Render(u)| - 1] != '\r'
    ensures forall i :: 0 <= i < |Render(u)| ==> Render(u)[i] != '\r' && Render(u)[i] != '\n'
  {
    if u.Escaped? {
      TriplesShape(u.octets);
    }
    LinesOfPlain(Render(u));
  }

  lemma LinesOfSoft()
    ensures Lines(SOFT_BREAK) == ["=", ""]
  {
    assert SOFT_BREAK[1..] == CRLF && CRLF[2..] == "";
    assert CrlfAt(CRLF, 0) && Lines("") == [""];
    assert Lines(CRLF) == ["", ""];
    assert !CrlfAt(SOFT_BREAK, 0);
    assert [SOFT_BREAK[0]] + "" == "=";
  }

  /** Gluing `first` and `more` on: the last line grows by `first`, or `more` has a new last line. */
  lemma GlueTracks(ls: seq<string>, first: string, more: seq<string>)
    requires |ls| > 0 && ShortLines(ls) && ShortLines(more) && |ls[|ls| - 1]| + |first| <= MAX_LINE
    ensures var g := Glue(ls, [first] + more);
            ShortLines(g) && g[|g| - 1] == if more == [] then ls[|ls| - 1] + first else more[|more| - 1]
  {
    ShortenLast(ls, first, more);
    assert ([first] + more)[1..] == more;
  }

  lemma TracksUnit(t: string, pos: nat, r: string)
    requires Tracks(t, pos) && Lines(r) == [r] && r != "" && r[|r| - 1] != '\r' && r[0] != '\n'
    requires pos + |r| <= LINEBREAK_LEN
    ensures Tracks(t + r, pos + |r|)
  {
    LinesOfConcat(t, r);
    hide ShortLines, Lines, Glue;
    assert ShortLines([]) by { NoLines(); }
    GlueTracks(Lines(t), r, []);
    assert [r] + [] == [r];
  }

  lemma NoLines()
    ensures ShortLines([]) && ShortLines([""])
  {
  }

  lemma TracksSoft(t: string, pos: nat)
    requires Tracks(t, pos)
    ensures Tracks(t + SOFT_BREAK, 0)
  {
    LinesOfSoft();
    LinesOfConcat(t, SOFT_BREAK);
    hide ShortLines, Lines, Glue;
    assert ShortLines([""]) by { NoLines(); }
    GlueTracks(Lines(t), "=", [""]);
    assert ["="] + [""] == ["=", ""];
    assert (t + SOFT_BREAK)[|t| + 2] == '\n';
  }

  lemma TracksToken(t: string, pos: nat, tok: Token)
    requires Tracks(t, pos) && Valid(tok) && Advance(pos, tok) <= LINEBREAK_LEN
    ensures Tracks(t + Render(tok), Advance(pos, tok))
  {
    hide Tracks;
    if tok.Soft? {
      TracksSoft(t, pos);
    } else {
      UnitShape(tok);
      TracksUnit(t, pos, Render(tok));
    }
  }

  lemma RenderStep(t: string, toks: seq<Token>)
    requires AllValid(toks) && toks != []
    ensures (t + Render(toks[0])) + RenderAll(toks[1..]) == t + RenderAll(toks)
  {
  }

  /** The counter the encoder carries is the true column after every token. */
  lemma {:induction false} TracksAll(t: string, pos: nat, toks: seq<Token>)
    requires Tracks(t, pos) && AllValid(toks) && Fits(pos, toks)
    ensures Tracks(t + RenderAll(toks), ColumnAfter(pos, toks))
    decreases |toks|
  {
    if toks == [] {
      assert t + RenderAll(toks) == t;
    } else {
      TracksToken(t, pos, toks[0]);
      TracksAll(t + Render(toks[0]), Advance(pos, toks[0]), toks[1..]);
      RenderStep(t, toks);
    }
  }

  lemma {:induction false} PlaceFits(us: seq<Token>, pos: nat)
    requires AreUnits(us) && pos <= LINEBREAK_LEN
    ensures Fits(pos, Place(us, pos)) && ColumnAfter(pos, Place(us, pos)) <= LINEBREAK_LEN
  {
    if us != [] {
      var one := PlaceOne(us[0], pos);
      OneFits(us[0], pos);
      PlaceFits(us[1..], ColumnAfter(pos, one));
      FitsConcat(pos, one, Place(us[1..], ColumnAfter(pos, one)));
    }
  }

  lemma OneColumn(u: Token, pos: nat)
    requires !u.Soft?
    ensures ColumnAfter(pos, PlaceOne(u, pos)) == if pos + Width(u) > LINEBREAK_LEN then Width(u) else pos + Width(u)
  {
    assert [Soft, u][1..] == [u] && [u][1..] == [];
    assert ColumnAfter(0, [u]) == Width(u);
  }

  lemma OneFits(u: Token, pos: nat)
    requires Valid(u) && !u.Soft? && pos <= LINEBREAK_LEN
    ensures Fits(pos, PlaceOne(u, pos))
    ensures ColumnAfter(pos, PlaceOne(u, pos)) ==
            (if pos + Width(u) > LINEBREAK_LEN then Width(u) else pos + Width(u)) <= LINEBREAK_LEN
  {
    OneColumn(u, pos);
    assert [Soft, u][1..] == [u] && [u][1..] == [];
  }

  lemma ContinueFits(pos: nat)
    ensures Fits(pos, CONTINUE) && ColumnAfter(pos, CONTINUE) == 1
  {
    assert CONTINUE[1..] == [Plain(' ')] && [Plain(' ')][1..] == [];
    assert ColumnAfter(0, [Plain(' ')]) == 1;
  }

  lemma PieceFits(p: Piece, pos: nat)
    requires GoodPiece(p)
    requires pos <= LINEBREAK_LEN
    ensures Fits(pos, PlacePiece(p, pos)) && ColumnAfter(pos, PlacePiece(p, pos)) <= LINEBREAK_LEN
  {
    match p
    case Word(w) =>
      UnitsOfWord(w);
      PlaceFits(Units(w), pos);
      PlaceFits(Units(w), 0);
      FitsConcat(pos, [Soft], Place(Units(w), 0));
    case Newline =>
      NewlineIsUnit();
      PlaceFits([NEWLINE_UNIT], pos);
      var p1 := Place([NEWLINE_UNIT], pos);
      ContinueFits(ColumnAfter(pos, p1));
      FitsConcat(pos, p1, CONTINUE);
  }

  lemma {:induction false} LayoutFits(ps: seq<Piece>, pos: nat)
    requires GoodPieces(ps) && pos <= LINEBREAK_LEN
    ensures Fits(pos, Layout(ps, pos)) && ColumnAfter(pos, Layout(ps, pos)) <= LINEBREAK_LEN
  {
    if ps != [] {
      var toks := PlacePiece(ps[0], pos);
      PieceFits(ps[0], pos);
      LayoutFits(ps[1..], ColumnAfter(pos, toks));
      FitsConcat(pos, toks, Layout(ps[1..], ColumnAfter(pos, toks)));
    }
  }

  /** Section 6.7 rule 5: no output line, its trailing '=' included, is over 76 octets. */
  lemma EncodedLinesFit(s: string)
    requires WellFormed(s)
    ensures forall i :: 0 <= i < |Lines(EncodedText(s))| ==> |Lines(EncodedText(s))[i]| <= 76
    ensures Column(EncodedText(s)) == ColumnAfter(0, Encoding(s)) <= 75
  {
    EncodingValid(s);
    assert "" + s == s;
    PiecesAreGood("", s);
    LayoutFits(Pieces("", s), 0);
    TracksAll("", 0, Encoding(s));
    assert "" + EncodedText(s) == EncodedText(s);
  }

  // ----- characters stay whole -----

  lemma WholeConcat(a: string, b: string)
    requires Whole(a) && Whole(b)
    ensures Whole(a + b)
  {
    WellFormedConcat(a, b);
    var c := a + b;
    forall i | 0 <= i < |c| ensures PairedAt(c, i) {
      if i < |a| {
        assert PairedAt(a, i);
      } else {
        assert PairedAt(b, i - |a|);
      }
    }
  }

  lemma MeaningIsWhole(tok: Token)
    requires Valid(tok)
    ensures Whole(Meaning(tok))
  {
    if tok.Plain? {
      assert [tok.c][1..] == "";
    }
  }

  /** The lines decoded one by one, in order. */
  function DecodeLines(ls: seq<string>): Option<string> {
    if ls == [] then Some("")
    else match DecodeLine(ls[0])
         case None => None
         case Some(t) => Prefixed(t, DecodeLines(ls[1..]))
  }

  predicate LineIsWhole(l: string) {
    DecodeLine(l).Some? && Whole(DecodeLine(l).value)
  }

  lemma DecodeLineText(u: string, m: string, l: string)
    requires u != "" && u[|u| - 1] != '='
    requires Decode(u + l) == Prefixed(m, Decode(l))
    requires l != "" && l[|l| - 1] == '=' ==> Decode(u + l[..|l| - 1]) == Prefixed(m, Decode(l[..|l| - 1]))
    ensures DecodeLine(u + l) == Prefixed(m, DecodeLine(l))
  {
    hide Decode, Prefixed;
    if l == "" {
      assert u + l == u;
    } else if l[|l| - 1] == '=' {
      assert (u + l)[..|u + l| - 1] == u + l[..|l| - 1];
    }
  }

  lemma DecodeLineToken(u: Token, l: string)
    requires Valid(u) && !u.Soft?
    ensures DecodeLine(Render(u) + l) == Prefixed(Meaning(u), DecodeLine(l))
  {
    UnitShape(u);
    hide Valid, Decode, DecodeLine, Render, Lines;
    DecodeToken(u, l);
    if l != "" && l[|l| - 1] == '=' {
      DecodeToken(u, l[..|l| - 1]);
    }
    DecodeLineText(Render(u), Meaning(u), l);
  }

  lemma LinesAfterSoft(rest: string)
    ensures Lines(SOFT_BREAK + rest) == ["="] + Lines(rest)
  {
    LinesOfSoft();
    LinesOfConcat(SOFT_BREAK, rest);
    hide Lines;
    assert ["=", ""][..1] == ["="] && ["=", ""][1..] == [""] && [""][1..] == [];
    assert "" + Lines(rest)[0] == Lines(rest)[0];
  }

  lemma LinesAfterUnit(u: Token, rest: string)
    requires Valid(u) && !u.Soft?
    ensures Lines(Render(u) + rest) == [Render(u) + Lines(rest)[0]] + Lines(rest)[1..]
  {
    UnitShape(u);
    LinesOfConcat(Render(u), rest);
  }

  lemma {:induction false} TokenLinesAreWhole(toks: seq<Token>)
    requires AllValid(toks)
    ensures LinesAreWhole(Lines(RenderAll(toks)))
    ensures DecodeLines(Lines(RenderAll(toks))) == Some(MeaningAll(toks))
  {
    if toks == [] {
      EmptyLine();
    } else {
      var tok, rest := toks[0], RenderAll(toks[1..]);
      var ls := Lines(rest);
      TokenLinesAreWhole(toks[1..]);
      hide DecodeLines, Lines, LineIsWhole, Render;
      if tok.Soft? {
        assert Render(tok) == SOFT_BREAK by { SoftRender(); }
        LinesAfterSoft(rest);
        SoftLine(ls);
      } else {
        LinesAfterUnit(tok, rest);
        UnitLine(tok, ls);
      }
    }
  }

  lemma SoftRender()
    ensures Render(Soft) == SOFT_BREAK
  {
  }

  predicate LinesAreWhole(ls: seq<string>) {
    forall i :: 0 <= i < |ls| ==> LineIsWhole(ls[i])
  }

  lemma EmptyLine()
    ensures LinesAreWhole([""]) && DecodeLines([""]) == Some("")
  {
    assert LineIsWhole("");
    DecodeLinesCons("", []);
    assert [""] + [] == [""];
    PrefixedNothing(DecodeLines([]));
  }

  lemma SoftLine(ls: seq<string>)
    ensures LineIsWhole("=") && DecodeLines(["="] + ls) == Prefixed("", DecodeLines(ls))
  {
    assert "="[..0] == "";
    assert (["="] + ls)[1..] == ls;
  }

  lemma UnitLine(u: Token, ls: seq<string>)
    requires Valid(u) && !u.Soft? && |ls| > 0 && LineIsWhole(ls[0])
    ensures LineIsWhole(Render(u) + ls[0])
    ensures DecodeLines([Render(u) + ls[0]] + ls[1..]) == Prefixed(Meaning(u), DecodeLines(ls))
  {
    var m, d := Meaning(u), DecodeLine(ls[0]).value;
    DecodeLineToken(u, ls[0]);
    MeaningIsWhole(u);
    WholeConcat(m, d);
    PrefixedTwice(m, d, DecodeLines(ls[1..]));
    DecodeLinesCons(Render(u) + ls[0], ls[1..]);
  }

  lemma DecodeLinesCons(l: string, ls: seq<string>)
    requires DecodeLine(l).Some?
    ensures DecodeLines([l] + ls) == Prefixed(DecodeLine(l).value, DecodeLines(ls))
  {
    assert ([l] + ls)[1..] == ls;
  }

  /** Every output line decodes on its own to whole characters and whole CRLF pairs, and the
      lines so decoded follow each other as in the text. */
  lemma CharactersStayWhole(s: string)
    requires WellFormed(s)
    ensures LinesAreWhole(Lines(EncodedText(s)))
    ensures DecodeLines(Lines(EncodedText(s))) == Some(NormalNewlines(s))
  {
    EncodingValid(s);
    EncodingMeans(s);
    TokenLinesAreWhole(Encoding(s));
  }

  // ----- words stay whole -----

  lemma {:induction false} RenderConcat(a: seq<Token>, b: seq<Token>)
    ensures RenderAll(a + b) == RenderAll(a) + RenderAll(b)
  {
    if a == [] {
      assert a + b == b;
    } else {
      assert (a + b)[1..] == a[1..] + b;
      RenderConcat(a[1..], b);
    }
  }

  /** A run of units gets no soft break exactly when it ends within the limit. */
  lemma {:induction false} UncutIff(us: seq<Token>, pos: nat)
    requires AreUnits(us) && pos <= LINEBREAK_LEN
    ensures Place(us, pos) == us <==> pos + WidthAll(us) <= 75
    ensures Soft !in Place(us, pos) <==> pos + WidthAll(us) <= 75
  {
    if us != [] {
      var one := PlaceOne(us[0], pos);
      OneFits(us[0], pos);
      var rest := Place(us[1..], ColumnAfter(pos, one));
      UncutIff(us[1..], ColumnAfter(pos, one));
      if pos + Width(us[0]) > LINEBREAK_LEN {
        assert Place(us, pos)[0] == Soft;
      } else {
        assert us == [us[0]] + us[1..];
        assert Place(us, pos) == us <==> rest == us[1..] by {
          assert ([us[0]] + rest)[1..] == rest;
        }
      }
    }
  }

  /** The size the encoder computes for a word is the size of the word printed in one go. */
  lemma {:induction false} WidthIsSize(us: seq<Token>)
    requires AreUnits(us)
    ensures |RenderAll(us)| == WidthAll(us)
  {
    if us != [] {
      UnitShape(us[0]);
      WidthIsSize(us[1..]);
    }
  }

  /** A word is cut exactly when it is over the limit, or fills a line that has its first column taken. */
  lemma WordCutIff(us: seq<Token>, pos: nat)
    requires AreUnits(us) && pos <= LINEBREAK_LEN
    ensures (PlaceWord(us, pos) == us || PlaceWord(us, pos) == [Soft] + us) <==>
            WidthAll(us) <= 75 && !(WidthAll(us) == 75 && pos == 1)
  {
    UncutIff(us, pos);
    UncutIff(us, 0);
    var placed := Place(us, 0);
    if pos + WidthAll(us) > LINEBREAK_LEN && pos > 1 {
      assert PlaceWord(us, pos) == [Soft] + placed;
      assert ([Soft] + placed)[1..] == placed && ([Soft] + us)[1..] == us;
      assert us != [] && !us[0].Soft? && ([Soft] + placed)[0] == Soft;
    } else {
      assert PlaceWord(us, pos) == Place(us, pos);
      if us != [] {
        FirstStays(us, pos);
        assert ([Soft] + us)[0] == Soft;
      }
    }
  }

  /** From either of the first two columns the first unit fits. */
  lemma FirstStays(us: seq<Token>, pos: nat)
    requires AreUnits(us) && us != [] && (pos <= 1 || pos + WidthAll(us) <= LINEBREAK_LEN)
    ensures Place(us, pos) != [] && Place(us, pos)[0] == us[0] && !us[0].Soft?
  {
    assert Valid(us[0]);
  }

  /** A word stays on its line as it is exactly when it fits; if it does not and is not at the head of
      the line, it is laid out on a new one. */
  lemma WordStaysIff(us: seq<Token>, pos: nat)
    requires AreUnits(us) && pos <= LINEBREAK_LEN
    ensures PlaceWord(us, pos) == us <==> pos + WidthAll(us) <= 75
    ensures pos + WidthAll(us) > 75 ==> PlaceWord(us, pos) == if pos > 1 then [Soft] + Place(us, 0) else Place(us, pos)
  {
    UncutIff(us, pos);
    assert us != [] ==> ([Soft] + Place(us, 0))[0] == Soft;
  }
}

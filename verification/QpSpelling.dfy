/**
 The octets the encoder writes: apart from its soft breaks the output spells the text octet by octet,
 and only what has to be escaped is.
 */
module QpSpelling {
  import opened Text
  import opened Utf8
  import opened QuotedPrintable
  import opened QpLayout

  /** A tab, or printable ASCII other than '='. */
  predicate StandsForItself(c: char) {
    c == '\t' || (' ' <= c <= '<') || ('>' <= c <= '~')
  }

  const HEX: string := "0123456789ABCDEF"

  /** `=XX`, upper case. */
  function Hex(c: char): string {
    ['=', HEX[(c as int / 16) % 16], HEX[c as int % 16]]
  }

  /** Each octet as itself or as `=XX`. */
  function Spelled(s: string): string {
    if s == "" then "" else (if StandsForItself(s[0]) then [s[0]] else Hex(s[0])) + Spelled(s[1..])
  }

  /** The text without its soft line breaks. */
  function Joined(t: string): string {
    if t == "" then ""
    else if |t| >= 3 && t[0] == '=' && t[1] == '\r' && t[2] == '\n' then Joined(t[3..])
    else [t[0]] + Joined(t[1..])
  }

  lemma {:induction false} SpelledConcat(a: string, b: string)
    ensures Spelled(a + b) == Spelled(a) + Spelled(b)
  {
    if a == "" {
      assert a + b == b && "" + Spelled(b) == Spelled(b);
    } else {
      assert (a + b)[0] == a[0] && (a + b)[1..] == a[1..] + b;
      SpelledConcat(a[1..], b);
      Assoc(if StandsForItself(a[0]) then [a[0]] else Hex(a[0]), Spelled(a[1..]), Spelled(b));
    }
  }

  // ----- units -----

  predicate NeedsTriples(o: string) {
    forall i :: 0 <= i < |o| ==> !StandsForItself(o[i])
  }

  /** A token that escapes nothing that could stand for itself. */
  predicate IsSparing(tok: Token) {
    match tok
    case Plain(c) => StandsForItself(c)
    case Escaped(o) => NeedsTriples(o)
    case Soft => true
  }

  predicate AllSparing(toks: seq<Token>) {
    forall i :: 0 <= i < |toks| ==> IsSparing(toks[i])
  }

  lemma {:induction false} TriplesSpelled(o: string)
    requires NeedsTriples(o)
    ensures Triples(o) == Spelled(o)
  {
    if o != "" {
      TriplesSpelled(o[1..]);
    }
  }

  lemma UnitSparing(w: string)
    requires HasWholeChar(w)
    ensures IsSparing(UnitOf(w[..CharLength(w)]))
  {
  }

  lemma {:induction false} UnitsSparing(w: string)
    requires WellFormed(w)
    ensures AllSparing(Units(w))
  {
    if w != "" {
      UnitsSparing(w[CharLength(w)..]);
      UnitSparing(w);
      hide UnitOf, IsSparing;
    }
  }

  lemma {:induction false} PlaceSparing(us: seq<Token>, pos: nat)
    requires AllSparing(us)
    ensures AllSparing(Place(us, pos))
  {
    if us != [] {
      PlaceSparing(us[1..], ColumnAfter(pos, PlaceOne(us[0], pos)));
    }
  }

  lemma PieceSparing(p: Piece, pos: nat)
    requires GoodPiece(p)
    ensures AllSparing(PlacePiece(p, pos))
  {
    match p
    case Word(w) =>
      UnitsSparing(w);
      PlaceSparing(Units(w), pos);
      PlaceSparing(Units(w), 0);
    case Newline =>
      PlaceSparing([NEWLINE_UNIT], pos);
  }

  lemma {:induction false} LayoutSparing(ps: seq<Piece>, pos: nat)
    requires GoodPieces(ps)
    ensures AllSparing(Layout(ps, pos))
  {
    if ps != [] {
      var toks := PlacePiece(ps[0], pos);
      PieceSparing(ps[0], pos);
      hide PlacePiece, IsSparing, GoodPiece;
      LayoutSparing(ps[1..], ColumnAfter(pos, toks));
    }
  }

  // ----- the whole output -----

  lemma {:induction false} JoinedUnit(u: string, x: string)
    requires forall i :: 0 <= i < |u| ==> u[i] != '\r'
    requires u == "" || u[|u| - 1] != '='
    ensures Joined(u + x) == u + Joined(x)
  {
    if u == "" {
      assert u + x == x && "" + Joined(x) == Joined(x);
    } else {
      var t := u + x;
      assert t[0] == u[0] && t[1..] == u[1..] + x;
      assert |u| > 1 ==> t[1] == u[1];
      JoinedUnit(u[1..], x);
      assert [u[0]] + (u[1..] + Joined(x)) == u + Joined(x);
    }
  }

  lemma JoinedSoft(x: string)
    ensures Joined(SOFT_BREAK + x) == Joined(x)
  {
    var t := SOFT_BREAK + x;
    assert t[0] == '=' && t[1] == '\r' && t[2] == '\n' && t[3..] == x;
  }

  lemma UnitSpelled(tok: Token)
    requires IsSparing(tok) && !tok.Soft?
    ensures Render(tok) == Spelled(Meaning(tok))
  {
    if tok.Escaped? {
      TriplesSpelled(tok.octets);
    } else {
      assert Spelled([tok.c]) == [tok.c] + "" == [tok.c];
    }
  }

  lemma {:induction false} TokensSpelled(toks: seq<Token>)
    requires AllValid(toks) && AllSparing(toks)
    ensures Joined(RenderAll(toks)) == Spelled(MeaningAll(toks))
  {
    if toks != [] {
      var tok, x := toks[0], RenderAll(toks[1..]);
      TokensSpelled(toks[1..]);
      if tok.Soft? {
        JoinedSoft(x);
        assert "" + MeaningAll(toks[1..]) == MeaningAll(toks[1..]);
      } else {
        UnitShape(tok);
        UnitSpelled(tok);
        hide Joined, Spelled, Render, Meaning;
        JoinedUnit(Render(tok), x);
        SpelledConcat(Meaning(tok), MeaningAll(toks[1..]));
      }
    }
  }

  /** Apart from its soft breaks the output is the text, newlines normalised, with every octet spelled
      as itself if it is a tab or printable and not '=', and as `=XX` if not. */
  lemma EncodingSpells(s: string)
    requires WellFormed(s)
    ensures Joined(EncodedText(s)) == Spelled(NormalNewlines(s))
  {
    EncodingValid(s);
    EncodingMeans(s);
    assert "" + s == s;
    PiecesAreGood("", s);
    LayoutSparing(Pieces("", s), 0);
    hide NormalNewlines, Pieces, Layout, Spelled, Joined;
    TokensSpelled(Encoding(s));
  }

  // ----- newlines -----

  /** CRLF, a CR alone and an LF alone are each one newline. */
  lemma NewlinesNormalised(s: string)
    ensures NormalNewlines("\r\n" + s) == "\r\n " + NormalNewlines(s)
    ensures NormalNewlines("\n" + s) == "\r\n " + NormalNewlines(s)
    ensures s == "" || s[0] != '\n' ==> NormalNewlines("\r" + s) == "\r\n " + NormalNewlines(s)
    ensures forall c | c != '\r' && c != '\n' :: NormalNewlines([c] + s) == [c] + NormalNewlines(s)
  {
    assert ("\r\n" + s)[2..] == s && ("\n" + s)[1..] == s && ("\r" + s)[1..] == s;
    forall c | c != '\r' && c != '\n' ensures NormalNewlines([c] + s) == [c] + NormalNewlines(s) {
      assert ([c] + s)[1..] == s;
    }
  }

  lemma NewlineTriples()
    ensures Render(NEWLINE_UNIT) == "=0D=0A" && Width(NEWLINE_UNIT) == 6
  {
    assert Triple('\r') == "=0D" && Triple('\n') == "=0A" by {
      assert HEX_DIGITS[0] == '0' && HEX_DIGITS[13] == 'D' && HEX_DIGITS[10] == 'A';
    }
    hide Triple;
    assert CRLF[1..] == "\n" && "\n"[1..] == "";
    assert Triples("\n") == "=0A" + "" == "=0A";
    assert Triples(CRLF) == "=0D" + "=0A" == "=0D=0A";
  }

  lemma RenderOne(tok: Token)
    ensures RenderAll([tok]) == Render(tok)
  {
    assert Render(tok) + "" == Render(tok);
  }

  lemma NewlinePlace(pos: nat)
    ensures PlaceNewline(pos) == (if pos > 69 then [Soft] else []) + ([NEWLINE_UNIT] + CONTINUE)
  {
    NewlineTriples();
    var u := NEWLINE_UNIT;
    assert Place([u], pos) == PlaceOne(u, pos) + [] == PlaceOne(u, pos);
    assert [Soft] + [u] == [Soft, u] && [] + [u] == [u];
    Assoc(if pos > 69 then [Soft] else [], [u], CONTINUE);
  }

  /** A newline is written as its two triples together, a soft break and a space, behind a soft break of
      its own if less than six columns are left. */
  lemma NewlineWritten(pos: nat)
    ensures RenderAll(PlaceNewline(pos)) == if pos > 69 then "=\r\n=0D=0A=\r\n " else "=0D=0A=\r\n "
  {
    NewlinePlace(pos);
    NewlineTriples();
    hide Render, RenderAll, PlaceNewline;
    RenderConcat(if pos > 69 then [Soft] else [], [NEWLINE_UNIT] + CONTINUE);
    RenderConcat([NEWLINE_UNIT], CONTINUE);
    RenderOne(NEWLINE_UNIT);
    BreaksRendered();
    assert "=0D=0A" + "=\r\n " == "=0D=0A=\r\n " && "" + "=0D=0A=\r\n " == "=0D=0A=\r\n ";
    assert "=\r\n" + "=0D=0A=\r\n " == "=\r\n=0D=0A=\r\n ";
  }

  lemma BreaksRendered()
    ensures RenderAll([]) == "" && RenderAll([Soft]) == "=\r\n" && RenderAll(CONTINUE) == "=\r\n "
  {
    RenderOne(Soft);
    RenderOne(Plain(' '));
    assert CONTINUE[1..] == [Plain(' ')];
    assert "=\r\n" + " " == "=\r\n ";
  }
}

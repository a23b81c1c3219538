/**
 Blanks at the end of an encoded line. Rule 3 of section 6.7 of RFC 2045 makes a decoder delete them;
 the encoder never writes one in front of a soft break but leaves one that ends the text.
 */
module QpTrailing {
  import opened Text
  import opened Utf8
  import opened QuotedPrintable
  import opened QpLayout

  // ----- the decoder that deletes them -----

  /** From here to the end of the line there are only blanks. */
  predicate BlankToEnd(t: string) {
    t == "" || CrlfAt(t, 0) || (IsBlank(t[0]) && BlankToEnd(t[1..]))
  }

  /** Every line without the blanks at its end. */
  function Trimmed(t: string): string {
    if t == "" then ""
    else if IsBlank(t[0]) && BlankToEnd(t) then Trimmed(t[1..])
    else [t[0]] + Trimmed(t[1..])
  }

  /** The section 6.7 decoder with rule 3. */
  function TrimmingDecode(t: string): Option<string> {
    Decode(Trimmed(t))
  }

  // ----- trimming tokens -----

  predicate IsBlankToken(tok: Token) {
    tok.Plain? && IsBlank(tok.c)
  }

  predicate AllBlank(toks: seq<Token>) {
    toks == [] || (IsBlankToken(toks[0]) && AllBlank(toks[1..]))
  }

  /** The tokens without the blanks at their end. */
  function WithoutLastBlanks(toks: seq<Token>): seq<Token> {
    if AllBlank(toks) then [] else [toks[0]] + WithoutLastBlanks(toks[1..])
  }

  lemma {:induction false} TrimmedUnblank(u: string, x: string)
    requires forall i :: 0 <= i < |u| ==> !IsBlank(u[i])
    ensures Trimmed(u + x) == u + Trimmed(x)
  {
    if u == "" {
      assert u + x == x && "" + Trimmed(x) == Trimmed(x);
    } else {
      assert (u + x)[0] == u[0] && (u + x)[1..] == u[1..] + x;
      TrimmedUnblank(u[1..], x);
      assert [u[0]] + (u[1..] + Trimmed(x)) == u + Trimmed(x);
    }
  }

  lemma {:induction false} TriplesUnblank(o: string)
    ensures forall i :: 0 <= i < |Triples(o)| ==> !IsBlank(Triples(o)[i])
    ensures o != "" ==> Triples(o) != "" && Triples(o)[0] == '='
  {
    if o != "" {
      TriplesUnblank(o[1..]);
      HexIsUnblank((o[0] as int / 16) % 16);
      HexIsUnblank(o[0] as int % 16);
    }
  }

  lemma HexIsUnblank(n: nat)
    requires n < 16
    ensures !IsBlank(HexDigit(n))
  {
    assert HEX_DIGITS == ['0', '1', '2', '3', '4', '5', '6', '7', '8', '9', 'A', 'B', 'C', 'D', 'E', 'F'];
  }

  /** What a token that is no blank looks like from its front. */
  lemma TokenHead(tok: Token, x: string)
    requires Valid(tok) && !IsBlankToken(tok)
    ensures !BlankToEnd(Render(tok) + x) && Trimmed(Render(tok) + x) == Render(tok) + Trimmed(x)
  {
    match tok
    case Plain(c) =>
      assert (Render(tok) + x)[0] == c;
      TrimmedUnblank([c], x);
    case Escaped(o) =>
      TriplesUnblank(o);
      assert (Render(tok) + x)[0] == '=';
      TrimmedUnblank(Triples(o), x);
    case Soft =>
      assert (Render(tok) + x)[0] == '=';
      TrimmedUnblank(SOFT_BREAK, x);
  }

  lemma {:induction false} BlankToEndIff(toks: seq<Token>)
    requires AllValid(toks)
    ensures BlankToEnd(RenderAll(toks)) <==> AllBlank(toks)
  {
    if toks != [] {
      var tok, x := toks[0], RenderAll(toks[1..]);
      BlankToEndIff(toks[1..]);
      if IsBlankToken(tok) {
        assert ([tok.c] + x)[1..] == x && !CrlfAt([tok.c] + x, 0);
      } else {
        TokenHead(tok, x);
      }
    }
  }

  lemma {:induction false} TrimmedBlanks(toks: seq<Token>)
    requires AllValid(toks) && AllBlank(toks)
    ensures Trimmed(RenderAll(toks)) == ""
  {
    if toks != [] {
      var x := RenderAll(toks[1..]);
      BlankToEndIff(toks);
      TrimmedBlanks(toks[1..]);
      assert RenderAll(toks)[0] == toks[0].c && RenderAll(toks)[1..] == x;
    }
  }

  /** Rule 3 takes from the encoder's output just the blanks at its very end. */
  lemma {:induction false} TrimmedTokens(toks: seq<Token>)
    requires AllValid(toks)
    ensures Trimmed(RenderAll(toks)) == RenderAll(WithoutLastBlanks(toks))
  {
    if AllBlank(toks) {
      TrimmedBlanks(toks);
    } else {
      var tok, x := toks[0], RenderAll(toks[1..]);
      var rest := WithoutLastBlanks(toks[1..]);
      TrimmedTokens(toks[1..]);
      assert ([tok] + rest)[1..] == rest;
      if IsBlankToken(tok) {
        BlankToEndIff(toks);
        assert ([tok.c] + x)[0] == tok.c && ([tok.c] + x)[1..] == x;
      } else {
        TokenHead(tok, x);
      }
    }
  }

  /** Each blank that is dropped is missed in the text. */
  lemma {:induction false} DroppedMeaning(toks: seq<Token>)
    requires AllValid(toks)
    ensures AllValid(WithoutLastBlanks(toks)) && |WithoutLastBlanks(toks)| <= |toks|
    ensures |MeaningAll(toks)| == |MeaningAll(WithoutLastBlanks(toks))| + (|toks| - |WithoutLastBlanks(toks)|)
  {
    if toks != [] {
      DroppedMeaning(toks[1..]);
      var rest := WithoutLastBlanks(toks[1..]);
      if AllBlank(toks) {
        assert AllBlank(toks[1..]) && rest == [];
      } else {
        assert ([toks[0]] + rest)[1..] == rest;
      }
    }
  }

  lemma {:induction false} NothingDroppedIff(toks: seq<Token>)
    ensures WithoutLastBlanks(toks) == toks <==> toks == [] || !IsBlankToken(toks[|toks| - 1])
    ensures |WithoutLastBlanks(toks)| == |toks| <==> WithoutLastBlanks(toks) == toks
    ensures |WithoutLastBlanks(toks)| <= |toks|
  {
    if toks != [] {
      NothingDroppedIff(toks[1..]);
      var rest := WithoutLastBlanks(toks[1..]);
      assert toks == [toks[0]] + toks[1..] && ([toks[0]] + rest)[1..] == rest;
      if AllBlank(toks) {
        LastOfBlanks(toks);
      }
    }
  }

  lemma {:induction false} LastOfBlanks(toks: seq<Token>)
    requires AllBlank(toks) && toks != []
    ensures IsBlankToken(toks[|toks| - 1])
  {
    if |toks| > 1 {
      LastOfBlanks(toks[1..]);
    }
  }

  lemma TokensSurviveIff(toks: seq<Token>)
    requires AllValid(toks)
    ensures TrimmingDecode(RenderAll(toks)) == Some(MeaningAll(toks)) <==> toks == [] || !IsBlankToken(toks[|toks| - 1])
  {
    TrimmedTokens(toks);
    DroppedMeaning(toks);
    NothingDroppedIff(toks);
    DecodeAll(WithoutLastBlanks(toks));
    hide Decode, Trimmed, RenderAll, MeaningAll, WithoutLastBlanks;
  }

  // ----- the last token of an encoding -----

  /** A unit; a blank is never escaped. */
  predicate IsTight(tok: Token) {
    match tok
    case Plain(_) => true
    case Escaped(o) => o != "" && !IsBlank(o[|o| - 1])
    case Soft => false
  }

  predicate EndsTight(toks: seq<Token>) {
    toks == [] || IsTight(toks[|toks| - 1])
  }

  predicate AllTight(us: seq<Token>) {
    forall i :: 0 <= i < |us| ==> IsTight(us[i])
  }

  lemma {:induction false} UnitsTight(w: string)
    requires WellFormed(w)
    ensures AllTight(Units(w))
  {
    if w != "" {
      var n := CharLength(w);
      UnitsTight(w[n..]);
      var ch := w[..n];
      assert n > 1 ==> IsContinuation(ch[n - 1]);
      assert IsTight(UnitOf(ch));
    }
  }

  lemma {:induction false} PlaceEndsTight(us: seq<Token>, pos: nat)
    requires AllTight(us)
    ensures EndsTight(Place(us, pos)) && (us == [] <==> Place(us, pos) == [])
  {
    if us != [] {
      PlaceEndsTight(us[1..], ColumnAfter(pos, PlaceOne(us[0], pos)));
    }
  }

  lemma PieceEndsTight(p: Piece, pos: nat)
    requires GoodPiece(p) && pos <= LINEBREAK_LEN
    ensures EndsTight(PlacePiece(p, pos))
  {
    match p
    case Word(w) =>
      UnitsTight(w);
      PlaceEndsTight(Units(w), pos);
      PlaceEndsTight(Units(w), 0);
      assert Units(w) == [] ==> WidthAll(Units(w)) == 0;
    case Newline =>
      assert CONTINUE[|CONTINUE| - 1] == Plain(' ');
  }

  lemma EndsTightConcat(a: seq<Token>, b: seq<Token>)
    requires EndsTight(a) && EndsTight(b)
    ensures EndsTight(a + b)
  {
    assert b == [] ==> a + b == a;
  }

  lemma {:induction false} LayoutEndsTight(ps: seq<Piece>, pos: nat)
    requires GoodPieces(ps) && pos <= LINEBREAK_LEN
    ensures EndsTight(Layout(ps, pos))
  {
    if ps != [] {
      var toks := PlacePiece(ps[0], pos);
      PieceFits(ps[0], pos);
      PieceEndsTight(ps[0], pos);
      hide PlacePiece, EndsTight, GoodPiece;
      LayoutEndsTight(ps[1..], ColumnAfter(pos, toks));
      EndsTightConcat(toks, Layout(ps[1..], ColumnAfter(pos, toks)));
    }
  }

  lemma EncodingEndsTight(s: string)
    requires WellFormed(s)
    ensures EndsTight(Encoding(s))
  {
    assert "" + s == s;
    PiecesAreGood("", s);
    LayoutEndsTight(Pieces("", s), 0);
  }

  lemma {:induction false} LastMeaning(toks: seq<Token>)
    requires toks != [] && IsTight(toks[|toks| - 1])
    ensures var m, last := MeaningAll(toks), Meaning(toks[|toks| - 1]);
            m != "" && last != "" && m[|m| - 1] == last[|last| - 1]
  {
    if |toks| > 1 {
      LastMeaning(toks[1..]);
    } else {
      assert MeaningAll(toks) == Meaning(toks[0]) + "" == Meaning(toks[0]);
    }
  }

  predicate EndsInBlank(s: string) {
    s != "" && IsBlank(s[|s| - 1])
  }

  lemma LastOfJoined(a: string, b: string)
    requires a != ""
    ensures EndsInBlank(a + b) <==> EndsInBlank(if b == "" then a else b)
    ensures EndsInNewline(a + b) <==> EndsInNewline(if b == "" then a else b)
  {
    assert b == "" ==> a + b == a;
  }

  lemma NormalStep(s: string) returns (n: nat, head: string)
    requires s != ""
    ensures 1 <= n <= |s| && head != "" && NormalNewlines(s) == head + NormalNewlines(s[n..])
    ensures EndsInBlank(head) <==> EndsInBlank(s[..n]) || EndsInNewline(s[..n])
  {
    if s[0] == '\r' || s[0] == '\n' {
      n, head := NewlineLength(s), FOLD;
    } else {
      n, head := 1, [s[0]];
    }
  }

  lemma {:induction false} NormalEndsIff(s: string)
    ensures EndsInBlank(NormalNewlines(s)) <==> EndsInBlank(s) || EndsInNewline(s)
    ensures NormalNewlines(s) == "" <==> s == ""
    decreases |s|
  {
    if s != "" {
      var n, head := NormalStep(s);
      assert s[..n] + s[n..] == s;
      hide EndsInBlank, EndsInNewline, NormalNewlines;
      NormalEndsIff(s[n..]);
      LastOfJoined(s[..n], s[n..]);
      LastOfJoined(head, NormalNewlines(s[n..]));
    } else {
      assert NormalNewlines(s) == "";
    }
  }

  lemma TightMeaning(tok: Token)
    requires IsTight(tok)
    ensures Meaning(tok) != "" && (IsBlank(Meaning(tok)[|Meaning(tok)| - 1]) <==> IsBlankToken(tok))
  {
  }

  lemma BlankTokenIff(toks: seq<Token>)
    requires EndsTight(toks)
    ensures toks != [] && IsBlankToken(toks[|toks| - 1]) <==> EndsInBlank(MeaningAll(toks))
  {
    if toks != [] {
      LastMeaning(toks);
      TightMeaning(toks[|toks| - 1]);
      hide MeaningAll, Meaning, IsTight, IsBlankToken, IsBlank;
    } else {
      assert MeaningAll(toks) == "";
    }
  }

  /** A decoder that deletes the blanks at the ends of lines gets the text back as well, if and only if
      the text does not end in a blank or a newline. */
  lemma TrimmingDecodeIff(s: string)
    requires WellFormed(s)
    ensures TrimmingDecode(EncodedText(s)) == Some(NormalNewlines(s)) <==> !EndsInBlank(s) && !EndsInNewline(s)
  {
    hide *;
    EncodingValid(s);
    EncodingMeans(s);
    EncodingEndsTight(s);
    TextIsRendered(s);
    TokensSurviveIff(Encoding(s));
    BlankTokenIff(Encoding(s));
    NormalEndsIff(s);
  }

  lemma TextIsRendered(s: string)
    ensures EncodedText(s) == RenderAll(Encoding(s))
  {
  }

  /** Such a text: an accented letter and a blank. */
  lemma LastBlankIsLost(s: string)
    requires s == [0xC3 as char, 0xA9 as char, ' ']
    ensures WellFormed(s) && TrimmingDecode(EncodedText(s)) != Some(NormalNewlines(s))
  {
    assert s[2..][1..] == "";
    assert WellFormed(s[2..]);
    hide EncodedText, NormalNewlines, TrimmingDecode;
    TrimmingDecodeIff(s);
  }

  // ----- how lines and values end -----

  /** The output does not end in a '=' or a line break. */
  lemma EncodingEndsInUnit(s: string)
    requires WellFormed(s) && s != ""
    ensures var t := EncodedText(s); t != "" && t[|t| - 1] != '=' && t[|t| - 1] != '\r' && t[|t| - 1] != '\n'
  {
    var toks := Encoding(s);
    EncodingValid(s);
    EncodingMeans(s);
    EncodingEndsTight(s);
    NormalEndsIff(s);
    assert toks != [];
    hide Encoding;
    LastRendered(toks);
    UnitShape(toks[|toks| - 1]);
  }

  lemma {:induction false} LastRendered(toks: seq<Token>)
    requires toks != [] && AllValid(toks) && IsTight(toks[|toks| - 1])
    ensures var t, last := RenderAll(toks), Render(toks[|toks| - 1]);
            t != "" && last != "" && t[|t| - 1] == last[|last| - 1]
  {
    if |toks| > 1 {
      LastRendered(toks[1..]);
    } else {
      UnitShape(toks[0]);
      assert RenderAll(toks) == Render(toks[0]) + "" == Render(toks[0]);
    }
  }

  /** Every line but the last says that it goes on. */
  predicate GoesOn(ls: seq<string>) {
    forall i :: 0 <= i < |ls| - 1 ==> ls[i] != "" && ls[i][|ls[i]| - 1] == '='
  }

  lemma {:induction false} TokenLinesGoOn(toks: seq<Token>)
    requires AllValid(toks)
    ensures GoesOn(Lines(RenderAll(toks)))
  {
    if toks != [] {
      var rest := RenderAll(toks[1..]);
      var ls := Lines(rest);
      TokenLinesGoOn(toks[1..]);
      if toks[0].Soft? {
        LinesAfterSoft(rest);
        hide Lines, RenderAll;
        GoesOnBehind(ls);
      } else {
        LinesAfterUnit(toks[0], rest);
        UnitShape(toks[0]);
        hide Lines, RenderAll, Render;
        GoesOnBegun(Render(toks[0]), ls);
      }
    } else {
      assert Lines(RenderAll(toks)) == [""];
    }
  }

  lemma GoesOnBehind(ls: seq<string>)
    requires GoesOn(ls)
    ensures GoesOn(["="] + ls)
  {
  }

  lemma GoesOnBegun(u: string, ls: seq<string>)
    requires GoesOn(ls) && ls != []
    ensures GoesOn([u + ls[0]] + ls[1..])
  {
    var more := [u + ls[0]] + ls[1..];
    assert forall i :: 1 <= i < |ls| ==> more[i] == ls[i];
  }

  /** Only soft breaks end the lines of the output: each but the last ends in '=', so that no blank
      stands at the end of any of them. */
  lemma OnlySoftBreaks(s: string)
    requires WellFormed(s)
    ensures GoesOn(Lines(EncodedText(s)))
  {
    EncodingValid(s);
    TokenLinesGoOn(Encoding(s));
  }
}

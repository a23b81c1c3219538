/**
 The quoted-printable text of section 6.7 of RFC 2045: what a decoder reads out of it, and
 where the encoder puts its soft line breaks.
 */
module QuotedPrintable {
  import opened Text
  import opened Utf8

  const LINEBREAK_LEN: nat := 75
  const MAX_LINE: nat := 76  // section 6.7 rule 5 of RFC 2045, trailing '=' included
  const SOFT_BREAK: string := "=\r\n"

  const HEX_DIGITS: string := "0123456789ABCDEF"

  function HexDigit(n: nat): char
    requires n < 16
  {
    HEX_DIGITS[n]
  }

  function HexValue(c: char): (v: Option<nat>)
    ensures v.Some? ==> v.value < 16
  {
    if '0' <= c <= '9' then Some(c as int - '0' as int)
    else if 'A' <= c <= 'F' then Some(c as int - 'A' as int + 10)
    else None
  }

  lemma HexRoundTrip(n: nat)
    requires n < 16
    ensures HexValue(HexDigit(n)) == Some(n)
    ensures HexDigit(n) != '=' && HexDigit(n) != '\r' && HexDigit(n) != '\n'
  {
    assert HEX_DIGITS == ['0', '1', '2', '3', '4', '5', '6', '7', '8', '9', 'A', 'B', 'C', 'D', 'E', 'F'];
  }

  function Prefixed(s: string, r: Option<string>): Option<string> {
    match r
    case None => None
    case Some(t) => Some(s + t)
  }

  /** The section 6.7 decoder without its rule 3: soft breaks are dropped, `=XX` is an octet, a stray '='
      is an error, and blanks at the end of a line are kept. */
  function Decode(t: string): Option<string> {
    if t == "" then Some("")
    else if t[0] != '=' then Prefixed([t[0]], Decode(t[1..]))
    else if CrlfAt(t, 1) then Decode(t[3..])
    else if |t| >= 3 && HexValue(t[1]).Some? && HexValue(t[2]).Some? then
      Prefixed([(16 * HexValue(t[1]).value + HexValue(t[2]).value) as char], Decode(t[3..]))
    else None
  }

  /** One physical line read by itself: a trailing '=' only says that the line goes on. */
  function DecodeLine(l: string): Option<string> {
    if l != "" && l[|l| - 1] == '=' then Decode(l[..|l| - 1]) else Decode(l)
  }

  function NewlineLength(s: string): (n: nat)
    requires s != "" && (s[0] == '\r' || s[0] == '\n')
    ensures 1 <= n <= |s|
  {
    if CrlfAt(s, 0) then 2 else 1
  }

  /** Each CR, LF or CRLF replaced by CRLF and the continuation space the encoder adds. */
  function NormalNewlines(s: string): string {
    if s == "" then ""
    else if s[0] == '\r' || s[0] == '\n' then FOLD + NormalNewlines(s[NewlineLength(s)..])
    else [s[0]] + NormalNewlines(s[1..])
  }

  // ----- tokens: what the encoder emits in one piece -----

  datatype Token = Plain(c: char) | Escaped(octets: string) | Soft

  predicate IsOctets(s: string) {
    forall i :: 0 <= i < |s| ==> s[i] as int < 0x100
  }

  predicate PairedAt(t: string, i: int) {
    0 <= i < |t| &&
    (t[i] == '\r' ==> i + 1 < |t| && t[i + 1] == '\n') && (t[i] == '\n' ==> 0 < i && t[i - 1] == '\r')
  }

  /** CR and LF occur only as the pair. */
  predicate CrlfPaired(t: string) {
    forall i :: 0 <= i < |t| ==> PairedAt(t, i)
  }

  /** Neither a character nor a CRLF pair is cut at the ends of `t`. */
  predicate Whole(t: string) {
    WellFormed(t) && CrlfPaired(t)
  }

  predicate IsPlain(c: char) {
    c == '\t' || (' ' <= c <= '~' && c != '=')
  }

  predicate Valid(tok: Token) {
    match tok
    case Plain(c) => IsPlain(c)
    case Escaped(o) => 1 <= |o| <= 4 && IsOctets(o) && Whole(o)
    case Soft => true
  }

  predicate AllValid(toks: seq<Token>) {
    forall i :: 0 <= i < |toks| ==> Valid(toks[i])
  }

  /** `=XX` for the low eight bits of `c`. */
  function Triple(c: char): string {
    ['=', HexDigit((c as int / 16) % 16), HexDigit(c as int % 16)]
  }

  function Triples(o: string): string {
    if o == "" then "" else Triple(o[0]) + Triples(o[1..])
  }

  function Render(tok: Token): string {
    match tok
    case Plain(c) => [c]
    case Escaped(o) => Triples(o)
    case Soft => SOFT_BREAK
  }

  function RenderAll(toks: seq<Token>): string {
    if toks == [] then "" else Render(toks[0]) + RenderAll(toks[1..])
  }

  function Meaning(tok: Token): string {
    match tok
    case Plain(c) => [c]
    case Escaped(o) => o
    case Soft => ""
  }

  function MeaningAll(toks: seq<Token>): string {
    if toks == [] then "" else Meaning(toks[0]) + MeaningAll(toks[1..])
  }

  function Width(tok: Token): nat {
    match tok
    case Plain(_) => 1
    case Escaped(o) => 3 * |o|
    case Soft => 0
  }

  function WidthAll(toks: seq<Token>): nat {
    if toks == [] then 0 else Width(toks[0]) + WidthAll(toks[1..])
  }

  function Advance(pos: nat, tok: Token): nat {
    if tok.Soft? then 0 else pos + Width(tok)
  }

  function ColumnAfter(pos: nat, toks: seq<Token>): nat
    decreases |toks|
  {
    if toks == [] then pos else ColumnAfter(Advance(pos, toks[0]), toks[1..])
  }

  /** What a run of tokens adds to the text, and the column it ends in. */
  function Put(toks: seq<Token>, pos: nat): (string, nat) {
    (RenderAll(toks), ColumnAfter(pos, toks))
  }

  // ----- where the encoder breaks -----

  /** The token one whole character becomes. */
  function UnitOf(ch: string): Token {
    if |ch| == 1 && IsPlain(ch[0]) then Plain(ch[0]) else Escaped(ch)
  }

  /** The tokens of a segment, one for each character. */
  function Units(w: string): seq<Token> {
    if w == "" then []
    else
      var n := CharLength(w);
      [UnitOf(w[..n])] + Units(w[n..])
  }

  /** A unit with the soft break it needs at column `pos`, if any. */
  function PlaceOne(u: Token, pos: nat): seq<Token> {
    if pos + Width(u) > LINEBREAK_LEN then [Soft, u] else [u]
  }

  /** Units laid out from column `pos`, a soft break before each that would pass the limit. */
  function Place(units: seq<Token>, pos: nat): seq<Token> {
    if units == [] then []
    else
      var one := PlaceOne(units[0], pos);
      one + Place(units[1..], ColumnAfter(pos, one))
  }

  /** A word moves to a fresh line as a whole when it would pass the limit. */
  function PlaceWord(units: seq<Token>, pos: nat): seq<Token> {
    if pos + WidthAll(units) > LINEBREAK_LEN && pos > 1 then [Soft] + Place(units, 0)
    else Place(units, pos)
  }

  const NEWLINE_UNIT := Escaped(CRLF)
  const CONTINUE: seq<Token> := [Soft, Plain(' ')]

  function PlaceNewline(pos: nat): seq<Token> {
    Place([NEWLINE_UNIT], pos) + CONTINUE
  }

  // ----- the segments the encoder works through -----

  datatype Piece = Word(w: string) | Newline

  /** The segments of `seg + rest`, of which `seg` has been scanned: each blank begins a segment. */
  function Pieces(seg: string, rest: string): seq<Piece>
    decreases |rest|
  {
    if rest == "" then [Word(seg)]
    else if IsBlank(rest[0]) then [Word(seg)] + Pieces([rest[0]], rest[1..])
    else if rest[0] == '\r' || rest[0] == '\n' then
      [Word(seg)] + [Newline] + Pieces("", rest[NewlineLength(rest)..])
    else Pieces(seg + [rest[0]], rest[1..])
  }

  predicate NoNewline(s: string) {
    forall i :: 0 <= i < |s| ==> s[i] != '\r' && s[i] != '\n'
  }

  predicate EndsInNewline(s: string) {
    s != "" && (s[|s| - 1] == '\r' || s[|s| - 1] == '\n')
  }

  predicate GoodPiece(p: Piece) {
    p.Word? ==> WellFormed(p.w) && NoNewline(p.w)
  }

  predicate GoodPieces(ps: seq<Piece>) {
    forall i :: 0 <= i < |ps| ==> GoodPiece(ps[i])
  }

  function PlacePiece(p: Piece, pos: nat): seq<Token> {
    match p
    case Word(w) => PlaceWord(Units(w), pos)
    case Newline => PlaceNewline(pos)
  }

  function Layout(ps: seq<Piece>, pos: nat): seq<Token> {
    if ps == [] then []
    else
      var toks := PlacePiece(ps[0], pos);
      toks + Layout(ps[1..], ColumnAfter(pos, toks))
  }

  function PieceText(p: Piece): string {
    if p.Word? then p.w else FOLD
  }

  function PiecesText(ps: seq<Piece>): string {
    if ps == [] then "" else PieceText(ps[0]) + PiecesText(ps[1..])
  }

  lemma GoodCons(p: Piece, ps: seq<Piece>)
    ensures GoodPieces([p] + ps) <==> GoodPiece(p) && GoodPieces(ps)
  {
    assert ([p] + ps)[0] == p;
    assert forall i :: 0 <= i < |ps| ==> ([p] + ps)[i + 1] == ps[i];
  }

  lemma {:induction false} PiecesAreGood(seg: string, rest: string)
    requires WellFormed(seg + rest) && NoNewline(seg)
    ensures GoodPieces(Pieces(seg, rest))
    decreases |rest|
  {
    if rest == "" {
      assert seg + rest == seg;
    } else if IsBlank(rest[0]) {
      hide WellFormed;
      WellFormedSplit(seg, rest);
      assert [rest[0]] + rest[1..] == rest;
      PiecesAreGood([rest[0]], rest[1..]);
      GoodCons(Word(seg), Pieces([rest[0]], rest[1..]));
    } else if rest[0] == '\r' || rest[0] == '\n' {
      hide WellFormed, GoodPieces, NoNewline, NewlineLength;
      WellFormedSplit(seg, rest);
      PastNewline(rest);
      assert NoNewline("") by { NothingLeft(); }
      var ps := Pieces("", rest[NewlineLength(rest)..]);
      PiecesAreGood("", rest[NewlineLength(rest)..]);
      GoodCons(Newline, ps);
      GoodCons(Word(seg), [Newline] + ps);
      Assoc([Word(seg)], [Newline], ps);
    } else {
      hide WellFormed;
      assert (seg + [rest[0]]) + rest[1..] == seg + rest;
      PiecesAreGood(seg + [rest[0]], rest[1..]);
    }
  }

  lemma NothingLeft()
    ensures NoNewline("")
  {
  }

  lemma PastNewline(rest: string)
    requires WellFormed(rest) && rest != "" && (rest[0] == '\r' || rest[0] == '\n')
    ensures WellFormed(rest[NewlineLength(rest)..])
    ensures "" + rest[NewlineLength(rest)..] == rest[NewlineLength(rest)..]
  {
    if NewlineLength(rest) == 2 {
      assert rest[1..][1..] == rest[2..];
    }
  }

  /** The token stream of a whole text. */
  function Encoding(s: string): seq<Token> {
    Layout(Pieces("", s), 0)
  }

  function EncodedText(s: string): string {
    RenderAll(Encoding(s))
  }

  // ----- every token is valid -----

  lemma WholeCharUnit(w: string)
    requires HasWholeChar(w) && NoNewline(w)
    ensures var u := UnitOf(w[..CharLength(w)]);
            Valid(u) && !u.Soft? && Meaning(u) == w[..CharLength(w)]
  {
    var ch := w[..CharLength(w)];
    assert HasWholeChar(ch) && ch[CharLength(w)..] == "";
    assert WellFormed(ch);
  }

  predicate AreUnits(us: seq<Token>) {
    AllValid(us) && forall i :: 0 <= i < |us| ==> !us[i].Soft?
  }

  lemma UnitsStep(w: string)
    requires w != ""
    ensures Units(w) == [UnitOf(w[..CharLength(w)])] + Units(w[CharLength(w)..])
    ensures w == w[..CharLength(w)] + w[CharLength(w)..]
  {
  }

  lemma {:induction false} UnitsOfWord(w: string)
    requires WellFormed(w) && NoNewline(w)
    ensures AreUnits(Units(w)) && MeaningAll(Units(w)) == w
  {
    if w != "" {
      hide Units, UnitOf, Valid, AreUnits, MeaningAll;
      UnitsStep(w);
      var n := CharLength(w);
      WholeCharUnit(w);
      UnitsOfWord(w[n..]);
      UnitsCons(UnitOf(w[..n]), Units(w[n..]));
    }
  }

  lemma UnitsCons(u: Token, us: seq<Token>)
    requires AreUnits(us) && Valid(u) && !u.Soft?
    ensures AreUnits([u] + us) && MeaningAll([u] + us) == Meaning(u) + MeaningAll(us)
  {
    assert ([u] + us)[1..] == us;
  }

  lemma MeaningOfOne(u: Token, pos: nat)
    ensures MeaningAll(PlaceOne(u, pos)) == Meaning(u)
  {
    assert MeaningAll([u]) == Meaning(u);
    assert [Soft, u][1..] == [u];
  }

  lemma {:induction false} PlaceKeepsUnits(us: seq<Token>, pos: nat)
    requires AreUnits(us)
    ensures AllValid(Place(us, pos)) && MeaningAll(Place(us, pos)) == MeaningAll(us)
  {
    if us != [] {
      var one := PlaceOne(us[0], pos);
      var rest := Place(us[1..], ColumnAfter(pos, one));
      PlaceKeepsUnits(us[1..], ColumnAfter(pos, one));
      MeaningOfOne(us[0], pos);
      MeaningOfConcat(one, rest);
    }
  }

  lemma NewlineIsUnit()
    ensures Valid(NEWLINE_UNIT) && AreUnits([NEWLINE_UNIT])
    ensures MeaningAll([NEWLINE_UNIT]) == CRLF
  {
    assert CRLF[1..] == "\n" && "\n"[1..] == "";
    assert WellFormed("\n");
    assert WellFormed(CRLF);
  }

  lemma {:induction false} MeaningOfConcat(a: seq<Token>, b: seq<Token>)
    ensures MeaningAll(a + b) == MeaningAll(a) + MeaningAll(b)
  {
    if a == [] {
      assert a + b == b;
    } else {
      assert (a + b)[1..] == a[1..] + b;
      MeaningOfConcat(a[1..], b);
    }
  }

  lemma ContinueMeans()
    ensures AllValid(CONTINUE) && MeaningAll(CONTINUE) == " "
  {
    assert CONTINUE[1..] == [Plain(' ')];
    assert MeaningAll([Plain(' ')]) == " ";
  }

  lemma NewlinePlaced(pos: nat)
    ensures AllValid(PlaceNewline(pos)) && MeaningAll(PlaceNewline(pos)) == FOLD
  {
    NewlineIsUnit();
    ContinueMeans();
    PlaceKeepsUnits([NEWLINE_UNIT], pos);
    hide Place, MeaningAll, Valid;
    MeaningOfConcat(Place([NEWLINE_UNIT], pos), CONTINUE);
    FoldIs();
  }

  lemma FoldIs()
    ensures CRLF + " " == FOLD
  {
  }

  lemma WordTokensPlaced(us: seq<Token>, pos: nat)
    requires AreUnits(us)
    ensures AllValid(PlaceWord(us, pos)) && MeaningAll(PlaceWord(us, pos)) == MeaningAll(us)
  {
    PlaceKeepsUnits(us, pos);
    PlaceKeepsUnits(us, 0);
    MeaningOfConcat([Soft], Place(us, 0));
    assert MeaningAll([Soft]) == "";
    assert "" + MeaningAll(us) == MeaningAll(us);
  }

  lemma PiecePlaced(p: Piece, pos: nat)
    requires GoodPiece(p)
    ensures AllValid(PlacePiece(p, pos))
    ensures MeaningAll(PlacePiece(p, pos)) == PieceText(p)
  {
    hide PlaceWord, PlaceNewline;
    match p
    case Word(w) =>
      UnitsOfWord(w);
      WordTokensPlaced(Units(w), pos);
    case Newline =>
      NewlinePlaced(pos);
  }

  lemma {:induction false} LayoutPlaced(ps: seq<Piece>, pos: nat)
    requires GoodPieces(ps)
    ensures AllValid(Layout(ps, pos))
    ensures MeaningAll(Layout(ps, pos)) == PiecesText(ps)
  {
    if ps != [] {
      var toks := PlacePiece(ps[0], pos);
      PiecePlaced(ps[0], pos);
      LayoutPlaced(ps[1..], ColumnAfter(pos, toks));
      MeaningOfConcat(toks, Layout(ps[1..], ColumnAfter(pos, toks)));
    }
  }

  lemma EncodingValid(s: string)
    requires WellFormed(s)
    ensures AllValid(Encoding(s))
  {
    assert "" + s == s;
    PiecesAreGood("", s);
    LayoutPlaced(Pieces("", s), 0);
  }

  // ----- the round trip -----

  /** What follows a token does not change what the token decodes to. */
  lemma DecodeToken(tok: Token, rest: string)
    requires Valid(tok)
    ensures Decode(Render(tok) + rest) == Prefixed(Meaning(tok), Decode(rest))
  {
    match tok
    case Plain(c) =>
      assert ([c] + rest)[1..] == rest;
    case Escaped(o) => DecodeTriples(o, rest);
    case Soft =>
      assert (SOFT_BREAK + rest)[3..] == rest;
      assert CrlfAt(SOFT_BREAK + rest, 1);
      PrefixedNothing(Decode(rest));
  }

  lemma DecodeTriple(c: char, rest: string)
    requires c as int < 0x100
    ensures Decode(Triple(c) + rest) == Prefixed([c], Decode(rest))
  {
    var hi, lo := (c as int / 16) % 16, c as int % 16;
    HexRoundTrip(hi);
    HexRoundTrip(lo);
    hide HexDigit, HexValue;
    assert 16 * hi + lo == c as int;
    var t := Triple(c) + rest;
    assert t[0] == '=' && t[1] == HexDigit(hi) && t[2] == HexDigit(lo);
    assert t[3..] == rest;
  }

  lemma PrefixedTwice(a: string, b: string, r: Option<string>)
    ensures Prefixed(a + b, r) == Prefixed(a, Prefixed(b, r))
  {
    if r.Some? {
      Assoc(a, b, r.value);
    }
  }

  lemma PrefixedNothing(r: Option<string>)
    ensures Prefixed("", r) == r
  {
    if r.Some? {
      assert "" + r.value == r.value;
    }
  }

  lemma {:induction false} DecodeTriples(o: string, rest: string)
    requires IsOctets(o)
    ensures Decode(Triples(o) + rest) == Prefixed(o, Decode(rest))
  {
    if o == "" {
      assert Triples(o) + rest == rest;
      PrefixedNothing(Decode(rest));
    } else {
      DecodeTriples(o[1..], rest);
      DecodeTriple(o[0], Triples(o[1..]) + rest);
      Assoc(Triple(o[0]), Triples(o[1..]), rest);
      PrefixedTwice([o[0]], o[1..], Decode(rest));
      assert [o[0]] + o[1..] == o;
    }
  }

  lemma {:induction false} DecodeAll(toks: seq<Token>)
    requires AllValid(toks)
    ensures Decode(RenderAll(toks)) == Some(MeaningAll(toks))
  {
    if toks != [] {
      DecodeAll(toks[1..]);
      DecodeToken(toks[0], RenderAll(toks[1..]));
    }
  }

  lemma PiecesTextCons(p: Piece, ps: seq<Piece>)
    ensures PiecesText([p] + ps) == PieceText(p) + PiecesText(ps)
  {
    assert ([p] + ps)[1..] == ps;
  }

  /** The segments are the input with its newlines normalised, nothing lost and nothing reordered. */
  lemma {:induction false} PiecesTextIs(seg: string, rest: string)
    ensures PiecesText(Pieces(seg, rest)) == seg + NormalNewlines(rest)
    decreases |rest|
  {
    if rest == "" {
      assert PiecesText([]) == "";
      PiecesTextCons(Word(seg), []);
    } else if IsBlank(rest[0]) {
      PiecesTextIs([rest[0]], rest[1..]);
      PiecesTextCons(Word(seg), Pieces([rest[0]], rest[1..]));
    } else if rest[0] == '\r' || rest[0] == '\n' {
      var rest' := rest[NewlineLength(rest)..];
      PiecesTextIs("", rest');
      PiecesTextCons(Newline, Pieces("", rest'));
      PiecesTextCons(Word(seg), [Newline] + Pieces("", rest'));
      assert Pieces(seg, rest) == [Word(seg)] + ([Newline] + Pieces("", rest'));
    } else {
      PiecesTextIs(seg + [rest[0]], rest[1..]);
    }
  }

  lemma EncodingMeans(s: string)
    requires WellFormed(s)
    ensures MeaningAll(Encoding(s)) == NormalNewlines(s)
  {
    assert "" + s == s;
    PiecesAreGood("", s);
    LayoutPlaced(Pieces("", s), 0);
    PiecesTextIs("", s);
  }

  /** Round trip: a decoder that keeps blanks at the ends of lines gets back the text, newlines
      normalised. */
  lemma DecodeOfEncoded(s: string)
    requires WellFormed(s)
    ensures Decode(EncodedText(s)) == Some(NormalNewlines(s))
  {
    EncodingValid(s);
    EncodingMeans(s);
    DecodeAll(Encoding(s));
  }
}

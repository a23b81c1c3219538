/** The encoder itself: loops that append to a buffer and carry the column in `linePos`. */
module QpEncoder {
  import opened Text
  import opened Utf8
  import opened QuotedPrintable
  import opened QpLayout
  import opened QpWords

  /** Whether a value has to be encoded at all. */
  method EncodeCheck(value: Option<string>) returns (needed: bool)
    ensures needed <==> value.Some? && exists i :: 0 <= i < |value.value| && !(' ' <= value.value[i] <= '~')
  {
    if value.None? {
      return false;
    }
    var str := value.value;
    var pos := 0;
    while pos < |str|
      invariant 0 <= pos <= |str|
      invariant forall i :: 0 <= i < pos ==> ' ' <= str[i] <= '~'
    {
      if str[pos] < ' ' || str[pos] > '~' {
        return true;
      }
      pos := pos + 1;
    }
    return false;
  }

  /** One turn of the encoder's loops over a segment. */
  lemma NextChar(seg: string, pos: nat)
    requires pos < |seg| && WellFormed(seg[pos..])
    ensures var n := Skip(seg[pos]);
            pos + n <= |seg| && WellFormed(seg[pos + n..]) &&
            Units(seg[pos..]) == [UnitOf(seg[pos..pos + n])] + Units(seg[pos + n..])
  {
    var w, n := seg[pos..], Skip(seg[pos]);
    assert w[n..] == seg[pos + n..] && w[..n] == seg[pos..pos + n];
  }

  lemma StrlenStep(seg: string, pos: nat)
    requires pos < |seg| && WellFormed(seg[pos..])
    ensures var n := Skip(seg[pos]);
            pos + n <= |seg| && WellFormed(seg[pos + n..]) &&
            WidthAll(Units(seg[pos..])) == (if IsPlain(seg[pos]) then 1 else 3 * n) + WidthAll(Units(seg[pos + n..]))
  {
    NextChar(seg, pos);
    var n := Skip(seg[pos]);
    var u, us := UnitOf(seg[pos..pos + n]), Units(seg[pos + n..]);
    assert ([u] + us)[1..] == us;
    assert seg[pos..pos + n][0] == seg[pos];
  }

  /** The number of octets a segment takes when it is printed without soft breaks. */
  method EncodeStrlen(seg: string) returns (count: nat)
    requires WellFormed(seg)
    ensures count == WidthAll(Units(seg))
  {
    count := 0;
    var pos := 0;
    assert seg[0..] == seg;
    while pos < |seg|
      invariant 0 <= pos <= |seg| && WellFormed(seg[pos..])
      invariant count + WidthAll(Units(seg[pos..])) == WidthAll(Units(seg))
    {
      hide WellFormed, Units, UnitOf, WidthAll;
      StrlenStep(seg, pos);
      if seg[pos] == '\t' {
        count := count + 1;
        pos := pos + 1;
      } else if seg[pos] < ' ' || seg[pos] == '=' {
        count := count + 3;
        pos := pos + 1;
      } else if seg[pos] > '~' {
        var next := pos + Skip(seg[pos]);
        count := count + 3 * (next - pos);
        pos := next;
      } else {
        pos := pos + 1;
        count := count + 1;
      }
    }
  }

  /** Appends one character's octets as `=XX` triples, after a soft break if they would not fit. */
  method AppendToHex(enc: GString, octets: string, linePos: nat) returns (linePos': nat)
    modifies enc
    ensures octets == "" ==> enc.str == old(enc.str) && linePos' == linePos
    ensures octets != "" ==>
              enc.str == old(enc.str) + Put(PlaceOne(Escaped(octets), linePos), linePos).0 &&
              linePos' == Put(PlaceOne(Escaped(octets), linePos), linePos).1
  {
    linePos' := linePos;
    if octets == "" {
      return;
    }
    PutOne(Escaped(octets), linePos);
    hide Triples, Triple, Put, PlaceOne;
    ghost var brk := if linePos + 3 * |octets| > LINEBREAK_LEN then SOFT_BREAK else "";
    if linePos' + 3 * |octets| > LINEBREAK_LEN {
      enc.Append("=\r\n");
      linePos' := 0;
    }
    var start := linePos';
    assert octets[..0] == "" && Triples("") == "" by { NoTriples(); }
    assert enc.str == old(enc.str) + brk;
    var i := 0;
    while i < |octets|
      invariant 0 <= i <= |octets|
      invariant enc.str == (old(enc.str) + brk) + Triples(octets[..i])
      invariant linePos' == start + 3 * i
    {
      TriplesSnoc(octets, i);
      Assoc(old(enc.str) + brk, Triples(octets[..i]), Triple(octets[i]));
      enc.Append(Triple(octets[i]));
      linePos' := linePos' + 3;
      i := i + 1;
    }
    assert octets[..i] == octets;
    Assoc(old(enc.str), brk, Triples(octets));
  }

  lemma NoTriples()
    ensures Triples("") == ""
  {
  }

  lemma {:induction false} TriplesSnoc(o: string, i: nat)
    requires i < |o|
    ensures Triples(o[..i + 1]) == Triples(o[..i]) + Triple(o[i])
  {
    if i == 0 {
      assert o[..1] == [o[0]] && o[..1][1..] == "" && o[..0] == "";
      assert Triple(o[0]) + "" == Triple(o[0]) && "" + Triple(o[0]) == Triple(o[0]);
    } else {
      TriplesSnoc(o[1..], i - 1);
      assert o[..i + 1][1..] == o[1..][..i] && o[..i][1..] == o[1..][..i - 1];
      Assoc(Triple(o[0]), Triples(o[1..][..i - 1]), Triple(o[i]));
    }
  }

  /** A unit's text: the soft break if it does not fit, and the unit. */
  lemma PutOne(u: Token, pos: nat)
    requires !u.Soft?
    ensures Put(PlaceOne(u, pos), pos) ==
            ((if pos + Width(u) > LINEBREAK_LEN then SOFT_BREAK else "") + Render(u),
             if pos + Width(u) > LINEBREAK_LEN then Width(u) else pos + Width(u))
  {
    RenderCons(u, []);
    RenderCons(Soft, [u]);
    assert [u] + [] == [u] && [Soft] + [u] == [Soft, u];
    assert Render(u) + "" == Render(u) && "" + Render(u) == Render(u);
    OneColumn(u, pos);
  }

  lemma RenderCons(tok: Token, toks: seq<Token>)
    ensures RenderAll([tok] + toks) == Render(tok) + RenderAll(toks)
  {
    assert ([tok] + toks)[1..] == toks;
  }

  /** Appends one printable character, after a soft break if the line is full. */
  method AppendPrintableC(enc: GString, ch: char, linePos: nat) returns (linePos': nat)
    modifies enc
    ensures enc.str == old(enc.str) + Put(PlaceOne(Plain(ch), linePos), linePos).0
    ensures linePos' == Put(PlaceOne(Plain(ch), linePos), linePos).1
  {
    linePos' := linePos;
    PutOne(Plain(ch), linePos);
    hide Put, PlaceOne;
    if linePos' + 1 > LINEBREAK_LEN {
      enc.Append("=\r\n");
      linePos' := 0;
    }
    enc.AppendC(ch);
    linePos' := linePos' + 1;
    Assoc(old(enc.str), if linePos + 1 > LINEBREAK_LEN then SOFT_BREAK else "", [ch]);
  }

  /** What the rest `w` of a segment prints as from column `pos`, and the column it ends in. */
  ghost function Printed(w: string, pos: nat): (string, nat) {
    Put(Place(Units(w), pos), pos)
  }

  lemma PutConcat(a: seq<Token>, b: seq<Token>, pos: nat)
    ensures var x := Put(a, pos);
            Put(a + b, pos) == (x.0 + Put(b, x.1).0, Put(b, x.1).1)
  {
    RenderConcat(a, b);
    FitsConcat(pos, a, b);
  }

  lemma PrintedStep(seg: string, i: nat, pos: nat)
    requires i < |seg| && WellFormed(seg[i..])
    ensures var n := Skip(seg[i]);
            i + n <= |seg| &&
            var one := Put(PlaceOne(UnitOf(seg[i..i + n]), pos), pos);
            var next := Printed(seg[i + n..], one.1);
            Printed(seg[i..], pos) == (one.0 + next.0, next.1)
  {
    NextChar(seg, i);
    var u, us := UnitOf(seg[i..i + Skip(seg[i])]), Units(seg[i + Skip(seg[i])..]);
    hide Units, WellFormed, UnitOf;
    var one := PlaceOne(u, pos);
    assert ([u] + us)[1..] == us;
    PutConcat(one, Place(us, ColumnAfter(pos, one)), pos);
  }

  /** With `done` printed up to column `pos`, the rest of the segment from `i` on completes `all`. */
  ghost predicate Pending(seg: string, i: nat, pos: nat, done: string, all: (string, nat)) {
    i <= |seg| && WellFormed(seg[i..]) &&
    done + Printed(seg[i..], pos).0 == all.0 && Printed(seg[i..], pos).1 == all.1
  }

  lemma PendingStep(seg: string, i: nat, pos: nat, done: string, all: (string, nat))
      returns (one: (string, nat))
    requires Pending(seg, i, pos, done, all) && i < |seg|
    ensures i + Skip(seg[i]) <= |seg|
    ensures one == Put(PlaceOne(UnitOf(seg[i..i + Skip(seg[i])]), pos), pos)
    ensures Pending(seg, i + Skip(seg[i]), one.1, done + one.0, all)
  {
    NextChar(seg, i);
    PrintedStep(seg, i, pos);
    one := Put(PlaceOne(UnitOf(seg[i..i + Skip(seg[i])]), pos), pos);
    hide WellFormed, Printed, Put;
    Assoc(done, one.0, Printed(seg[i + Skip(seg[i])..], one.1).0);
  }

  lemma PendingEnds(seg: string, i: nat, pos: nat, done: string, all: (string, nat))
    requires Pending(seg, i, pos, done, all) && i >= |seg|
    ensures all == (done, pos)
  {
    assert seg[i..] == "" && Printed("", pos) == ("", pos);
    assert done + "" == done;
  }

  lemma PendingStarts(seg: string, pos: nat)
    requires WellFormed(seg)
    ensures Pending(seg, 0, pos, "", Printed(seg, pos))
  {
    assert seg[0..] == seg;
    assert "" + Printed(seg, pos).0 == Printed(seg, pos).0;
  }

  /** Appends the units of a segment one by one, from the column it starts in. */
  method AppendUnits(enc: GString, seg: string, linePos: nat) returns (linePos': nat)
    requires WellFormed(seg)
    modifies enc
    ensures enc.str == old(enc.str) + Printed(seg, linePos).0 && linePos' == Printed(seg, linePos).1
  {
    linePos' := linePos;
    ghost var done, all := "", Printed(seg, linePos);
    PendingStarts(seg, linePos);
    hide Pending, WellFormed, Printed, PlaceOne, Put;
    var i := 0;
    while i < |seg|
      invariant Pending(seg, i, linePos', done, all)
      invariant enc.str == old(enc.str) + done
      decreases |seg| - i
    {
      ghost var one := PendingStep(seg, i, linePos', done, all);
      Assoc(old(enc.str), done, one.0);
      done := done + one.0;
      if seg[i] != '\t' && (seg[i] < ' ' || seg[i] == '=') {
        assert seg[i..i + 1] == [seg[i]];
        linePos' := AppendToHex(enc, [seg[i]], linePos');
        i := i + 1;
      } else if seg[i] > '~' {
        var next := i + Skip(seg[i]);
        linePos' := AppendToHex(enc, seg[i..next], linePos');
        i := next;
      } else {
        linePos' := AppendPrintableC(enc, seg[i], linePos');
        i := i + 1;
      }
    }
    PendingEnds(seg, i, linePos', done, all);
  }

  /** What a whole segment prints as from column `pos`. */
  ghost function Segment(seg: string, pos: nat): (string, nat) {
    Put(PlaceWord(Units(seg), pos), pos)
  }

  /** Appends one segment: on a fresh line if it would not fit on this one, then its units. */
  method AppendSegment(enc: GString, seg: string, linePos: nat) returns (linePos': nat)
    requires WellFormed(seg)
    modifies enc
    ensures enc.str == old(enc.str) + Segment(seg, linePos).0 && linePos' == Segment(seg, linePos).1
  {
    linePos' := linePos;
    var encodeLen := EncodeStrlen(seg);
    SegmentText(seg, linePos);
    hide WellFormed, Printed, Segment;
    ghost var brk := if linePos + encodeLen > LINEBREAK_LEN && linePos > 1 then SOFT_BREAK else "";
    if linePos' + encodeLen > LINEBREAK_LEN && linePos' > 1 {
      enc.Append("=\r\n");
      linePos' := 0;
    }
    Assoc(old(enc.str), brk, Printed(seg, linePos').0);
    assert enc.str == old(enc.str) + brk;
    linePos' := AppendUnits(enc, seg, linePos');
  }

  lemma SegmentText(seg: string, pos: nat)
    ensures var moves := pos + WidthAll(Units(seg)) > LINEBREAK_LEN && pos > 1;
            var units := Printed(seg, if moves then 0 else pos);
            Segment(seg, pos) == ((if moves then SOFT_BREAK else "") + units.0, units.1)
  {
    var us := Units(seg);
    PutConcat([Soft], Place(us, 0), pos);
    assert RenderAll([Soft]) == SOFT_BREAK && ColumnAfter(pos, [Soft]) == 0;
    assert "" + Printed(seg, pos).0 == Printed(seg, pos).0;
  }

  // ----- the text still to be printed -----

  /** `str[stPos..pos]` is the segment being scanned and `todo` the pieces still to print. */
  ghost predicate Scanning(str: string, stPos: nat, pos: nat, todo: seq<Piece>) {
    stPos <= pos <= |str| && NoNewline(str[stPos..pos]) && WellFormed(str[stPos..]) &&
    todo == Pieces(str[stPos..pos], str[pos..]) && GoodPieces(todo)
  }

  lemma AtBlank(str: string, stPos: nat, pos: nat, todo: seq<Piece>) returns (todo': seq<Piece>)
    requires Scanning(str, stPos, pos, todo) && pos < |str| && IsBlank(str[pos])
    ensures todo == [Word(str[stPos..pos])] + todo' && Scanning(str, pos, pos + 1, todo')
  {
    var seg, rest := str[stPos..pos], str[pos..];
    assert WellFormed(rest) by {
      assert seg + rest == str[stPos..];
      WellFormedSplit(seg, rest);
    }
    todo' := Pieces([rest[0]], rest[1..]);
    PiecesAtBlank(seg, rest);
    GoodCons(Word(seg), todo');
    hide Pieces, WellFormed, GoodPieces;
    assert rest[1..] == str[pos + 1..] && [rest[0]] == str[pos..pos + 1];
  }

  lemma AtNewline(str: string, stPos: nat, pos: nat, todo: seq<Piece>) returns (todo': seq<Piece>)
    requires Scanning(str, stPos, pos, todo) && pos < |str| && (str[pos] == '\r' || str[pos] == '\n')
    ensures todo == [Word(str[stPos..pos])] + ([Newline] + todo')
    ensures var next := pos + NewlineLength(str[pos..]); Scanning(str, next, next, todo')
  {
    hide WellFormed, GoodPieces, Pieces, NewlineLength;
    var seg, rest := str[stPos..pos], str[pos..];
    SliceStep(str, stPos, pos);
    WellFormedSplit(seg, rest);
    PiecesAtNewline(seg, rest);
    todo' := Pieces("", rest[NewlineLength(rest)..]);
    GoodCons(Word(seg), [Newline] + todo');
    GoodCons(Newline, todo');
    PastNewline(rest);
    ScanRestarts(str, pos + NewlineLength(rest), rest[NewlineLength(rest)..]);
  }

  lemma PiecesAtNewline(seg: string, rest: string)
    requires rest != "" && (rest[0] == '\r' || rest[0] == '\n')
    ensures Pieces(seg, rest) == [Word(seg)] + ([Newline] + Pieces("", rest[NewlineLength(rest)..]))
  {
  }

  lemma ScanRestarts(str: string, next: nat, rest: string)
    requires next <= |str| && rest == str[next..] && WellFormed(rest) && GoodPieces(Pieces("", rest))
    ensures Scanning(str, next, next, Pieces("", rest))
  {
    assert str[next..next] == "";
  }

  lemma NewlineLengthAt(str: string, pos: nat)
    requires pos < |str| && (str[pos] == '\r' || str[pos] == '\n')
    ensures NewlineLength(str[pos..]) == if str[pos] == '\r' && At(str, pos + 1) == '\n' then 2 else 1
  {
  }

  /** `t` is printed up to column `linePos`, exactly counted and within the limit on every line,
      and printing the pieces left makes it `all`. */
  ghost predicate Progress(str: string, stPos: nat, pos: nat, todo: seq<Piece>,
                           t: string, linePos: nat, all: string) {
    Scanning(str, stPos, pos, todo) && Tracks(t, linePos) && t + LaidOut(todo, linePos) == all
  }

  ghost function LaidOut(ps: seq<Piece>, pos: nat): string {
    RenderAll(Layout(ps, pos))
  }

  /** Printing one piece keeps the counter exact and leaves the rest of the text to print. */
  lemma PrintPiece(t: string, p: Piece, ps: seq<Piece>, pos: nat, all: string)
    requires GoodPieces([p] + ps) && Tracks(t, pos) && t + LaidOut([p] + ps, pos) == all
    ensures GoodPieces(ps) && GoodPiece(p)
    ensures var put := Put(PlacePiece(p, pos), pos);
            Tracks(t + put.0, put.1) && (t + put.0) + LaidOut(ps, put.1) == all
  {
    GoodCons(p, ps);
    LayoutCons(p, ps, pos);
    var toks := PlacePiece(p, pos);
    PiecePlaced(p, pos);
    PieceFits(p, pos);
    TracksAll(t, pos, toks);
    hide Layout, PlacePiece, Tracks, GoodPieces, GoodPiece;
    RenderConcat(toks, Layout(ps, ColumnAfter(pos, toks)));
    Assoc(t, RenderAll(toks), LaidOut(ps, ColumnAfter(pos, toks)));
  }

  lemma ProgressStarts(str: string)
    requires WellFormed(str)
    ensures Progress(str, 0, 0, Pieces("", str), "", 0, EncodedText(str))
  {
    assert str[0..] == str && str[0..0] == "" && "" + str == str;
    PiecesAreGood("", str);
    assert Lines("") == [""];
    assert "" + EncodedText(str) == EncodedText(str);
  }

  lemma ProgressBlank(str: string, stPos: nat, pos: nat, todo: seq<Piece>, t: string, linePos: nat, all: string)
      returns (todo': seq<Piece>)
    requires Progress(str, stPos, pos, todo, t, linePos, all) && pos < |str|
    requires str[pos] == ' ' || str[pos] == '\t'
    ensures stPos <= pos && WellFormed(str[stPos..pos])
    ensures var put := Segment(str[stPos..pos], linePos);
            Progress(str, pos, pos + 1, todo', t + put.0, put.1, all)
  {
    todo' := AtBlank(str, stPos, pos, todo);
    PrintPiece(t, Word(str[stPos..pos]), todo', linePos, all);
  }

  lemma ProgressNewline(str: string, stPos: nat, pos: nat, todo: seq<Piece>, t: string, linePos: nat, all: string)
      returns (todo': seq<Piece>)
    requires Progress(str, stPos, pos, todo, t, linePos, all)
    requires pos < |str| && (str[pos] == '\r' || str[pos] == '\n')
    ensures stPos <= pos && WellFormed(str[stPos..pos])
    ensures var put := Segment(str[stPos..pos], linePos);
            var nl := Put(PlaceNewline(put.1), put.1);
            var next := pos + if str[pos] == '\r' && At(str, pos + 1) == '\n' then 2 else 1;
            Progress(str, next, next, todo', (t + put.0) + nl.0, nl.1, all)
  {
    NewlineLengthAt(str, pos);
    todo' := AtNewline(str, stPos, pos, todo);
    hide Scanning, NewlineLength;
    PrintPiece(t, Word(str[stPos..pos]), [Newline] + todo', linePos, all);
    var put := Segment(str[stPos..pos], linePos);
    PrintPiece(t + put.0, Newline, todo', put.1, all);
  }

  lemma ProgressOther(str: string, stPos: nat, pos: nat, todo: seq<Piece>, t: string, linePos: nat, all: string)
    requires Progress(str, stPos, pos, todo, t, linePos, all) && pos < |str|
    requires str[pos] != ' ' && str[pos] != '\t' && str[pos] != '\r' && str[pos] != '\n'
    ensures Progress(str, stPos, pos + 1, todo, t, linePos, all)
  {
    hide Tracks, LaidOut;
    AtOther(str, stPos, pos, todo);
  }

  lemma AtOther(str: string, stPos: nat, pos: nat, todo: seq<Piece>)
    requires Scanning(str, stPos, pos, todo) && pos < |str|
    requires !IsBlank(str[pos]) && str[pos] != '\r' && str[pos] != '\n'
    ensures Scanning(str, stPos, pos + 1, todo)
  {
    PiecesAtOther(str[stPos..pos], str[pos..]);
    hide Pieces, WellFormed, GoodPieces;
    SliceStep(str, stPos, pos);
  }

  lemma SliceStep(str: string, stPos: nat, pos: nat)
    requires stPos <= pos < |str|
    ensures str[pos..][0] == str[pos] && str[pos..][1..] == str[pos + 1..]
    ensures str[stPos..pos] + [str[pos]] == str[stPos..pos + 1]
    ensures str[stPos..pos] + str[pos..] == str[stPos..]
  {
  }

  lemma ProgressEnds(str: string, stPos: nat, pos: nat, todo: seq<Piece>, t: string, linePos: nat, all: string)
    requires Progress(str, stPos, pos, todo, t, linePos, all) && pos >= |str|
    ensures stPos <= pos == |str| && WellFormed(str[stPos..pos])
    ensures t + Segment(str[stPos..pos], linePos).0 == all
  {
    assert str[|str|..] == "";
    assert todo == [Word(str[stPos..pos])] + [];
    PrintPiece(t, Word(str[stPos..pos]), [], linePos, all);
    var put := Segment(str[stPos..pos], linePos);
    assert LaidOut([], put.1) == "" && (t + put.0) + "" == t + put.0;
  }

  /** Appends a newline: the escaped pair, a soft break and the continuation space. */
  method AppendNewline(enc: GString, linePos: nat) returns (linePos': nat)
    modifies enc
    ensures enc.str == old(enc.str) + Put(PlaceNewline(linePos), linePos).0
    ensures linePos' == Put(PlaceNewline(linePos), linePos).1
  {
    NewlineText(linePos);
    hide Put, PlaceOne, PlaceNewline;
    linePos' := AppendToHex(enc, "\r\n", linePos);
    Assoc(old(enc.str), Put(PlaceOne(NEWLINE_UNIT, linePos), linePos).0, "=\r\n ");
    enc.Append("=\r\n ");
    linePos' := 1;
  }

  lemma ContinueText(pos: nat)
    ensures Put(CONTINUE, pos) == ("=\r\n ", 1)
  {
    assert CONTINUE[1..] == [Plain(' ')] && [Plain(' ')][1..] == [];
    assert RenderAll([Plain(' ')]) == " " + "" == " ";
    assert SOFT_BREAK + " " == "=\r\n ";
    assert ColumnAfter(0, [Plain(' ')]) == 1;
  }

  lemma NewlineText(pos: nat)
    ensures Put(PlaceNewline(pos), pos) == (Put(PlaceOne(NEWLINE_UNIT, pos), pos).0 + "=\r\n ", 1)
  {
    var one := PlaceOne(NEWLINE_UNIT, pos);
    assert [NEWLINE_UNIT][1..] == [];
    assert Place([NEWLINE_UNIT], pos) == one + [] == one;
    PutConcat(one, CONTINUE, pos);
    ContinueText(ColumnAfter(pos, one));
  }

  /** One turn of the encoder's loop: a blank or a newline ends the segment that began at `stPos`. */
  method EncodeStep(enc: GString, str: string, stPos: nat, pos: nat, linePos: nat,
                    ghost todo: seq<Piece>, ghost all: string)
      returns (stPos': nat, pos': nat, linePos': nat, ghost todo': seq<Piece>)
    requires Progress(str, stPos, pos, todo, enc.str, linePos, all) && pos < |str|
    modifies enc
    ensures Progress(str, stPos', pos', todo', enc.str, linePos', all) && pos' > pos
  {
    stPos', linePos', todo' := stPos, linePos, todo;
    if str[pos] == ' ' || str[pos] == '\t' {
      todo' := ProgressBlank(str, stPos, pos, todo, enc.str, linePos, all);
      hide *;
      linePos' := AppendSegment(enc, str[stPos..pos], linePos);
      stPos' := pos;
      pos' := pos + 1;
    } else if str[pos] == '\r' || str[pos] == '\n' {
      todo' := ProgressNewline(str, stPos, pos, todo, enc.str, linePos, all);
      hide *;
      linePos' := AppendSegment(enc, str[stPos..pos], linePos);
      linePos' := AppendNewline(enc, linePos');
      if str[pos] == '\r' && At(str, pos + 1) == '\n' {
        pos' := pos + 2;
      } else {
        pos' := pos + 1;
      }
      stPos' := pos';
    } else {
      ProgressOther(str, stPos, pos, todo, enc.str, linePos, all);
      pos' := pos + 1;
    }
  }

  /** Encodes a value. At the head of every round `linePos` is the exact column of the buffer and
      every line so far is within the limit. */
  method Encode(str: string) returns (r: string)
    requires WellFormed(str)
    ensures r == EncodedText(str)
  {
    var enc := new GString("");
    var stPos, pos, linePos := 0, 0, 0;
    ghost var todo, all := Pieces("", str), EncodedText(str);
    ProgressStarts(str);
    hide *;
    while pos < |str|
      invariant 0 <= stPos && 0 <= pos && 0 <= linePos
      invariant Progress(str, stPos, pos, todo, enc.str, linePos, all)
    {
      stPos, pos, linePos, todo := EncodeStep(enc, str, stPos, pos, linePos, todo, all);
    }
    ProgressEnds(str, stPos, pos, todo, enc.str, linePos, all);
    linePos := AppendSegment(enc, str[stPos..pos], linePos);
    r := enc.str;
  }
}

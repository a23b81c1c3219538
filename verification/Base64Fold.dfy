/** The folded base64 property: pieces of 74 octets, each behind a CRLF and a blank. */
module Base64Fold {
  import opened Text
  import opened QuotedPrintable
  import opened PropertyStream

  const FLINE_LEN: nat := LINEBREAK_LEN - 1  // room for the blank

  /** The pieces the encoded text is cut into. */
  function Chunks(enc: string): seq<string>
    decreases |enc|
  {
    if enc == "" then []
    else if |enc| <= FLINE_LEN then [enc]
    else [enc[..FLINE_LEN]] + Chunks(enc[FLINE_LEN..])
  }

  function FoldedChunks(cs: seq<string>): string {
    if cs == [] then "" else FOLD + cs[0] + FoldedChunks(cs[1..])
  }

  function Folded(enc: string): string {
    FoldedChunks(Chunks(enc))
  }

  /** What the property is written as; a missing value stops it right after the ':'. */
  function Base64Property(name: string, param: Option<string>, enc: Option<string>, folding: bool): string {
    name + ParamText(param) + ParamText(Some("ENCODING=BASE64")) + ":" +
    match enc
    case None => ""
    case Some(e) => (if folding then Folded(e) + CRLF else e) + CRLF
  }

  /** Appends a base64 property; `enc` is the encoded value. */
  method AppendBase64(out: GString, name: Option<string>, param: Option<string>, enc: Option<string>, folding: bool)
    modifies out
    ensures out.str == old(out.str) +
                       if name.None? then "" else Base64Property(name.value, param, enc, folding)
  {
    if name.None? {
      return;
    }
    ghost var head := name.value + ParamText(param) + ParamText(Some("ENCODING=BASE64")) + ":";
    AppendHead(out, name.value, param);
    if enc.None? {
      assert head + "" == head;
      return;
    }
    ghost var start := out.str;
    if !folding {
      out.Append(enc.value);
    } else {
      AppendFolded(out, enc.value);
      out.Append("\r\n");
    }
    out.Append("\r\n");
    assert out.str == start + ((if folding then Folded(enc.value) + CRLF else enc.value) + CRLF);
    Assoc(old(out.str), head, (if folding then Folded(enc.value) + CRLF else enc.value) + CRLF);
  }

  method AppendHead(out: GString, name: string, param: Option<string>)
    modifies out
    ensures out.str == old(out.str) + (name + ParamText(param) + ParamText(Some("ENCODING=BASE64")) + ":")
  {
    out.Append(name);
    AppendParam(out, param);
    AppendParam(out, Some("ENCODING=BASE64"));
    out.Append(":");
  }

  lemma FoldStep(r: string)
    requires r != ""
    ensures var piece := if |r| < FLINE_LEN then r else r[..FLINE_LEN];
            var rest := if |r| < FLINE_LEN then "" else r[FLINE_LEN..];
            Folded(r) == (FOLD + piece) + Folded(rest)
  {
    if |r| <= FLINE_LEN {
      ChunkAlone(r);
      if |r| == FLINE_LEN {
        assert r[..FLINE_LEN] == r && r[FLINE_LEN..] == "";
      }
    } else {
      assert Chunks(r)[1..] == Chunks(r[FLINE_LEN..]);
    }
  }

  lemma ChunkAlone(r: string)
    requires 0 < |r| <= FLINE_LEN
    ensures Folded(r) == (FOLD + r) + Folded("")
  {
    var one := [r];
    assert Chunks(r) == one && one[1..] == [];
    assert FoldedChunks(one[1..]) == "" == Folded("");
  }

  /** The fold loop. */
  method AppendFolded(out: GString, enc: string)
    modifies out
    ensures out.str == old(out.str) + Folded(enc)
  {
    var i := 0;
    ghost var start, done, rest := out.str, "", enc;
    assert "" + Folded(enc) == Folded(enc) && start + "" == start;
    FoldedNothing();
    hide Folded;
    while i * FLINE_LEN < |enc|
      invariant 0 <= i && out.str == start + done
      invariant rest == (if i * FLINE_LEN < |enc| then enc[i * FLINE_LEN..] else "")
      invariant done + Folded(rest) == Folded(enc)
      decreases |rest|
    {
      var at := i * FLINE_LEN;
      FoldStep(rest);
      out.Append("\r\n ");
      ghost var piece, after;
      if at + FLINE_LEN > |enc| {
        out.Append(enc[at..]);
        piece, after := enc[at..], "";
      } else {
        out.Append(enc[at..at + FLINE_LEN]);
        piece, after := enc[at..at + FLINE_LEN], enc[at + FLINE_LEN..];
        assert rest[..FLINE_LEN] == piece && rest[FLINE_LEN..] == after;
      }
      Assoc(start + done, FOLD, piece);
      Assoc(start, done, FOLD + piece);
      Assoc(done, FOLD + piece, Folded(after));
      done, rest := done + (FOLD + piece), after;
      i := i + 1;
    }
    assert done + "" == done;
  }

  lemma FoldedNothing()
    ensures Folded("") == ""
  {
  }

  // ----- unfolding -----

  /** The text with each CRLF and the blank after it taken out. */
  function Unfolded(t: string): string {
    if t == "" then ""
    else if FOLD <= t then Unfolded(t[3..])
    else [t[0]] + Unfolded(t[1..])
  }

  lemma {:induction false} UnfoldChunk(c: string, x: string)
    requires Lacks(c, '\r')
    ensures Unfolded(c + x) == c + Unfolded(x)
  {
    if c == "" {
      assert c + x == x;
    } else {
      var t := c + x;
      assert t[0] == c[0] && t[1..] == c[1..] + x;
      assert t[0] != FOLD[0];
      UnfoldChunk(c[1..], x);
      Assoc([c[0]], c[1..], Unfolded(x));
      assert [c[0]] + c[1..] == c;
    }
  }

  /** Unfolding gives back the whole encoded text. */
  lemma {:induction false} UnfoldsBack(enc: string)
    requires Lacks(enc, '\r')
    ensures Unfolded(Folded(enc)) == enc
    decreases |enc|
  {
    if enc != "" {
      var cs := Chunks(enc);
      var c, rest := cs[0], if |enc| <= FLINE_LEN then "" else enc[FLINE_LEN..];
      assert c + rest == enc;
      assert cs[1..] == Chunks(rest);
      UnfoldsBack(rest);
      UnfoldStep(c, Folded(rest));
      assert Folded(enc) == FOLD + c + Folded(rest);
    }
  }

  lemma UnfoldStep(c: string, x: string)
    requires Lacks(c, '\r')
    ensures Unfolded(FOLD + c + x) == c + Unfolded(x)
  {
    Assoc(FOLD, c, x);
    var t := FOLD + (c + x);
    assert t[..3] == FOLD && t[3..] == c + x;
    assert FOLD <= t;
    UnfoldChunk(c, x);
  }

  /** The physical lines of the folded value: each chunk behind its blank. */
  function ChunkLines(cs: seq<string>): (r: seq<string>)
    ensures |r| == |cs|
  {
    if cs == [] then [] else [" " + cs[0]] + ChunkLines(cs[1..])
  }

  lemma {:induction false} LinesOfFolded(cs: seq<string>)
    requires forall i :: 0 <= i < |cs| ==> Lacks(cs[i], '\r')
    ensures Lines(FoldedChunks(cs)) == [""] + ChunkLines(cs)
  {
    if cs != [] {
      LinesOfFolded(cs[1..]);
      var x := FoldedChunks(cs[1..]);
      LinesStep(cs[0], x, ChunkLines(cs[1..]));
    } else {
      assert [""] + [] == [""];
    }
  }

  lemma LinesStep(c: string, x: string, ls: seq<string>)
    requires Lacks(c, '\r') && Lines(x) == [""] + ls
    ensures Lines(FOLD + c + x) == [""] + ([" " + c] + ls)
  {
    assert FOLD + c + x == CRLF + ((" " + c) + x);
    var t := CRLF + ((" " + c) + x);
    assert CrlfAt(t, 0) && t[2..] == (" " + c) + x;
    forall i ensures !CrlfAt(" " + c, i) {
      assert i > 0 && i < |" " + c| ==> (" " + c)[i] == c[i - 1];
    }
    LinesOfPlain(" " + c);
    LinesOfConcat(" " + c, x);
    assert Glue([" " + c], [""] + ls) == [" " + c] + ls by {
      assert (" " + c) + "" == " " + c;
      assert ([""] + ls)[1..] == ls;
    }
  }

  /** The chunks are the text in order; there are ceil(n/74) of them, all but the last full. */
  lemma {:induction false} ChunkShapes(enc: string)
    ensures |Chunks(enc)| == (|enc| + 73) / 74
    ensures forall i :: 0 <= i < |Chunks(enc)| ==> 0 < |Chunks(enc)[i]| <= 74
    ensures forall i :: 0 <= i < |Chunks(enc)| - 1 ==> |Chunks(enc)[i]| == 74
    ensures Lacks(enc, '\r') ==> forall i :: 0 <= i < |Chunks(enc)| ==> Lacks(Chunks(enc)[i], '\r')
    decreases |enc|
  {
    if |enc| > FLINE_LEN {
      ChunkShapes(enc[FLINE_LEN..]);
    }
  }

  lemma {:induction false} ChunkLineAt(cs: seq<string>, i: nat)
    requires i < |cs|
    ensures ChunkLines(cs)[i] == " " + cs[i]
  {
    if i > 0 {
      ChunkLineAt(cs[1..], i - 1);
    }
  }

  /** The folded value takes ceil(n/74) lines of at most 75 octets, the blank included; only the last
      may be shorter. */
  lemma FoldedLines(enc: string)
    requires Lacks(enc, '\r')
    ensures var ls := Lines(Folded(enc));
            |ls| == 1 + (|enc| + 73) / 74 && ls[0] == "" &&
            (forall i :: 1 <= i < |ls| ==> 1 < |ls[i]| <= 75) &&
            (forall i :: 1 <= i < |ls| - 1 ==> |ls[i]| == 75)
  {
    ChunkShapes(enc);
    var cs := Chunks(enc);
    LinesOfFolded(cs);
    var ls := [""] + ChunkLines(cs);
    forall i | 1 <= i < |ls| ensures |ls[i]| == 1 + |cs[i - 1]| {
      ChunkLineAt(cs, i - 1);
    }
  }

  lemma Base64Label()
    ensures ParamText(Some("ENCODING=BASE64")) == ";ENCODING=BASE64"
  {
    var n := StrippedIs("ENCODING=BASE64");
    hide Stripped;
    assert "ENCODING=BASE64"[0] == 'E';
    assert n == 0;
    assert "ENCODING=BASE64"[0..] == "ENCODING=BASE64";
    assert ";" + "ENCODING=BASE64" == ";ENCODING=BASE64";
  }

  /** What stands around the encoded text: without a value nothing, without folding one CRLF, and behind a
      folded text an empty line. */
  lemma Base64Written(name: string, param: Option<string>, e: string, head: string)
    requires head == name + ParamText(param) + ";ENCODING=BASE64" + ":"
    ensures Base64Property(name, param, None, true) == Base64Property(name, param, None, false) == head
    ensures Base64Property(name, param, Some(e), false) == head + (e + "\r\n")
    ensures Base64Property(name, param, Some(e), true) == head + ((Folded(e) + "\r\n") + "\r\n")
  {
    Base64Label();
    hide ParamText, Folded;
    assert head + "" == head;
  }
}

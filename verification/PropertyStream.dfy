/**
 vCard 2.1 property lines: the writer that encodes a value only when it must, and a reader that
 undoes it over a whole stream of properties.
 */
module PropertyStream {
  import opened Text
  import opened Utf8
  import opened QuotedPrintable
  import opened QpLayout
  import opened QpEncoder

  const QP_LABEL: string := "ENCODING=QUOTED-PRINTABLE"
  const CHARSET_LABEL: string := "CHARSET=utf-8"

  // ----- what the writer appends -----

  /** A parameter list without its leading ';' characters; none at all is the empty list. */
  function Stripped(param: string): string {
    if param != "" && param[0] == ';' then Stripped(param[1..]) else param
  }

  function ParamText(param: Option<string>): string {
    if param.None? || Stripped(param.value) == "" then "" else ";" + Stripped(param.value)
  }

  predicate IsPrintable(s: string) {
    forall i :: 0 <= i < |s| ==> ' ' <= s[i] <= '~'
  }

  predicate NeedsEncoding(value: Option<string>) {
    value.Some? && !IsPrintable(value.value)
  }

  datatype Property = Property(name: string, param: Option<string>, value: Option<string>)

  function HeaderText(p: Property): string {
    p.name + ParamText(p.param) +
    if NeedsEncoding(p.value) then ParamText(Some(QP_LABEL)) + ParamText(Some(CHARSET_LABEL)) else ""
  }

  function ValueText(value: Option<string>): string {
    if value.None? then ""
    else if NeedsEncoding(value) then EncodedText(value.value)
    else value.value
  }

  function PropertyText(p: Property): string {
    HeaderText(p) + ":" + ValueText(p.value) + CRLF
  }

  function StreamText(ps: seq<Property>): string {
    if ps == [] then "" else PropertyText(ps[0]) + StreamText(ps[1..])
  }

  /** Appends a parameter list, leading ';' characters dropped, unless nothing is left of it. */
  method AppendParam(out: GString, param: Option<string>)
    modifies out
    ensures out.str == old(out.str) + ParamText(param)
  {
    if param.None? {
      return;
    }
    var text := param.value;
    var pos := 0;
    assert text[0..] == text;
    while pos < |text|
      invariant 0 <= pos <= |text| && Stripped(text[pos..]) == Stripped(text)
      invariant out.str == old(out.str)
    {
      if text[pos] != ';' {
        break;
      }
      assert text[pos..][1..] == text[pos + 1..];
      pos := pos + 1;
    }
    assert Stripped(text) == text[pos..];
    if pos < |text| {
      out.Append(";" + text[pos..]);
    }
  }

  /** Appends one property line. */
  method AppendProperty(out: GString, name: Option<string>, param: Option<string>, value: Option<string>)
    requires value.Some? ==> WellFormed(value.value)
    modifies out
    ensures out.str == old(out.str) +
                       if name.None? then "" else PropertyText(Property(name.value, param, value))
  {
    if name.None? {
      return;
    }
    ghost var p := Property(name.value, param, value);
    var property := new GString(name.value);
    AppendParam(property, param);
    var needed := EncodeCheck(value);
    assert needed == NeedsEncoding(value);
    if needed {
      AppendParam(property, Some(QP_LABEL));
      AppendParam(property, Some(CHARSET_LABEL));
      Assoc(name.value + ParamText(param), ParamText(Some(QP_LABEL)), ParamText(Some(CHARSET_LABEL)));
      assert property.str == HeaderText(p);
      property.Append(":");
      var enc := Encode(value.value);
      property.Append(enc);
    } else {
      assert property.str == HeaderText(p);
      property.Append(":");
      if value.Some? {
        property.Append(value.value);
      }
    }
    assert property.str == HeaderText(p) + ":" + ValueText(value);
    out.Append(property.str + "\r\n");
  }

  // ----- the reader -----

  /** Where `c` first occurs in `s`. */
  function IndexOf(s: string, c: char): (r: Option<nat>)
    ensures r.Some? ==> r.value < |s|
  {
    if s == "" then None
    else if s[0] == c then Some(0)
    else match IndexOf(s[1..], c)
         case None => None
         case Some(n) => Some(n + 1)
  }

  function Split(s: string, c: char): (parts: seq<string>)
    ensures |parts| >= 1
  {
    if s == "" then [""]
    else if s[0] == c then [""] + Split(s[1..], c)
    else
      var rest := Split(s[1..], c);
      [[s[0]] + rest[0]] + rest[1..]
  }

  function Shifted(k: nat, r: Option<nat>): Option<nat> {
    match r
    case None => None
    case Some(n) => Some(k + n)
  }

  /** Where a value ends: at the first CRLF, a soft line break in encoded text not being one. */
  function ValueEnd(t: string, encoded: bool): (r: Option<nat>)
    ensures r.Some? ==> r.value + 2 <= |t|
  {
    if t == "" then None
    else if CrlfAt(t, 0) then Some(0)
    else if encoded && t[0] == '=' && CrlfAt(t, 1) then Shifted(3, ValueEnd(t[3..], encoded))
    else Shifted(1, ValueEnd(t[1..], encoded))
  }

  datatype Entry = Entry(name: string, params: seq<string>, value: string)

  /** Reads a value under its name and parameters, and the text that follows it. */
  function ReadBody(name: string, params: seq<string>, body: string): (r: Option<(Entry, string)>)
    ensures r.Some? ==> |r.value.1| < |body|
  {
    var encoded := QP_LABEL in params;
    match ValueEnd(body, encoded)
    case None => None
    case Some(end) =>
      match (if encoded then Decode(body[..end]) else Some(body[..end]))
      case None => None
      case Some(value) => Some((Entry(name, params, value), body[end + 2..]))
  }

  /** Reads one property: name, parameters and decoded value, and the text that follows it. */
  function ReadOne(t: string): (r: Option<(Entry, string)>)
    ensures r.Some? ==> |r.value.1| < |t|
  {
    match IndexOf(t, ':')
    case None => None
    case Some(colon) =>
      var parts := Split(t[..colon], ';');
      ReadBody(parts[0], parts[1..], t[colon + 1..])
  }

  function ReadStream(t: string): Option<seq<Entry>>
    decreases |t|
  {
    if t == "" then Some([])
    else match ReadOne(t)
         case None => None
         case Some((e, rest)) =>
           match ReadStream(rest)
           case None => None
           case Some(es) => Some([e] + es)
  }

  // ----- reading back what was written -----

  predicate Lacks(s: string, c: char) {
    forall i :: 0 <= i < |s| ==> s[i] != c
  }

  /** The parameters a property is given. */
  function OwnParams(p: Property): seq<string> {
    if ParamText(p.param) == "" then [] else Split(Stripped(p.param.value), ';')
  }

  /** The parameters a property is written with, the encoding labels included. */
  function Params(p: Property): seq<string> {
    OwnParams(p) +
    (if NeedsEncoding(p.value) then [QP_LABEL, CHARSET_LABEL] else [])
  }

  /** A name without ':' or ';', parameters without ':', and a UTF-8 value. */
  predicate Proper(p: Property) {
    Lacks(p.name, ':') && Lacks(p.name, ';') &&
    (p.param.Some? ==> Lacks(p.param.value, ':')) &&
    (p.value.Some? ==> WellFormed(p.value.value))
  }

  /** A value printed as it is under parameters that claim it is encoded must not hold a '='. */
  predicate NotMisread(p: Property) {
    QP_LABEL in Params(p) && !NeedsEncoding(p.value) && p.value.Some? ==> Lacks(p.value.value, '=')
  }

  predicate Readable(p: Property) {
    Proper(p) && NotMisread(p)
  }

  function Expected(p: Property): Entry {
    Entry(p.name, Params(p), if p.value.None? then "" else NormalNewlines(p.value.value))
  }

  function ExpectedAll(ps: seq<Property>): seq<Entry> {
    if ps == [] then [] else [Expected(ps[0])] + ExpectedAll(ps[1..])
  }

  lemma {:induction false} IndexAfter(a: string, c: char, b: string)
    requires Lacks(a, c)
    ensures IndexOf(a + [c] + b, c) == Some(|a|)
  {
    if a == "" {
      assert (a + [c] + b)[0] == c;
    } else {
      assert (a + [c] + b)[1..] == a[1..] + [c] + b;
      assert (a + [c] + b)[0] == a[0];
      IndexAfter(a[1..], c, b);
    }
  }

  lemma {:induction false} SplitOfPlain(a: string, c: char)
    requires Lacks(a, c)
    ensures Split(a, c) == [a]
  {
    if a != "" {
      SplitOfPlain(a[1..], c);
      assert [a[0]] + a[1..] == a;
    }
  }

  lemma SplitCons(d: char, s: string, c: char)
    ensures var rest := Split(s, c);
            Split([d] + s, c) == if d == c then [""] + rest else [[d] + rest[0]] + rest[1..]
  {
    assert ([d] + s)[1..] == s;
  }

  lemma {:induction false} SplitConcat(a: string, c: char, b: string)
    ensures Split(a + ([c] + b), c) == Split(a, c) + Split(b, c)
  {
    var x := a + ([c] + b);
    if a == "" {
      assert x[0] == c && x[1..] == b;
    } else {
      assert x[0] == a[0] && x[1..] == a[1..] + ([c] + b);
      SplitConcat(a[1..], c, b);
      SplitCons(a[0], a[1..], c);
      SplitCons(a[0], x[1..], c);
      assert [a[0]] + a[1..] == a && [a[0]] + x[1..] == x;
      hide Split;
      var ra, rb := Split(a[1..], c), Split(b, c);
      if a[0] == c {
        Assoc([""], ra, rb);
      } else {
        assert (ra + rb)[0] == ra[0] && (ra + rb)[1..] == ra[1..] + rb;
        Assoc([[a[0]] + ra[0]], ra[1..], rb);
      }
    }
  }

  /** Exactly the leading ';' characters are dropped. */
  lemma {:induction false} StrippedIs(s: string) returns (n: nat)
    ensures n <= |s| && Stripped(s) == s[n..] && (forall i :: 0 <= i < n ==> s[i] == ';')
    ensures n < |s| ==> s[n] != ';'
  {
    n := 0;
    if s != "" && s[0] == ';' {
      var k := StrippedIs(s[1..]);
      n := k + 1;
      assert s[1..][k..] == s[n..];
    }
  }

  lemma {:induction false} StrippedLacks(s: string, c: char)
    requires Lacks(s, c)
    ensures Lacks(Stripped(s), c)
  {
    if s != "" && s[0] == ';' {
      StrippedLacks(s[1..], c);
    }
  }

  predicate IsLabel(s: string) {
    s != "" && Lacks(s, ';') && Lacks(s, ':')
  }

  lemma LabelsAre()
    ensures IsLabel(QP_LABEL) && IsLabel(CHARSET_LABEL)
  {
  }

  lemma LabelSplits(s: string)
    requires IsLabel(s)
    ensures Split(s, ';') == [s] && ParamText(Some(s)) == ";" + s
  {
    SplitOfPlain(s, ';');
  }

  /** The part of a header that does not depend on the value. */
  lemma OwnSplits(p: Property)
    requires Proper(p)
    ensures Split(p.name + ParamText(p.param), ';') == [p.name] + OwnParams(p)
    ensures Lacks(p.name + ParamText(p.param), ':')
  {
    SplitOfPlain(p.name, ';');
    if ParamText(p.param) != "" {
      SplitConcat(p.name, ';', Stripped(p.param.value));
      StrippedLacks(p.param.value, ':');
    } else {
      assert p.name + ParamText(p.param) == p.name;
    }
  }

  lemma AddLabel(a: string, parts: seq<string>, mark: string)
    requires IsLabel(mark) && Lacks(a, ':') && Split(a, ';') == parts
    ensures Split(a + ParamText(Some(mark)), ';') == parts + [mark]
    ensures Lacks(a + ParamText(Some(mark)), ':')
  {
    LabelSplits(mark);
    SplitConcat(a, ';', mark);
  }

  /** Splitting a header gives back the name and the parameters. */
  lemma HeaderSplits(p: Property)
    requires Proper(p)
    ensures Split(HeaderText(p), ';') == [p.name] + Params(p)
    ensures Lacks(HeaderText(p), ':')
  {
    var a := p.name + ParamText(p.param);
    var own := OwnParams(p);
    OwnSplits(p);
    LabelsAre();
    hide Split, Stripped, IsPrintable, ParamText, IsLabel, Lacks, Proper;
    if NeedsEncoding(p.value) {
      AddLabel(a, [p.name] + own, QP_LABEL);
      AddLabel(a + ParamText(Some(QP_LABEL)), [p.name] + own + [QP_LABEL], CHARSET_LABEL);
      Assoc(a, ParamText(Some(QP_LABEL)), ParamText(Some(CHARSET_LABEL)));
      Assoc([p.name], own, [QP_LABEL, CHARSET_LABEL]);
      Assoc([p.name] + own, [QP_LABEL], [CHARSET_LABEL]);
      assert [QP_LABEL] + [CHARSET_LABEL] == [QP_LABEL, CHARSET_LABEL];
    } else {
      assert HeaderText(p) == a + "" == a;
      assert own + [] == own;
    }
  }

  lemma {:induction false} PlainEnds(v: string, rest: string, encoded: bool)
    requires Lacks(v, '\r') && (encoded ==> Lacks(v, '='))
    ensures ValueEnd(v + (CRLF + rest), encoded) == Some(|v|)
  {
    var t := v + (CRLF + rest);
    if v == "" {
      assert CrlfAt(t, 0);
    } else {
      assert t[0] == v[0] && t[1..] == v[1..] + (CRLF + rest);
      PlainEnds(v[1..], rest, encoded);
    }
  }

  /** Inside a rendered unit there is neither a CRLF nor a soft break. */
  lemma {:induction false} EndAfterText(v: string, x: string)
    requires Lacks(v, '\r') && (v == "" || v[|v| - 1] != '=')
    ensures ValueEnd(v + x, true) == Shifted(|v|, ValueEnd(x, true))
  {
    if v == "" {
      assert v + x == x;
    } else {
      var t := v + x;
      assert t[0] == v[0] && t[1..] == v[1..] + x;
      assert |v| >= 2 ==> t[1] == v[1];
      EndAfterText(v[1..], x);
    }
  }

  /** The CRLF behind an encoded value is the first one that is not soft: no unit of it ends in '='. */
  lemma {:induction false} EncodedEnds(toks: seq<Token>, rest: string)
    requires AllValid(toks)
    ensures ValueEnd(RenderAll(toks) + (CRLF + rest), true) == Some(|RenderAll(toks)|)
  {
    if toks == [] {
      assert RenderAll(toks) + (CRLF + rest) == CRLF + rest;
      assert CrlfAt(CRLF + rest, 0);
    } else {
      EncodedEnds(toks[1..], rest);
      EndAfterToken(toks[0], RenderAll(toks[1..]) + (CRLF + rest));
      hide ValueEnd, Render;
      Assoc(Render(toks[0]), RenderAll(toks[1..]), CRLF + rest);
    }
  }

  lemma EndAfterToken(tok: Token, x: string)
    requires Valid(tok)
    ensures ValueEnd(Render(tok) + x, true) == Shifted(|Render(tok)|, ValueEnd(x, true))
  {
    if tok.Soft? {
      EndAfterSoft(x);
    } else {
      UnitShape(tok);
      EndAfterText(Render(tok), x);
    }
  }

  lemma EndAfterSoft(x: string)
    ensures ValueEnd(SOFT_BREAK + x, true) == Shifted(3, ValueEnd(x, true))
  {
    var t := SOFT_BREAK + x;
    assert t[0] == '=' && CrlfAt(t, 1) && !CrlfAt(t, 0) && t[3..] == x;
  }

  lemma {:induction false} DecodeOfPlain(v: string)
    requires Lacks(v, '=')
    ensures Decode(v) == Some(v)
  {
    if v != "" {
      DecodeOfPlain(v[1..]);
      assert [v[0]] + v[1..] == v;
    }
  }

  lemma {:induction false} NormalOfPrintable(v: string)
    requires IsPrintable(v)
    ensures NormalNewlines(v) == v
  {
    if v != "" {
      NormalOfPrintable(v[1..]);
      assert [v[0]] + v[1..] == v;
    }
  }

  /** The value of a property line, read from the text after the ':'. */
  lemma ValueReads(p: Property, rest: string)
    requires Readable(p)
    ensures var encoded := QP_LABEL in Params(p);
            var body := ValueText(p.value) + (CRLF + rest);
            ValueEnd(body, encoded) == Some(|ValueText(p.value)|) &&
            (if encoded then Decode(ValueText(p.value)) else Some(ValueText(p.value)))
              == Some(Expected(p).value)
  {
    var v := ValueText(p.value);
    if NeedsEncoding(p.value) {
      assert Params(p)[|Params(p)| - 2] == QP_LABEL;
      EncodingValid(p.value.value);
      EncodedEnds(Encoding(p.value.value), rest);
      DecodeOfEncoded(p.value.value);
    } else {
      assert IsPrintable(v) && Lacks(v, '\r');
      NormalOfPrintable(v);
      PlainEnds(v, rest, QP_LABEL in Params(p));
      if QP_LABEL in Params(p) {
        assert Lacks(v, '=');
        DecodeOfPlain(v);
      }
    }
  }

  lemma PropertyShape(p: Property, rest: string)
    ensures PropertyText(p) + rest == HeaderText(p) + [':'] + (ValueText(p.value) + (CRLF + rest))
  {
    var h, v := HeaderText(p), ValueText(p.value);
    Assoc(h + ":", v, CRLF);
    Assoc(h + ":", v + CRLF, rest);
    Assoc(v, CRLF, rest);
  }

  /** How the reader takes a line apart, readable or not. */
  lemma ReadOneIs(p: Property, rest: string)
    requires Proper(p)
    ensures ReadOne(PropertyText(p) + rest) == ReadBody(p.name, Params(p), ValueText(p.value) + (CRLF + rest))
  {
    var h, body := HeaderText(p), ValueText(p.value) + (CRLF + rest);
    PropertyShape(p, rest);
    HeaderSplits(p);
    IndexAfter(h, ':', body);
    hide Split, ReadBody, IndexOf, HeaderText, ValueText, PropertyText, Params, Proper, Lacks;
    SliceHeader(h, body);
    assert ([p.name] + Params(p))[1..] == Params(p);
  }

  /** One property line reads back as what was written, and the reader stops where the next begins. */
  lemma OneReads(p: Property, rest: string)
    requires Readable(p)
    ensures ReadOne(PropertyText(p) + rest) == Some((Expected(p), rest))
  {
    ReadOneIs(p, rest);
    ValueReads(p, rest);
    hide ReadOne, ValueEnd, Decode, ValueText, PropertyText, Readable, Params;
    SliceValue(ValueText(p.value), rest);
  }

  lemma SliceHeader(h: string, body: string)
    ensures var t := h + [':'] + body; t[..|h|] == h && t[|h| + 1..] == body
  {
  }

  lemma SliceValue(v: string, rest: string)
    ensures var body := v + (CRLF + rest); body[..|v|] == v && body[|v| + 2..] == rest
  {
    assert (CRLF + rest)[2..] == rest;
  }

  /** Round trip of a whole stream: every property comes back, in order, one line each. */
  lemma {:induction false} StreamReads(ps: seq<Property>)
    requires forall i :: 0 <= i < |ps| ==> Readable(ps[i])
    ensures ReadStream(StreamText(ps)) == Some(ExpectedAll(ps))
  {
    if ps != [] {
      StreamReads(ps[1..]);
      hide Readable, ReadOne, Expected, PropertyText;
      var p, rest := ps[0], StreamText(ps[1..]);
      OneReads(p, rest);
      NotEmpty(p, rest);
    }
  }

  /** Parameters that do not claim an encoding themselves, like all that the agent writes. */
  predicate Unlabelled(p: Property) {
    QP_LABEL !in OwnParams(p)
  }

  lemma UnlabelledIsReadable(p: Property)
    requires Proper(p) && Unlabelled(p)
    ensures Readable(p)
  {
    hide OwnParams;
  }

  /** Whatever the values, a stream of properties whose own parameters lack the label reads back. */
  lemma UnlabelledStreamReads(ps: seq<Property>)
    requires forall i :: 0 <= i < |ps| ==> Proper(ps[i]) && Unlabelled(ps[i])
    ensures ReadStream(StreamText(ps)) == Some(ExpectedAll(ps))
  {
    hide Proper, Unlabelled, Readable, ReadStream, StreamText, ExpectedAll;
    forall i | 0 <= i < |ps| ensures Readable(ps[i]) {
      UnlabelledIsReadable(ps[i]);
    }
    StreamReads(ps);
  }

  lemma NotEmpty(p: Property, rest: string)
    ensures PropertyText(p) + rest != ""
  {
    assert |CRLF| == 2;
  }

  // ----- what is written -----

  /** CR, LF, tab or printable ASCII. */
  predicate IsTextOctet(c: char) {
    c == '\r' || c == '\n' || c == '\t' || ' ' <= c <= '~'
  }

  predicate AllText(s: string) {
    forall i :: 0 <= i < |s| ==> IsTextOctet(s[i])
  }

  lemma AllTextConcat(a: string, b: string)
    ensures AllText(a + b) <==> AllText(a) && AllText(b)
  {
    assert forall i :: 0 <= i < |a| ==> (a + b)[i] == a[i];
    assert forall i :: 0 <= i < |b| ==> (a + b)[|a| + i] == b[i];
  }

  lemma {:induction false} TriplesAreText(o: string)
    ensures AllText(Triples(o))
  {
    if o != "" {
      TriplesAreText(o[1..]);
      assert HEX_DIGITS == ['0', '1', '2', '3', '4', '5', '6', '7', '8', '9', 'A', 'B', 'C', 'D', 'E', 'F'];
      assert AllText(Triple(o[0]));
      AllTextConcat(Triple(o[0]), Triples(o[1..]));
    }
  }

  lemma {:induction false} TokensAreText(toks: seq<Token>)
    requires AllValid(toks)
    ensures AllText(RenderAll(toks))
  {
    if toks != [] {
      TokensAreText(toks[1..]);
      if toks[0].Escaped? {
        TriplesAreText(toks[0].octets);
      }
      assert AllText(Render(toks[0]));
      AllTextConcat(Render(toks[0]), RenderAll(toks[1..]));
    }
  }

  lemma ParamIsText(param: Option<string>)
    requires param.Some? ==> AllText(param.value)
    ensures AllText(ParamText(param))
  {
    if param.Some? {
      var n := StrippedIs(param.value);
    }
  }

  lemma LabelsAreText()
    ensures AllText(ParamText(Some(QP_LABEL))) && AllText(ParamText(Some(CHARSET_LABEL)))
  {
    assert AllText(QP_LABEL) && AllText(CHARSET_LABEL);
    hide AllText, ParamText;
    ParamIsText(Some(QP_LABEL));
    ParamIsText(Some(CHARSET_LABEL));
  }

  lemma HeaderIsText(p: Property)
    requires AllText(p.name) && (p.param.Some? ==> AllText(p.param.value))
    ensures AllText(HeaderText(p))
  {
    ParamIsText(p.param);
    LabelsAreText();
    hide AllText, ParamText;
    AllTextConcat(p.name, ParamText(p.param));
    AllTextConcat(ParamText(Some(QP_LABEL)), ParamText(Some(CHARSET_LABEL)));
    var labels := if NeedsEncoding(p.value) then ParamText(Some(QP_LABEL)) + ParamText(Some(CHARSET_LABEL)) else "";
    assert AllText("") by { EmptyIsText(); }
    AllTextConcat(p.name + ParamText(p.param), labels);
  }

  lemma EmptyIsText()
    ensures AllText("") && AllText(":") && AllText(CRLF)
  {
  }

  lemma ValueIsText(value: Option<string>)
    requires value.Some? ==> WellFormed(value.value)
    ensures AllText(ValueText(value))
  {
    if NeedsEncoding(value) {
      EncodingValid(value.value);
      TokensAreText(Encoding(value.value));
    }
  }

  /** Nothing but text goes on the wire, whatever octets the value holds. */
  lemma OnlyTextIsWritten(p: Property)
    requires AllText(p.name) && (p.param.Some? ==> AllText(p.param.value))
    requires p.value.Some? ==> WellFormed(p.value.value)
    ensures AllText(PropertyText(p))
  {
    HeaderIsText(p);
    ValueIsText(p.value);
    EmptyIsText();
    hide AllText, HeaderText, ValueText;
    AllTextConcat(HeaderText(p), ":");
    AllTextConcat(HeaderText(p) + ":", ValueText(p.value));
    AllTextConcat(HeaderText(p) + ":" + ValueText(p.value), CRLF);
  }

  /** An octet below the space or above the tilde. */
  predicate HasForeignOctet(value: Option<string>) {
    value.Some? && exists i :: 0 <= i < |value.value| && !(32 <= value.value[i] as int <= 126)
  }

  /** Of a property whose own parameters do not claim it, the written ones say that it is quoted-printable
      if and only if its value holds an octet that is not printable ASCII; and if none does, the value is
      written as it is. */
  lemma LabelledIff(p: Property)
    requires Proper(p) && Unlabelled(p)
    ensures var header := Split(HeaderText(p), ';');
            header[0] == p.name && ("ENCODING=QUOTED-PRINTABLE" in header[1..] <==> HasForeignOctet(p.value)) &&
            ("CHARSET=utf-8" in header[1..] <== HasForeignOctet(p.value))
    ensures !HasForeignOctet(p.value) ==>
              ValueText(p.value) == (if p.value.Some? then p.value.value else "") &&
              HeaderText(p) == p.name + ParamText(p.param)
    ensures PropertyText(p) == HeaderText(p) + ":" + ValueText(p.value) + "\r\n"
  {
    HeaderSplits(p);
    NeedsEncodingIff(p.value);
    hide Split, OwnParams, ParamText, HasForeignOctet, Proper;
    assert ([p.name] + Params(p))[1..] == Params(p);
    var n := |OwnParams(p)|;
    if NeedsEncoding(p.value) {
      assert Params(p)[n] == QP_LABEL && Params(p)[n + 1] == CHARSET_LABEL;
    } else {
      assert Params(p) == OwnParams(p) + [] == OwnParams(p);
      assert HeaderText(p) == p.name + ParamText(p.param) + "" == p.name + ParamText(p.param);
    }
  }

  /** A parameter is written behind one ';' without the ';' it begins with, and not at all if nothing is
      left of it. */
  lemma ParamWritten(s: string) returns (n: nat)
    ensures n <= |s| && (forall i :: 0 <= i < n ==> s[i] == ';') && (n < |s| ==> s[n] != ';')
    ensures ParamText(Some(s)) == if n == |s| then "" else ";" + s[n..]
    ensures ParamText(None) == ""
  {
    n := StrippedIs(s);
  }

  lemma LabelText(mark: string)
    requires mark != "" && mark[0] != ';'
    ensures ParamText(Some(mark)) == ";" + mark
  {
    var n := ParamWritten(mark);
    assert mark[0..] == mark;
  }

  /** A value with such an octet is written encoded, under the two labels, encoding first. */
  lemma LabelsInOrder(p: Property)
    requires HasForeignOctet(p.value)
    ensures HeaderText(p) == p.name + ParamText(p.param) + (";ENCODING=QUOTED-PRINTABLE" + ";CHARSET=utf-8")
    ensures ValueText(p.value) == EncodedText(p.value.value)
  {
    NeedsEncodingIff(p.value);
    LabelText(QP_LABEL);
    LabelText(CHARSET_LABEL);
    hide ParamText, HasForeignOctet, NeedsEncoding, EncodedText;
    LabelsSpelled();
  }

  lemma LabelsSpelled()
    ensures ";" + QP_LABEL == ";ENCODING=QUOTED-PRINTABLE" && ";" + CHARSET_LABEL == ";CHARSET=utf-8"
  {
  }

  lemma NeedsEncodingIff(value: Option<string>)
    ensures NeedsEncoding(value) <==> HasForeignOctet(value)
  {
  }

  // ----- exactly when a plain value is misread -----

  lemma {:induction false} DecodeShrinks(v: string)
    ensures Decode(v).Some? ==> |Decode(v).value| <= |v|
    ensures Decode(v).Some? && !Lacks(v, '=') ==> |Decode(v).value| < |v|
  {
    if v == "" {
    } else if v[0] != '=' {
      DecodeShrinks(v[1..]);
      if Lacks(v[1..], '=') {
        assert forall i :: 0 <= i < |v| ==> v[i] != '=' by {
          assert forall i :: 1 <= i < |v| ==> v[i] == v[1..][i - 1];
        }
      }
    } else if |v| >= 3 {
      DecodeShrinks(v[3..]);
    }
  }

  /** A plain value that ends in '=' runs into its own line end, which then reads as a soft break: the
      value goes on in whatever is written behind it. */
  lemma {:induction false} EndsInSoftBreak(v: string, x: string)
    requires Lacks(v, '\r') && v != "" && v[|v| - 1] == '='
    ensures ValueEnd(v + (CRLF + x), true) == Shifted(|v| + 2, ValueEnd(x, true))
  {
    var t := v + (CRLF + x);
    if |v| == 1 {
      assert t == SOFT_BREAK + x;
      EndAfterSoft(x);
    } else {
      assert t[0] == v[0] && t[1] == v[1] && t[1..] == v[1..] + (CRLF + x);
      EndsInSoftBreak(v[1..], x);
    }
  }

  /** The plain value of a property that is misread. */
  lemma MisreadValue(p: Property)
    requires Proper(p) && !NotMisread(p)
    ensures QP_LABEL in Params(p) && p.value.Some? && !Lacks(p.value.value, '=') && Lacks(p.value.value, '\r')
    ensures ValueText(p.value) == p.value.value == Expected(p).value
  {
    NormalOfPrintable(p.value.value);
  }

  /** A plain value under a quoted-printable label that ends in '=' swallows what follows it. */
  lemma SwallowsNext(p: Property, rest: string)
    requires Proper(p) && !NotMisread(p) && p.value.value[|p.value.value| - 1] == '='
    ensures ReadOne(PropertyText(p) + rest).Some? ==>
              var end := ValueEnd(rest, true);
              end.Some? && ReadOne(PropertyText(p) + rest).value.1 == rest[end.value + 2..]
  {
    MisreadValue(p);
    ReadOneIs(p, rest);
    var v := p.value.value;
    EndsInSoftBreak(v, rest);
    hide ValueEnd, Decode, ReadOne, PropertyText, Params, Proper, NotMisread, Lacks;
    if ValueEnd(rest, true).Some? {
      DropLine(v, rest, ValueEnd(rest, true).value + 2);
    }
  }

  lemma DropLine(v: string, rest: string, n: nat)
    requires n <= |rest|
    ensures (v + (CRLF + rest))[|v| + 2 + n..] == rest[n..]
  {
  }

  /** A plain value that holds a '=' elsewhere ends where it should and decodes to less than itself. */
  lemma LosesOctets(p: Property, rest: string)
    requires Proper(p) && !NotMisread(p) && p.value.value[|p.value.value| - 1] != '='
    ensures ReadOne(PropertyText(p) + rest).Some? ==>
              ReadOne(PropertyText(p) + rest).value.0 != Expected(p) && ReadOne(PropertyText(p) + rest).value.1 == rest
  {
    MisreadValue(p);
    ReadOneIs(p, rest);
    var v := p.value.value;
    EndAfterText(v, CRLF + rest);
    assert CrlfAt(CRLF + rest, 0);
    DecodeShrinks(v);
    hide Decode, ReadOne, PropertyText, Params;
    SliceValue(v, rest);
  }

  /** Whatever is written behind it, a property reads back exactly when it is not misread. */
  lemma ReadsBackIff(p: Property, rest: string)
    requires Proper(p)
    ensures ReadOne(PropertyText(p) + rest) == Some((Expected(p), rest)) <==> NotMisread(p)
  {
    if NotMisread(p) {
      OneReads(p, rest);
    } else {
      MisreadValue(p);
      hide ReadOne, PropertyText, Params, Expected, ValueText;
      if p.value.value[|p.value.value| - 1] == '=' {
        SwallowsNext(p, rest);
      } else {
        LosesOctets(p, rest);
      }
    }
  }

  // ----- exactly when a stream reads back -----

  /** A header without line breaks. */
  predicate OneLine(p: Property) {
    Lacks(p.name, '\r') && (p.param.Some? ==> Lacks(p.param.value, '\r'))
  }

  predicate AllProper(ps: seq<Property>) {
    forall i :: 0 <= i < |ps| ==> Proper(ps[i]) && OneLine(ps[i])
  }

  lemma HeaderIsOneLine(p: Property)
    requires OneLine(p)
    ensures Lacks(HeaderText(p) + ":", '\r')
  {
    if p.param.Some? {
      StrippedLacks(p.param.value, '\r');
    }
    LabelsAre();
  }

  /** Read on as encoded text, a property's own line ends where it should, unless it ends in '='. */
  lemma SwallowedLine(p: Property, rest: string)
    requires Proper(p) && OneLine(p)
    ensures var w := HeaderText(p) + ":" + ValueText(p.value);
            ValueEnd(PropertyText(p) + rest, true) == Some(|w|) ||
            ValueEnd(PropertyText(p) + rest, true) == Shifted(|w| + 2, ValueEnd(rest, true))
  {
    var h, v := HeaderText(p) + ":", ValueText(p.value);
    HeaderIsOneLine(p);
    PropertyShape(p, rest);
    EndAfterText(h, v + (CRLF + rest));
    hide ValueEnd, HeaderText, ValueText, PropertyText, Proper, OneLine, Lacks;
    SwallowedValue(p, rest);
  }

  lemma SwallowedValue(p: Property, rest: string)
    requires Proper(p)
    ensures var v := ValueText(p.value);
            ValueEnd(v + (CRLF + rest), true) == Some(|v|) ||
            ValueEnd(v + (CRLF + rest), true) == Shifted(|v| + 2, ValueEnd(rest, true))
  {
    var v := ValueText(p.value);
    if NeedsEncoding(p.value) {
      EncodingValid(p.value.value);
      EncodedEnds(Encoding(p.value.value), rest);
    } else {
      assert IsPrintable(v) && Lacks(v, '\r');
      if v != "" && v[|v| - 1] == '=' {
        EndsInSoftBreak(v, rest);
      } else {
        EndAfterText(v, CRLF + rest);
        assert CrlfAt(CRLF + rest, 0);
      }
    }
  }

  /** Swallowing ends at the end of a later line of the stream. */
  lemma {:induction false} SwallowedTo(ps: seq<Property>) returns (j: nat)
    requires AllProper(ps) && ValueEnd(StreamText(ps), true).Some?
    ensures 0 < j <= |ps| && StreamText(ps)[ValueEnd(StreamText(ps), true).value + 2..] == StreamText(ps[j..])
    decreases |ps|
  {
    assert ps != [];
    var p, rest := ps[0], StreamText(ps[1..]);
    SwallowedLine(p, rest);
    var w := HeaderText(p) + ":" + ValueText(p.value);
    assert PropertyText(p) == w + CRLF;
    Assoc(w, CRLF, rest);
    hide ValueEnd, Proper, OneLine, HeaderText, ValueText, PropertyText;
    if ValueEnd(StreamText(ps), true) == Some(|w|) {
      j := 1;
      SliceValue(w, rest);
    } else {
      var n := ValueEnd(rest, true).value;
      j := SwallowedTo(ps[1..]);
      DropLine(w, rest, n + 2);
      assert ps[1..][j..] == ps[j + 1..];
      j := j + 1;
    }
  }

  lemma {:induction false} ExpectedCount(ps: seq<Property>)
    ensures |ExpectedAll(ps)| == |ps|
  {
    if ps != [] {
      ExpectedCount(ps[1..]);
    }
  }

  lemma HeadOfStream(ps: seq<Property>)
    requires ps != []
    ensures ExpectedAll(ps)[0] == Expected(ps[0]) && |ExpectedAll(ps)| == |ps|
    ensures StreamText(ps) == PropertyText(ps[0]) + StreamText(ps[1..])
  {
    ExpectedCount(ps);
  }

  lemma HeadProper(ps: seq<Property>)
    requires ps != [] && AllProper(ps)
    ensures Proper(ps[0]) && AllProper(ps[1..]) && (NotMisread(ps[0]) ==> Readable(ps[0]))
  {
    hide Proper, OneLine, NotMisread;
  }

  /** However the first property of a stream is read, the reader goes on at the start of a later one. */
  lemma GoesOnAt(ps: seq<Property>) returns (j: nat)
    requires ps != [] && AllProper(ps) && ReadOne(StreamText(ps)).Some?
    ensures 0 < j <= |ps| && ReadOne(StreamText(ps)).value.1 == StreamText(ps[j..])
  {
    hide *;
    HeadProper(ps);
    HeadOfStream(ps);
    var k := HeadGoesOn(ps[0], ps[1..]);
    j := k + 1;
    assert ps[1..][k..] == ps[j..];
  }

  lemma HeadGoesOn(p: Property, qs: seq<Property>) returns (j: nat)
    requires Proper(p) && (NotMisread(p) ==> Readable(p)) && AllProper(qs)
    requires ReadOne(PropertyText(p) + StreamText(qs)).Some?
    ensures j <= |qs| && ReadOne(PropertyText(p) + StreamText(qs)).value.1 == StreamText(qs[j..])
  {
    hide *;
    if NotMisread(p) {
      OneReads(p, StreamText(qs));
      j := 0;
      assert qs[0..] == qs;
    } else {
      j := SwallowsTo(p, qs);
    }
  }

  lemma SwallowsTo(p: Property, qs: seq<Property>) returns (j: nat)
    requires Proper(p) && !NotMisread(p) && AllProper(qs) && ReadOne(PropertyText(p) + StreamText(qs)).Some?
    ensures j <= |qs| && ReadOne(PropertyText(p) + StreamText(qs)).value.1 == StreamText(qs[j..])
  {
    MisreadValue(p);
    hide ReadOne, PropertyText, Params, Expected, ValueText, Proper, OneLine, NotMisread, Lacks;
    j := 0;
    assert qs[0..] == qs;
    if p.value.value[|p.value.value| - 1] == '=' {
      SwallowsNext(p, StreamText(qs));
      j := SwallowedTo(qs);
    } else {
      LosesOctets(p, StreamText(qs));
    }
  }

  /** No stream reads as more properties than were written. */
  lemma {:induction false} NoneInvented(ps: seq<Property>)
    requires AllProper(ps) && ReadStream(StreamText(ps)).Some?
    ensures |ReadStream(StreamText(ps)).value| <= |ps|
    decreases |ps|
  {
    if ps != [] {
      NotEmpty(ps[0], StreamText(ps[1..]));
      hide Proper, OneLine, ReadOne, PropertyText;
      var j := GoesOnAt(ps);
      NoneInvented(ps[j..]);
    }
  }

  predicate NoneMisread(ps: seq<Property>) {
    ps == [] || (NotMisread(ps[0]) && NoneMisread(ps[1..]))
  }

  lemma StreamStep(t: string)
    requires t != "" && ReadStream(t).Some?
    ensures ReadOne(t).Some? && ReadStream(ReadOne(t).value.1).Some?
    ensures |ReadStream(t).value| == 1 + |ReadStream(ReadOne(t).value.1).value|
    ensures ReadStream(t).value[0] == ReadOne(t).value.0
  {
    hide ReadOne;
  }

  lemma MisreadHead(ps: seq<Property>)
    requires ps != [] && AllProper(ps) && !NotMisread(ps[0])
    ensures StreamText(ps) != "" && ReadOne(StreamText(ps)) != Some((Expected(ps[0]), StreamText(ps[1..])))
  {
    assert Proper(ps[0]);
    hide Proper, OneLine, ReadOne, PropertyText, NotMisread, Expected;
    NotEmpty(ps[0], StreamText(ps[1..]));
    ReadsBackIff(ps[0], StreamText(ps[1..]));
  }

  /** A stream that begins with a misread property gives a wrong entry, or too few of them. */
  lemma MisreadSpoils(ps: seq<Property>)
    requires ps != [] && AllProper(ps) && !NotMisread(ps[0])
    ensures ReadStream(StreamText(ps)) != Some(ExpectedAll(ps))
  {
    AllProperFrom(ps);
    hide *;
    HeadOfStream(ps);
    MisreadHead(ps);
    if ReadStream(StreamText(ps)).Some? {
      StreamStep(StreamText(ps));
      var j := GoesOnAt(ps);
      if j > 1 {
        NoneInvented(ps[j..]);
      }
    }
  }

  lemma AllProperFrom(ps: seq<Property>)
    requires AllProper(ps)
    ensures forall j :: 0 <= j <= |ps| ==> AllProper(ps[j..])
  {
    hide Proper, OneLine;
  }

  lemma SameTail<T>(x: T, a: seq<T>, b: seq<T>)
    ensures [x] + a == [x] + b <==> a == b
  {
    assert ([x] + a)[1..] == a && ([x] + b)[1..] == b;
  }

  /** A stream reads back exactly when none of its properties is misread. */
  lemma {:induction false} StreamReadsIff(ps: seq<Property>)
    requires AllProper(ps)
    ensures ReadStream(StreamText(ps)) == Some(ExpectedAll(ps)) <==> NoneMisread(ps)
    decreases |ps|
  {
    if ps != [] {
      var p, rest := ps[0], StreamText(ps[1..]);
      assert Proper(p);
      if NotMisread(p) {
        OneReads(p, rest);
        NotEmpty(p, rest);
        hide Proper, OneLine, ReadOne, PropertyText, NotMisread, Expected;
        StreamReadsIff(ps[1..]);
        if ReadStream(rest).Some? {
          SameTail(Expected(p), ReadStream(rest).value, ExpectedAll(ps[1..]));
        }
      } else {
        hide *;
        MisreadSpoils(ps);
      }
    }
  }

  lemma MisreadUnderLabel(p: Property, i: nat)
    requires p.param == Some(QP_LABEL) && p.value.Some? && IsPrintable(p.value.value)
    requires i < |p.value.value| && p.value.value[i] == '='
    ensures !NotMisread(p)
  {
    LabelsAre();
    LabelSplits(p.param.value);
    assert ParamText(p.param) != "";
    assert [p.param.value][0] == p.param.value;
    assert Stripped(p.param.value) == p.param.value;
  }

  lemma PlainIsProper(p: Property)
    requires IsPrintable(p.name) && Lacks(p.name, ':') && Lacks(p.name, ';')
    requires p.param.Some? ==> IsPrintable(p.param.value) && Lacks(p.param.value, ':')
    requires p.value.Some? ==> WellFormed(p.value.value)
    ensures Proper(p) && OneLine(p)
  {
    hide WellFormed;
  }

  lemma NoteIsMisread(p: Property)
    requires p == Property("NOTE", Some(QP_LABEL), Some("a="))
    ensures Proper(p) && OneLine(p) && !NotMisread(p)
  {
    LabelsAre();
    assert WellFormed("a=");
    hide WellFormed, Proper, OneLine, NotMisread, Stripped, ParamText;
    PlainIsProper(p);
    assert p.value.value[1] == '=';
    MisreadUnderLabel(p, 1);
  }

  lemma UrlIsProper(q: Property)
    requires q == Property("URL", None, Some("b"))
    ensures Proper(q) && OneLine(q)
  {
    assert WellFormed("b");
    hide WellFormed, Proper, OneLine;
    PlainIsProper(q);
  }

  lemma TwoProper(p: Property, q: Property)
    requires Proper(p) && OneLine(p) && Proper(q) && OneLine(q)
    ensures AllProper([p, q])
  {
    hide Proper, OneLine;
  }

  /** Such a stream: the note takes the next property's line for its own continuation. */
  lemma NoteSwallowsUrl(p: Property, q: Property)
    requires p == Property("NOTE", Some(QP_LABEL), Some("a=")) && q == Property("URL", None, Some("b"))
    ensures AllProper([p, q]) && ReadStream(StreamText([p, q])) != Some(ExpectedAll([p, q]))
  {
    hide *;
    NoteIsMisread(p);
    UrlIsProper(q);
    TwoProper(p, q);
    MisreadSpoils([p, q]);
  }
}

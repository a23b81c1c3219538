/**
 Structured values (N, ADR, ORG of section 2.5 of RFC 2426): components in which ';' is written
 "\;", joined by ';', and what a reader makes of them.
 */
module StructuredValue {
  import opened Text

  function Escaped(s: string): string {
    if s == "" then ""
    else (if s[0] == ';' then "\\;" else [s[0]]) + Escaped(s[1..])
  }

  function Joined(parts: seq<string>): string {
    if parts == [] then ""
    else if |parts| == 1 then parts[0]
    else parts[0] + ";" + Joined(parts[1..])
  }

  function EscapedAll(parts: seq<string>): (r: seq<string>)
    ensures |r| == |parts|
  {
    if parts == [] then [] else [Escaped(parts[0])] + EscapedAll(parts[1..])
  }

  function OrEmpty(v: Option<string>): string {
    if v.None? then "" else v.value
  }

  function AllOrEmpty(vs: seq<Option<string>>): (r: seq<string>)
    ensures |r| == |vs|
    ensures forall i :: 0 <= i < |vs| ==> r[i] == OrEmpty(vs[i])
  {
    if vs == [] then [] else [OrEmpty(vs[0])] + AllOrEmpty(vs[1..])
  }

  /** The text of a structured value. */
  function Structured(vs: seq<Option<string>>): string {
    Joined(EscapedAll(AllOrEmpty(vs)))
  }

  // ----- the writers -----

  lemma {:induction false} EscapedConcat(a: string, b: string)
    ensures Escaped(a + b) == Escaped(a) + Escaped(b)
  {
    if a == "" {
      assert a + b == b;
    } else {
      assert (a + b)[1..] == a[1..] + b;
      EscapedConcat(a[1..], b);
    }
  }

  lemma {:induction false} EscapedPlain(a: string)
    requires forall i :: 0 <= i < |a| ==> a[i] != ';'
    ensures Escaped(a) == a
  {
    if a != "" {
      EscapedPlain(a[1..]);
      assert [a[0]] + a[1..] == a;
    }
  }

  /** Escapes a component, copying the runs between the ';' characters. */
  method Escape(str: Option<string>) returns (r: Option<string>)
    ensures r == match str case None => None case Some(s) => Some(Escaped(s))
  {
    if str.None? {
      return None;
    }
    var s := str.value;
    var escaped := new GString("");
    var st, pos := 0, 0;
    while pos < |s|
      invariant fresh(escaped)
      invariant 0 <= st <= pos <= |s|
      invariant escaped.str == Escaped(s[..st])
      invariant forall i :: st <= i < pos ==> s[i] != ';'
    {
      if s[pos] == ';' {
        EscapedRun(s, st, pos);
        Assoc(Escaped(s[..st]), s[st..pos], "\\;");
        escaped.Append(s[st..pos]);
        escaped.Append("\\;");
        pos := pos + 1;
        st := pos;
      } else {
        pos := pos + 1;
      }
    }
    EscapedPlain(s[st..pos]);
    EscapedConcat(s[..st], s[st..pos]);
    assert s[..st] + s[st..pos] == s;
    escaped.Append(s[st..pos]);
    r := Some(escaped.str);
  }

  lemma EscapedRun(s: string, st: nat, pos: nat)
    requires st <= pos < |s| && s[pos] == ';' && forall i :: st <= i < pos ==> s[i] != ';'
    ensures Escaped(s[..pos + 1]) == Escaped(s[..st]) + (s[st..pos] + "\\;")
  {
    EscapedPlain(s[st..pos]);
    EscapedConcat(s[..st], s[st..pos]);
    assert s[..st] + s[st..pos] == s[..pos];
    EscapedConcat(s[..pos], ";");
    assert s[..pos] + ";" == s[..pos + 1];
    assert Escaped(";") == "\\;" by {
      assert ";"[1..] == "" && "\\;" + "" == "\\;";
    }
    Assoc(Escaped(s[..st]), s[st..pos], "\\;");
  }

  lemma {:induction false} JoinedSnoc(parts: seq<string>, p: string)
    requires parts != []
    ensures Joined(parts + [p]) == Joined(parts) + ";" + p
  {
    if |parts| == 1 {
      assert (parts + [p])[1..] == [p] && (parts + [p])[0] == parts[0];
    } else {
      assert (parts + [p])[1..] == parts[1..] + [p] && (parts + [p])[0] == parts[0];
      JoinedSnoc(parts[1..], p);
      Assoc(parts[0] + ";", Joined(parts[1..]) + ";", p);
      Assoc(parts[0] + ";", Joined(parts[1..]), ";");
    }
  }

  /** Joins the strings of a vector; the separator is always ';'. */
  method StrvConcat(strv: seq<string>) returns (r: string)
    ensures r == Joined(strv)
  {
    var text := new GString("");
    var i := 0;
    while i < |strv|
      invariant fresh(text) && 0 <= i <= |strv|
      invariant text.str == Joined(strv[..i])
    {
      assert strv[..i + 1] == strv[..i] + [strv[i]];
      if i > 0 {
        JoinedSnoc(strv[..i], strv[i]);
        text.Append(";");
      }
      text.Append(strv[i]);
      i := i + 1;
    }
    assert strv[..i] == strv;
    r := text.str;
  }

  lemma {:induction false} EscapedAllAt(parts: seq<string>, i: nat)
    requires i < |parts|
    ensures EscapedAll(parts)[i] == Escaped(parts[i])
  {
    if i > 0 {
      EscapedAllAt(parts[1..], i - 1);
    }
  }

  datatype ContactName = ContactName(prefix: Option<string>, first: Option<string>, addition: Option<string>,
                                     last: Option<string>, suffix: Option<string>)

  /** The N components in the order of section 3.1.2 of RFC 2426. */
  function NameFields(n: ContactName): seq<Option<string>> {
    [n.last, n.first, n.addition, n.prefix, n.suffix]
  }

  /** The N value of a contact; a field that is not set leaves its component empty. */
  method NameFromContact(n: ContactName) returns (r: string)
    ensures r == Structured(NameFields(n))
  {
    var text := new GString("");
    var fields := [n.last, n.first, n.addition, n.prefix, n.suffix];
    ghost var all := EscapedAll(AllOrEmpty(fields));
    var i := 0;
    while i < 5
      invariant fresh(text) && 0 <= i <= 5
      invariant text.str == Joined(all[..i])
    {
      assert all[..i + 1] == all[..i] + [all[i]];
      EscapedAllAt(AllOrEmpty(fields), i);
      if i > 0 {
        JoinedSnoc(all[..i], all[i]);
        text.AppendC(';');
      }
      if fields[i].Some? {
        var e := Escape(fields[i]);
        text.Append(e.value);
      } else {
        assert all[i] == "" && text.str + "" == text.str;
      }
      i := i + 1;
    }
    assert all[..i] == all;
    r := text.str;
  }

  lemma NothingEscaped()
    ensures Escaped("") == ""
  {
  }

  /** The escaped fields of an address, or nothing if none of them is set. */
  method AddFieldStr(fields: seq<Option<string>>) returns (r: Option<seq<string>>)
    ensures r == if forall i :: 0 <= i < |fields| ==> fields[i].None? then None
                 else Some(EscapedAll(AllOrEmpty(fields)))
  {
    var valid := false;
    var i := 0;
    while i < |fields|
      invariant 0 <= i <= |fields| && !valid
      invariant forall j :: 0 <= j < i ==> fields[j].None?
    {
      if fields[i].Some? {
        valid := true;
        break;
      }
      i := i + 1;
    }
    if !valid {
      return None;
    }
    assert fields[i].Some?;
    ghost var all := EscapedAll(AllOrEmpty(fields));
    hide EscapedAll, Escaped;
    var strv := new string[|fields|];
    var k := 0;
    while k < |fields|
      invariant 0 <= k <= |fields|
      invariant forall j :: 0 <= j < k ==> strv[j] == all[j]
    {
      EscapedAllAt(AllOrEmpty(fields), k);
      if fields[k].None? {
        assert Escaped("") == "" by { NothingEscaped(); }
        strv[k] := "";
      } else {
        var e := Escape(fields[k]);
        strv[k] := e.value;
      }
      k := k + 1;
    }
    assert strv[..] == all;
    r := Some(strv[..]);
  }

  datatype Address = Address(pobox: Option<string>, extended: Option<string>, street: Option<string>,
                             locality: Option<string>, region: Option<string>, postalCode: Option<string>,
                             country: Option<string>)

  function AddressFields(a: Address): seq<Option<string>> {
    [a.pobox, a.extended, a.street, a.locality, a.region, a.postalCode, a.country]
  }

  /** The ADR value of an address; an address with nothing set has none. */
  method AddressValue(a: Address) returns (r: Option<string>)
    ensures r == if forall i :: 0 <= i < 7 ==> AddressFields(a)[i].None? then None
                 else Some(Structured(AddressFields(a)))
  {
    var fields := [a.pobox, a.extended, a.street, a.locality, a.region, a.postalCode, a.country];
    assert fields == AddressFields(a) && |fields| == 7;
    var strv := AddFieldStr(fields);
    if strv.None? {
      return None;
    }
    var text := StrvConcat(strv.value);
    r := Some(text);
  }

  // ----- the reader -----

  function Lead(s: string, fields: seq<string>): seq<string>
    requires |fields| >= 1
  {
    [s + fields[0]] + fields[1..]
  }

  /** The components of a value: split at each ';' that no '\' precedes, "\;" read as ';'. */
  function Fields(t: string): (fs: seq<string>)
    ensures |fs| >= 1
  {
    if t == "" then [""]
    else if t[0] == ';' then [""] + Fields(t[1..])
    else if t[0] == '\\' && |t| >= 2 && t[1] == ';' then Lead(";", Fields(t[2..]))
    else Lead([t[0]], Fields(t[1..]))
  }

  predicate EndsInBackslash(s: string) {
    s != "" && s[|s| - 1] == '\\'
  }

  lemma LeadLead(a: string, b: string, fs: seq<string>)
    requires |fs| >= 1
    ensures Lead(a, Lead(b, fs)) == Lead(a + b, fs)
  {
    Assoc(a, b, fs[0]);
  }

  /** What a component and the fields behind it read as: its last '\' takes the separator in. */
  function WithField(p: string, fs: seq<string>): seq<string>
    requires |fs| >= 1
  {
    if EndsInBackslash(p) then Lead(p[..|p| - 1] + ";", fs) else [p] + fs
  }

  lemma LeadField(c: char, q: string, fs: seq<string>)
    requires |fs| >= 1 && (q != "" || c != '\\')
    ensures Lead([c], WithField(q, fs)) == WithField([c] + q, fs)
  {
    var p := [c] + q;
    assert q != "" ==> p[|p| - 1] == q[|q| - 1];
    if EndsInBackslash(q) {
      assert p[..|p| - 1] == [c] + q[..|q| - 1];
      Assoc([c], q[..|q| - 1], ";");
      LeadLead([c], q[..|q| - 1] + ";", fs);
    } else {
      assert ([q] + fs)[0] == q && ([q] + fs)[1..] == fs;
    }
  }

  lemma {:induction false} FieldThenRest(p: string, x: string)
    ensures Fields(Escaped(p) + (";" + x)) == WithField(p, Fields(x))
  {
    if p == "" {
      assert Escaped(p) + (";" + x) == ";" + x && (";" + x)[1..] == x;
    } else {
      FieldThenRest(p[1..], x);
      assert p == [p[0]] + p[1..];
      FieldStep(p[0], p[1..], x);
    }
  }

  lemma FieldStep(c: char, q: string, x: string)
    requires Fields(Escaped(q) + (";" + x)) == WithField(q, Fields(x))
    ensures Fields(Escaped([c] + q) + (";" + x)) == WithField([c] + q, Fields(x))
  {
    var u := Escaped(q) + (";" + x);
    EscapedCons(c, q);
    hide Fields, Escaped, WithField;
    if c == ';' {
      Assoc("\\;", Escaped(q), ";" + x);
      ReadEscaped(u);
      LeadField(c, q, Fields(x));
    } else if q == "" && c == '\\' {
      Assoc([c], Escaped(q), ";" + x);
      SwallowsSeparator(x, Fields(x));
      ReadEscaped(x);
    } else {
      Assoc([c], Escaped(q), ";" + x);
      assert u != "" && (u[0] == ';' ==> q == "");
      ReadPlain(c, u);
      LeadField(c, q, Fields(x));
    }
  }

  lemma SwallowsSeparator(x: string, fs: seq<string>)
    requires |fs| >= 1
    ensures WithField("\\", fs) == Lead(";", fs)
    ensures ['\\'] + ("" + (";" + x)) == "\\;" + x && ['\\'] + "" == "\\"
  {
    assert "\\"[..0] + ";" == ";";
  }

  lemma EscapedCons(c: char, q: string)
    ensures Escaped([c] + q) == (if c == ';' then "\\;" else [c]) + Escaped(q)
    ensures Escaped(q) == "" <==> q == ""
    ensures q != "" ==> Escaped(q)[0] != ';'
  {
    assert ([c] + q)[1..] == q;
  }

  lemma ReadEscaped(u: string)
    ensures Fields("\\;" + u) == Lead(";", Fields(u))
  {
    var t := "\\;" + u;
    assert t[0] == '\\' && t[1] == ';' && t[2..] == u;
  }

  lemma ReadPlain(c: char, u: string)
    requires c != ';' && (c == '\\' ==> u == "" || u[0] != ';')
    ensures Fields([c] + u) == Lead([c], Fields(u))
  {
    var t := [c] + u;
    assert t[0] == c && t[1..] == u;
  }

  lemma {:induction false} LastField(p: string)
    ensures Fields(Escaped(p)) == [p]
  {
    if p != "" {
      var q := p[1..];
      LastField(q);
      EscapedCons(p[0], q);
      assert [p[0]] + q == p;
      if p[0] == ';' {
        ReadEscaped(Escaped(q));
      } else {
        ReadPlain(p[0], Escaped(q));
      }
    }
  }

  /** How many components but the last end in '\'. */
  function Swallowed(parts: seq<string>): nat {
    if |parts| <= 1 then 0 else (if EndsInBackslash(parts[0]) then 1 else 0) + Swallowed(parts[1..])
  }

  /** Each component but the last that ends in '\' costs the reader one component; if there is none,
      the reader gets all of them back. */
  lemma {:induction false} FieldsOfStructured(parts: seq<string>)
    requires parts != []
    ensures |Fields(Joined(EscapedAll(parts)))| == |parts| - Swallowed(parts)
    ensures Swallowed(parts) == 0 ==> Fields(Joined(EscapedAll(parts))) == parts
  {
    if |parts| == 1 {
      LastField(parts[0]);
      assert EscapedAll(parts) == [Escaped(parts[0])] && parts == [parts[0]];
    } else {
      var p, rest := parts[0], parts[1..];
      FieldsOfStructured(rest);
      var x := Joined(EscapedAll(rest));
      FieldThenRest(p, x);
      assert EscapedAll(parts)[1..] == EscapedAll(rest);
      Assoc(Escaped(p), ";", x);
      assert [p] + rest == parts;
    }
  }

  /** Round trip: the reader gets back exactly the components, if and only if none but the last
      ends in '\'. */
  lemma StructuredReadsBackIff(vs: seq<Option<string>>)
    requires vs != []
    ensures Fields(Structured(vs)) == AllOrEmpty(vs) <==>
            forall i :: 0 <= i < |vs| - 1 ==> !EndsInBackslash(OrEmpty(vs[i]))
  {
    var parts := AllOrEmpty(vs);
    FieldsOfStructured(parts);
    SwallowedIff(parts);
  }

  lemma {:induction false} SwallowedIff(parts: seq<string>)
    ensures Swallowed(parts) == 0 <==> forall i :: 0 <= i < |parts| - 1 ==> !EndsInBackslash(parts[i])
  {
    if |parts| > 1 {
      SwallowedIff(parts[1..]);
      assert forall i :: 1 <= i < |parts| ==> parts[i] == parts[1..][i - 1];
    }
  }

  /** N has five components and ADR seven, whatever the fields hold, unless a '\' ends one. */
  lemma NameAndAddressCounts(n: ContactName, a: Address)
    ensures |Fields(Structured(NameFields(n)))| == 5 <==>
            forall i :: 0 <= i < 4 ==> !EndsInBackslash(OrEmpty(NameFields(n)[i]))
    ensures |Fields(Structured(AddressFields(a)))| == 7 <==>
            forall i :: 0 <= i < 6 ==> !EndsInBackslash(OrEmpty(AddressFields(a)[i]))
  {
    FieldsOfStructured(AllOrEmpty(NameFields(n)));
    SwallowedIff(AllOrEmpty(NameFields(n)));
    FieldsOfStructured(AllOrEmpty(AddressFields(a)));
    SwallowedIff(AllOrEmpty(AddressFields(a)));
  }

  // ----- field by field -----

  predicate NoBackslash(v: Option<string>) {
    v.Some? ==> v.value == "" || v.value[|v.value| - 1] != '\\'
  }

  /** A component holds a field, or is empty if that is not set. */
  predicate IsField(component: string, v: Option<string>) {
    component == if v.Some? then v.value else ""
  }

  /** N is family name, given name, additional names, prefix and suffix. */
  lemma NameInOrder(n: ContactName)
    requires NoBackslash(n.last) &&
             NoBackslash(n.first) &&
             NoBackslash(n.addition) &&
             NoBackslash(n.prefix)
    ensures var fs := Fields(Structured(NameFields(n)));
            |fs| == 5 && IsField(fs[0], n.last) && IsField(fs[1], n.first) && IsField(fs[2], n.addition) &&
            IsField(fs[3], n.prefix) && IsField(fs[4], n.suffix)
  {
    var vs := NameFields(n);
    assert forall i :: 0 <= i < 4 ==> !EndsInBackslash(OrEmpty(vs[i]));
    StructuredReadsBackIff(vs);
    hide Fields, Structured, EndsInBackslash;
  }

  /** ADR is box, extended address, street, locality, region, postal code and country. */
  lemma AddressInOrder(a: Address)
    requires NoBackslash(a.pobox) &&
             NoBackslash(a.extended) &&
             NoBackslash(a.street) &&
             NoBackslash(a.locality) &&
             NoBackslash(a.region) &&
             NoBackslash(a.postalCode)
    ensures var fs := Fields(Structured(AddressFields(a)));
            |fs| == 7 && IsField(fs[0], a.pobox) && IsField(fs[1], a.extended) && IsField(fs[2], a.street) &&
            IsField(fs[3], a.locality) && IsField(fs[4], a.region) && IsField(fs[5], a.postalCode) &&
            IsField(fs[6], a.country)
  {
    var vs := AddressFields(a);
    assert forall i :: 0 <= i < 6 ==> !EndsInBackslash(OrEmpty(vs[i]));
    StructuredReadsBackIff(vs);
    hide Fields, Structured, EndsInBackslash;
  }
}

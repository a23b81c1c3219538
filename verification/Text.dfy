/**
 The text the agent works on: C strings without their terminating NUL, one Dafny
 character per octet, and the growable buffer the C code builds them in.
 A physical line is what stands between two CRLF pairs.
 */
module Text {

  const CRLF: string := "\r\n"
  const FOLD: string := "\r\n "  // a newline and the blank of a continuation

  datatype Option<+T> = None | Some(value: T)

  /** What a C pointer `i` octets into `s` reads: the octet, or the terminating NUL. */
  function At(s: string, i: nat): char {
    if i < |s| then s[i] else '\0'
  }

  predicate CrlfAt(s: string, i: int) {
    0 <= i && i + 1 < |s| && s[i] == '\r' && s[i + 1] == '\n'
  }

  predicate IsBlank(c: char) {
    c == ' ' || c == '\t'
  }

  lemma Assoc<T>(a: seq<T>, b: seq<T>, c: seq<T>)
    ensures (a + b) + c == a + (b + c)
  {
  }

  /** What is left of `s` without the `len` octets at `pos`. */
  function Cut(s: string, pos: nat, len: nat): (r: string)
    requires pos + len <= |s|
    ensures |r| == |s| - len
  {
    s[..pos] + s[pos + len..]
  }

  /** A growable buffer that is appended to and cut in place. */
  class GString {
    var str: string

    constructor (init: string)
      ensures str == init
    {
      str := init;
    }

    method Append(s: string)
      modifies this
      ensures str == old(str) + s
    {
      str := str + s;
    }

    method AppendC(c: char)
      modifies this
      ensures str == old(str) + [c]
    {
      str := str + [c];
    }

    method Erase(pos: nat, len: nat)
      requires pos + len <= |str|
      modifies this
      ensures str == Cut(old(str), pos, len)
    {
      str := str[..pos] + str[pos + len..];
    }
  }

  /** The physical lines of a text, without their CRLF pairs. */
  function Lines(t: string): (ls: seq<string>)
    ensures |ls| >= 1
  {
    if t == "" then [""]
    else if CrlfAt(t, 0) then [""] + Lines(t[2..])
    else
      var rest := Lines(t[1..]);
      [[t[0]] + rest[0]] + rest[1..]
  }

  function LastLine(t: string): string {
    var ls := Lines(t);
    ls[|ls| - 1]
  }

  /** The number of octets since the last CRLF of the text. */
  function Column(t: string): nat {
    |LastLine(t)|
  }

  /** A line list in which the last line of `x` continues as the first line of `y`. */
  ghost function Glue(x: seq<string>, y: seq<string>): seq<string>
    requires |x| >= 1 && |y| >= 1
  {
    x[..|x| - 1] + [x[|x| - 1] + y[0]] + y[1..]
  }

  lemma GlueAfter(x: seq<string>, y: seq<string>, z: seq<string>)
    requires |y| >= 1 && |z| >= 1
    ensures Glue(x + y, z) == x + Glue(y, z)
  {
  }

  /** Putting one octet in front of the first line and gluing commute. */
  lemma GlueHead(c: char, x: seq<string>, y: seq<string>)
    requires |x| >= 1 && |y| >= 1
    ensures var g := Glue(x, y);
            Glue([[c] + x[0]] + x[1..], y) == [[c] + g[0]] + g[1..]
  {
    if |x| == 1 {
      assert [c] + (x[0] + y[0]) == ([c] + x[0]) + y[0];
    } else {
      assert Glue(x, y)[0] == x[0];
      assert Glue(x, y)[1..] == Glue(x[1..], y);
      GlueAfter([[c] + x[0]], x[1..], y);
    }
  }

  /** Unless the seam makes a CRLF of its own, appending continues the last line. */
  lemma {:induction false} LinesOfConcat(a: string, b: string)
    requires a == "" || a[|a| - 1] != '\r' || b == "" || b[0] != '\n'
    ensures Lines(a + b) == Glue(Lines(a), Lines(b))
  {
    if a == "" {
      assert a + b == b;
      assert "" + Lines(b)[0] == Lines(b)[0];
    } else if CrlfAt(a, 0) {
      assert (a + b)[2..] == a[2..] + b;
      assert CrlfAt(a + b, 0);
      LinesOfConcat(a[2..], b);
      GlueAfter([""], Lines(a[2..]), Lines(b));
    } else {
      assert (a + b)[1..] == a[1..] + b;
      assert (a + b)[0] == a[0];
      assert !CrlfAt(a + b, 0);
      LinesOfConcat(a[1..], b);
      GlueHead(a[0], Lines(a[1..]), Lines(b));
    }
  }

  /** A text without a CRLF pair is one line. */
  lemma {:induction false} LinesOfPlain(a: string)
    requires forall i :: 0 <= i < |a| ==> !CrlfAt(a, i)
    ensures Lines(a) == [a]
  {
    if a == "" {
    } else {
      assert !CrlfAt(a, 0);
      forall i | 0 <= i < |a[1..]| ensures !CrlfAt(a[1..], i) {
        assert !CrlfAt(a, i + 1);
      }
      LinesOfPlain(a[1..]);
      assert [a[0]] + a[1..] == a;
    }
  }
}

/**
 Device addresses: six bytes, the text `XX:XX:XX:XX:XX:XX`, and the object path BlueZ names a
 device by.
 */
module Address {
  import opened Text
  import QP = QuotedPrintable

  const BT_ADDRESS_STRING_SIZE: nat := 18

  type byte = b: int | 0 <= b < 0x100

  datatype DeviceAddress = DeviceAddress(b0: byte, b1: byte, b2: byte, b3: byte, b4: byte, b5: byte)

  // ----- printing -----

  /** `%2.2X`. */
  function Hex2(b: byte): string {
    [QP.HexDigit(b / 16), QP.HexDigit(b % 16)]
  }

  function Print(a: DeviceAddress): (s: string)
    ensures |s| == BT_ADDRESS_STRING_SIZE - 1
  {
    Hex2(a.b0) + ":" + Hex2(a.b1) + ":" + Hex2(a.b2) + ":" + Hex2(a.b3) + ":" + Hex2(a.b4) + ":" + Hex2(a.b5)
  }

  // ----- parsing -----

  predicate IsSpace(c: char) {
    c == ' ' || '\t' <= c <= '\r'
  }

  /** A digit of base 16, either case. */
  function DigitValue(c: char): (v: Option<nat>)
    ensures v.Some? ==> v.value < 16
  {
    if '0' <= c <= '9' then Some(c as int - '0' as int)
    else if 'A' <= c <= 'F' then Some(c as int - 'A' as int + 10)
    else if 'a' <= c <= 'f' then Some(c as int - 'a' as int + 10)
    else None
  }

  function SkipSpaces(s: string, i: nat): (j: nat)
    ensures i <= j
    decreases |s| - i
  {
    if i < |s| && IsSpace(s[i]) then SkipSpaces(s, i + 1) else i
  }

  /** The value of the run of digits from `i` on, and where it ends. */
  function Digits(s: string, i: nat, acc: nat): (r: (nat, nat))
    ensures i <= r.1
    decreases |s| - i
  {
    if DigitValue(At(s, i)).Some? && i < |s| then Digits(s, i + 1, 16 * acc + DigitValue(s[i]).value) else (acc, i)
  }

  /** `strtol(s + i, &end, 16)`: the value and `end`, which is `i` if there is no number. */
  function Strtol16(s: string, i: nat): (int, nat) {
    var j := SkipSpaces(s, i);
    var neg := At(s, j) == '-';
    var k := if neg || At(s, j) == '+' then j + 1 else j;
    var p := if At(s, k) == '0' && (At(s, k + 1) == 'x' || At(s, k + 1) == 'X') && DigitValue(At(s, k + 2)).Some?
             then k + 2 else k;
    if DigitValue(At(s, p)).None? then (0, i)
    else
      var d := Digits(s, p, 0);
      var v: int := d.0;
      (if neg then -v else v, d.1)
  }

  /** The low eight bits, as assigning to an `unsigned char` keeps them. */
  function LowByte(v: int): byte {
    v % 0x100
  }

  /** Six numbers, each taken to start one octet after the end of the one before. */
  function Parse(s: string): DeviceAddress {
    var n0 := Strtol16(s, 0);
    var n1 := Strtol16(s, n0.1 + 1);
    var n2 := Strtol16(s, n1.1 + 1);
    var n3 := Strtol16(s, n2.1 + 1);
    var n4 := Strtol16(s, n3.1 + 1);
    var n5 := Strtol16(s, n4.1 + 1);
    DeviceAddress(LowByte(n0.0), LowByte(n1.0), LowByte(n2.0), LowByte(n3.0), LowByte(n4.0), LowByte(n5.0))
  }

  lemma HexDigitReads(n: nat)
    requires n < 16
    ensures DigitValue(QP.HexDigit(n)) == Some(n)
    ensures QP.HexDigit(n) != '_' && QP.HexDigit(n) != '/' && QP.HexDigit(n) != ':'
    ensures QP.HexDigit(n) != 'x' && QP.HexDigit(n) != 'X'
    ensures !IsSpace(QP.HexDigit(n)) && QP.HexDigit(n) != '-' && QP.HexDigit(n) != '+'
  {
    assert QP.HEX_DIGITS == ['0', '1', '2', '3', '4', '5', '6', '7', '8', '9', 'A', 'B', 'C', 'D', 'E', 'F'];
  }

  /** One byte in its place is read in full, and only it. */
  lemma PairReads(s: string, i: nat, b: byte)
    requires i + 2 <= |s| && s[i] == QP.HexDigit(b / 16) && s[i + 1] == QP.HexDigit(b % 16)
    requires At(s, i + 2) == ':' || i + 2 == |s|
    ensures Strtol16(s, i) == (b, i + 2)
  {
    HexDigitReads(b / 16);
    HexDigitReads(b % 16);
    assert SkipSpaces(s, i) == i;
    assert DigitValue(At(s, i + 2)).None?;
    assert Digits(s, i + 2, b) == (b, i + 2);
    assert 16 * (b / 16) + b % 16 == b;
    assert Digits(s, i + 1, b / 16) == (b, i + 2);
  }

  lemma PrintedAt(a: DeviceAddress)
    ensures var s := Print(a);
            s[0] == QP.HexDigit(a.b0 / 16) && s[1] == QP.HexDigit(a.b0 % 16) && s[2] == ':' &&
            s[3] == QP.HexDigit(a.b1 / 16) && s[4] == QP.HexDigit(a.b1 % 16) && s[5] == ':' &&
            s[6] == QP.HexDigit(a.b2 / 16) && s[7] == QP.HexDigit(a.b2 % 16) && s[8] == ':' &&
            s[9] == QP.HexDigit(a.b3 / 16) && s[10] == QP.HexDigit(a.b3 % 16) && s[11] == ':' &&
            s[12] == QP.HexDigit(a.b4 / 16) && s[13] == QP.HexDigit(a.b4 % 16) && s[14] == ':' &&
            s[15] == QP.HexDigit(a.b5 / 16) && s[16] == QP.HexDigit(a.b5 % 16)
  {
  }

  /** Printing is undone by parsing. */
  lemma ParsePrinted(a: DeviceAddress)
    ensures Parse(Print(a)) == a
  {
    var s := Print(a);
    PrintedAt(a);
    hide Print, Strtol16;
    PairReads(s, 0, a.b0);
    PairReads(s, 3, a.b1);
    PairReads(s, 6, a.b2);
    PairReads(s, 9, a.b3);
    PairReads(s, 12, a.b4);
    PairReads(s, 15, a.b5);
  }

  // ----- object paths -----

  function Replaced(s: string, c: char, d: char): (r: string)
    ensures |r| == |s|
  {
    if s == "" then "" else [if s[0] == c then d else s[0]] + Replaced(s[1..], c, d)
  }

  lemma {:induction false} ReplacedAt(s: string, c: char, d: char, i: nat)
    requires i < |s|
    ensures Replaced(s, c, d)[i] == if s[i] == c then d else s[i]
  {
    if i > 0 {
      ReplacedAt(s[1..], c, d, i - 1);
    }
  }

  lemma {:induction false} ReplacedConcat(a: string, b: string, c: char, d: char)
    ensures Replaced(a + b, c, d) == Replaced(a, c, d) + Replaced(b, c, d)
  {
    if a == "" {
      assert a + b == b;
    } else {
      assert (a + b)[1..] == a[1..] + b;
      ReplacedConcat(a[1..], b, c, d);
    }
  }

  /** The path of a device under an adapter: every ':' of the whole path becomes '_'. */
  function DevicePath(adapter: string, a: DeviceAddress): string {
    Replaced(adapter + "/dev_" + Print(a), ':', '_')
  }

  /** "dev_" stands at `i`. */
  predicate MarkAt(s: string, i: nat) {
    i + 4 <= |s| && s[i] == 'd' && s[i + 1] == 'e' && s[i + 2] == 'v' && s[i + 3] == '_'
  }

  /** `strstr(s + i, "dev_")`. */
  function FindMark(s: string, i: nat): (r: Option<nat>)
    ensures r.Some? ==> i <= r.value && MarkAt(s, r.value) && forall j :: i <= j < r.value ==> !MarkAt(s, j)
    ensures r.None? ==> forall j :: i <= j ==> !MarkAt(s, j)
    decreases |s| - i
  {
    if i + 4 > |s| then None
    else if MarkAt(s, i) then Some(i)
    else FindMark(s, i + 1)
  }

  /** What `g_strlcpy` keeps of a string in an address buffer. */
  function Truncated(s: string): string {
    if |s| < BT_ADDRESS_STRING_SIZE then s else s[..BT_ADDRESS_STRING_SIZE - 1]
  }

  /** The address in a device path: at most 17 octets behind the first "dev_", '_' read as ':'. */
  function PathAddress(path: string): Option<string> {
    match FindMark(path, 0)
    case None => None
    case Some(i) => Some(Replaced(Truncated(path[i + 4..]), '_', ':'))
  }

  function CountOf(s: seq<char>, c: char): nat {
    if s == [] then 0 else (if s[0] == c then 1 else 0) + CountOf(s[1..], c)
  }

  lemma {:induction false} CountFalls(s: seq<char>, c: char, d: char, i: nat)
    requires i < |s| && s[i] == c && c != d
    ensures CountOf(s[i := d], c) < CountOf(s, c)
  {
    if i == 0 {
      assert s[0 := d][1..] == s[1..];
    } else {
      assert s[i := d][1..] == s[1..][i - 1 := d];
      CountFalls(s[1..], c, d, i - 1);
    }
  }

  /** `strchr(s, c)`. */
  method FindChar(buf: array<char>, c: char) returns (pos: int)
    ensures -1 <= pos < buf.Length
    ensures pos >= 0 ==> buf[pos] == c
    ensures pos < 0 ==> forall j :: 0 <= j < buf.Length ==> buf[j] != c
  {
    pos := 0;
    while pos < buf.Length
      invariant 0 <= pos <= buf.Length
      invariant forall j :: 0 <= j < pos ==> buf[j] != c
    {
      if buf[pos] == c {
        return;
      }
      pos := pos + 1;
    }
    pos := -1;
  }

  /** Rewrites one character into another in place, from the front each time; the loop ends because
      there is one less of it in every round. */
  method ReplaceAll(buf: array<char>, c: char, d: char)
    requires c != d
    modifies buf
    ensures buf[..] == Replaced(old(buf[..]), c, d)
  {
    var pos := FindChar(buf, c);
    while pos >= 0
      invariant -1 <= pos < buf.Length
      invariant pos >= 0 ==> buf[pos] == c
      invariant pos < 0 ==> forall j :: 0 <= j < buf.Length ==> buf[j] != c
      invariant forall j :: 0 <= j < buf.Length ==> buf[j] == old(buf[j]) || (old(buf[j]) == c && buf[j] == d)
      decreases CountOf(buf[..], c)
    {
      CountFalls(buf[..], c, d, pos);
      assert buf[..][pos := d] == buf[..pos] + [d] + buf[pos + 1..];
      ghost var was := buf[..];
      buf[pos] := d;
      assert buf[..] == was[pos := d];
      pos := FindChar(buf, c);
    }
    ghost var s := old(buf[..]);
    forall j | 0 <= j < buf.Length ensures buf[..][j] == Replaced(s, c, d)[j] {
      ReplacedAt(s, c, d, j);
    }
  }

  method CopyOf(s: string) returns (buf: array<char>)
    ensures fresh(buf) && buf[..] == s
  {
    buf := new char[|s|](i requires 0 <= i < |s| => s[i]);
  }

  /** Extracts the address from a device path into a buffer of its own. */
  method DevicePathToAddress(path: Option<string>) returns (r: Option<string>)
    ensures r == if path.None? then None else PathAddress(path.value)
  {
    if path.None? {
      return None;
    }
    var at := FindMark(path.value, 0);
    if at.None? {
      return None;
    }
    var buf := CopyOf(Truncated(path.value[at.value + 4..]));
    ReplaceAll(buf, '_', ':');
    r := Some(buf[..]);
  }

  // ----- the round trip through a path -----

  ghost predicate HasMark(s: string) {
    exists i: nat :: MarkAt(s, i)
  }

  /** What of the adapter path is left in a device path. */
  function Base(adapter: string): string {
    Replaced(adapter, ':', '_')
  }

  lemma PathParts(adapter: string, a: DeviceAddress)
    ensures DevicePath(adapter, a) == Base(adapter) + ("/dev_" + Replaced(Print(a), ':', '_'))
  {
    Assoc(adapter, "/dev_", Print(a));
    ReplacedConcat(adapter, "/dev_" + Print(a), ':', '_');
    ReplacedConcat("/dev_", Print(a), ':', '_');
    var r := Replaced("/dev_", ':', '_');
    forall i | 0 <= i < 5 ensures r[i] == "/dev_"[i] {
      ReplacedAt("/dev_", ':', '_', i);
    }
    assert r == "/dev_";
  }

  lemma PrintedChars(a: DeviceAddress, i: nat)
    requires i < |Print(a)|
    ensures Print(a)[i] != '_' && Print(a)[i] != '/'
  {
    PrintedAt(a);
    hide Print;
    HexDigitReads(a.b0 / 16); HexDigitReads(a.b0 % 16);
    HexDigitReads(a.b1 / 16); HexDigitReads(a.b1 % 16);
    HexDigitReads(a.b2 / 16); HexDigitReads(a.b2 % 16);
    HexDigitReads(a.b3 / 16); HexDigitReads(a.b3 % 16);
    HexDigitReads(a.b4 / 16); HexDigitReads(a.b4 % 16);
    HexDigitReads(a.b5 / 16); HexDigitReads(a.b5 % 16);
  }

  lemma RestoreColons(a: DeviceAddress)
    ensures Replaced(Replaced(Print(a), ':', '_'), '_', ':') == Print(a)
  {
    var p := Print(a);
    var q := Replaced(p, ':', '_');
    forall i | 0 <= i < |p| ensures Replaced(q, '_', ':')[i] == p[i] {
      ReplacedAt(p, ':', '_', i);
      ReplacedAt(q, '_', ':', i);
      PrintedChars(a, i);
    }
  }

  /** Where the device's own "dev_" stands. */
  lemma OwnMark(base: string, tail: string)
    ensures MarkAt(base + ("/dev_" + tail), |base| + 1)
    ensures (base + ("/dev_" + tail))[|base| + 5..] == tail
    ensures forall j: nat :: j <= |base| ==> (MarkAt(base + ("/dev_" + tail), j) <==> MarkAt(base, j))
  {
    var path := base + ("/dev_" + tail);
    assert path[|base|] == '/';
    assert forall i :: 0 <= i < |base| ==> path[i] == base[i];
  }

  /** A device path gives back the address it was built for, and with it the bytes. */
  lemma PathReads(adapter: string, a: DeviceAddress)
    requires !HasMark(Base(adapter))
    ensures PathAddress(DevicePath(adapter, a)) == Some(Print(a))
    ensures Parse(PathAddress(DevicePath(adapter, a)).value) == a
  {
    var base, tail := Base(adapter), Replaced(Print(a), ':', '_');
    PathParts(adapter, a);
    OwnMark(base, tail);
    RestoreColons(a);
    ParsePrinted(a);
    hide Replaced, Print, Parse, Base, DevicePath;
    var path := base + ("/dev_" + tail);
    assert FindMark(path, 0) == Some(|base| + 1);
    assert Truncated(tail) == tail;
  }

  lemma ForeignMark(base: string, tail: string, m: nat)
    requires FindMark(base, 0) == Some(m)
    ensures FindMark(base + ("/dev_" + tail), 0) == Some(m)
  {
    OwnMark(base, tail);
  }

  /** With a "dev_" of the adapter's in front, this is what is taken for the address. */
  lemma ForeignAddress(adapter: string, a: DeviceAddress, m: nat) returns (cut: string)
    requires FindMark(Base(adapter), 0) == Some(m)
    ensures m + 4 <= |Base(adapter)|
    ensures PathAddress(DevicePath(adapter, a)) == Some(Replaced(cut, '_', ':'))
    ensures |Base(adapter)| < m + 21 ==> |Base(adapter)| - (m + 4) < |cut| && cut[|Base(adapter)| - (m + 4)] == '/'
    ensures |Base(adapter)| >= m + 21 ==> cut == Base(adapter)[m + 4..m + 21]
  {
    var base, tail := Base(adapter), Replaced(Print(a), ':', '_');
    PathParts(adapter, a);
    ForeignMark(base, tail, m);
    var path := base + ("/dev_" + tail);
    cut := Truncated(path[m + 4..]);
    CutOf(base, tail, m);
  }

  lemma CutOf(base: string, tail: string, m: nat)
    requires m + 4 <= |base|
    ensures var cut := Truncated((base + ("/dev_" + tail))[m + 4..]);
            (|base| < m + 21 ==> |base| - (m + 4) < |cut| && cut[|base| - (m + 4)] == '/') &&
            (|base| >= m + 21 ==> cut == base[m + 4..m + 21])
  {
    var path := base + ("/dev_" + tail);
    assert path[|base|] == '/';
    assert |base| >= m + 21 ==> path[m + 4..][..17] == base[m + 4..m + 21];
  }

  lemma NeverASlash(cut: string, k: nat, a: DeviceAddress)
    requires k < |cut| && cut[k] == '/'
    ensures Replaced(cut, '_', ':') != Print(a)
  {
    ReplacedAt(cut, '_', ':', k);
    if |cut| == |Print(a)| {
      PrintedChars(a, k);
    }
  }

  lemma TwoAddresses() returns (a: DeviceAddress, b: DeviceAddress)
    ensures Print(a) != Print(b)
  {
    a, b := DeviceAddress(0, 0, 0, 0, 0, 0), DeviceAddress(1, 0, 0, 0, 0, 0);
    ParsePrinted(a);
    ParsePrinted(b);
  }

  lemma FirstMark(base: string) returns (m: nat)
    requires HasMark(base)
    ensures FindMark(base, 0) == Some(m)
  {
    var i: nat :| MarkAt(base, i);
    m := FindMark(base, 0).value;
  }

  /** An adapter path with a "dev_" of its own hides some device's address. */
  lemma SomePathFails(adapter: string) returns (a: DeviceAddress)
    requires HasMark(Base(adapter))
    ensures PathAddress(DevicePath(adapter, a)) != Some(Print(a))
  {
    hide *;
    var m := FirstMark(Base(adapter));
    var b;
    a, b := TwoAddresses();
    var ca := ForeignAddress(adapter, a, m);
    var cb := ForeignAddress(adapter, b, m);
    if |Base(adapter)| < m + 21 {
      NeverASlash(ca, |Base(adapter)| - (m + 4), a);
    } else if Replaced(ca, '_', ':') == Print(a) {
      a := b;
    }
  }

  /** Every address survives the round trip under an adapter path, if and only if that path, its
      ':' turned into '_', holds no "dev_". */
  lemma PathRoundTripIff(adapter: string)
    ensures (forall a :: PathAddress(DevicePath(adapter, a)) == Some(Print(a))) <==> !HasMark(Base(adapter))
  {
    if HasMark(Base(adapter)) {
      var a := SomePathFails(adapter);
    } else {
      forall a ensures PathAddress(DevicePath(adapter, a)) == Some(Print(a)) {
        PathReads(adapter, a);
      }
    }
  }
}

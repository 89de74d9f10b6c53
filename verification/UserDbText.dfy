/** The text helpers of the user database file: splitting, hexadecimal and decimal numbers, and the
    test for dotted IPv4 addresses. */
module UserDbText {
  import opened Basics

  // ---------- splitting ----------

  /** The first position of a character, or the length. */
  function IndexOf(s: string, d: char): (i: nat)
    ensures i <= |s| && d !in s[..i]
    ensures i < |s| ==> s[i] == d
  {
    if s == "" || s[0] == d then 0 else 1 + IndexOf(s[1..], d)
  }

  /** What repeated getline reads: the pieces between delimiters, and no piece after a final one. */
  function SplitBy(s: string, d: char): seq<string>
    decreases |s|
  {
    if s == "" then []
    else
      var i := IndexOf(s, d);
      if i == |s| then [s] else [s[..i]] + SplitBy(s[i + 1..], d)
  }

  lemma SplitHead(s: string, d: char)
    requires s != ""
    ensures var i := IndexOf(s, d);
            SplitBy(s, d) == [s[..i]] + SplitBy(if i == |s| then "" else s[i + 1..], d)
  {
    hide IndexOf;
    assert SplitBy("", d) == [];
    if IndexOf(s, d) == |s| {
      assert s[..|s|] == s;
    }
  }

  lemma SplitEmpty(d: char)
    ensures SplitBy("", d) == []
  {
  }

  /** The getline loop. */
  method SplitString(s: string, d: char) returns (tokens: seq<string>)
    ensures tokens == SplitBy(s, d)
  {
    hide *;
    SplitEmpty(d);
    ghost var whole := SplitBy(s, d);
    tokens := [];
    var rest := s;
    while rest != ""
      invariant |tokens| <= |whole| && tokens == whole[..|tokens|]
      invariant SplitBy(rest, d) == whole[|tokens|..]
      decreases |rest|
    {
      SplitHead(rest, d);
      var i := IndexOf(rest, d);
      assert whole[|tokens|..][0] == rest[..i];
      tokens := tokens + [rest[..i]];
      rest := if i == |rest| then "" else rest[i + 1..];
    }
  }

  lemma {:induction false} IndexAfter(a: string, d: char, rest: string)
    requires d !in a
    ensures IndexOf(a + [d] + rest, d) == |a|
  {
    if a != "" {
      assert (a + [d] + rest)[1..] == a[1..] + [d] + rest;
      IndexAfter(a[1..], d, rest);
    }
  }

  lemma SplitFirst(a: string, d: char, rest: string)
    requires d !in a
    ensures SplitBy(a + [d] + rest, d) == [a] + SplitBy(rest, d)
  {
    var s := a + [d] + rest;
    IndexAfter(a, d, rest);
    assert s[..|a|] == a && s[|a| + 1..] == rest;
  }

  lemma {:induction false} NotFound(a: string, d: char)
    requires d !in a
    ensures IndexOf(a, d) == |a|
  {
    if a != "" {
      NotFound(a[1..], d);
    }
  }

  lemma SplitLast(a: string, d: char)
    requires d !in a && a != ""
    ensures SplitBy(a, d) == [a]
  {
    NotFound(a, d);
  }

  /** No piece contains the delimiter, or any character the whole does not. */
  lemma {:induction false} PiecesAreClean(s: string, d: char, c: char)
    ensures forall p :: p in SplitBy(s, d) ==> d !in p && (c in p ==> c in s)
    decreases |s|
  {
    if s != "" {
      var i := IndexOf(s, d);
      if i < |s| {
        PiecesAreClean(s[i + 1..], d, c);
      }
    }
  }

  /** The first piece begins as the whole does. */
  lemma FirstPieceBegins(s: string, d: char)
    requires s != "" && SplitBy(s, d)[0] != ""
    ensures SplitBy(s, d)[0][0] == s[0]
  {
  }

  // ---------- decimal numbers ----------

  predicate IsDigit(c: char) {
    '0' <= c <= '9'
  }

  function DigitValue(c: char): (v: nat)
    requires IsDigit(c)
    ensures v <= 9
  {
    c as int - '0' as int
  }

  function DigitChar(v: nat): (c: char)
    requires v <= 9
    ensures IsDigit(c) && DigitValue(c) == v
  {
    (v + '0' as int) as char
  }

  predicate AllDigits(s: string) {
    forall i :: 0 <= i < |s| ==> IsDigit(s[i])
  }

  function Decimal(n: nat): (s: string)
    ensures s != "" && AllDigits(s)
  {
    if n < 10 then [DigitChar(n)] else Decimal(n / 10) + [DigitChar(n % 10)]
  }

  const DIGITS: string := "0123456789"

  /** The decimal form digit by digit, the most significant first and without leading zeros. */
  lemma DecimalStep(n: nat, d: nat)
    requires d <= 9
    ensures Decimal(d) == [DIGITS[d]]
    ensures n >= 1 ==> Decimal(10 * n + d) == Decimal(n) + [DIGITS[d]]
  {
    assert DigitChar(d) == DIGITS[d];
  }

  function Zeros(n: nat): (s: string)
    ensures |s| == n && forall i :: 0 <= i < n ==> s[i] == '0'
  {
    seq(n, _ => '0')
  }

  /** Decimal digits filled up with zeros on the left. */
  function Padded(n: nat, width: nat): (s: string)
    ensures s != "" && AllDigits(s)
  {
    var digits := Decimal(n);
    if |digits| < width then Zeros(width - |digits|) + digits else digits
  }

  /** The number at the front of a text, continuing one read so far. */
  function Leading(s: string, acc: nat): nat {
    if s == "" || !IsDigit(s[0]) then acc else Leading(s[1..], 10 * acc + DigitValue(s[0]))
  }

  lemma {:induction false} LeadingAppend(a: string, b: string, acc: nat)
    requires AllDigits(a)
    ensures Leading(a + b, acc) == Leading(b, Leading(a, acc))
    decreases |a|
  {
    if a == "" {
      assert a + b == b;
    } else {
      assert (a + b)[1..] == a[1..] + b;
      LeadingAppend(a[1..], b, 10 * acc + DigitValue(a[0]));
    }
  }

  lemma {:induction false} LeadingDecimal(n: nat)
    ensures Leading(Decimal(n), 0) == n
  {
    if n >= 10 {
      LeadingDecimal(n / 10);
      LeadingAppend(Decimal(n / 10), [DigitChar(n % 10)], 0);
      assert Leading([DigitChar(n % 10)], n / 10) == Leading([], n);
    } else {
      assert Leading([DigitChar(n)], 0) == Leading([], n);
    }
  }

  lemma {:induction false} LeadingZeros(n: nat)
    ensures Leading(Zeros(n), 0) == 0
  {
    if n > 0 {
      assert Zeros(n)[1..] == Zeros(n - 1);
      assert DigitValue('0') == 0;
      LeadingZeros(n - 1);
    }
  }

  lemma LeadingPadded(n: nat, width: nat)
    ensures Leading(Padded(n, width), 0) == n
  {
    LeadingDecimal(n);
    var digits := Decimal(n);
    if |digits| < width {
      LeadingZeros(width - |digits|);
      LeadingAppend(Zeros(width - |digits|), digits, 0);
    }
  }

  const WHITESPACE: set<char> := {' ', '\t', '\n', 11 as char, 12 as char, '\r'}

  function SkipSpace(s: string): string {
    if s != "" && s[0] in WHITESPACE then SkipSpace(s[1..]) else s
  }

  const TWO63: nat := 0x8000_0000_0000_0000
  const TWO64: nat := 0x1_0000_0000_0000_0000

  /** strtoull: spaces and a sign are skipped, a value out of range saturates, a minus wraps around. */
  function StrToUll(s: string): (v: nat)
    ensures v < TWO64
  {
    var t := SkipSpace(s);
    var signed := t != "" && (t[0] == '-' || t[0] == '+');
    var v := Leading(if signed then t[1..] else t, 0);
    if v >= TWO64 then TWO64 - 1
    else if signed && t[0] == '-' then (TWO64 - v) % TWO64
    else v
  }

  /** strtol cut down to 16 bits. */
  function StrToU16(s: string): (v: nat)
    ensures v < 0x10000
  {
    var t := SkipSpace(s);
    var signed := t != "" && (t[0] == '-' || t[0] == '+');
    var v := Leading(if signed then t[1..] else t, 0);
    var long: int :=
      if signed && t[0] == '-' then if v > TWO63 then 0 - TWO63 else 0 - v
      else if v >= TWO63 then TWO63 - 1 else v;
    long % 0x10000
  }

  lemma ReadPadded(n: nat, width: nat)
    ensures n < TWO64 ==> StrToUll(Padded(n, width)) == n
    ensures n < 0x10000 ==> StrToU16(Padded(n, width)) == n
  {
    var s := Padded(n, width);
    LeadingPadded(n, width);
    assert IsDigit(s[0]);
    assert SkipSpace(s) == s;
  }

  /** A number with a blank and a sign before it and anything but a digit behind it: the IMSI saturates at
      64 bits and wraps around below 0; the QCI saturates at a long and keeps its lowest 16 bits. */
  lemma ReadSigned(blank: char, n: nat, width: nat, rest: string)
    requires blank in WHITESPACE && (rest == "" || !IsDigit(rest[0]))
    ensures var t := Padded(n, width) + rest;
            && StrToUll([blank] + "+" + t) == (if n < TWO64 then n else TWO64 - 1)
            && StrToUll([blank] + "-" + t) == (if n >= TWO64 then TWO64 - 1 else if n == 0 then 0 else TWO64 - n)
            && StrToU16([blank] + "+" + t) == (if n < TWO63 then n % 0x10000 else 0xFFFF)
            && StrToU16([blank] + "-" + t) == (if n <= TWO63 then (0 - n) % 0x10000 else 0)
  {
    var t := Padded(n, width) + rest;
    LeadingPadded(n, width);
    LeadingAppend(Padded(n, width), rest, 0);
    assert Leading(t, 0) == n;
    hide Padded, Leading, SkipSpace;
    SkipOne(blank, "+", t);
    SkipOne(blank, "-", t);
  }

  lemma SkipOne(blank: char, sign: string, t: string)
    requires blank in WHITESPACE && |sign| == 1 && sign[0] !in WHITESPACE
    ensures SkipSpace([blank] + sign + t) == sign + t && (sign + t)[1..] == t && (sign + t)[0] == sign[0]
  {
    assert ([blank] + sign + t)[1..] == sign + t;
    assert SkipSpace(sign + t) == sign + t;
  }

  // ---------- hexadecimal ----------

  function HexChar(v: nat): (c: char)
    requires v < 16
    ensures c != ',' && c != '\n'
  {
    if v < 10 then (v + '0' as int) as char else (v - 10 + 'a' as int) as char
  }

  const HEX_DIGITS: string := "0123456789abcdef"

  /** The sixteen digits in order. */
  lemma HexCharIs(v: nat)
    requires v < 16
    ensures HexChar(v) == HEX_DIGITS[v]
  {
  }

  /** The value of a hexadecimal digit, 16 for any other character. */
  function HexValue(c: char): (v: nat)
    ensures v <= 16
  {
    if '0' <= c <= '9' then c as int - '0' as int
    else if 'a' <= c <= 'f' then c as int - 'a' as int + 10
    else if 'A' <= c <= 'F' then c as int - 'A' as int + 10
    else 16
  }

  lemma HexDigit(v: nat)
    requires v < 16
    ensures HexValue(HexChar(v)) == v
  {
  }

  function HexString(bytes: Bytes): (s: string)
    ensures |s| == 2 * |bytes|
  {
    if bytes == [] then "" else [HexChar(bytes[0] / 16), HexChar(bytes[0] % 16)] + HexString(bytes[1..])
  }

  /** What scanning leaves in byte i when the text has no two hexadecimal digits there. */
  type Leftover = (string, nat) -> byte

  function ByteAt(s: string, i: nat, leftover: Leftover): byte {
    if 2 * i + 1 < |s| && HexValue(s[2 * i]) < 16 && HexValue(s[2 * i + 1]) < 16
    then 16 * HexValue(s[2 * i]) + HexValue(s[2 * i + 1]) else leftover(s, i)
  }

  function ReadHex(s: string, len: nat, leftover: Leftover): (b: Bytes)
    ensures |b| == len
  {
    seq(len, i requires 0 <= i < len => ByteAt(s, i, leftover))
  }

  /** The scanning loop: two characters a byte, and bytes that do not scan keep what was there. */
  method ScanHex(s: string, len: nat, leftover: Leftover) returns (b: Bytes)
    ensures b == ReadHex(s, len, leftover)
  {
    b := [];
    while |b| < len
      invariant |b| <= len && forall i :: 0 <= i < |b| ==> b[i] == ByteAt(s, i, leftover)
    {
      b := b + [ByteAt(s, |b|, leftover)];
    }
  }

  /** The printing loop. */
  method FormatHex(bytes: Bytes) returns (s: string)
    ensures s == HexString(bytes)
  {
    s := "";
    var i := 0;
    while i < |bytes|
      invariant i <= |bytes| && s + HexString(bytes[i..]) == HexString(bytes)
    {
      s := s + [HexChar(bytes[i] / 16), HexChar(bytes[i] % 16)];
      assert bytes[i..][1..] == bytes[i + 1..];
      i := i + 1;
    }
  }

  lemma {:induction false} HexStringAt(bytes: Bytes, i: nat)
    requires i < |bytes|
    ensures HexString(bytes)[2 * i] == HexChar(bytes[i] / 16)
    ensures HexString(bytes)[2 * i + 1] == HexChar(bytes[i] % 16)
  {
    if i > 0 {
      HexStringAt(bytes[1..], i - 1);
    }
  }

  /** Two digits a byte, the higher four bits first. */
  lemma HexStringDigits(bytes: Bytes, i: nat)
    requires i < |bytes|
    ensures HexString(bytes)[2 * i] == HEX_DIGITS[bytes[i] / 16]
    ensures HexString(bytes)[2 * i + 1] == HEX_DIGITS[bytes[i] % 16]
  {
    HexStringAt(bytes, i);
    HexCharIs(bytes[i] / 16);
    HexCharIs(bytes[i] % 16);
  }

  lemma HexRoundTrip(bytes: Bytes, leftover: Leftover)
    ensures ReadHex(HexString(bytes), |bytes|, leftover) == bytes
  {
    forall i | 0 <= i < |bytes|
      ensures ReadHex(HexString(bytes), |bytes|, leftover)[i] == bytes[i]
    {
      HexStringAt(bytes, i);
      HexDigit(bytes[i] / 16);
      HexDigit(bytes[i] % 16);
    }
  }

  lemma {:induction false} HexIsClean(bytes: Bytes)
    ensures ',' !in HexString(bytes) && '\n' !in HexString(bytes)
  {
    if bytes != [] {
      HexIsClean(bytes[1..]);
    }
  }

  // ---------- IPv4 addresses ----------

  /** The scan of inet_pton: octets seen, whether the current one has a digit, and its value. */
  predicate ScanQuad(s: string, octets: nat, sawDigit: bool, value: nat) {
    if s == "" then octets == 4 && sawDigit
    else if IsDigit(s[0]) then
      var v := 10 * value + DigitValue(s[0]);
      if sawDigit && value == 0 then false
      else if v > 255 then false
      else if !sawDigit then octets < 4 && ScanQuad(s[1..], octets + 1, true, v)
      else ScanQuad(s[1..], octets, true, v)
    else if s[0] == '.' && sawDigit then octets < 4 && ScanQuad(s[1..], octets, false, 0)
    else false
  }

  predicate DottedQuad(s: string) {
    ScanQuad(s, 0, false, 0)
  }

  lemma {:induction false} ScanIsClean(s: string, octets: nat, sawDigit: bool, value: nat)
    requires ScanQuad(s, octets, sawDigit, value)
    ensures forall i :: 0 <= i < |s| ==> IsDigit(s[i]) || s[i] == '.'
  {
    if s != "" {
      if IsDigit(s[0]) {
        ScanIsClean(s[1..], if sawDigit then octets else octets + 1, true, 10 * value + DigitValue(s[0]));
      } else {
        ScanIsClean(s[1..], octets, false, 0);
      }
      assert forall i :: 1 <= i < |s| ==> s[i] == s[1..][i - 1];
    }
  }

  // ---------- what the scan accepts ----------

  ghost predicate IsOctet(s: string) {
    exists a: nat :: a <= 255 && s == Decimal(a)
  }

  lemma OctetIs(a: nat)
    requires a <= 255
    ensures IsOctet(Decimal(a))
  {
  }

  /** n octets, each in decimal without leading zeros, with dots between them. */
  ghost predicate Octets(s: string, n: nat)
    decreases n
  {
    if n == 0 then false
    else if n == 1 then IsOctet(s)
    else exists k: nat :: k < |s| && s[k] == '.' && IsOctet(s[..k]) && Octets(s[k + 1..], n - 1)
  }

  lemma OneMore(front: string, s: string, k: nat)
    requires 0 < k <= |s|
    ensures s[..k] == [s[0]] + s[1..][..k - 1] && front + s[..k] == (front + [s[0]]) + s[1..][..k - 1]
  {
  }

  /** The octet being scanned ends after k more characters, at the end of the text or at a dot. */
  lemma {:induction false} OctetEnds(s: string, octets: nat, value: nat) returns (k: nat, a: nat)
    requires ScanQuad(s, octets, true, value) && value <= 255
    ensures k <= |s| && a <= 255 && Decimal(value) + s[..k] == Decimal(a)
    ensures k == |s| ==> octets == 4
    ensures k < |s| ==> s[k] == '.' && octets < 4 && ScanQuad(s[k + 1..], octets, false, 0)
  {
    if s == "" || !IsDigit(s[0]) {
      k, a := 0, value;
      assert Decimal(value) + s[..0] == Decimal(value);
    } else {
      var v := 10 * value + DigitValue(s[0]);
      assert v / 10 == value && v % 10 == DigitValue(s[0]) && DigitChar(v % 10) == s[0];
      assert Decimal(v) == Decimal(value) + [s[0]];
      var k', a' := OctetEnds(s[1..], octets, v);
      k, a := k' + 1, a';
      OneMore(Decimal(value), s, k);
    }
  }

  /** Scanning an octet from its beginning. */
  lemma {:induction false} OctetScans(a: nat, tail: string, octets: nat)
    requires a <= 255 && octets < 4
    ensures ScanQuad(Decimal(a) + tail, octets, false, 0) == ScanQuad(tail, octets + 1, true, a)
    decreases a
  {
    var s := Decimal(a) + tail;
    if a < 10 {
      assert s[0] == DigitChar(a) && s[1..] == tail;
    } else {
      var d := DigitChar(a % 10);
      OctetScans(a / 10, [d] + tail, octets);
      assert s == Decimal(a / 10) + ([d] + tail);
      assert ([d] + tail)[0] == d && ([d] + tail)[1..] == tail;
    }
  }

  lemma OctetsJoin(s: string, n: nat, k: nat)
    requires n >= 2 && k < |s| && s[k] == '.' && IsOctet(s[..k]) && Octets(s[k + 1..], n - 1)
    ensures Octets(s, n)
  {
    hide IsOctet;
  }

  lemma OctetsSplit(s: string, n: nat) returns (k: nat)
    requires n >= 2 && Octets(s, n)
    ensures k < |s| && s[k] == '.' && IsOctet(s[..k]) && Octets(s[k + 1..], n - 1)
  {
    hide IsOctet;
    k :| k < |s| && s[k] == '.' && IsOctet(s[..k]) && Octets(s[k + 1..], n - 1);
  }

  lemma OneOctet(s: string)
    ensures Octets(s, 1) == IsOctet(s)
  {
    hide IsOctet;
  }

  /** The first octet a scan finds. */
  lemma FirstScanned(s: string, octets: nat) returns (k: nat)
    requires octets < 4 && ScanQuad(s, octets, false, 0)
    ensures k <= |s| && IsOctet(s[..k])
    ensures k == |s| ==> octets == 3
    ensures k < |s| ==> s[k] == '.' && octets < 3 && ScanQuad(s[k + 1..], octets + 1, false, 0)
  {
    var d := DigitValue(s[0]);
    assert DigitChar(d) == s[0] && Decimal(d) == [s[0]];
    var k', a := OctetEnds(s[1..], octets + 1, d);
    hide Decimal, ScanQuad;
    k := k' + 1;
    assert s[..k] == [s[0]] + s[1..][..k'];
    OctetIs(a);
    if k < |s| {
      assert s[1..][k' + 1..] == s[k + 1..];
    }
  }

  lemma {:induction false} ScanGivesOctets(s: string, octets: nat)
    requires octets < 4 && ScanQuad(s, octets, false, 0)
    ensures Octets(s, 4 - octets)
    decreases 4 - octets
  {
    hide ScanQuad, IsOctet, Octets;
    var k := FirstScanned(s, octets);
    if k == |s| {
      assert s[..k] == s;
      OneOctet(s);
    } else {
      ScanGivesOctets(s[k + 1..], octets + 1);
      OctetsJoin(s, 4 - octets, k);
    }
  }

  lemma OctetThenScan(s: string, octets: nat, k: nat)
    requires octets < 3 && k < |s| && s[k] == '.' && IsOctet(s[..k]) && ScanQuad(s[k + 1..], octets + 1, false, 0)
    ensures ScanQuad(s, octets, false, 0)
  {
    var a: nat :| a <= 255 && s[..k] == Decimal(a);
    var tail := s[k..];
    hide Decimal;
    assert s == s[..k] + tail && tail[0] == '.' && tail[1..] == s[k + 1..];
    OctetScans(a, tail, octets);
  }

  lemma LastOctetScans(s: string)
    requires IsOctet(s)
    ensures ScanQuad(s, 3, false, 0)
  {
    var a: nat :| a <= 255 && s == Decimal(a);
    OctetScans(a, "", 3);
    assert s + "" == s;
    hide Decimal;
  }

  lemma {:induction false} OctetsScan(s: string, octets: nat)
    requires octets < 4 && Octets(s, 4 - octets)
    ensures ScanQuad(s, octets, false, 0)
    decreases 4 - octets
  {
    hide ScanQuad, IsOctet, Octets;
    if octets == 3 {
      OneOctet(s);
      LastOctetScans(s);
    } else {
      var k := OctetsSplit(s, 4 - octets);
      OctetsScan(s[k + 1..], octets + 1);
      OctetThenScan(s, octets, k);
    }
  }

  function Dotted(a: nat, b: nat, c: nat, d: nat): string {
    Decimal(a) + "." + (Decimal(b) + "." + (Decimal(c) + "." + Decimal(d)))
  }

  lemma FirstOctet(s: string, n: nat) returns (a: nat, rest: string)
    requires n >= 2 && Octets(s, n)
    ensures a <= 255 && s == Decimal(a) + "." + rest && Octets(rest, n - 1)
  {
    hide Octets, Decimal;
    var k := OctetsSplit(s, n);
    a :| a <= 255 && s[..k] == Decimal(a);
    rest := s[k + 1..];
    assert s == s[..k] + [s[k]] + rest;
  }

  lemma LastOctet(s: string) returns (a: nat)
    requires Octets(s, 1)
    ensures a <= 255 && s == Decimal(a)
  {
    hide Octets, Decimal;
    OneOctet(s);
    a :| a <= 255 && s == Decimal(a);
  }

  lemma MoreOctets(a: nat, rest: string, n: nat)
    requires a <= 255 && n >= 1 && Octets(rest, n)
    ensures Octets(Decimal(a) + "." + rest, n + 1)
  {
    hide Octets, Decimal;
    var s, k := Decimal(a) + "." + rest, |Decimal(a)|;
    OctetIs(a);
    assert s[..k] == Decimal(a) && s[k] == '.' && s[k + 1..] == rest;
    OctetsJoin(s, n + 1, k);
  }

  lemma DottedIsAccepted(a: nat, b: nat, c: nat, d: nat)
    requires a <= 255 && b <= 255 && c <= 255 && d <= 255
    ensures DottedQuad(Dotted(a, b, c, d))
  {
    hide ScanQuad, Octets, IsOctet, Decimal;
    OctetIs(d);
    OneOctet(Decimal(d));
    MoreOctets(c, Decimal(d), 1);
    MoreOctets(b, Decimal(c) + "." + Decimal(d), 2);
    MoreOctets(a, Decimal(b) + "." + (Decimal(c) + "." + Decimal(d)), 3);
    OctetsScan(Dotted(a, b, c, d), 0);
  }

  lemma AcceptedIsDotted(s: string) returns (a: nat, b: nat, c: nat, d: nat)
    requires DottedQuad(s)
    ensures a <= 255 && b <= 255 && c <= 255 && d <= 255 && s == Dotted(a, b, c, d)
  {
    hide ScanQuad, Octets, Decimal;
    ScanGivesOctets(s, 0);
    var t, u, v;
    a, t := FirstOctet(s, 4);
    b, u := FirstOctet(t, 3);
    c, v := FirstOctet(u, 2);
    d := LastOctet(v);
  }

  /** So exactly four octets in decimal, without leading zeros and with dots between them, are accepted. */
  lemma DottedQuadIff(s: string)
    ensures DottedQuad(s)
       <==> exists a: nat, b: nat, c: nat, d: nat ::
              a <= 255 && b <= 255 && c <= 255 && d <= 255 && s == Dotted(a, b, c, d)
  {
    hide DottedQuad, Dotted;
    if DottedQuad(s) {
      var a, b, c, d := AcceptedIsDotted(s);
    }
    if a: nat, b: nat, c: nat, d: nat :|
      a <= 255 && b <= 255 && c <= 255 && d <= 255 && s == Dotted(a, b, c, d)
    {
      DottedIsAccepted(a, b, c, d);
    }
  }

  lemma QuadIsClean(s: string)
    requires DottedQuad(s)
    ensures s != "" && ',' !in s && '\n' !in s && s != "dynamic"
  {
    ScanIsClean(s, 0, false, 0);
  }
}

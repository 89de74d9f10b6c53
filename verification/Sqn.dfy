/** The 48-bit sequence number of the authentication centre: SEQ in the upper 43 bits and IND in the
    lower 5, both counted as in Annex C of 3GPP TS 33.102, and kept as six big-endian bytes. */
module Sqn {
  import opened Basics

  const SQN_BYTES: nat := 6
  /** Moduli of the two counters: 2^43-1 and 31. */
  const SEQ_MOD: nat := 0x07FF_FFFF_FFFF
  const IND_MOD: nat := 31
  const IND_RANGE: nat := 32

  // ---------- bytes and numbers ----------

  function Pow256(n: nat): (r: nat)
    ensures r >= 1
  {
    if n == 0 then 1 else 256 * Pow256(n - 1)
  }

  /** The number a big-endian byte string stands for. */
  function Value(s: Bytes): (v: nat)
    ensures v < Pow256(|s|)
    decreases |s|
  {
    if s == [] then 0 else 256 * Value(s[..|s| - 1]) + s[|s| - 1]
  }

  /** The n low-order bytes of a number, most significant first. */
  function ToBytes(v: nat, n: nat): (s: Bytes)
    ensures |s| == n
  {
    if n == 0 then [] else ToBytes(v / 256, n - 1) + [v % 256]
  }

  lemma {:induction false} ValueOfBytes(v: nat, n: nat)
    requires v < Pow256(n)
    ensures Value(ToBytes(v, n)) == v
  {
    if n > 0 {
      ValueOfBytes(v / 256, n - 1);
      assert ToBytes(v, n)[..n - 1] == ToBytes(v / 256, n - 1);
    }
  }

  lemma {:induction false} BytesOfValue(s: Bytes)
    ensures ToBytes(Value(s), |s|) == s
    decreases |s|
  {
    if s != [] {
      var front, last := s[..|s| - 1], s[|s| - 1];
      BytesOfValue(front);
      assert Value(s) / 256 == Value(front) && Value(s) % 256 == last;
      assert s == front + [last];
    }
  }

  /** Byte i of n is what a right shift by 8(n-1-i) bits leaves in the lowest byte. */
  lemma {:induction false} ByteByShift(v: nat, n: nat, i: nat)
    requires i < n
    ensures ToBytes(v, n)[i] == v / Pow256(n - 1 - i) % 256
    decreases n
  {
    if i < n - 1 {
      ByteByShift(v / 256, n - 1, i);
      DivDiv(v, 256, Pow256(n - 2 - i));
    }
  }

  lemma DivDiv(v: nat, a: nat, b: nat)
    requires a > 0 && b > 0
    ensures a * b > 0 && v / a / b == v / (a * b)
  {
    var w := v / a;
    var q, r := w / b, w % b;
    Split(v, a, b, w, q, r);
    DivUnique(v, a * b, q, a * r + v % a);
  }

  lemma Split(v: nat, a: nat, b: nat, w: nat, q: nat, r: nat)
    requires a > 0 && v == a * w + v % a && w == b * q + r && r < b
    ensures v == q * (a * b) + (a * r + v % a) && a * r + v % a < a * b
  {
    assert a * w == a * (b * q) + a * r;
    assert a * r <= a * (b - 1);
  }

  lemma DivUnique(v: nat, m: nat, q: nat, r: nat)
    requires m > 0 && v == q * m + r && r < m
    ensures v / m == q && v % m == r
  {
    var d := v / m - q;
    assert d * m == r - v % m;
    if d != 0 {
      FarFromZero(d, m);
    }
  }

  lemma FarFromZero(d: int, m: nat)
    requires d != 0
    ensures d * m >= m || d * m <= 0 - m
  {
    if d > 0 {
      assert (d - 1) * m >= 0;
    } else {
      assert (-d - 1) * m >= 0;
    }
  }

  lemma ModSucc(x: nat, m: nat)
    requires m > 0
    ensures (x % m + 1) % m == (x + 1) % m
  {
    var q, r := x / m, x % m;
    assert x == q * m + r;
    if r + 1 < m {
      DivUnique(x + 1, m, q, r + 1);
      DivUnique(r + 1, m, 0, r + 1);
    } else {
      DivUnique(x + 1, m, q + 1, 0);
      DivUnique(r + 1, m, 1, 0);
    }
  }

  // ---------- one step ----------

  function SeqOf(sqn: nat): nat { sqn / IND_RANGE }

  function IndOf(sqn: nat): nat { sqn % IND_RANGE }

  function Join(seqNo: nat, ind: nat): nat { seqNo * IND_RANGE + ind }

  function Next(sqn: nat): nat {
    Join((SeqOf(sqn) + 1) % SEQ_MOD, (IndOf(sqn) + 1) % IND_MOD)
  }

  /** The step after a resynchronisation leaves IND alone. */
  function NextAfterResync(sqn: nat): nat {
    Join((SeqOf(sqn) + 1) % SEQ_MOD, IndOf(sqn))
  }

  lemma JoinSplits(seqNo: nat, ind: nat)
    requires ind < IND_RANGE
    ensures SeqOf(Join(seqNo, ind)) == seqNo && IndOf(Join(seqNo, ind)) == ind
  {
  }

  lemma SplitJoins(sqn: nat)
    ensures Join(SeqOf(sqn), IndOf(sqn)) == sqn
  {
  }

  /** A step lands in the counters' ranges wherever it starts. */
  predicate InOrbit(sqn: nat) {
    SeqOf(sqn) < SEQ_MOD && IndOf(sqn) < IND_MOD
  }

  function Steps(sqn: nat, n: nat): nat {
    if n == 0 then sqn else Next(Steps(sqn, n - 1))
  }

  lemma {:induction false} StepsClosedForm(sqn: nat, n: nat)
    requires n >= 1
    ensures SeqOf(Steps(sqn, n)) == (SeqOf(sqn) + n) % SEQ_MOD
    ensures IndOf(Steps(sqn, n)) == (IndOf(sqn) + n) % IND_MOD
    ensures InOrbit(Steps(sqn, n)) && Steps(sqn, n) < Pow256(SQN_BYTES)
  {
    var before := Steps(sqn, n - 1);
    if n > 1 {
      StepsClosedForm(sqn, n - 1);
      ModSucc(SeqOf(sqn) + n - 1, SEQ_MOD);
      ModSucc(IndOf(sqn) + n - 1, IND_MOD);
    }
    JoinSplits((SeqOf(before) + 1) % SEQ_MOD, (IndOf(before) + 1) % IND_MOD);
    assert Pow256(6) == 0x1_0000_0000_0000;
  }

  // ---------- the period ----------

  lemma SameResidue(x: nat, y: nat, m: nat)
    requires m > 0 && x <= y
    ensures x % m == y % m <==> (y - x) % m == 0
  {
    if x % m == y % m {
      ResidueOfDifference(x, y, m);
    }
    if (y - x) % m == 0 {
      ResidueOfSum(x, y, m);
    }
  }

  lemma ResidueOfDifference(x: nat, y: nat, m: nat)
    requires m > 0 && x <= y && x % m == y % m
    ensures (y - x) % m == 0
  {
    var p, q, r := x / m, y / m, x % m;
    DivMod(x, m);
    DivMod(y, m);
    Scaled(q, p, m);
    if q < p {
      FarFromZero(q - p, m);
    }
    DivUnique(y - x, m, q - p, 0);
  }

  lemma ResidueOfSum(x: nat, y: nat, m: nat)
    requires m > 0 && x <= y && (y - x) % m == 0
    ensures x % m == y % m
  {
    var d := y - x;
    DivMod(x, m);
    DivMod(d, m);
    Scaled(x / m, 0 - d / m, m);
    DivUnique(y, m, x / m + d / m, x % m);
  }

  lemma DivMod(x: nat, m: nat)
    requires m > 0
    ensures x == (x / m) * m + x % m && x % m < m
  {
  }

  lemma Scaled(a: int, b: int, m: int)
    ensures (a - b) * m == a * m - b * m
  {
  }

  /** 2^43-1 leaves 7 modulo 31 and 9*7 leaves 1, so the two moduli have no common factor. */
  lemma CommonMultiple(d: nat)
    ensures d % SEQ_MOD == 0 && d % IND_MOD == 0 <==> d % (IND_MOD * SEQ_MOD) == 0
  {
    if d % SEQ_MOD == 0 && d % IND_MOD == 0 {
      var q, t := d / SEQ_MOD, d / IND_MOD;
      var c := 283744936200;
      assert SEQ_MOD == 31 * c + 7;
      assert 31 * t == SEQ_MOD * q == d;
      assert 7 * q == 31 * (t - c * q);
      assert q == 31 * (9 * (t - c * q) - 2 * q);
      MultipleOf31(d, q, 9 * (t - c * q) - 2 * q);
    }
    if d % (IND_MOD * SEQ_MOD) == 0 {
      var k := d / (IND_MOD * SEQ_MOD);
      DivUnique(d, SEQ_MOD, 31 * k, 0);
      DivUnique(d, IND_MOD, SEQ_MOD * k, 0);
    }
  }

  lemma MultipleOf31(d: nat, q: nat, k: int)
    requires d == SEQ_MOD * q && q == 31 * k
    ensures d % (IND_MOD * SEQ_MOD) == 0
  {
    assert k >= 0;
    DivUnique(d, IND_MOD * SEQ_MOD, k, 0);
  }

  /** Two members of a run are equal exactly when a multiple of 31*(2^43-1) steps apart. */
  lemma ExactPeriod(sqn: nat, m: nat, n: nat)
    requires 1 <= m <= n
    ensures Steps(sqn, m) == Steps(sqn, n) <==> (n - m) % (IND_MOD * SEQ_MOD) == 0
  {
    StepsClosedForm(sqn, m);
    StepsClosedForm(sqn, n);
    SameResidue(SeqOf(sqn) + m, SeqOf(sqn) + n, SEQ_MOD);
    SameResidue(IndOf(sqn) + m, IndOf(sqn) + n, IND_MOD);
    CommonMultiple(n - m);
  }

  /** The starting value itself comes back after a full period if it is in the counters' ranges,
      and never otherwise. */
  lemma ReturnToStart(sqn: nat, n: nat)
    requires n >= 1
    ensures Steps(sqn, n) == sqn <==> InOrbit(sqn) && n % (IND_MOD * SEQ_MOD) == 0
  {
    hide Steps, Next, SeqOf, IndOf;
    StepsClosedForm(sqn, n);
    if InOrbit(sqn) {
      SameParts(sqn, Steps(sqn, n));
      SameResidue(SeqOf(sqn), SeqOf(sqn) + n, SEQ_MOD);
      SameResidue(IndOf(sqn), IndOf(sqn) + n, IND_MOD);
      CommonMultiple(n);
      SmallResidue(SeqOf(sqn), SEQ_MOD);
      SmallResidue(IndOf(sqn), IND_MOD);
    }
  }

  lemma SameParts(a: nat, b: nat)
    ensures a == b <==> SeqOf(a) == SeqOf(b) && IndOf(a) == IndOf(b)
  {
    SplitJoins(a);
    SplitJoins(b);
  }

  lemma SmallResidue(x: nat, m: nat)
    requires x < m
    ensures x % m == x
  {
  }

  // ---------- freshness ----------

  /** A resynchronisation step moves strictly forward exactly when SEQ is below 2^43-2. */
  lemma ResyncMovesForward(sqn: nat)
    requires sqn < Pow256(SQN_BYTES)
    ensures NextAfterResync(sqn) > sqn <==> SeqOf(sqn) < SEQ_MOD - 1
    ensures NextAfterResync(sqn) < Pow256(SQN_BYTES)
  {
    assert Pow256(6) == 0x1_0000_0000_0000;
  }

  /** The step in numbers: one SEQ further, or back to the bottom from the two highest values of SEQ. */
  lemma ResyncStep(sqn: nat)
    requires sqn < Pow256(SQN_BYTES)
    ensures NextAfterResync(sqn)
         == if SeqOf(sqn) < SEQ_MOD - 1 then sqn + IND_RANGE else sqn - (SEQ_MOD - 1) * IND_RANGE
  {
    assert Pow256(6) == 0x1_0000_0000_0000;
  }

  // ---------- the byte loops ----------

  lemma AppendByte(s: Bytes, b: byte, n: nat)
    ensures Value(s + [b]) * Pow256(n) == Value(s) * Pow256(n + 1) + b * Pow256(n)
  {
    assert (s + [b])[..|s|] == s;
    var p := Pow256(n);
    assert (256 * Value(s) + b) * p == Value(s) * (256 * p) + b * p;
  }

  /** The first packing loop: each byte is shifted into place; the bits are disjoint, so OR is addition. */
  method Pack(sqn: array<byte>) returns (sqn64: nat)
    requires sqn.Length == SQN_BYTES
    ensures sqn64 == Value(sqn[..])
  {
    sqn64 := 0;
    assert Value(sqn[..0]) == 0 && Pow256(0) == 1;
    var i := 0;
    while i < 6
      invariant 0 <= i <= 6
      invariant sqn64 == Value(sqn[..i]) * Pow256(6 - i)
    {
      AppendByte(sqn[..i], sqn[i], 5 - i);
      assert sqn[..i + 1] == sqn[..i] + [sqn[i]];
      hide *;
      sqn64 := sqn64 + sqn[i] * Pow256(5 - i);
      i := i + 1;
    }
    assert sqn[..6] == sqn[..];
  }

  method Unpack(sqn64: nat, sqn: array<byte>)
    requires sqn.Length == SQN_BYTES
    modifies sqn
    ensures sqn[..] == ToBytes(sqn64, SQN_BYTES)
  {
    var i := 0;
    while i < 6
      invariant 0 <= i <= 6
      invariant sqn[..i] == ToBytes(sqn64, 6)[..i]
    {
      ByteByShift(sqn64, 6, i);
      sqn[i] := sqn64 / Pow256(5 - i) % 256;
      i := i + 1;
    }
    assert sqn[..6] == sqn[..];
  }

  /** Source and target may be the same array. */
  method IncrementSqn(sqn: array<byte>, nextSqn: array<byte>)
    requires sqn.Length == SQN_BYTES && nextSqn.Length == SQN_BYTES
    modifies nextSqn
    ensures Value(nextSqn[..]) == Next(Value(old(sqn[..])))
  {
    var sqn64 := Pack(sqn);
    var seqNo, ind := sqn64 / 32, sqn64 % 32;
    var nextSeq, nextInd := (seqNo + 1) % SEQ_MOD, (ind + 1) % IND_MOD;
    var next := nextSeq * 32 + nextInd;
    Unpack(next, nextSqn);
    StepsClosedForm(sqn64, 1);
    ValueOfBytes(next, SQN_BYTES);
  }

  method IncrementSeqAfterResync(sqn: array<byte>)
    requires sqn.Length == SQN_BYTES
    modifies sqn
    ensures Value(sqn[..]) == NextAfterResync(Value(old(sqn[..])))
  {
    var sqn64 := Pack(sqn);
    var seqNo, ind := sqn64 / 32, sqn64 % 32;
    var next := (seqNo + 1) % SEQ_MOD * 32 + ind;
    ResyncMovesForward(sqn64);
    Unpack(next, sqn);
    ValueOfBytes(next, SQN_BYTES);
  }
}

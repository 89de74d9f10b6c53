/** Authentication vectors as functions: what the home subscriber server derives from a user's data
    and a random challenge, and what the USIM derives from the challenge and the AUTN it receives. */
module AuthVectors {
  import opened Basics
  import opened Sqn

  type B2 = s: Bytes | |s| == 2 witness [0, 0]
  type B6 = s: Bytes | |s| == 6 witness [0, 0, 0, 0, 0, 0]
  type B8 = s: Bytes | |s| == 8 witness [0, 0, 0, 0, 0, 0, 0, 0]
  type B16 = s: Bytes | |s| == 16 witness [0, 0, 0, 0, 0, 0, 0, 0, 0, 0, 0, 0, 0, 0, 0, 0]

  /** What the key derivation functions f2 to f5 give for one challenge. */
  datatype Keys = Keys(res: B8, ck: B16, ik: B16, ak: B6)

  /** The cryptographic functions are not looked into: any functions of these shapes will do. */
  datatype Crypto = Crypto(
    f1: (B16, B16, B16, B6, B2) -> B8,
    f2345: (B16, B16, B16) -> Keys,
    f5star: (B16, B16, B16) -> B6,
    kAsme: (B16, B16, B6) -> Bytes)

  datatype Algo = XorAlgo | Milenage

  /** Exclusive or of the lowest n bits. */
  function XorBits(a: nat, b: nat, n: nat): nat {
    if n == 0 then 0
    else 2 * XorBits(a / 2, b / 2, n - 1) + if a % 2 == b % 2 then 0 else 1
  }

  function Pow2(n: nat): (r: nat)
    ensures r >= 1
  {
    if n == 0 then 1 else 2 * Pow2(n - 1)
  }

  lemma {:induction false} XorBitsTwice(a: nat, b: nat, n: nat)
    requires a < Pow2(n)
    ensures XorBits(a, b, n) < Pow2(n)
    ensures XorBits(XorBits(a, b, n), b, n) == a
  {
    if n > 0 {
      XorBitsTwice(a / 2, b / 2, n - 1);
      assert XorBits(a, b, n) / 2 == XorBits(a / 2, b / 2, n - 1);
    }
  }

  function BitOf(a: nat, i: nat): nat {
    a / Pow2(i) % 2
  }

  lemma BitOfHalf(a: nat, i: nat)
    requires i >= 1
    ensures BitOf(a, i) == BitOf(a / 2, i - 1)
  {
    DivDiv(a, 2, Pow2(i - 1));
  }

  /** A bit is set exactly where the two differ. */
  lemma {:induction false} XorBitsAt(a: nat, b: nat, n: nat, i: nat)
    requires i < n
    ensures BitOf(XorBits(a, b, n), i) == if BitOf(a, i) != BitOf(b, i) then 1 else 0
  {
    var x := XorBits(a, b, n);
    if i == 0 {
      assert Pow2(0) == 1;
    } else {
      XorBitsAt(a / 2, b / 2, n - 1, i - 1);
      assert x / 2 == XorBits(a / 2, b / 2, n - 1);
      BitOfHalf(x, i);
      BitOfHalf(a, i);
      BitOfHalf(b, i);
      hide XorBits, BitOf;
    }
  }

  lemma XorByteAt(a: byte, b: byte, i: nat)
    requires i < 8
    ensures BitOf(XorByte(a, b), i) == if BitOf(a, i) != BitOf(b, i) then 1 else 0
  {
    XorBitsAt(a, b, 8, i);
    hide XorBits, BitOf;
  }

  function XorByte(a: byte, b: byte): (r: byte)
    ensures XorBits(r, b, 8) == a
  {
    assert Pow2(8) == 256;
    XorBitsTwice(a, b, 8);
    XorBits(a, b, 8)
  }

  function Xor(a: Bytes, b: Bytes): (r: Bytes)
    requires |a| == |b|
    ensures |r| == |a|
  {
    seq(|a|, i requires 0 <= i < |a| => XorByte(a[i], b[i]))
  }

  lemma XorTwice(a: Bytes, b: Bytes)
    requires |a| == |b|
    ensures Xor(Xor(a, b), b) == a
  {
    hide XorBits;
    forall i | 0 <= i < |a|
      ensures Xor(Xor(a, b), b)[i] == a[i]
    {
      assert XorByte(XorByte(a[i], b[i]), b[i]) == a[i];
    }
  }

  // ---------- the XOR algorithm of section 8.1.2 of 3GPP TS 34.108 ----------

  function Rotate(x: B16, places: nat): (r: B16) {
    seq(16, i requires 0 <= i < 16 => x[(i + places) % 16])
  }

  function XorKeys(k: B16, rand: B16): Keys {
    var xdout: B16 := Xor(k, rand);
    Keys(xdout[..8], Rotate(xdout, 1), Rotate(xdout, 2), xdout[3..9])
  }

  function XorMac(k: B16, rand: B16, sqn: B6, amf: B2): B8 {
    Xor(Xor(k, rand)[..8], sqn + amf)
  }

  // ---------- both algorithms ----------

  function KeysOf(c: Crypto, algo: Algo, k: B16, opc: B16, rand: B16): Keys {
    match algo
    case XorAlgo => XorKeys(k, rand)
    case Milenage => c.f2345(k, opc, rand)
  }

  function MacOf(c: Crypto, algo: Algo, k: B16, opc: B16, rand: B16, sqn: B6, amf: B2): B8 {
    match algo
    case XorAlgo => XorMac(k, rand, sqn, amf)
    case Milenage => c.f1(k, opc, rand, sqn, amf)
  }

  function Autn(sqn: B6, ak: B6, amf: B2, mac: B8): B16 {
    Xor(sqn, ak) + amf + mac
  }

  /** What the server keeps for a user's authentication. */
  datatype AuthData = AuthData(algo: Algo, key: B16, opc: B16, amf: B2, sqn: B6, lastRand: B16)

  datatype Vector = Vector(rand: B16, autn: B16, xres: B8, kAsme: Bytes)

  function VectorOf(c: Crypto, u: AuthData, rand: B16): Vector {
    var keys := KeysOf(c, u.algo, u.key, u.opc, rand);
    var mac := MacOf(c, u.algo, u.key, u.opc, rand, u.sqn, u.amf);
    Vector(rand, Autn(u.sqn, keys.ak, u.amf, mac), keys.res, c.kAsme(keys.ck, keys.ik, Xor(u.sqn, keys.ak)))
  }

  /** The USIM's answer to a challenge. */
  datatype UsimAnswer = UsimAnswer(accepted: bool, sqn: B6, amf: B2, res: B8, kAsme: Bytes)

  function UsimAuthenticate(c: Crypto, algo: Algo, k: B16, opc: B16, rand: B16, autn: B16): UsimAnswer {
    var keys := KeysOf(c, algo, k, opc, rand);
    var sqn: B6 := Xor(autn[..6], keys.ak);
    var amf: B2 := autn[6..8];
    var mac := MacOf(c, algo, k, opc, rand, sqn, amf);
    UsimAnswer(Autn(sqn, keys.ak, amf, mac) == autn, sqn, amf, keys.res,
               c.kAsme(keys.ck, keys.ik, Xor(sqn, keys.ak)))
  }

  /** K exclusive-or RAND, one byte. */
  function XdoutAt(u: AuthData, rand: B16, i: nat): byte
    requires i < 16
  {
    XorByte(u.key[i], rand[i])
  }

  /** The vector of an XOR user, byte by byte, as section 8.1.2 of 3GPP TS 34.108 has it: SQN masked with
      the bytes 3 to 8 of XDOUT, then AMF, then the first half of XDOUT exclusive-or SQN and AMF; the
      response is the first half of XDOUT, and CK and IK are XDOUT rotated by one and two bytes. */
  lemma XorVectorBytes(c: Crypto, u: AuthData, rand: B16)
    requires u.algo == XorAlgo
    ensures var v := VectorOf(c, u, rand);
            && v.rand == rand
            && (forall i :: 0 <= i < 6 ==> v.autn[i] == XorByte(u.sqn[i], XdoutAt(u, rand, i + 3)))
            && (forall i :: 0 <= i < 2 ==> v.autn[6 + i] == u.amf[i])
            && (forall i :: 0 <= i < 8 ==>
                  v.autn[8 + i] == XorByte(XdoutAt(u, rand, i), if i < 6 then u.sqn[i] else u.amf[i - 6]))
            && (forall i :: 0 <= i < 8 ==> v.xres[i] == XdoutAt(u, rand, i))
            && v.kAsme == c.kAsme(seq(16, i requires 0 <= i < 16 => XdoutAt(u, rand, (i + 1) % 16)),
                                  seq(16, i requires 0 <= i < 16 => XdoutAt(u, rand, (i + 2) % 16)), v.autn[..6])
  {
    var xdout: B16 := Xor(u.key, rand);
    var keys := XorKeys(u.key, rand);
    assert keys.ck == seq(16, i requires 0 <= i < 16 => XdoutAt(u, rand, (i + 1) % 16));
    assert keys.ik == seq(16, i requires 0 <= i < 16 => XdoutAt(u, rand, (i + 2) % 16));
    var autn := VectorOf(c, u, rand).autn;
    assert autn[..6] == Xor(u.sqn, keys.ak);
    hide XorByte;
  }

  /** And of a Milenage user, from the values of f1 to f5. */
  lemma MilenageVectorBytes(c: Crypto, u: AuthData, rand: B16)
    requires u.algo == Milenage
    ensures var v, keys := VectorOf(c, u, rand), c.f2345(u.key, u.opc, rand);
            && v.rand == rand && v.xres == keys.res
            && (forall i :: 0 <= i < 6 ==> v.autn[i] == XorByte(u.sqn[i], keys.ak[i]))
            && v.autn[6..8] == u.amf && v.autn[8..] == c.f1(u.key, u.opc, rand, u.sqn, u.amf)
            && v.kAsme == c.kAsme(keys.ck, keys.ik, v.autn[..6])
  {
    var autn := VectorOf(c, u, rand).autn;
    assert autn[..6] == Xor(u.sqn, c.f2345(u.key, u.opc, rand).ak);
    hide XorByte;
  }

  lemma AutnParts(sqn: B6, ak: B6, amf: B2, mac: B8)
    ensures var a := Autn(sqn, ak, amf, mac);
            Xor(a[..6], ak) == sqn && a[6..8] == amf && a[8..] == mac
  {
    var a := Autn(sqn, ak, amf, mac);
    assert a[..6] == Xor(sqn, ak);
    XorTwice(sqn, ak);
  }

  /** The USIM accepts every vector of its server, recovers exactly the SQN and AMF used, and both
      ends hold the same response and session key. */
  lemma VectorIsAccepted(c: Crypto, u: AuthData, rand: B16)
    ensures var v := VectorOf(c, u, rand);
            UsimAuthenticate(c, u.algo, u.key, u.opc, rand, v.autn) == UsimAnswer(true, u.sqn, u.amf, v.xres, v.kAsme)
  {
    var keys := KeysOf(c, u.algo, u.key, u.opc, rand);
    AutnParts(u.sqn, keys.ak, u.amf, MacOf(c, u.algo, u.key, u.opc, rand, u.sqn, u.amf));
  }

  /** The AUTN a server with these keys would send for an SQN and an AMF. */
  function AutnFor(c: Crypto, algo: Algo, k: B16, opc: B16, rand: B16, sqn: B6, amf: B2): B16 {
    VectorOf(c, AuthData(algo, k, opc, amf, sqn, rand), rand).autn
  }

  /** It accepts nothing else: an AUTN passes exactly when it is the server's for some SQN and AMF. */
  lemma AcceptedIsGenerated(c: Crypto, algo: Algo, k: B16, opc: B16, rand: B16, autn: B16)
    ensures var a := UsimAuthenticate(c, algo, k, opc, rand, autn);
            && (a.accepted ==> autn == AutnFor(c, algo, k, opc, rand, a.sqn, a.amf))
            && ((exists sqn: B6, amf: B2 :: autn == AutnFor(c, algo, k, opc, rand, sqn, amf)) ==> a.accepted)
  {
    if sqn: B6, amf: B2 :| autn == AutnFor(c, algo, k, opc, rand, sqn, amf) {
      VectorIsAccepted(c, AuthData(algo, k, opc, amf, sqn, rand), rand);
    }
  }

  /** For fixed keys and challenge, different SQN or AMF give different AUTN. */
  lemma AutnInjective(c: Crypto, algo: Algo, k: B16, opc: B16, rand: B16, sqn: B6, amf: B2, sqn': B6, amf': B2)
    requires AutnFor(c, algo, k, opc, rand, sqn, amf) == AutnFor(c, algo, k, opc, rand, sqn', amf')
    ensures sqn == sqn' && amf == amf'
  {
    VectorIsAccepted(c, AuthData(algo, k, opc, amf, sqn, rand), rand);
    VectorIsAccepted(c, AuthData(algo, k, opc, amf', sqn', rand), rand);
  }

  // ---------- the server's requests ----------

  function NextBytes(sqn: B6): B6 { ToBytes(Next(Value(sqn)), SQN_BYTES) }

  function NextBytesAfterResync(sqn: B6): B6 { ToBytes(NextAfterResync(Value(sqn)), SQN_BYTES) }

  function AfterVector(u: AuthData, rand: B16): AuthData {
    u.(sqn := NextBytes(u.sqn), lastRand := rand)
  }

  /** Resynchronisation: the SQN of the token is taken over for Milenage users only; its MAC (bytes 6
      to 13) is not looked at, and SEQ is stepped for both algorithms. */
  function AfterResync(c: Crypto, u: AuthData, auts: Bytes): AuthData
    requires |auts| >= 14
  {
    match u.algo
    case XorAlgo => u.(sqn := NextBytesAfterResync(u.sqn))
    case Milenage =>
      u.(sqn := NextBytesAfterResync(Xor(auts[..6], c.f5star(u.key, u.opc, u.lastRand))))
  }

  /** The token a Milenage USIM with counter sqnMs answers to the challenge it saw last. */
  function Auts(c: Crypto, u: AuthData, sqnMs: B6, macS: B8): Bytes {
    Xor(sqnMs, c.f5star(u.key, u.opc, u.lastRand)) + macS
  }

  lemma SqnValues(sqn: B6)
    ensures Value(NextBytes(sqn)) == Next(Value(sqn))
    ensures Value(NextBytesAfterResync(sqn)) == NextAfterResync(Value(sqn))
  {
    StepsClosedForm(Value(sqn), 1);
    ResyncMovesForward(Value(sqn));
    ValueOfBytes(Next(Value(sqn)), SQN_BYTES);
    ValueOfBytes(NextAfterResync(Value(sqn)), SQN_BYTES);
  }

  /** The vector after a Milenage resynchronisation carries SEQ_MS+1 with IND_MS; that is a larger
      number than SQN_MS exactly when SEQ_MS is below 2^43-2. The token's MAC plays no part. */
  lemma ResyncIsFresh(c: Crypto, u: AuthData, sqnMs: B6, macS: B8, rand: B16)
    requires u.algo == Milenage
    ensures var v := VectorOf(c, AfterResync(c, u, Auts(c, u, sqnMs, macS)), rand);
            var seen := Value(UsimAuthenticate(c, u.algo, u.key, u.opc, rand, v.autn).sqn);
            && seen == NextAfterResync(Value(sqnMs))
            && (seen > Value(sqnMs) <==> SeqOf(Value(sqnMs)) < SEQ_MOD - 1)
  {
    var auts := Auts(c, u, sqnMs, macS);
    var u' := AfterResync(c, u, auts);
    assert auts[..6] == Xor(sqnMs, c.f5star(u.key, u.opc, u.lastRand));
    XorTwice(sqnMs, c.f5star(u.key, u.opc, u.lastRand));
    VectorIsAccepted(c, u', rand);
    SqnValues(sqnMs);
    ResyncMovesForward(Value(sqnMs));
  }

  /** The user data after a run of vector requests with the given challenges. */
  function AfterRun(u: AuthData, rands: seq<B16>): AuthData
    decreases |rands|
  {
    if rands == [] then u else AfterVector(AfterRun(u, rands[..|rands| - 1]), rands[|rands| - 1])
  }

  /** The SQN the USIM finds in the first vector after a resynchronisation. */
  function SeenAfterResync(c: Crypto, u: AuthData, auts: Bytes, rand: B16): nat
    requires |auts| >= 14
  {
    Value(UsimAuthenticate(c, u.algo, u.key, u.opc, rand, VectorOf(c, AfterResync(c, u, auts), rand).autn).sqn)
  }

  /** For a user of the XOR algorithm the token plays no part at all: the server steps its own SQN, so the
      next vector is ahead of the USIM exactly when that SQN lagged by less than one SEQ step, or, from
      the two highest values of SEQ, when the USIM is still near the bottom. */
  lemma XorResyncIgnoresToken(c: Crypto, u: AuthData, auts: Bytes, sqnMs: nat, rand: B16)
    requires u.algo == XorAlgo && |auts| >= 14
    ensures var own, seen := Value(u.sqn), SeenAfterResync(c, u, auts, rand);
            && seen == NextAfterResync(own)
            && (seen > sqnMs <==> sqnMs < own + IND_RANGE
                                  && (SeqOf(own) >= SEQ_MOD - 1 ==> sqnMs < own - (SEQ_MOD - 1) * IND_RANGE))
  {
    VectorIsAccepted(c, AfterResync(c, u, auts), rand);
    SqnValues(u.sqn);
    ResyncStep(Value(u.sqn));
    hide NextBytesAfterResync, NextAfterResync, KeysOf, MacOf, Autn, UsimAuthenticate, VectorOf;
  }

  /** A server at 0 does not get ahead of a USIM at 32 or more, whatever the token says. */
  lemma XorResyncCanStayBehind(c: Crypto, u: AuthData, auts: Bytes, sqnMs: nat, rand: B16)
    requires u.algo == XorAlgo && |auts| >= 14 && u.sqn == ToBytes(0, SQN_BYTES) && sqnMs >= 32
    ensures SeenAfterResync(c, u, auts, rand) == 32 <= sqnMs
  {
    ValueOfBytes(0, SQN_BYTES);
    ResyncStep(0);
    assert SeqOf(0) == 0;
    hide *;
    XorResyncIgnoresToken(c, u, auts, sqnMs, rand);
  }

  lemma {:induction false} RunCounts(u: AuthData, rands: seq<B16>)
    ensures var u' := AfterRun(u, rands);
            && Value(u'.sqn) == Steps(Value(u.sqn), |rands|)
            && u' == u.(sqn := u'.sqn, lastRand := if rands == [] then u.lastRand else rands[|rands| - 1])
    decreases |rands|
  {
    if rands != [] {
      var front := rands[..|rands| - 1];
      RunCounts(u, front);
      SqnValues(AfterRun(u, front).sqn);
    }
  }

  /** The SQN a USIM reads from the i-th vector of a run. */
  function SqnSeen(c: Crypto, u: AuthData, rands: seq<B16>, i: nat): nat
    requires i < |rands|
  {
    var v := VectorOf(c, AfterRun(u, rands[..i]), rands[i]);
    Value(UsimAuthenticate(c, u.algo, u.key, u.opc, rands[i], v.autn).sqn)
  }

  /** Over a run without resynchronisation two vectors carry the same SQN exactly when a multiple of
      31*(2^43-1) requests apart; the very first one needs its counters in range for that. */
  lemma SqnNeverReusedEarly(c: Crypto, u: AuthData, rands: seq<B16>, i: nat, j: nat)
    requires i < j < |rands|
    ensures SqnSeen(c, u, rands, i) == SqnSeen(c, u, rands, j)
       <==> (j - i) % (IND_MOD * SEQ_MOD) == 0 && (i == 0 ==> InOrbit(Value(u.sqn)))
  {
    SeenIsStep(c, u, rands, i);
    SeenIsStep(c, u, rands, j);
    hide Steps, InOrbit, SqnSeen;
    if i == 0 {
      ReturnToStart(Value(u.sqn), j);
      NoSteps(Value(u.sqn));
    } else {
      ExactPeriod(Value(u.sqn), i, j);
    }
  }

  lemma NoSteps(sqn: nat)
    ensures Steps(sqn, 0) == sqn
  {
  }

  lemma SeenIsStep(c: Crypto, u: AuthData, rands: seq<B16>, i: nat)
    requires i < |rands|
    ensures SqnSeen(c, u, rands, i) == Steps(Value(u.sqn), i)
  {
    RunCounts(u, rands[..i]);
    var u' := AfterRun(u, rands[..i]);
    VectorIsAccepted(c, u', rands[i]);
  }
}

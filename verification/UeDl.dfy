/** The UE's half of HARQ feedback: how it writes its answers into the bits that the base station
    decodes, and that the base station gets back the answers that were written. */
module UeDl {
  import opened PhyUe
  import opened PhyUeUci

  // ---------- what the UE writes ----------

  /** What the UE knows about a TTI is a record of the same kind: the value of a codeword it received is
      its answer, 0 or 1, and 2 means that it received none. */
  predicate Answered(ue: PdschAck) {
    forall s, tb :: 0 <= s < MAX_CARRIERS && 0 <= tb < MAX_CODEWORDS && Sent(ue.cc[s], tb) ==>
      ue.cc[s].value[tb] <= 1
  }

  /** Codewords of a transmission mode. */
  function Codewords(tm: nat): (n: nat)
    ensures 1 <= n <= MAX_CODEWORDS
  {
    if tm <= 2 then 1 else 2
  }

  /** The answers for the first n codewords of a carrier, those not received left out. */
  function Received(cc: AckCc, n: nat): (w: seq<nat>)
    requires n <= MAX_CODEWORDS
    ensures |w| <= n
  {
    if n == 0 then []
    else if cc.present && cc.value[n - 1] != 2 then Received(cc, n - 1) + [cc.value[n - 1]]
    else Received(cc, n - 1)
  }

  /** A place for each of the first n codewords of a carrier, 0 for those not received. */
  function Places(cc: AckCc, n: nat): (w: seq<nat>)
    requires n <= MAX_CODEWORDS
    ensures |w| == n
  {
    if n == 0 then []
    else Places(cc, n - 1) + [if cc.present && cc.value[n - 1] != 2 then cc.value[n - 1] else 0]
  }

  /** The places of the first n carriers one after the other. */
  function AllPlaces(ue: PdschAck, n: nat): (w: seq<nat>)
    requires n <= MAX_CARRIERS
    ensures |w| == n * Codewords(ue.tm)
  {
    if n == 0 then [] else AllPlaces(ue, n - 1) + Places(ue.cc[n - 1], Codewords(ue.tm))
  }

  /** One answer for a carrier: negative if one of its codewords was; 2 if it is not scheduled. */
  function Bundle(cc: AckCc, n: nat): nat
    requires n <= MAX_CODEWORDS
  {
    if !cc.present then 2
    else if exists tb :: 0 <= tb < n && cc.value[tb] == 0 then 0 else 1
  }

  function Bundles(ue: PdschAck, n: nat): (w: seq<nat>)
    requires n <= MAX_CARRIERS
    ensures |w| == n
  {
    if n == 0 then [] else Bundles(ue, n - 1) + [Bundle(ue.cc[n - 1], Codewords(ue.tm))]
  }

  datatype Layout = OnlyPcell | EveryCarrier | OnePerCarrier | Silent

  /** A codeword was received on a carrier from `first` on. */
  predicate AnyFrom(ue: PdschAck, first: nat) {
    exists s, tb :: first <= s < ue.nofCc && 0 <= tb < Codewords(ue.tm) && Sent(ue.cc[s], tb)
  }

  /** How the UE arranges its answers, from its feedback mode, the number of carriers, whether a PUSCH
      carries them, and whether a scheduling request or a CSI report goes along. */
  function LayoutOf(ue: PdschAck, schedulingRequest: bool, csiReport: bool): Layout {
    if ue.feedback == NoFeedback || !AnyFrom(ue, 0) then Silent
    else if ue.feedback == Normal then OnlyPcell
    else if ue.feedback == Pucch3 then if AnyFrom(ue, 1) then EveryCarrier else OnlyPcell
    else if ue.nofCc == 1 then OnlyPcell
    else if ue.puschAvailable || (!schedulingRequest && !csiReport) then EveryCarrier
    else if schedulingRequest then OnePerCarrier
    else OnlyPcell
  }

  /** The bits the UE writes. */
  function Word(ue: PdschAck, layout: Layout): seq<nat> {
    match layout
    case OnlyPcell => Received(ue.cc[0], Codewords(ue.tm))
    case EveryCarrier => AllPlaces(ue, ue.nofCc)
    case OnePerCarrier => Bundles(ue, ue.nofCc)
    case Silent => []
  }

  // ---------- the loops that write them ----------

  /** The answers of the PCell, skipping codewords that were not received. */
  method PcellSkipDrx(ue: PdschAck, ackValue: array<nat>) returns (nofAcks: nat)
    requires ackValue.Length == 10
    modifies ackValue
    ensures nofAcks <= 2 && ackValue[..nofAcks] == Received(ue.cc[0], Codewords(ue.tm))
  {
    nofAcks := 0;
    var nofTb := if ue.tm > 2 then MAX_CODEWORDS else 1;
    if ue.cc[0].present {
      var tb := 0;
      while tb < nofTb
        invariant nofAcks <= tb <= nofTb && ackValue[..nofAcks] == Received(ue.cc[0], tb)
      {
        if ue.cc[0].value[tb] != 2 {
          ackValue[nofAcks] := ue.cc[0].value[tb];
          nofAcks := nofAcks + 1;
        }
        tb := tb + 1;
      }
    } else {
      NothingReceived(ue.cc[0], nofTb);
    }
  }

  lemma {:induction false} NothingReceived(cc: AckCc, n: nat)
    requires n <= MAX_CODEWORDS && !cc.present
    ensures Received(cc, n) == []
  {
    if n > 0 {
      NothingReceived(cc, n - 1);
    }
  }

  /** Every carrier in its own places; places that are not written keep their initial 0. */
  method AllKeepDrx(ue: PdschAck, ackValue: array<nat>)
    requires ackValue.Length == 10 && forall i :: 0 <= i < 10 ==> ackValue[i] == 0
    modifies ackValue
    ensures ackValue[..ue.nofCc * Codewords(ue.tm)] == AllPlaces(ue, ue.nofCc)
  {
    var nofTb := if ue.tm > 2 then MAX_CODEWORDS else 1;
    var cc := 0;
    while cc < ue.nofCc
      invariant cc <= ue.nofCc && ackValue[..cc * nofTb] == AllPlaces(ue, cc)
      invariant forall i :: cc * nofTb <= i < 10 ==> ackValue[i] == 0
    {
      CarrierPlaces(ue, cc, nofTb, ackValue);
      cc := cc + 1;
    }
  }

  method CarrierPlaces(ue: PdschAck, cc: nat, nofTb: nat, ackValue: array<nat>)
    requires cc < MAX_CARRIERS && nofTb == Codewords(ue.tm) && ackValue.Length == 10
    requires forall i :: cc * nofTb <= i < 10 ==> ackValue[i] == 0
    modifies ackValue
    ensures ackValue[..(cc + 1) * nofTb] == old(ackValue[..cc * nofTb]) + Places(ue.cc[cc], nofTb)
    ensures forall i :: (cc + 1) * nofTb <= i < 10 ==> ackValue[i] == 0
  {
    if ue.cc[cc].present {
      var tb := 0;
      while tb < nofTb
        invariant tb <= nofTb
        invariant ackValue[..cc * nofTb + tb] == old(ackValue[..cc * nofTb]) + Places(ue.cc[cc], tb)
        invariant forall i :: cc * nofTb + tb <= i < 10 ==> ackValue[i] == 0
      {
        if ue.cc[cc].value[tb] != 2 {
          ackValue[cc * nofTb + tb] := ue.cc[cc].value[tb];
        }
        tb := tb + 1;
      }
    } else {
      assert Places(ue.cc[cc], nofTb) == seq(nofTb, _ => 0) by {
        assert Places(ue.cc[cc], 0) == [];
        assert Places(ue.cc[cc], 1) == [0];
      }
      assert ackValue[..(cc + 1) * nofTb] == ackValue[..cc * nofTb] + seq(nofTb, _ => 0);
    }
  }

  /** One bit a carrier. */
  method AllSpatialBundling(ue: PdschAck, ackValue: array<nat>)
    requires ackValue.Length == 10
    modifies ackValue
    ensures ackValue[..ue.nofCc] == Bundles(ue, ue.nofCc)
  {
    var nofTb := if ue.tm > 2 then MAX_CODEWORDS else 1;
    var cc := 0;
    while cc < ue.nofCc
      invariant cc <= ue.nofCc && ackValue[..cc] == Bundles(ue, cc)
    {
      if ue.cc[cc].present {
        ackValue[cc] := 1;
        var tb := 0;
        while tb < nofTb
          invariant tb <= nofTb && ackValue[..cc] == Bundles(ue, cc)
          invariant ackValue[cc] == if exists t :: 0 <= t < tb && ue.cc[cc].value[t] == 0 then 0 else 1
        {
          if ue.cc[cc].value[tb] == 0 {
            ackValue[cc] := 0;
          }
          tb := tb + 1;
        }
      } else {
        ackValue[cc] := 2;
      }
      cc := cc + 1;
    }
  }

  // ---------- the base station gets them back ----------

  /** The UE received exactly what was sent, under the same settings. */
  predicate Detected(ue: PdschAck, sent: PdschAck) {
    && ue.nofCc == sent.nofCc && ue.tm == sent.tm && ue.feedback == sent.feedback
    && ue.puschAvailable == sent.puschAvailable
    && forall s, tb :: 0 <= s < MAX_CARRIERS && 0 <= tb < MAX_CODEWORDS ==>
         Sent(ue.cc[s], tb) == Sent(sent.cc[s], tb)
  }

  /** The decoded bits are the ones the UE wrote, wherever it wrote one. */
  predicate Carries(bits: Bits, word: seq<nat>) {
    |word| <= 10 && forall i :: 0 <= i < |word| && word[i] <= 1 ==> bits[i] == word[i]
  }

  /** The carrier has its answers in the word. */
  predicate Told(ue: PdschAck, layout: Layout, s: nat) {
    match layout
    case OnlyPcell => s == 0
    case EveryCarrier => s < ue.nofCc
    case OnePerCarrier => s < ue.nofCc
    case Silent => false
  }

  lemma SameKind(ue: PdschAck, sent: PdschAck, uci: Uci)
    requires Detected(ue, sent)
    ensures ScellSent(sent) == AnyFrom(ue, 1)
    ensures AnyFrom(ue, 0) ==>
              DecodeKind(sent, uci) == match LayoutOf(ue, uci.schedulingRequest, uci.csiReport)
                                       case OnlyPcell => PcellOnly
                                       case EveryCarrier => AllCells
                                       case OnePerCarrier => Bundled
                                       case Silent => Nothing
  {
    if s, tb :| 1 <= s < ue.nofCc && 0 <= tb < Codewords(ue.tm) && Sent(ue.cc[s], tb) {
      assert Sent(sent.cc[s], tb);
    }
    if s, tb :| 1 <= s < sent.nofCc && 0 <= tb < NofTb(sent) && Sent(sent.cc[s], tb) {
      assert Sent(ue.cc[s], tb);
    }
    hide Sent;
  }

  lemma PlaceOf(cc: AckCc, n: nat, tb: nat)
    requires tb < n <= MAX_CODEWORDS
    ensures Places(cc, n)[tb] == if Sent(cc, tb) then cc.value[tb] else 0
  {
  }

  lemma {:induction false} PlaceInAll(ue: PdschAck, n: nat, s: nat, tb: nat)
    requires s < n <= MAX_CARRIERS && tb < Codewords(ue.tm)
    ensures AllPlaces(ue, n)[s * Codewords(ue.tm) + tb] == if Sent(ue.cc[s], tb) then ue.cc[s].value[tb] else 0
  {
    if s < n - 1 {
      PlaceInAll(ue, n - 1, s, tb);
    } else {
      PlaceOf(ue.cc[s], Codewords(ue.tm), tb);
    }
  }

  lemma {:induction false} BundleInAll(ue: PdschAck, n: nat, s: nat)
    requires s < n <= MAX_CARRIERS
    ensures Bundles(ue, n)[s] == Bundle(ue.cc[s], Codewords(ue.tm))
  {
    if s < n - 1 {
      BundleInAll(ue, n - 1, s);
    }
  }

  /** The answer for the second codeword stands first when there is none for the first. */
  lemma FirstOfPcell(ue: PdschAck)
    ensures var word, cc := Received(ue.cc[0], Codewords(ue.tm)), ue.cc[0];
            forall tb :: 0 <= tb < Codewords(ue.tm) && Sent(cc, tb) ==>
              var i := if tb == 1 && cc.value[0] != 2 then 1 else 0;
              i < |word| && word[i] == cc.value[tb]
  {
    assert Received(ue.cc[0], 0) == [];
  }

  lemma PcellBit(ue: PdschAck, sent: PdschAck, uci: Uci, tb: nat)
    requires Detected(ue, sent) && Answered(ue) && tb < Codewords(ue.tm) && Sent(sent.cc[0], tb)
    requires DecodeKind(sent, uci) == PcellOnly && Carries(uci.bits, Received(ue.cc[0], Codewords(ue.tm)))
    ensures DecodedBit(sent, uci, 0, tb) == if uci.valid then ue.cc[0].value[tb] else 0
  {
    hide DecodeKind, Received;
    FirstOfPcell(ue);
    assert Sent(ue.cc[0], tb);
    assert Sent(ue.cc[0], 0) == Sent(sent.cc[0], 0);
  }

  lemma PlaceBit(ue: PdschAck, sent: PdschAck, uci: Uci, s: nat, tb: nat)
    requires Detected(ue, sent) && Answered(ue) && s < ue.nofCc && tb < Codewords(ue.tm) && Sent(sent.cc[s], tb)
    requires DecodeKind(sent, uci) == AllCells && Carries(uci.bits, AllPlaces(ue, ue.nofCc))
    ensures DecodedBit(sent, uci, s, tb) == if uci.valid then ue.cc[s].value[tb] else 0
  {
    hide DecodeKind, AllPlaces;
    PlaceInAll(ue, ue.nofCc, s, tb);
    assert Sent(ue.cc[s], tb);
  }

  lemma BundleBit(ue: PdschAck, sent: PdschAck, uci: Uci, s: nat, tb: nat)
    requires Detected(ue, sent) && s < ue.nofCc && tb < Codewords(ue.tm) && Sent(sent.cc[s], tb)
    requires DecodeKind(sent, uci) == Bundled && Carries(uci.bits, Bundles(ue, ue.nofCc))
    ensures DecodedBit(sent, uci, s, tb) == Bundle(ue.cc[s], Codewords(ue.tm))
  {
    hide DecodeKind, Bundles;
    BundleInAll(ue, ue.nofCc, s);
    assert Sent(ue.cc[s], tb);
  }

  /** For a codeword that was sent. */
  lemma SentComesBack(ue: PdschAck, sent: PdschAck, uci: Uci, s: nat, tb: nat)
    requires Detected(ue, sent) && Answered(ue) && s < ue.nofCc && tb < Codewords(ue.tm) && Sent(sent.cc[s], tb)
    requires Carries(uci.bits, Word(ue, LayoutOf(ue, uci.schedulingRequest, uci.csiReport)))
    requires Told(ue, LayoutOf(ue, uci.schedulingRequest, uci.csiReport), s)
    ensures DecodedBit(sent, uci, s, tb)
         == if LayoutOf(ue, uci.schedulingRequest, uci.csiReport) == OnePerCarrier
            then Bundle(ue.cc[s], Codewords(ue.tm))
            else if uci.valid then ue.cc[s].value[tb] else 0
  {
    hide DecodeKind, DecodedBit, LayoutOf, AnyFrom, Received, AllPlaces, Bundles, Bundle, Carries, Detected;
    SomethingSent(ue, sent, s, tb);
    SameKind(ue, sent, uci);
    match LayoutOf(ue, uci.schedulingRequest, uci.csiReport) {
      case OnlyPcell => PcellBit(ue, sent, uci, tb);
      case EveryCarrier => PlaceBit(ue, sent, uci, s, tb);
      case OnePerCarrier => BundleBit(ue, sent, uci, s, tb);
    }
  }

  lemma SomethingSent(ue: PdschAck, sent: PdschAck, s: nat, tb: nat)
    requires Detected(ue, sent) && s < ue.nofCc && tb < Codewords(ue.tm) && Sent(sent.cc[s], tb)
    ensures AnyFrom(ue, 0)
  {
    assert Sent(ue.cc[s], tb);
  }

  /** Whatever the feedback mode, and with or without a PUSCH, a scheduling request or a CSI report: if the
      UE received what was sent and its bits arrive, decoding gives every codeword that has a place in
      them the UE's own answer, or its carrier's where one answer stands for all its codewords. Every
      other codeword keeps what it had. Bits that are not valid count as negative answers, except where
      one answer stands for a carrier: there the decoder does not look at validity. */
  lemma AnswersComeBack(ue: PdschAck, sent: PdschAck, uci: Uci, s: nat, tb: nat)
    requires Detected(ue, sent) && Answered(ue) && ue.nofCc >= 1
    requires s < MAX_CARRIERS && tb < MAX_CODEWORDS
    requires Carries(uci.bits, Word(ue, LayoutOf(ue, uci.schedulingRequest, uci.csiReport)))
    ensures var layout := LayoutOf(ue, uci.schedulingRequest, uci.csiReport);
            GetAck(sent, uci).cc[s].value[tb]
            == if !Sent(sent.cc[s], tb) || tb >= Codewords(ue.tm) || !Told(ue, layout, s) then sent.cc[s].value[tb]
               else if layout == OnePerCarrier then Bundle(ue.cc[s], Codewords(ue.tm))
               else if uci.valid then ue.cc[s].value[tb]
               else 0
  {
    var layout := LayoutOf(ue, uci.schedulingRequest, uci.csiReport);
    assert GetAck(sent, uci).cc[s].value[tb] == DecodedValue(sent, uci, s, tb);
    if Sent(sent.cc[s], tb) && tb < Codewords(ue.tm) {
      CoveredIsTold(ue, sent, uci, s, tb);
      hide *;
      if Told(ue, layout, s) {
        ToldIsCounted(ue, layout, s);
        SentComesBack(ue, sent, uci, s, tb);
      }
    }
  }

  lemma ToldIsCounted(ue: PdschAck, layout: Layout, s: nat)
    requires ue.nofCc >= 1 && Told(ue, layout, s)
    ensures s < ue.nofCc
  {
  }

  lemma CoveredIsTold(ue: PdschAck, sent: PdschAck, uci: Uci, s: nat, tb: nat)
    requires Detected(ue, sent) && ue.nofCc >= 1
    requires s < MAX_CARRIERS && tb < Codewords(ue.tm) && Sent(sent.cc[s], tb)
    ensures Covered(sent, uci, s) <==> Told(ue, LayoutOf(ue, uci.schedulingRequest, uci.csiReport), s)
  {
    if AnyFrom(ue, 0) {
      SameKind(ue, sent, uci);
      hide DecodeKind, AnyFrom, LayoutOf, Detected;
    } else {
      assert Sent(ue.cc[s], tb);
      assert s >= ue.nofCc;
      hide AnyFrom;
    }
  }
}

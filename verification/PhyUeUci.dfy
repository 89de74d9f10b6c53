/** Uplink grants, the routing of uplink control information and the acknowledgements it carries,
    as functions on the PHY UE database. */
module PhyUeUci {
  import opened PhyUe

  // ---------- uplink grants ----------

  /** For each eNB cell, the RNTIs it has grants for. */
  type GrantLists = seq<seq<nat>>

  /** Some list has a grant for the RNTI in the eNB cell that the lookup maps to this slot. */
  predicate Granted(lists: GrantLists, rnti: nat, cells: Slots, slot: nat) {
    exists e :: 0 <= e < |lists| && rnti in lists[e] && Lookup(cells, e) == slot
  }

  function WithGrants(u: Ue, rnti: nat, tti: nat, lists: GrantLists): Ue {
    u.(cells := seq(MAX_CARRIERS, i requires 0 <= i < MAX_CARRIERS =>
      u.cells[i].(grant := u.cells[i].grant[Pos(tti) := Granted(lists, rnti, u.cells, i)])))
  }

  function SetGrants(db: Db, tti: nat, lists: GrantLists): Db {
    map r | r in db :: WithGrants(db[r], r, tti, lists)
  }

  /** Every grant hits an active cell of its UE. */
  predicate AllGrantsPlaced(db: Db, lists: GrantLists) {
    forall e, i :: 0 <= e < |lists| && 0 <= i < |lists[e]| ==> HasActiveCell(db, lists[e][i], e)
  }

  /** After the grants of a TTI are set, a flag at the TTI's position says whether the UE has a grant in
      the eNB cell its slot is looked up for; flags of other TTIs and everything else stay. */
  lemma GrantFlagsExact(db: Db, tti: nat, lists: GrantLists, r: nat, slot: nat, other: nat)
    requires r in db && slot < MAX_CARRIERS
    ensures var after := SetGrants(db, tti, lists);
            && after.Keys == db.Keys
            && (after[r].cells[slot].grant[Pos(tti)]
                <==> exists e :: 0 <= e < |lists| && r in lists[e] && Lookup(db[r].cells, e) == slot)
            && (Pos(other) != Pos(tti) ==>
                  after[r].cells[slot].grant[Pos(other)] == db[r].cells[slot].grant[Pos(other)])
            && SameSetup(after[r], db[r]) && after[r].pdschAck == db[r].pdschAck
  {
  }

  // ---------- routing of uplink control information ----------

  function FirstGrantFrom(cells: Slots, pos: nat, from: nat): (s: nat)
    requires pos < TTIMOD_SZ && from <= MAX_CARRIERS
    ensures from <= s <= MAX_CARRIERS
    ensures s < MAX_CARRIERS ==> cells[s].grant[pos]
    ensures forall i :: from <= i < s ==> !cells[i].grant[pos]
    decreases MAX_CARRIERS - from
  {
    if from == MAX_CARRIERS || cells[from].grant[pos] then from else FirstGrantFrom(cells, pos, from + 1)
  }

  /** The eNB cell of the lowest slot with a grant; the number of eNB cells if there is none. */
  function UciEnbCc(u: Ue, tti: nat, nofCells: nat): nat {
    var s := FirstGrantFrom(u.cells, Pos(tti), 0);
    if s < MAX_CARRIERS then u.cells[s].enbCc else nofCells
  }

  datatype Gate = Error | NotHere | Here

  /** Whether a call for an eNB cell gets to fill the UCI configuration. */
  function UciGate(db: Db, nofCells: nat, tti: nat, rnti: nat, enbCc: nat, isPusch: bool): Gate {
    if !HasActiveCell(db, rnti, enbCc) then Error
    else
      var uciCc := UciEnbCc(db[rnti], tti, nofCells);
      var available := uciCc < nofCells;
      if available && !isPusch then NotHere
      else if available && uciCc != enbCc then NotHere
      else if !available && Lookup(db[rnti].cells, enbCc) != 0 then NotHere
      else Here
  }

  function UciGranted(u: Ue, tti: nat, nofCells: nat): bool {
    UciEnbCc(u, tti, nofCells) < nofCells
  }

  /** The one cell that may carry the UCI: the granted cell of lowest slot, or the PCell. */
  function UciTarget(u: Ue, tti: nat, nofCells: nat): nat {
    if UciGranted(u, tti, nofCells) then UciEnbCc(u, tti, nofCells) else u.cells[0].enbCc
  }

  predicate InUse(cells: Slots, enbCc: nat) {
    exists i :: 0 <= i < MAX_CARRIERS && Serves(cells[i], enbCc)
  }

  lemma InUseIsFound(cells: Slots, enbCc: nat)
    ensures InUse(cells, enbCc) <==> Lookup(cells, enbCc) < MAX_CARRIERS
  {
    if Lookup(cells, enbCc) < MAX_CARRIERS {
      assert Serves(cells[Lookup(cells, enbCc)], enbCc);
    }
  }

  /** Exactly which calls get past the gate: those for the target cell, with a PUSCH when there is a
      grant, and provided the target is still in use by an active slot. */
  lemma UciGateExact(db: Db, nofCells: nat, tti: nat, rnti: nat, enbCc: nat, isPusch: bool)
    ensures UciGate(db, nofCells, tti, rnti, enbCc, isPusch) == Here
       <==> && rnti in db
            && enbCc == UciTarget(db[rnti], tti, nofCells)
            && if UciGranted(db[rnti], tti, nofCells) then isPusch && InUse(db[rnti].cells, enbCc)
               else Active(db[rnti].cells[0])
  {
    if rnti in db {
      InUseIsFound(db[rnti].cells, enbCc);
      if Active(db[rnti].cells[0]) && enbCc == db[rnti].cells[0].enbCc {
        LookupIs(db[rnti].cells, enbCc, 0);
      }
    }
  }

  /** So in any state, for any TTI and UE, at most one eNB cell gets past it. */
  lemma UciRouteUnique(db: Db, nofCells: nat, tti: nat, rnti: nat, a: nat, aPusch: bool, b: nat, bPusch: bool)
    requires UciGate(db, nofCells, tti, rnti, a, aPusch) == Here
    requires UciGate(db, nofCells, tti, rnti, b, bPusch) == Here
    ensures a == b
  {
    UciGateExact(db, nofCells, tti, rnti, a, aPusch);
    UciGateExact(db, nofCells, tti, rnti, b, bPusch);
  }

  /** Right after the grants of a TTI are set, its UCI does find a cell: the granted one or the PCell. */
  lemma UciRouteAfterGrants(db: Db, nofCells: nat, tti: nat, lists: GrantLists, rnti: nat)
    requires rnti in db && db[rnti].cells[0].state == Primary && |lists| <= nofCells
    ensures var db' := SetGrants(db, tti, lists);
            UciGate(db', nofCells, tti, rnti, UciTarget(db'[rnti], tti, nofCells), true) == Here
  {
    var cells := db[rnti].cells;
    var db' := SetGrants(db, tti, lists);
    var u := db'[rnti];
    UciGateExact(db', nofCells, tti, rnti, UciTarget(u, tti, nofCells), true);
    var s := FirstGrantFrom(u.cells, Pos(tti), 0);
    if s < MAX_CARRIERS {
      var e :| 0 <= e < |lists| && rnti in lists[e] && Lookup(cells, e) == s;
      assert Serves(u.cells[s], e);
    }
  }

  // ---------- registering pending acknowledgements ----------

  datatype DciFormat =
    | Format0 | Format1 | Format1A | Format1B | Format1C | Format1D | Format2 | Format2A | Format2B
    | FormatN0 | FormatN1 | FormatN2 | FormatRar | NofFormats

  function MaxTb(format: DciFormat): nat {
    match format
    case Format2 | Format2A | Format2B => 2
    case NofFormats => 0
    case _ => 1
  }

  datatype Tb = Tb(mcsIdx: nat, rv: nat)

  type Tbs = s: seq<Tb> | |s| == MAX_CODEWORDS witness [Tb(0, 0), Tb(0, 0)]

  datatype Dci = Dci(rnti: nat, format: DciFormat, tb: Tbs, ncce: nat, tpc: nat)

  /** The codeword is enabled in the DCI and its format has room for it. */
  predicate Enabled(dci: Dci, tb: nat)
    requires tb < MAX_CODEWORDS
  {
    !(dci.tb[tb].mcsIdx == 0 && dci.tb[tb].rv == 1) && tb < MaxTb(dci.format)
  }

  function EnabledCount(dci: Dci): nat {
    (if Enabled(dci, 0) then 1 else 0) + (if Enabled(dci, 1) then 1 else 0)
  }

  function Registered(before: AckCc, slot: nat, dci: Dci): AckCc {
    AckCc(1, true, before.k + EnabledCount(dci),
          [if Enabled(dci, 0) then 1 else 2, if Enabled(dci, 1) then 1 else 2],
          slot, dci.ncce, dci.tpc)
  }

  /** A second codeword takes a format 2, 2A or 2B, a first one any format there is; MCS 0 together with
      redundancy version 1 stands for a disabled codeword. */
  lemma EnabledIff(dci: Dci)
    ensures Enabled(dci, 0) <==> (dci.tb[0].mcsIdx == 0 ==> dci.tb[0].rv != 1) && dci.format != NofFormats
    ensures Enabled(dci, 1) <==> (dci.tb[1].mcsIdx == 0 ==> dci.tb[1].rv != 1) && dci.format in {Format2, Format2A, Format2B}
  {
  }

  function RegisterUe(u: Ue, pos: nat, slot: nat, dci: Dci): Ue
    requires pos < TTIMOD_SZ && slot < MAX_CARRIERS
  {
    var ack := u.pdschAck[pos];
    u.(pdschAck := u.pdschAck[pos := ack.(cc := ack.cc[slot := Registered(ack.cc[slot], slot, dci)])])
  }

  function SetAckPending(db: Db, tti: nat, enbCc: nat, dci: Dci): Db {
    if !HasActiveCell(db, dci.rnti, enbCc) then db
    else db[dci.rnti := RegisterUe(db[dci.rnti], Pos(tti), Lookup(db[dci.rnti].cells, enbCc), dci)]
  }

  // ---------- decoding acknowledgements ----------

  type Bits = s: seq<nat> | |s| == 10 && forall i :: 0 <= i < 10 ==> s[i] <= 1
    witness [0, 0, 0, 0, 0, 0, 0, 0, 0, 0]

  /** What was decoded: hard acknowledgement bits, whether they are valid, a scheduling request, whether
      a CSI report was asked for, and the slot that report is about. */
  datatype Uci = Uci(bits: Bits, valid: bool, schedulingRequest: bool, csiReport: bool, cqiSlot: nat)

  datatype Decode = PcellOnly | AllCells | Bundled | Nothing

  function NofTb(ack: PdschAck): (n: nat)
    ensures 1 <= n <= MAX_CODEWORDS
  {
    if ack.tm > 2 then MAX_CODEWORDS else 1
  }

  predicate Sent(cc: AckCc, tb: nat)
    requires tb < MAX_CODEWORDS
  {
    cc.present && cc.value[tb] != 2
  }

  predicate ScellSent(ack: PdschAck) {
    exists cc, tb :: 1 <= cc < ack.nofCc && 0 <= tb < NofTb(ack) && Sent(ack.cc[cc], tb)
  }

  function DecodeKind(ack: PdschAck, uci: Uci): Decode {
    match ack.feedback
    case Normal => PcellOnly
    case ChannelSelection =>
      if ack.nofCc == 1 then PcellOnly
      else if ack.puschAvailable then AllCells
      else if uci.schedulingRequest then Bundled
      else if uci.csiReport then PcellOnly
      else AllCells
    case Pucch3 => if ScellSent(ack) then AllCells else PcellOnly
    case NoFeedback => Nothing
  }

  /** The carriers whose codewords the decoder overwrites. */
  predicate Covered(ack: PdschAck, uci: Uci, slot: nat) {
    match DecodeKind(ack, uci)
    case PcellOnly => slot == 0
    case AllCells => slot < ack.nofCc
    case Bundled => slot < ack.nofCc
    case Nothing => false
  }

  /** The decoded value of a covered codeword. */
  function DecodedBit(ack: PdschAck, uci: Uci, slot: nat, tb: nat): (v: nat)
    requires slot < MAX_CARRIERS && tb < MAX_CODEWORDS
    ensures v <= 1
  {
    match DecodeKind(ack, uci)
    case PcellOnly =>
      if !uci.valid then 0 else uci.bits[if tb == 1 && ack.cc[0].value[0] != 2 then 1 else 0]
    case AllCells => if !uci.valid then 0 else uci.bits[slot * NofTb(ack) + tb]
    case Bundled => uci.bits[slot]
    case Nothing => 0
  }

  function DecodedValue(ack: PdschAck, uci: Uci, slot: nat, tb: nat): nat
    requires slot < MAX_CARRIERS && tb < MAX_CODEWORDS
  {
    if Covered(ack, uci, slot) && tb < NofTb(ack) && Sent(ack.cc[slot], tb)
    then DecodedBit(ack, uci, slot, tb) else ack.cc[slot].value[tb]
  }

  function GetAck(ack: PdschAck, uci: Uci): PdschAck {
    ack.(cc := seq(MAX_CARRIERS, s requires 0 <= s < MAX_CARRIERS =>
      ack.cc[s].(value := [DecodedValue(ack, uci, s, 0), DecodedValue(ack, uci, s, 1)])))
  }

  // ---------- reports to the stack ----------

  datatype Report = Report(enbCc: nat, tb: nat, ack: bool)

  function TbReport(c: CellInfo, cc: AckCc, tb: nat): seq<Report>
    requires tb < MAX_CODEWORDS
  {
    if cc.count > 0 && Sent(cc, tb) then [Report(c.enbCc, tb, cc.value[tb] == 1)] else []
  }

  function SlotReports(c: CellInfo, cc: AckCc): seq<Report> {
    TbReport(c, cc, 0) + TbReport(c, cc, 1)
  }

  function ReportsBelow(cells: Slots, ack: PdschAck, n: nat): seq<Report>
    requires n <= MAX_CARRIERS
  {
    if n == 0 then [] else ReportsBelow(cells, ack, n - 1) + SlotReports(cells[n - 1], ack.cc[n - 1])
  }

  function Reports(cells: Slots, ack: PdschAck): seq<Report> {
    ReportsBelow(cells, ack, MAX_CARRIERS)
  }

  /** The outcome of handing over decoded UCI. */
  datatype Sending = Sending(db: Db, reports: seq<Report>, ok: bool)

  function SendUci(db: Db, tti: nat, rnti: nat, enbCc: nat, uci: Uci): Sending {
    if !HasActiveCell(db, rnti, enbCc) then Sending(db, [], false)
    else
      var u := db[rnti];
      var ack := GetAck(u.pdschAck[Pos(tti)], uci);
      Sending(db[rnti := u.(pdschAck := u.pdschAck[Pos(tti) := ack])], Reports(u.cells, ack),
              uci.cqiSlot < MAX_CARRIERS && u.cells[uci.cqiSlot].state != Unconfigured)
  }

  /** Handing over decoded information fails without effect where the cell is not active. Otherwise it changes
      at most the values at that position of that UE, and succeeds if and only if the slot that the CSI is
      about is configured. */
  lemma SendUciOutcome(db: Db, tti: nat, rnti: nat, enbCc: nat, uci: Uci)
    ensures var r := SendUci(db, tti, rnti, enbCc, uci);
            && r.db.Keys == db.Keys && (forall k :: k in db && k != rnti ==> r.db[k] == db[k])
            && (!HasActiveCell(db, rnti, enbCc) ==> r.db == db && r.reports == [] && !r.ok)
            && (HasActiveCell(db, rnti, enbCc) ==>
                  && (r.ok <==> exists i :: 0 <= i < MAX_CARRIERS && i == uci.cqiSlot && db[rnti].cells[i].state != Unconfigured)
                  && r.db[rnti].cells == db[rnti].cells
                  && r.db[rnti].stashedMultipleCsi == db[rnti].stashedMultipleCsi
                  && (forall p :: 0 <= p < TTIMOD_SZ && p != Pos(tti) ==> r.db[rnti].pdschAck[p] == db[rnti].pdschAck[p])
                  && (forall s :: 0 <= s < MAX_CARRIERS ==>
                        ValueAside(r.db[rnti].pdschAck[Pos(tti)].cc[s], db[rnti].pdschAck[Pos(tti)].cc[s])))
  {
    hide DecodedValue;
  }

  /** Two entries that agree but for the values of their codewords. */
  predicate ValueAside(a: AckCc, b: AckCc) {
    a.count == b.count && a.present == b.present && a.k == b.k
    && a.grantCc == b.grantCc && a.ncce == b.ncce && a.tpc == b.tpc
  }

  /** Getting past the gate notes in the pending acknowledgements whether a PUSCH is there. */
  function FillUci(db: Db, nofCells: nat, tti: nat, rnti: nat, enbCc: nat, isPusch: bool): Db {
    if UciGate(db, nofCells, tti, rnti, enbCc, isPusch) != Here then db
    else
      var u := db[rnti];
      db[rnti := u.(pdschAck := u.pdschAck[Pos(tti) := u.pdschAck[Pos(tti)].(puschAvailable := isPusch)])]
  }
  /** The mark is all that changes, at that position of that UE alone, and only for the target cell, and
      with a grant only for a PUSCH. */
  lemma FillUciMarks(db: Db, nofCells: nat, tti: nat, rnti: nat, enbCc: nat, isPusch: bool)
    ensures var after := FillUci(db, nofCells, tti, rnti, enbCc, isPusch);
            var through := UciGate(db, nofCells, tti, rnti, enbCc, isPusch) == Here;
            && after.Keys == db.Keys
            && (forall r :: r in db && (r != rnti || !through) ==> after[r] == db[r])
            && (through ==>
                  && rnti in db && enbCc == UciTarget(db[rnti], tti, nofCells)
                  && (UciGranted(db[rnti], tti, nofCells) ==> isPusch)
                  && after[rnti].cells == db[rnti].cells
                  && after[rnti].stashedMultipleCsi == db[rnti].stashedMultipleCsi
                  && (forall p :: 0 <= p < TTIMOD_SZ && p != Pos(tti) ==> after[rnti].pdschAck[p] == db[rnti].pdschAck[p])
                  && (var a, b := after[rnti].pdschAck[Pos(tti)], db[rnti].pdschAck[Pos(tti)];
                      && a.puschAvailable == isPusch && a.cc == b.cc && a.nofCc == b.nofCc && a.tm == b.tm
                      && a.feedback == b.feedback && a.simulCqiAck == b.simulCqiAck))
  {
    UciGateExact(db, nofCells, tti, rnti, enbCc, isPusch);
    hide UciTarget, UciGranted, InUse;
  }

  /** The target in plain terms: the eNB cell of the lowest slot with a grant at the position, if that cell
      exists, and otherwise the PCell's. */
  lemma UciTargetIs(u: Ue, tti: nat, nofCells: nat, s: nat)
    requires s <= MAX_CARRIERS && forall i :: 0 <= i < s ==> !u.cells[i].grant[Pos(tti)]
    requires s < MAX_CARRIERS ==> u.cells[s].grant[Pos(tti)]
    ensures UciTarget(u, tti, nofCells)
         == if s < MAX_CARRIERS && u.cells[s].enbCc < nofCells then u.cells[s].enbCc else u.cells[0].enbCc
    ensures UciGranted(u, tti, nofCells) <==> s < MAX_CARRIERS && u.cells[s].enbCc < nofCells
  {
    assert FirstGrantFrom(u.cells, Pos(tti), 0) == s;
  }
}

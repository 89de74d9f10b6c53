/** The data of the PHY UE database and what each of its operations does to one UE, as functions. */
module PhyUe {
  import opened Basics

  const MAX_CARRIERS: nat := 5
  const TTIMOD_SZ: nat := 20
  const MAX_CODEWORDS: nat := 2
  const CRNTI_START: nat := 0x000B
  const CRNTI_END: nat := 0xFFF3

  // ---------- configuration ----------

  datatype CellState = Unconfigured | Primary | SecondaryInactive | SecondaryActive

  datatype FeedbackMode = Normal | ChannelSelection | Pucch3 | NoFeedback

  /** A configuration and the parts of it that the getters return. The named parameters are those the
      database reads or writes itself; `common` stands for the measurement and threshold settings it
      derives from the PHY arguments, `other` for all that is copied unread. */
  datatype PhyCfg = PhyCfg(dl: DlCfg, ul: UlCfg, prach: int)

  datatype DlCfg = DlCfg(rnti: nat, tm: nat, useTbsIndexAlt: bool, dci: DciCfg, other: int)

  datatype DciCfg = DciCfg(multipleCsi: bool, other: int)

  datatype UlCfg = UlCfg(rnti: nat, common: int, feedback: FeedbackMode, simulCqiAck: bool, other: int)

  const DEFAULT_CFG := PhyCfg(DlCfg(0, 1, false, DciCfg(false, 0), 0), UlCfg(0, 0, Normal, false, 0), 0)

  function WithRnti(cfg: PhyCfg, rnti: nat): PhyCfg {
    cfg.(dl := cfg.dl.(rnti := rnti), ul := cfg.ul.(rnti := rnti))
  }

  function WithCommon(cfg: PhyCfg, rnti: nat, args: int): PhyCfg {
    cfg.(dl := cfg.dl.(rnti := rnti), ul := cfg.ul.(rnti := rnti, common := args))
  }

  function WithCsi(cfg: PhyCfg, csi: bool): PhyCfg {
    cfg.(dl := cfg.dl.(dci := cfg.dl.dci.(multipleCsi := csi)))
  }

  /** One entry of a reconfiguration list. */
  datatype RrcCfg = RrcCfg(configured: bool, enbCc: nat, cfg: PhyCfg)

  type RrcList = seq<RrcCfg>

  // ---------- pending acknowledgements ----------

  /** 0 and 1 are a decoded NACK and ACK, 2 means nothing was sent. */
  type Values = v: seq<nat> | |v| == MAX_CODEWORDS witness [0, 0]

  /** The pending acknowledgement of one carrier; only the first of the source's per-subframe entries
      is used in FDD, so `count` is 0 or 1 and there is one entry. */
  datatype AckCc = AckCc(count: nat, present: bool, k: nat, value: Values, grantCc: nat, ncce: nat, tpc: nat)

  const NO_ACK := AckCc(0, false, 0, [0, 0], 0, 0, 0)

  type AckCcs = s: seq<AckCc> | |s| == MAX_CARRIERS witness [NO_ACK, NO_ACK, NO_ACK, NO_ACK, NO_ACK]

  type CcCount = n: nat | n <= MAX_CARRIERS

  datatype PdschAck = PdschAck(
    cc: AckCcs, nofCc: CcCount, tm: nat, feedback: FeedbackMode, simulCqiAck: bool, puschAvailable: bool)

  const EMPTY_ACK := PdschAck([NO_ACK, NO_ACK, NO_ACK, NO_ACK, NO_ACK], 0, 1, Normal, false, false)

  type AckRing = s: seq<PdschAck> | |s| == TTIMOD_SZ witness seq(20, _ => EMPTY_ACK)

  // ---------- a UE ----------

  type Flags = s: seq<bool> | |s| == TTIMOD_SZ witness seq(20, _ => false)

  datatype CellInfo = CellInfo(state: CellState, enbCc: nat, stashTbs: bool, cfg: PhyCfg, grant: Flags)

  function NoFlags(): Flags {
    seq(20, _ => false)
  }

  function DefaultCell(): CellInfo {
    CellInfo(Unconfigured, 0, false, DEFAULT_CFG, NoFlags())
  }

  type Slots = s: seq<CellInfo> | |s| == MAX_CARRIERS
    witness [DefaultCell(), DefaultCell(), DefaultCell(), DefaultCell(), DefaultCell()]

  datatype Ue = Ue(stashedMultipleCsi: bool, pdschAck: AckRing, cells: Slots)

  function Pos(tti: nat): (p: nat)
    ensures p < TTIMOD_SZ
  {
    tti % TTIMOD_SZ
  }

  /** Two TTIs share a position exactly when they are a whole number of rings apart. */
  lemma PosShared(a: nat, b: nat)
    ensures Pos(a) == Pos(b) <==> (a - b) % 20 == 0
  {
    assert a == 20 * (a / 20) + a % 20 && b == 20 * (b / 20) + b % 20;
  }

  predicate Active(c: CellInfo) {
    c.state == Primary || c.state == SecondaryActive
  }

  predicate Secondary(c: CellInfo) {
    c.state == SecondaryInactive || c.state == SecondaryActive
  }

  function CountActive(cells: seq<CellInfo>): (n: nat)
    ensures n <= |cells|
  {
    if cells == [] then 0 else CountActive(cells[..|cells| - 1]) + if Active(cells[|cells| - 1]) then 1 else 0
  }

  function ActiveSlots(cells: seq<CellInfo>): set<nat> {
    set i: nat | i < |cells| && Active(cells[i])
  }

  lemma ActiveSnoc(cells: seq<CellInfo>)
    requires cells != []
    ensures var n := |cells| - 1;
            && ActiveSlots(cells) == ActiveSlots(cells[..n]) + (if Active(cells[n]) then {n} else {})
            && n !in ActiveSlots(cells[..n])
  {
    var n := |cells| - 1;
    assert forall i :: 0 <= i < n ==> cells[..n][i] == cells[i];
    hide Active;
  }

  /** The number of active slots, whatever order they are counted in. */
  lemma {:induction false} CountActiveIs(cells: seq<CellInfo>)
    ensures CountActive(cells) == |ActiveSlots(cells)|
    decreases |cells|
  {
    if cells == [] {
      assert ActiveSlots(cells) == {};
    } else {
      hide ActiveSlots, Active;
      CountActiveIs(cells[..|cells| - 1]);
      ActiveSnoc(cells);
    }
  }

  function CountSecondary(cells: seq<CellInfo>): (n: nat)
  {
    if cells == [] then 0
    else CountSecondary(cells[..|cells| - 1]) + if Secondary(cells[|cells| - 1]) then 1 else 0
  }

  /** What the count is compared with zero for. */
  lemma {:induction false} SomeSecondary(cells: seq<CellInfo>)
    ensures CountSecondary(cells) > 0 <==> exists i :: 0 <= i < |cells| && Secondary(cells[i])
    decreases |cells|
  {
    if cells != [] {
      var front := cells[..|cells| - 1];
      SomeSecondary(front);
      if i :| 0 <= i < |front| && Secondary(front[i]) {
        assert Secondary(cells[i]);
      }
      if i :| 0 <= i < |cells| && Secondary(cells[i]) {
        assert i < |front| ==> Secondary(front[i]);
      }
    }
  }

  /** The multiple CSI request flag that goes with the configured cells. */
  function CsiFlag(cells: seq<CellInfo>): bool {
    CountSecondary(cells) > 0
  }

  // ---------- lookups ----------

  predicate Serves(c: CellInfo, enbCc: nat) {
    c.enbCc == enbCc && Active(c)
  }

  function LookupFrom(cells: Slots, enbCc: nat, from: nat): (s: nat)
    requires from <= MAX_CARRIERS
    ensures from <= s <= MAX_CARRIERS
    ensures s < MAX_CARRIERS ==> Serves(cells[s], enbCc)
    ensures forall i :: from <= i < s ==> !Serves(cells[i], enbCc)
    decreases MAX_CARRIERS - from
  {
    if from == MAX_CARRIERS || Serves(cells[from], enbCc) then from else LookupFrom(cells, enbCc, from + 1)
  }

  /** The first active slot served by the eNB cell, or MAX_CARRIERS. */
  function Lookup(cells: Slots, enbCc: nat): (s: nat)
    ensures s <= MAX_CARRIERS
    ensures s < MAX_CARRIERS ==> Serves(cells[s], enbCc)
    ensures forall i :: 0 <= i < s ==> !Serves(cells[i], enbCc)
  {
    LookupFrom(cells, enbCc, 0)
  }

  /** These two facts single the result out. */
  lemma LookupIs(cells: Slots, enbCc: nat, s: nat)
    requires s <= MAX_CARRIERS
    requires s < MAX_CARRIERS ==> Serves(cells[s], enbCc)
    requires forall i :: 0 <= i < s ==> !Serves(cells[i], enbCc)
    ensures Lookup(cells, enbCc) == s
  {
  }

  type Db = map<nat, Ue>

  /** The RNTI exists and one of its active slots uses the eNB cell. */
  predicate HasActiveCell(db: Db, rnti: nat, enbCc: nat) {
    rnti in db && Lookup(db[rnti].cells, enbCc) < MAX_CARRIERS
  }

  predicate IsUserRnti(rnti: nat) {
    CRNTI_START <= rnti <= CRNTI_END
  }

  /** The setup of a UE: everything but its pending acknowledgements and grant flags. */
  ghost predicate SameSetup(u: Ue, v: Ue) {
    && u.stashedMultipleCsi == v.stashedMultipleCsi
    && forall i :: 0 <= i < MAX_CARRIERS ==> u.cells[i].(grant := v.cells[i].grant) == v.cells[i]
  }

  // ---------- operations on one UE ----------

  function ClearedAck(u: Ue): PdschAck {
    PdschAck([NO_ACK, NO_ACK, NO_ACK, NO_ACK, NO_ACK], CountActive(u.cells), u.cells[0].cfg.dl.tm,
             u.cells[0].cfg.ul.feedback, u.cells[0].cfg.ul.simulCqiAck, false)
  }

  function ClearTti(u: Ue, pos: nat): Ue
    requires pos < TTIMOD_SZ
  {
    u.(pdschAck := u.pdschAck[pos := ClearedAck(u)])
  }

  function BlankSlots(): Slots {
    [DefaultCell(), DefaultCell(), DefaultCell(), DefaultCell(), DefaultCell()]
  }

  function FilledAcks(ack: PdschAck): (r: AckRing)
    ensures forall t :: 0 <= t < TTIMOD_SZ ==> r[t] == ack
  {
    seq(20, _ => ack)
  }

  function DefaultPcell(rnti: nat, args: int): CellInfo {
    DefaultCell().(state := Primary, cfg := WithCommon(DEFAULT_CFG, rnti, args))
  }

  function BlankUe(rnti: nat, args: int): Ue {
    Ue(false, FilledAcks(EMPTY_ACK), BlankSlots()[0 := DefaultPcell(rnti, args)])
  }

  /** A UE just added: default PCell, all acknowledgement positions cleared. */
  function NewUe(rnti: nat, args: int): Ue {
    var u := BlankUe(rnti, args);
    u.(pdschAck := FilledAcks(ClearedAck(u)))
  }

  function Listed(list: RrcList): (n: nat)
    ensures n <= MAX_CARRIERS && n <= |list|
  {
    if |list| < MAX_CARRIERS then |list| else MAX_CARRIERS
  }

  /** The list asks for slot i to be configured. */
  predicate Asks(list: RrcList, i: nat) {
    i < Listed(list) && list[i].configured
  }

  function ConfigureSlot(c: CellInfo, rnti: nat, args: int, r: RrcCfg): CellInfo {
    var next :=
      if c.state == Primary then c.(cfg := WithCommon(r.cfg, rnti, args))
      else if r.configured then
        c.(cfg := WithCommon(r.cfg, rnti, args),
           state := if c.state == Unconfigured then SecondaryInactive else c.state)
      else c.(state := Unconfigured);
    next.(enbCc := r.enbCc)
  }

  function StashSlot(c: CellInfo): CellInfo {
    c.(stashTbs := c.cfg.dl.useTbsIndexAlt)
  }

  /** The slots after the list is applied, before the CSI flag is set. */
  function Configured(cells: Slots, rnti: nat, args: int, list: RrcList): (r: Slots) {
    seq(MAX_CARRIERS, i requires 0 <= i < MAX_CARRIERS =>
      if i < Listed(list) then ConfigureSlot(StashSlot(cells[i]), rnti, args, list[i])
      else StashSlot(cells[i]).(state := Unconfigured))
  }

  function AddMod(u: Ue, rnti: nat, args: int, list: RrcList): Ue {
    var cells := Configured(u.cells, rnti, args, list);
    var csi := CsiFlag(cells);
    u.(stashedMultipleCsi := CsiFlag(u.cells),
       cells := seq(MAX_CARRIERS, i requires 0 <= i < MAX_CARRIERS =>
         if i < Listed(list) then cells[i].(cfg := WithCsi(cells[i].cfg, csi)) else cells[i]))
  }

  function Complete(u: Ue): Ue {
    u.(stashedMultipleCsi := CsiFlag(u.cells),
       cells := seq(MAX_CARRIERS, i requires 0 <= i < MAX_CARRIERS => StashSlot(u.cells[i])))
  }

  /** An activation command; a slot that is not configured, or out of range, is left alone. */
  function Activate(u: Ue, slot: nat, on: bool): Ue {
    if slot >= MAX_CARRIERS || u.cells[slot].state == Unconfigured then u
    else u.(cells := u.cells[slot := u.cells[slot].(state := if on then SecondaryActive else SecondaryInactive)])
  }

  /** Clearing a position touches nothing else of the UE; it leaves no entry, counts the active slots and takes
      the modes of the PCell. */
  lemma ClearedPosition(u: Ue, pos: nat)
    requires pos < TTIMOD_SZ
    ensures var v := ClearTti(u, pos);
            && v.cells == u.cells && v.stashedMultipleCsi == u.stashedMultipleCsi
            && (forall p :: 0 <= p < TTIMOD_SZ && p != pos ==> v.pdschAck[p] == u.pdschAck[p])
            && var ack, pcell := v.pdschAck[pos], u.cells[0].cfg;
               && (forall s :: 0 <= s < MAX_CARRIERS ==> ack.cc[s] == NO_ACK)
               && ack.nofCc == |ActiveSlots(u.cells)|
               && ack.tm == pcell.dl.tm && ack.feedback == pcell.ul.feedback
               && ack.simulCqiAck == pcell.ul.simulCqiAck && !ack.puschAvailable
  {
    CountActiveIs(u.cells);
  }

  /** An activation command moves the state of a configured slot and nothing else. */
  lemma ActivatedSlot(u: Ue, slot: nat, on: bool, i: nat)
    requires i < MAX_CARRIERS
    ensures var v := Activate(u, slot, on);
            && v.pdschAck == u.pdschAck && v.stashedMultipleCsi == u.stashedMultipleCsi
            && (i != slot || u.cells[i].state == Unconfigured ==> v.cells[i] == u.cells[i])
            && (i == slot && u.cells[i].state != Unconfigured ==>
                  && v.cells[i].state == (if on then SecondaryActive else SecondaryInactive)
                  && v.cells[i].enbCc == u.cells[i].enbCc && v.cells[i].stashTbs == u.cells[i].stashTbs
                  && v.cells[i].cfg == u.cells[i].cfg && v.cells[i].grant == u.cells[i].grant)
  {
  }

  /** Completion makes the stashed flags those of the configuration in force, in every slot, and changes
      nothing else. */
  lemma CompletedSlot(u: Ue, i: nat)
    requires i < MAX_CARRIERS
    ensures var v := Complete(u);
            && v.pdschAck == u.pdschAck
            && (v.stashedMultipleCsi <==> exists j :: 0 <= j < MAX_CARRIERS && Secondary(u.cells[j]))
            && v.cells[i].stashTbs == u.cells[i].cfg.dl.useTbsIndexAlt
            && v.cells[i].state == u.cells[i].state && v.cells[i].enbCc == u.cells[i].enbCc
            && v.cells[i].cfg == u.cells[i].cfg && v.cells[i].grant == u.cells[i].grant
  {
    SomeSecondary(u.cells);
    hide CountSecondary;
  }

  // ---------- configuration getters ----------

  /** The configuration in force for a cell; RNTIs outside the user range get the defaults. */
  function RntiConfig(db: Db, rnti: nat, enbCc: nat): Option<PhyCfg> {
    if !IsUserRnti(rnti) then Some(WithRnti(DEFAULT_CFG, rnti))
    else if !HasActiveCell(db, rnti, enbCc) then None
    else Some(db[rnti].cells[Lookup(db[rnti].cells, enbCc)].cfg)
  }

  /** The PCell's 256QAM flag is the stashed one for downlink use. */
  function DlConfig(db: Db, rnti: nat, enbCc: nat): Option<DlCfg> {
    match RntiConfig(db, rnti, enbCc)
    case None => None
    case Some(cfg) =>
      if rnti in db && IsUserRnti(rnti) && Lookup(db[rnti].cells, enbCc) == 0
      then Some(cfg.dl.(useTbsIndexAlt := db[rnti].cells[0].stashTbs)) else Some(cfg.dl)
  }

  /** The PCell's multiple CSI flag is the stashed one for downlink grants. */
  function DciDlConfig(db: Db, rnti: nat, enbCc: nat): Option<DciCfg> {
    match RntiConfig(db, rnti, enbCc)
    case None => None
    case Some(cfg) =>
      if rnti in db && IsUserRnti(rnti) && Lookup(db[rnti].cells, enbCc) == 0
      then Some(cfg.dl.dci.(multipleCsi := db[rnti].stashedMultipleCsi)) else Some(cfg.dl.dci)
  }

  /** Uplink transmissions and grants always use the newest configuration. */
  function UlConfig(db: Db, rnti: nat, enbCc: nat): Option<UlCfg> {
    match RntiConfig(db, rnti, enbCc)
    case None => None
    case Some(cfg) => Some(cfg.ul)
  }

  function DciUlConfig(db: Db, rnti: nat, enbCc: nat): Option<DciCfg> {
    match RntiConfig(db, rnti, enbCc)
    case None => None
    case Some(cfg) => Some(cfg.dl.dci)
  }
  /** RNTIs outside the user range get the defaults under their own name, whatever is in the database. */
  lemma DefaultsShown(db: Db, rnti: nat, enbCc: nat)
    requires rnti < 0x000B || rnti > 0xFFF3
    ensures DlConfig(db, rnti, enbCc) == Some(DlCfg(rnti, 1, false, DciCfg(false, 0), 0))
    ensures UlConfig(db, rnti, enbCc) == Some(UlCfg(rnti, 0, Normal, false, 0))
    ensures DciDlConfig(db, rnti, enbCc) == DciUlConfig(db, rnti, enbCc) == Some(DciCfg(false, 0))
  {
  }
}

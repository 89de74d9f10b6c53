/** The PHY UE database as the object its callers share: each method updates the map of UEs in place,
    loop by loop, and is proved to do what the specification says. */
module PhyUeDb {
  import opened Basics
  import opened PhyUe
  import opened PhyUeUci
  import opened PhyUeRuns

  // ---------- lookups over the slots ----------

  method GetUeCcIdx(cells: Slots, enbCc: nat) returns (ueCc: nat)
    ensures ueCc == Lookup(cells, enbCc)
  {
    ueCc := 0;
    while ueCc < MAX_CARRIERS
      invariant ueCc <= MAX_CARRIERS
      invariant forall i :: 0 <= i < ueCc ==> !Serves(cells[i], enbCc)
    {
      if cells[ueCc].enbCc == enbCc && (cells[ueCc].state == Primary || cells[ueCc].state == SecondaryActive) {
        LookupIs(cells, enbCc, ueCc);
        return;
      }
      ueCc := ueCc + 1;
    }
    LookupIs(cells, enbCc, ueCc);
  }

  method GetUciEnbCcIdx(u: Ue, tti: nat, nofCells: nat) returns (enbCc: nat)
    ensures enbCc == UciEnbCc(u, tti, nofCells)
  {
    var i := 0;
    while i < MAX_CARRIERS
      invariant i <= MAX_CARRIERS
      invariant FirstGrantFrom(u.cells, Pos(tti), 0) == FirstGrantFrom(u.cells, Pos(tti), i)
    {
      if u.cells[i].grant[Pos(tti)] {
        return u.cells[i].enbCc;
      }
      i := i + 1;
    }
    return nofCells;
  }

  method CountNofConfiguredScell(cells: Slots) returns (n: nat)
    ensures n == CountSecondary(cells)
  {
    n := 0;
    var i := 0;
    while i < MAX_CARRIERS
      invariant i <= MAX_CARRIERS && n == CountSecondary(cells[..i])
    {
      if cells[i].state == SecondaryInactive || cells[i].state == SecondaryActive {
        n := n + 1;
      }
      assert cells[..i + 1][..i] == cells[..i];
      i := i + 1;
    }
    assert cells[..i] == cells;
  }

  /** The pending acknowledgement a position starts from. */
  method FreshAck(cells: Slots) returns (ack: PdschAck)
    ensures forall u: Ue :: u.cells == cells ==> ack == ClearedAck(u)
  {
    var nofActiveCc := 0;
    var i := 0;
    while i < MAX_CARRIERS
      invariant i <= MAX_CARRIERS && nofActiveCc == CountActive(cells[..i])
    {
      if cells[i].state == Primary || cells[i].state == SecondaryActive {
        nofActiveCc := nofActiveCc + 1;
      }
      assert cells[..i + 1][..i] == cells[..i];
      i := i + 1;
    }
    assert cells[..i] == cells;
    ack := EMPTY_ACK.(tm := cells[0].cfg.dl.tm, nofCc := nofActiveCc, feedback := cells[0].cfg.ul.feedback,
                      simulCqiAck := cells[0].cfg.ul.simulCqiAck);
  }

  /** Every slot's 256QAM flag is put aside. */
  method StashAll(start: Slots) returns (cells: Slots)
    ensures forall k :: 0 <= k < MAX_CARRIERS ==> cells[k] == StashSlot(start[k])
  {
    cells := start;
    var i := 0;
    while i < MAX_CARRIERS
      invariant i <= MAX_CARRIERS
      invariant forall k :: 0 <= k < i ==> cells[k] == StashSlot(start[k])
      invariant forall k :: i <= k < MAX_CARRIERS ==> cells[k] == start[k]
    {
      cells := cells[i := cells[i].(stashTbs := cells[i].cfg.dl.useTbsIndexAlt)];
      i := i + 1;
    }
  }

  class UeDb {
    const env: Env
    var ueDb: map<nat, Ue>

    constructor (env: Env)
      ensures this.env == env && ueDb == map[]
    {
      this.env := env;
      ueDb := map[];
    }

    // ---------- RRC and MAC ----------

    method AddRnti(rnti: nat) returns (ok: bool)
      modifies this
      ensures ok <==> rnti !in old(ueDb)
      ensures ueDb == if ok then old(ueDb)[rnti := NewUe(rnti, env.args)] else old(ueDb)
    {
      if rnti in ueDb {
        return false;
      }
      ghost var blank := BlankUe(rnti, env.args);
      var cells: Slots := BlankSlots();
      cells := cells[0 := cells[0].(cfg := WithCommon(DEFAULT_CFG, rnti, env.args))];
      cells := cells[0 := cells[0].(state := Primary)];
      assert cells == blank.cells;
      var acks: AckRing := FilledAcks(EMPTY_ACK);
      var tti := 0;
      while tti < TTIMOD_SZ
        invariant tti <= TTIMOD_SZ && ueDb == old(ueDb)
        invariant forall t :: 0 <= t < tti ==> acks[t] == ClearedAck(blank)
      {
        var ack := FreshAck(cells);
        acks := acks[tti := ack];
        tti := tti + 1;
      }
      assert acks == NewUe(rnti, env.args).pdschAck;
      var u := Ue(false, acks, cells);
      assert u == NewUe(rnti, env.args);
      ueDb := ueDb[rnti := u];
      return true;
    }

    method AddModRnti(rnti: nat, list: RrcList)
      modifies this
      ensures ueDb == AddModDb(old(ueDb), env.args, rnti, list)
    {
      if rnti !in ueDb {
        var _ := AddRnti(rnti);
      }
      var u := Reconfigure(ueDb[rnti], rnti, list);
      ueDb := ueDb[rnti := u];
    }

    /** The work on the UE itself. */
    method Reconfigure(u: Ue, rnti: nat, list: RrcList) returns (v: Ue)
      ensures v == AddMod(u, rnti, env.args, list)
    {
      hide CountSecondary, ConfigureSlot, StashSlot;
      var before := CountNofConfiguredScell(u.cells);
      var cells := StashAll(u.cells);
      cells := ConfigureSlots(cells, rnti, list);
      assert cells == Configured(u.cells, rnti, env.args, list);
      var after := CountNofConfiguredScell(cells);
      cells := SetCsi(cells, if |list| < MAX_CARRIERS then |list| else MAX_CARRIERS, after > 0);
      assert cells == AddMod(u, rnti, env.args, list).cells by {
        hide Configured;
      }
      v := u.(stashedMultipleCsi := before > 0, cells := cells);
    }

    method SetCsi(start: Slots, nofCc: nat, csi: bool) returns (cells: Slots)
      requires nofCc <= MAX_CARRIERS
      ensures forall k :: 0 <= k < MAX_CARRIERS ==>
                cells[k] == if k < nofCc then start[k].(cfg := WithCsi(start[k].cfg, csi)) else start[k]
    {
      cells := start;
      var ueCc := 0;
      while ueCc < nofCc
        invariant ueCc <= nofCc
        invariant forall k :: 0 <= k < ueCc ==> cells[k] == start[k].(cfg := WithCsi(start[k].cfg, csi))
        invariant forall k :: ueCc <= k < MAX_CARRIERS ==> cells[k] == start[k]
      {
        cells := cells[ueCc := cells[ueCc].(cfg := WithCsi(cells[ueCc].cfg, csi))];
        ueCc := ueCc + 1;
      }
    }

    /** The two loops over the slots: configure those listed, disable the rest. */
    method ConfigureSlots(start: Slots, rnti: nat, list: RrcList) returns (cells: Slots)
      ensures forall k :: 0 <= k < MAX_CARRIERS ==>
                cells[k] == if k < Listed(list) then ConfigureSlot(start[k], rnti, env.args, list[k])
                            else start[k].(state := Unconfigured)
    {
      cells := start;
      var nofCc := if |list| < MAX_CARRIERS then |list| else MAX_CARRIERS;
      var ueCc := 0;
      while ueCc < nofCc
        invariant ueCc <= nofCc
        invariant forall k :: 0 <= k < ueCc ==> cells[k] == ConfigureSlot(start[k], rnti, env.args, list[k])
        invariant forall k :: ueCc <= k < MAX_CARRIERS ==> cells[k] == start[k]
      {
        var r, c := list[ueCc], cells[ueCc];
        if c.state == Primary {
          if c.enbCc != r.enbCc {
            c := c.(cfg := WithCommon(DEFAULT_CFG, rnti, env.args));
          }
          c := c.(cfg := WithCommon(r.cfg, rnti, env.args));
        } else if r.configured {
          c := c.(cfg := WithCommon(r.cfg, rnti, env.args));
          if c.state == Unconfigured {
            c := c.(state := SecondaryInactive);
          }
        } else {
          c := c.(state := Unconfigured);
        }
        c := c.(enbCc := r.enbCc);
        cells := cells[ueCc := c];
        ueCc := ueCc + 1;
      }
      var i := nofCc;
      while i < MAX_CARRIERS
        invariant nofCc <= i <= MAX_CARRIERS
        invariant forall k :: 0 <= k < nofCc ==> cells[k] == ConfigureSlot(start[k], rnti, env.args, list[k])
        invariant forall k :: nofCc <= k < i ==> cells[k] == start[k].(state := Unconfigured)
        invariant forall k :: i <= k < MAX_CARRIERS ==> cells[k] == start[k]
      {
        cells := cells[i := cells[i].(state := Unconfigured)];
        i := i + 1;
      }
    }

    method RemRnti(rnti: nat) returns (ok: bool)
      modifies this
      ensures ok <==> rnti in old(ueDb)
      ensures ueDb == Step(env, old(ueDb), Call.RemRnti(rnti))
    {
      if rnti !in ueDb {
        return false;
      }
      ueDb := ueDb - {rnti};
      return true;
    }

    method CompleteConfig(rnti: nat) returns (ok: bool)
      modifies this
      ensures ok <==> rnti in old(ueDb)
      ensures ueDb == Step(env, old(ueDb), Call.CompleteConfig(rnti))
    {
      if rnti !in ueDb {
        return false;
      }
      var u := ueDb[rnti];
      var configured := CountNofConfiguredScell(u.cells);
      var cells := StashAll(u.cells);
      ueDb := ueDb[rnti := u.(stashedMultipleCsi := configured > 0, cells := cells)];
      assert cells == Complete(u).cells;
      return true;
    }

    /** An unknown UE or an unconfigured slot is not reported as an error. */
    method ActivateDeactivateScell(rnti: nat, ueCc: nat, activate: bool) returns (ok: bool)
      modifies this
      ensures ok
      ensures ueDb == Step(env, old(ueDb), ActivateScell(rnti, ueCc, activate))
    {
      if rnti !in ueDb || ueCc >= MAX_CARRIERS || ueDb[rnti].cells[ueCc].state == Unconfigured {
        return true;
      }
      var u := ueDb[rnti];
      var state := if activate then SecondaryActive else SecondaryInactive;
      ueDb := ueDb[rnti := u.(cells := u.cells[ueCc := u.cells[ueCc].(state := state)])];
      return true;
    }

    // ---------- getters ----------

    method GetRntiConfig(rnti: nat, enbCc: nat) returns (cfg: Option<PhyCfg>)
      ensures cfg == RntiConfig(ueDb, rnti, enbCc)
    {
      if !(CRNTI_START <= rnti <= CRNTI_END) {
        return Some(WithRnti(DEFAULT_CFG, rnti));
      }
      if rnti !in ueDb {
        return None;
      }
      var ueCc := GetUeCcIdx(ueDb[rnti].cells, enbCc);
      if ueCc == MAX_CARRIERS {
        return None;
      }
      return Some(ueDb[rnti].cells[ueCc].cfg);
    }

    method GetDlConfig(rnti: nat, enbCc: nat) returns (dl: Option<DlCfg>)
      ensures dl == DlConfig(ueDb, rnti, enbCc)
    {
      var cfg := GetRntiConfig(rnti, enbCc);
      if cfg.None? {
        return None;
      }
      dl := Some(cfg.value.dl);
      if rnti in ueDb && IsUserRnti(rnti) {
        var ueCc := GetUeCcIdx(ueDb[rnti].cells, enbCc);
        if ueCc == 0 {
          dl := Some(dl.value.(useTbsIndexAlt := ueDb[rnti].cells[ueCc].stashTbs));
        }
      }
    }

    method GetDciDlConfig(rnti: nat, enbCc: nat) returns (dci: Option<DciCfg>)
      ensures dci == DciDlConfig(ueDb, rnti, enbCc)
    {
      var cfg := GetRntiConfig(rnti, enbCc);
      if cfg.None? {
        return None;
      }
      dci := Some(cfg.value.dl.dci);
      if rnti in ueDb && IsUserRnti(rnti) {
        var ueCc := GetUeCcIdx(ueDb[rnti].cells, enbCc);
        if ueCc == 0 {
          dci := Some(dci.value.(multipleCsi := ueDb[rnti].stashedMultipleCsi));
        }
      }
    }

    method GetUlConfig(rnti: nat, enbCc: nat) returns (ul: Option<UlCfg>)
      ensures ul == UlConfig(ueDb, rnti, enbCc)
    {
      var cfg := GetRntiConfig(rnti, enbCc);
      return if cfg.None? then None else Some(cfg.value.ul);
    }

    method GetDciUlConfig(rnti: nat, enbCc: nat) returns (dci: Option<DciCfg>)
      ensures dci == DciUlConfig(ueDb, rnti, enbCc)
    {
      var cfg := GetRntiConfig(rnti, enbCc);
      return if cfg.None? then None else Some(cfg.value.dl.dci);
    }

    /** The RNTI exists and has the eNB cell among its active slots. */
    method AssertActiveEnbCc(rnti: nat, enbCc: nat) returns (ok: bool)
      ensures ok == HasActiveCell(ueDb, rnti, enbCc)
    {
      if rnti !in ueDb {
        return false;
      }
      var ueCc := GetUeCcIdx(ueDb[rnti].cells, enbCc);
      if ueCc == MAX_CARRIERS {
        return false;
      }
      return ueDb[rnti].cells[ueCc].state == Primary || ueDb[rnti].cells[ueCc].state == SecondaryActive;
    }

    // ---------- once per TTI ----------

    method ClearTtiPendingAck(tti: nat)
      modifies this
      ensures ueDb == Step(env, old(ueDb), ClearAcks(tti))
    {
      ghost var before := ueDb;
      var todo := ueDb.Keys;
      while todo != {}
        invariant todo <= ueDb.Keys == before.Keys
        invariant forall r :: r in todo ==> ueDb[r] == before[r]
        invariant forall r :: r in ueDb && r !in todo ==> ueDb[r] == ClearTti(before[r], Pos(tti))
        decreases todo
      {
        var r :| r in todo;
        var ack := FreshAck(ueDb[r].cells);
        ueDb := ueDb[r := ueDb[r].(pdschAck := ueDb[r].pdschAck[Pos(tti) := ack])];
        todo := todo - {r};
      }
    }

    method SetAckPending(tti: nat, enbCc: nat, dci: Dci) returns (ok: bool)
      modifies this
      ensures ok == HasActiveCell(old(ueDb), dci.rnti, enbCc)
      ensures ueDb == PhyUeUci.SetAckPending(old(ueDb), tti, enbCc, dci)
    {
      ok := AssertActiveEnbCc(dci.rnti, enbCc);
      if !ok {
        return;
      }
      var u := ueDb[dci.rnti];
      var ueCc := GetUeCcIdx(u.cells, enbCc);
      var ack := u.pdschAck[Pos(tti)];
      var cc := ack.cc[ueCc].(count := 1, present := true, grantCc := ueCc, ncce := dci.ncce, tpc := dci.tpc);
      ghost var start := cc;
      var tb := 0;
      while tb < MAX_CODEWORDS
        invariant tb <= MAX_CODEWORDS
        invariant cc == start.(k := cc.k, value := cc.value)
        invariant cc.k == start.k + (if tb > 0 && Enabled(dci, 0) then 1 else 0) + (if tb > 1 && Enabled(dci, 1) then 1 else 0)
        invariant forall t :: 0 <= t < tb ==> cc.value[t] == if Enabled(dci, t) then 1 else 2
      {
        if !(dci.tb[tb].mcsIdx == 0 && dci.tb[tb].rv == 1) && tb < MaxTb(dci.format) {
          cc := cc.(value := cc.value[tb := 1], k := cc.k + 1);
        } else {
          cc := cc.(value := cc.value[tb := 2]);
        }
        tb := tb + 1;
      }
      assert cc.value == Registered(ack.cc[ueCc], ueCc, dci).value;
      ueDb := ueDb[dci.rnti := u.(pdschAck := u.pdschAck[Pos(tti) := ack.(cc := ack.cc[ueCc := cc])])];
    }

    method SetUlGrantAvailable(tti: nat, lists: GrantLists) returns (ok: bool)
      modifies this
      ensures ok <==> AllGrantsPlaced(old(ueDb), lists)
      ensures ueDb == SetGrants(old(ueDb), tti, lists)
    {
      ghost var before := ueDb;
      ok := true;
      ResetFlags(tti);
      var e := 0;
      while e < |lists|
        invariant 0 <= e <= |lists|
        invariant FlagsFor(before, ueDb, tti, lists[..e])
        invariant ok <==> AllGrantsPlaced(before, lists[..e])
      {
        hide FlagsFor, HasActiveCell;
        var rowOk := RaiseRow(before, tti, lists[..e], lists[e]);
        ok := ok && rowOk;
        assert lists[..e + 1] == lists[..e] + [lists[e]];
        e := e + 1;
      }
      assert lists[..e] == lists;
      FlagsAreSpec(before, ueDb, tti, lists);
    }

    /** The grants of one eNB cell, whose index is the number of cells done before. */
    method RaiseRow(ghost before: Db, tti: nat, done: GrantLists, row: seq<nat>) returns (ok: bool)
      requires FlagsFor(before, ueDb, tti, done)
      modifies this
      ensures FlagsFor(before, ueDb, tti, done + [row])
      ensures ok <==> forall k :: 0 <= k < |row| ==> HasActiveCell(before, row[k], |done|)
    {
      var e := |done|;
      ok := true;
      var i := 0;
      NoGrantYet(before, ueDb, tti, done);
      assert row[..i] == [];
      while i < |row|
        invariant 0 <= i <= |row|
        invariant FlagsFor(before, ueDb, tti, done + [row[..i]])
        invariant ok <==> forall k :: 0 <= k < i ==> HasActiveCell(before, row[k], e)
      {
        var rnti := row[i];
        hide FlagsFor, HasActiveCell;
        var active := RaiseGrant(before, tti, done, row[..i], rnti, e);
        if !active {
          ok := false;
        }
        assert row[..i + 1] == row[..i] + [rnti];
        i := i + 1;
      }
      assert row[..i] == row;
    }

    /** One more grant of the current eNB cell. */
    method RaiseGrant(ghost before: Db, tti: nat, ghost done: GrantLists, ghost row: seq<nat>, rnti: nat, e: nat)
      returns (active: bool)
      requires e == |done| && FlagsFor(before, ueDb, tti, done + [row])
      modifies this
      ensures FlagsFor(before, ueDb, tti, done + [row + [rnti]])
      ensures active == HasActiveCell(before, rnti, e)
    {
      SameActivity(before, ueDb, tti, done + [row], rnti, e);
      hide FlagsFor, FlagsOfUe;
      ghost var mid := ueDb;
      active := AssertActiveEnbCc(rnti, e);
      if active {
        var u := ueDb[rnti];
        var ueCc := GetUeCcIdx(u.cells, e);
        var c := u.cells[ueCc];
        ueDb := ueDb[rnti := u.(cells := u.cells[ueCc := c.(grant := c.grant[Pos(tti) := true])])];
      }
      GrantRaised(before, mid, ueDb, tti, done, row, rnti);
    }

    method ResetFlags(tti: nat)
      modifies this
      ensures FlagsFor(old(ueDb), ueDb, tti, [])
    {
      ghost var before := ueDb;
      var todo := ueDb.Keys;
      while todo != {}
        invariant todo <= ueDb.Keys == before.Keys
        invariant forall r :: r in todo ==> ueDb[r] == before[r]
        invariant forall r :: r in ueDb && r !in todo ==> FlagsOfUe(before[r], ueDb[r], r, tti, [])
        decreases todo
      {
        var r :| r in todo;
        var cells := ueDb[r].cells;
        var i := 0;
        while i < MAX_CARRIERS
          invariant i <= MAX_CARRIERS
          invariant forall k :: 0 <= k < i ==>
                      cells[k] == before[r].cells[k].(grant := before[r].cells[k].grant[Pos(tti) := false])
          invariant forall k :: i <= k < MAX_CARRIERS ==> cells[k] == before[r].cells[k]
        {
          cells := cells[i := cells[i].(grant := cells[i].grant[Pos(tti) := false])];
          i := i + 1;
        }
        ueDb := ueDb[r := ueDb[r].(cells := cells)];
        todo := todo - {r};
      }
    }

    // ---------- uplink control information ----------

    /** The gate of fill_uci_cfg and its effect on the pending acknowledgements. */
    method FillUciCfg(tti: nat, enbCc: nat, rnti: nat, isPusch: bool) returns (gate: Gate)
      modifies this
      ensures gate == UciGate(old(ueDb), env.nofCells, tti, rnti, enbCc, isPusch)
      ensures ueDb == FillUci(old(ueDb), env.nofCells, tti, rnti, enbCc, isPusch)
    {
      var active := AssertActiveEnbCc(rnti, enbCc);
      if !active {
        return Error;
      }
      var u := ueDb[rnti];
      var uciCc := GetUciEnbCcIdx(u, tti, env.nofCells);
      var available := uciCc < env.nofCells;
      if available && !isPusch {
        return NotHere;
      }
      if available && uciCc != enbCc {
        return NotHere;
      }
      var ueCc := GetUeCcIdx(u.cells, enbCc);
      if !available && ueCc != 0 {
        return NotHere;
      }
      ueDb := ueDb[rnti := u.(pdschAck := u.pdschAck[Pos(tti) := u.pdschAck[Pos(tti)].(puschAvailable := isPusch)])];
      return Here;
    }

    method SendUciData(tti: nat, rnti: nat, enbCc: nat, uci: Uci) returns (ok: bool, reports: seq<Report>)
      modifies this
      ensures Sending(ueDb, reports, ok) == SendUci(old(ueDb), tti, rnti, enbCc, uci)
    {
      var active := AssertActiveEnbCc(rnti, enbCc);
      if !active {
        return false, [];
      }
      var u := ueDb[rnti];
      var ack := DecodeAcks(u.pdschAck[Pos(tti)], uci);
      ueDb := ueDb[rnti := u.(pdschAck := u.pdschAck[Pos(tti) := ack])];
      reports := [];
      var ueCc := 0;
      while ueCc < MAX_CARRIERS
        invariant ueCc <= MAX_CARRIERS && reports == ReportsBelow(u.cells, ack, ueCc)
      {
        var cc := ack.cc[ueCc];
        if cc.count > 0 && cc.present {
          var tb := 0;
          while tb < MAX_CODEWORDS
            invariant tb <= MAX_CODEWORDS
            invariant reports == ReportsBelow(u.cells, ack, ueCc)
                                 + (if tb > 0 then TbReport(u.cells[ueCc], cc, 0) else [])
                                 + (if tb > 1 then TbReport(u.cells[ueCc], cc, 1) else [])
          {
            if cc.value[tb] != 2 {
              reports := reports + [Report(u.cells[ueCc].enbCc, tb, cc.value[tb] == 1)];
            }
            tb := tb + 1;
          }
        }
        assert reports == ReportsBelow(u.cells, ack, ueCc) + SlotReports(u.cells[ueCc], cc);
        ueCc := ueCc + 1;
      }
      ok := uci.cqiSlot < MAX_CARRIERS && u.cells[uci.cqiSlot].state != Unconfigured;
    }
  }

  // ---------- whole runs ----------

  method Perform(db: UeDb, call: Call)
    modifies db
    ensures db.ueDb == Step(db.env, old(db.ueDb), call)
  {
    hide AddModDb, PhyUeUci.SetAckPending, SetGrants, FillUci, SendUci, AllGrantsPlaced, UciGate;
    match call {
      case AddModRnti(rnti, list) => db.AddModRnti(rnti, list);
      case RemRnti(rnti) => var _ := db.RemRnti(rnti);
      case CompleteConfig(rnti) => var _ := db.CompleteConfig(rnti);
      case ActivateScell(rnti, slot, on) => var _ := db.ActivateDeactivateScell(rnti, slot, on);
      case ClearAcks(tti) => db.ClearTtiPendingAck(tti);
      case SetAck(tti, enbCc, dci) => var _ := db.SetAckPending(tti, enbCc, dci);
      case SetUlGrants(tti, lists) => var _ := db.SetUlGrantAvailable(tti, lists);
      case FillUciCfg(tti, rnti, enbCc, isPusch) => var _ := db.FillUciCfg(tti, enbCc, rnti, isPusch);
      case SendUciData(tti, rnti, enbCc, uci) => var _, _ := db.SendUciData(tti, rnti, enbCc, uci);
    }
  }

  /** Any sequence of calls on a new database object leaves it where the run of those calls ends, so what
      is proved of runs is true of the object. */
  method Replay(env: Env, calls: seq<Call>) returns (db: UeDb)
    ensures fresh(db) && db.env == env && db.ueDb == Run(env, calls)
  {
    db := new UeDb(env);
    var i := 0;
    while i < |calls|
      invariant i <= |calls| && fresh(db) && db.env == env
      invariant db.ueDb == Run(env, calls[..i])
    {
      hide Step;
      Perform(db, calls[i]);
      assert calls[..i + 1][..i] == calls[..i];
      i := i + 1;
    }
    assert calls[..i] == calls;
  }

  // ---------- the decoder ----------

  method ScellCodewords(ack: PdschAck, nofTb: nat) returns (some: bool)
    requires nofTb == NofTb(ack)
    ensures some == ScellSent(ack)
  {
    var count, countPcell := 0, 0;
    var cc := 0;
    while cc < ack.nofCc
      invariant cc <= ack.nofCc && countPcell <= count
      invariant cc == 0 ==> count == countPcell == 0
      invariant count > countPcell <==> exists c, t :: 1 <= c < cc && 0 <= t < nofTb && Sent(ack.cc[c], t)
    {
      var tb := 0;
      while tb < nofTb
        invariant tb <= nofTb && countPcell <= count
        invariant cc == 0 ==> count == countPcell
        invariant count > countPcell <==>
                    || (exists c, t :: 1 <= c < cc && 0 <= t < nofTb && Sent(ack.cc[c], t))
                    || (exists t :: cc >= 1 && 0 <= t < tb && Sent(ack.cc[cc], t))
      {
        if ack.cc[cc].present && ack.cc[cc].value[tb] != 2 {
          assert Sent(ack.cc[cc], tb);
          count := count + 1;
        }
        if cc == 0 {
          countPcell := count;
        }
        tb := tb + 1;
      }
      cc := cc + 1;
    }
    some := count != countPcell;
  }

  method DecodeAcks(ack: PdschAck, uci: Uci) returns (r: PdschAck)
    ensures r == GetAck(ack, uci)
  {
    var nofTb := if ack.tm > 2 then MAX_CODEWORDS else 1;
    var scells := ScellCodewords(ack, nofTb);
    if ack.feedback == NoFeedback {
      NothingDecoded(ack, uci);
    }
    hide DecodedValue, ScellSent;
    match ack.feedback {
      case Normal => r := PcellSkipDrx(ack, uci);
      case ChannelSelection =>
        if ack.nofCc == 1 {
          r := PcellSkipDrx(ack, uci);
        } else if ack.puschAvailable {
          r := AllKeepDrx(ack, uci, false);
        } else if uci.schedulingRequest {
          r := AllKeepDrx(ack, uci, true);
        } else if uci.csiReport {
          r := PcellSkipDrx(ack, uci);
        } else {
          r := AllKeepDrx(ack, uci, false);
        }
      case Pucch3 =>
        if !scells {
          r := PcellSkipDrx(ack, uci);
        } else {
          r := AllKeepDrx(ack, uci, false);
        }
      case NoFeedback => r := ack;
    }
    assert r.cc == GetAck(ack, uci).cc;
  }

  lemma NothingDecoded(ack: PdschAck, uci: Uci)
    requires DecodeKind(ack, uci) == Nothing
    ensures forall s :: 0 <= s < MAX_CARRIERS ==>
              ack.cc[s] == ack.cc[s].(value := [DecodedValue(ack, uci, s, 0), DecodedValue(ack, uci, s, 1)])
  {
    forall s | 0 <= s < MAX_CARRIERS
      ensures ack.cc[s].value == [DecodedValue(ack, uci, s, 0), DecodedValue(ack, uci, s, 1)]
    {
    }
  }

  /** Takes the PCell's bits in order, skipping codewords that were not sent. */
  method PcellSkipDrx(ack: PdschAck, uci: Uci) returns (r: PdschAck)
    requires DecodeKind(ack, uci) == PcellOnly
    ensures r == ack.(cc := r.cc)
    ensures forall s :: 0 <= s < MAX_CARRIERS ==>
              r.cc[s] == ack.cc[s].(value := [DecodedValue(ack, uci, s, 0), DecodedValue(ack, uci, s, 1)])
  {
    var nofTb := if ack.tm > 2 then MAX_CODEWORDS else 1;
    var value := ack.cc[0].value;
    var ackIdx := 0;
    if ack.cc[0].present {
      var tb := 0;
      while tb < nofTb
        invariant tb <= nofTb && ackIdx <= tb
        invariant tb == 1 && uci.valid ==> ackIdx == if ack.cc[0].value[0] != 2 then 1 else 0
        invariant forall t :: 0 <= t < tb ==> value[t] == DecodedValue(ack, uci, 0, t)
        invariant forall t :: tb <= t < MAX_CODEWORDS ==> value[t] == ack.cc[0].value[t]
      {
        if value[tb] != 2 {
          if uci.valid {
            value := value[tb := uci.bits[ackIdx]];
            ackIdx := ackIdx + 1;
          } else {
            value := value[tb := 0];
          }
        }
        tb := tb + 1;
      }
    }
    r := ack.(cc := ack.cc[0 := ack.cc[0].(value := value)]);
    assert forall s :: 0 <= s < MAX_CARRIERS ==> ack.cc[s].value == [ack.cc[s].value[0], ack.cc[s].value[1]];
    assert value == [DecodedValue(ack, uci, 0, 0), DecodedValue(ack, uci, 0, 1)];
  }

  /** One carrier: a bit for every codeword, or one bit for all of them when bundled. */
  method CarrierBits(ack: PdschAck, uci: Uci, bundled: bool, cc: nat) returns (value: Values)
    requires cc < ack.nofCc && DecodeKind(ack, uci) == if bundled then Bundled else AllCells
    ensures value == [DecodedValue(ack, uci, cc, 0), DecodedValue(ack, uci, cc, 1)]
  {
    var nofTb := if ack.tm > 2 then MAX_CODEWORDS else 1;
    value := ack.cc[cc].value;
    if ack.cc[cc].present {
      var tb := 0;
      while tb < nofTb
        invariant tb <= nofTb
        invariant forall t :: 0 <= t < tb ==> value[t] == DecodedValue(ack, uci, cc, t)
        invariant forall t :: tb <= t < MAX_CODEWORDS ==> value[t] == ack.cc[cc].value[t]
      {
        if value[tb] != 2 {
          if bundled {
            value := value[tb := uci.bits[cc]];
          } else if uci.valid {
            value := value[tb := uci.bits[cc * nofTb + tb]];
          } else {
            value := value[tb := 0];
          }
        }
        tb := tb + 1;
      }
    }
  }

  /** Takes the bits of all counted carriers. */
  method AllKeepDrx(ack: PdschAck, uci: Uci, bundled: bool) returns (r: PdschAck)
    requires DecodeKind(ack, uci) == if bundled then Bundled else AllCells
    ensures r == ack.(cc := r.cc)
    ensures forall s :: 0 <= s < MAX_CARRIERS ==>
              r.cc[s] == ack.cc[s].(value := [DecodedValue(ack, uci, s, 0), DecodedValue(ack, uci, s, 1)])
  {
    r := ack;
    assert forall s :: 0 <= s < MAX_CARRIERS ==> ack.cc[s].value == [ack.cc[s].value[0], ack.cc[s].value[1]];
    var cc := 0;
    while cc < ack.nofCc
      invariant cc <= ack.nofCc && r == ack.(cc := r.cc)
      invariant forall s :: 0 <= s < cc ==>
                  r.cc[s] == ack.cc[s].(value := [DecodedValue(ack, uci, s, 0), DecodedValue(ack, uci, s, 1)])
      invariant forall s :: cc <= s < MAX_CARRIERS ==> r.cc[s] == ack.cc[s]
    {
      hide DecodedValue;
      var value := CarrierBits(ack, uci, bundled, cc);
      r := r.(cc := r.cc[cc := r.cc[cc].(value := value)]);
      cc := cc + 1;
    }
  }

  // ---------- bookkeeping for the grant flags ----------

  /** v is u with exactly the given grants flagged at the TTI's position. */
  ghost predicate FlagsOfUe(u: Ue, v: Ue, rnti: nat, tti: nat, lists: GrantLists) {
    v == WithGrants(u, rnti, tti, lists)
  }

  ghost predicate FlagsFor(before: Db, after: Db, tti: nat, lists: GrantLists) {
    after.Keys == before.Keys && forall r :: r in before ==> FlagsOfUe(before[r], after[r], r, tti, lists)
  }

  lemma FlagsAreSpec(before: Db, after: Db, tti: nat, lists: GrantLists)
    requires FlagsFor(before, after, tti, lists)
    ensures after == SetGrants(before, tti, lists)
  {
    hide WithGrants;
  }

  /** Raising flags does not change what the lookup finds. */
  lemma SameLookup(u: Ue, v: Ue, rnti: nat, tti: nat, lists: GrantLists, enbCc: nat)
    requires FlagsOfUe(u, v, rnti, tti, lists)
    ensures Lookup(v.cells, enbCc) == Lookup(u.cells, enbCc)
  {
    LookupIs(v.cells, enbCc, Lookup(u.cells, enbCc));
  }

  lemma SameActivity(before: Db, after: Db, tti: nat, lists: GrantLists, rnti: nat, enbCc: nat)
    requires FlagsFor(before, after, tti, lists)
    ensures HasActiveCell(after, rnti, enbCc) == HasActiveCell(before, rnti, enbCc)
    ensures rnti in before ==> Lookup(after[rnti].cells, enbCc) == Lookup(before[rnti].cells, enbCc)
  {
    if rnti in before {
      SameLookup(before[rnti], after[rnti], rnti, tti, lists, enbCc);
    }
  }

  lemma GrantedStep(done: GrantLists, row: seq<nat>, x: nat, rnti: nat, cells: Slots, slot: nat)
    ensures Granted(done + [row + [x]], rnti, cells, slot)
       <==> Granted(done + [row], rnti, cells, slot) || (rnti == x && Lookup(cells, |done|) == slot)
  {
    var old', new' := done + [row], done + [row + [x]];
    if e :| 0 <= e < |old'| && rnti in old'[e] && Lookup(cells, e) == slot {
      assert rnti in new'[e];
    }
    if e :| 0 <= e < |new'| && rnti in new'[e] && Lookup(cells, e) == slot {
      assert e < |done| ==> rnti in old'[e];
      assert e == |done| && rnti != x ==> rnti in old'[e];
    }
    assert x in new'[|done|];
  }

  lemma EmptyRow(done: GrantLists, rnti: nat, cells: Slots, slot: nat)
    ensures Granted(done + [[]], rnti, cells, slot) <==> Granted(done, rnti, cells, slot)
  {
    var all := done + [[]];
    if e :| 0 <= e < |done| && rnti in done[e] && Lookup(cells, e) == slot {
      assert rnti in all[e];
    }
    if e :| 0 <= e < |all| && rnti in all[e] && Lookup(cells, e) == slot {
      assert e < |done| && rnti in done[e];
    }
  }

  lemma NoGrantYet(before: Db, after: Db, tti: nat, lists: GrantLists)
    requires FlagsFor(before, after, tti, lists)
    ensures FlagsFor(before, after, tti, lists + [[]])
  {
    forall r | r in before
      ensures FlagsOfUe(before[r], after[r], r, tti, lists + [[]])
    {
      forall i | 0 <= i < MAX_CARRIERS
        ensures Granted(lists + [[]], r, before[r].cells, i) == Granted(lists, r, before[r].cells, i)
      {
        EmptyRow(lists, r, before[r].cells, i);
      }
      hide Granted;
      assert after[r].cells == WithGrants(before[r], r, tti, lists + [[]]).cells;
    }
  }

  function Raised(u: Ue, tti: nat, slot: nat): Ue
    requires slot < MAX_CARRIERS
  {
    u.(cells := u.cells[slot := u.cells[slot].(grant := u.cells[slot].grant[Pos(tti) := true])])
  }

  lemma GrantRaised(before: Db, mid: Db, after: Db, tti: nat, done: GrantLists, row: seq<nat>, rnti: nat)
    requires FlagsFor(before, mid, tti, done + [row])
    requires after == if HasActiveCell(mid, rnti, |done|)
                      then mid[rnti := Raised(mid[rnti], tti, Lookup(mid[rnti].cells, |done|))] else mid
    ensures FlagsFor(before, after, tti, done + [row + [rnti]])
  {
    SameActivity(before, mid, tti, done + [row], rnti, |done|);
    forall r | r in before
      ensures FlagsOfUe(before[r], after[r], r, tti, done + [row + [rnti]])
    {
      GrantRaisedFor(before, mid, after, tti, done, row, rnti, r);
    }
    hide FlagsOfUe, Raised, HasActiveCell;
  }

  lemma GrantRaisedFor(
    before: Db, mid: Db, after: Db, tti: nat, done: GrantLists, row: seq<nat>, rnti: nat, r: nat)
    requires r in before && r in mid && r in after
    requires FlagsOfUe(before[r], mid[r], r, tti, done + [row])
    requires r != rnti ==> after[r] == mid[r]
    requires rnti in before && rnti in mid ==> Lookup(mid[rnti].cells, |done|) == Lookup(before[rnti].cells, |done|)
    requires r == rnti ==>
               var s := Lookup(mid[r].cells, |done|);
               after[r] == if s < MAX_CARRIERS then Raised(mid[r], tti, s) else mid[r]
    ensures FlagsOfUe(before[r], after[r], r, tti, done + [row + [rnti]])
  {
    var spec := WithGrants(before[r], r, tti, done + [row + [rnti]]);
    forall i | 0 <= i < MAX_CARRIERS
      ensures after[r].cells[i] == spec.cells[i]
    {
      GrantedStep(done, row, rnti, r, before[r].cells, i);
      hide Granted;
    }
    assert after[r].cells == spec.cells;
    hide Granted;
  }
}

/** Runs of the PHY UE database: any sequence of calls from the RRC, the MAC and the workers, and
    what holds after every such run. */
module PhyUeRuns {
  import opened PhyUe
  import opened PhyUeUci

  datatype Call =
    | AddModRnti(rnti: nat, list: RrcList)
    | RemRnti(rnti: nat)
    | CompleteConfig(rnti: nat)
    | ActivateScell(rnti: nat, slot: nat, on: bool)
    | ClearAcks(tti: nat)
    | SetAck(tti: nat, enbCc: nat, dci: Dci)
    | SetUlGrants(tti: nat, lists: GrantLists)
    | FillUciCfg(tti: nat, rnti: nat, enbCc: nat, isPusch: bool)
    | SendUciData(tti: nat, rnti: nat, enbCc: nat, uci: Uci)

  /** What never changes: the PHY arguments and the number of eNB cells. */
  datatype Env = Env(args: int, nofCells: nat)

  function AddModDb(db: Db, args: int, rnti: nat, list: RrcList): Db {
    db[rnti := AddMod(if rnti in db then db[rnti] else NewUe(rnti, args), rnti, args, list)]
  }

  function Step(env: Env, db: Db, call: Call): Db {
    match call
    case AddModRnti(rnti, list) => AddModDb(db, env.args, rnti, list)
    case RemRnti(rnti) => db - {rnti}
    case CompleteConfig(rnti) => if rnti in db then db[rnti := Complete(db[rnti])] else db
    case ActivateScell(rnti, slot, on) => if rnti in db then db[rnti := Activate(db[rnti], slot, on)] else db
    case ClearAcks(tti) => map r | r in db :: ClearTti(db[r], Pos(tti))
    case SetAck(tti, enbCc, dci) => SetAckPending(db, tti, enbCc, dci)
    case SetUlGrants(tti, lists) => SetGrants(db, tti, lists)
    case FillUciCfg(tti, rnti, enbCc, isPusch) => FillUci(db, env.nofCells, tti, rnti, enbCc, isPusch)
    case SendUciData(tti, rnti, enbCc, uci) => SendUci(db, tti, rnti, enbCc, uci).db
  }

  /** The callers' obligations: the list starts with the PCell, and activation leaves slot 0 alone. */
  predicate Legal(call: Call) {
    match call
    case AddModRnti(_, list) => list != []
    case ActivateScell(_, slot, _) => slot >= 1
    case _ => true
  }

  predicate AllLegal(calls: seq<Call>) {
    forall i :: 0 <= i < |calls| ==> Legal(calls[i])
  }

  function RunFrom(env: Env, db: Db, calls: seq<Call>): Db
    decreases |calls|
  {
    if calls == [] then db
    else Step(env, RunFrom(env, db, calls[..|calls| - 1]), calls[|calls| - 1])
  }

  function Run(env: Env, calls: seq<Call>): Db {
    RunFrom(env, map[], calls)
  }

  lemma {:induction false} RunFromAppend(env: Env, db: Db, a: seq<Call>, b: seq<Call>)
    ensures RunFrom(env, db, a + b) == RunFrom(env, RunFrom(env, db, a), b)
    decreases |b|
  {
    if b == [] {
      assert a + b == a;
    } else {
      RunFromAppend(env, db, a, b[..|b| - 1]);
      assert (a + b)[..|a + b| - 1] == a + b[..|b| - 1];
    }
  }

  lemma RunSnoc(env: Env, calls: seq<Call>, call: Call)
    ensures Run(env, calls + [call]) == Step(env, Run(env, calls), call)
  {
    assert (calls + [call])[..|calls|] == calls;
    hide Step;
  }

  // ---------- what a call does to one slot ----------

  /** The list configures the slot of this UE. */
  predicate Configures(call: Call, rnti: nat, slot: nat) {
    call.AddModRnti? && call.rnti == rnti && Asks(call.list, slot)
  }

  /** The call leaves the slot without configuration. */
  predicate Drops(call: Call, rnti: nat, slot: nat) {
    || (call.AddModRnti? && call.rnti == rnti && !Asks(call.list, slot))
    || call == RemRnti(rnti)
  }

  function StateOf(db: Db, rnti: nat, slot: nat): CellState
    requires slot < MAX_CARRIERS
  {
    if rnti in db then db[rnti].cells[slot].state else Unconfigured
  }

  predicate PcellOnlyInSlot0(db: Db) {
    forall r :: r in db ==> db[r].cells[0].state == Primary
                            && forall i :: 1 <= i < MAX_CARRIERS ==> db[r].cells[i].state != Primary
  }

  /** The calls made once per TTI. */
  predicate PerTti(call: Call) {
    call.ClearAcks? || call.SetAck? || call.SetUlGrants? || call.FillUciCfg? || call.SendUciData?
  }

  /** They leave every UE's setup alone. */
  lemma PerTtiKeepsSetup(env: Env, db: Db, call: Call)
    requires PerTti(call)
    ensures Step(env, db, call).Keys == db.Keys
    ensures forall r :: r in db ==> SameSetup(Step(env, db, call)[r], db[r])
  {
  }

  /** What a reconfiguration does to the state of one slot. */
  lemma AddModState(u: Ue, rnti: nat, args: int, list: RrcList, i: nat)
    requires i < MAX_CARRIERS
    ensures AddMod(u, rnti, args, list).cells[i].state
         == if u.cells[i].state == Primary && i < Listed(list) then Primary
            else if !Asks(list, i) then Unconfigured
            else if u.cells[i].state == Unconfigured then SecondaryInactive
            else u.cells[i].state
  {
  }

  lemma NewUeStates(rnti: nat, args: int, i: nat)
    requires i < MAX_CARRIERS
    ensures NewUe(rnti, args).cells[i].state == if i == 0 then Primary else Unconfigured
  {
  }

  /** A UE just added counts one active slot, with nothing pending, granted or stashed. */
  lemma NewUeStarts(rnti: nat, args: int, pos: nat, i: nat)
    requires pos < TTIMOD_SZ && i < MAX_CARRIERS
    ensures var u := NewUe(rnti, args);
            && u.pdschAck[pos] == PdschAck([NO_ACK, NO_ACK, NO_ACK, NO_ACK, NO_ACK], 1, 1, Normal, false, false)
            && !u.cells[i].grant[pos] && !u.cells[i].stashTbs && !u.stashedMultipleCsi && u.cells[0].enbCc == 0
  {
    var cells := NewUe(rnti, args).cells;
    CountActiveIs(cells);
    forall j | 0 <= j < MAX_CARRIERS
      ensures Active(cells[j]) <==> j == 0
    {
      NewUeStates(rnti, args, j);
    }
    hide CountActive;
    assert ActiveSlots(cells) == {0};
    assert BlankUe(rnti, args).cells == cells;
  }

  /** The state machine of a secondary slot: reconfiguration configures or drops it but never
      switches it on or off, and only an activation command for that very slot does. */
  function NextState(before: CellState, call: Call, rnti: nat, slot: nat): CellState {
    if Drops(call, rnti, slot) then Unconfigured
    else if Configures(call, rnti, slot) then if before == Unconfigured then SecondaryInactive else before
    else if call.ActivateScell? && call.rnti == rnti && call.slot == slot && before != Unconfigured then
      if call.on then SecondaryActive else SecondaryInactive
    else before
  }

  lemma SecondaryStep(env: Env, db: Db, call: Call, rnti: nat, slot: nat)
    requires 1 <= slot < MAX_CARRIERS && Legal(call) && PcellOnlyInSlot0(db)
    ensures StateOf(Step(env, db, call), rnti, slot) == NextState(StateOf(db, rnti, slot), call, rnti, slot)
    ensures StateOf(Step(env, db, call), rnti, slot) != Primary
  {
    if PerTti(call) {
      hide Step, Asks;
      PerTtiKeepsSetup(env, db, call);
    } else if call.AddModRnti? {
      hide Step, Asks;
      AddModStep(env, db, call.rnti, call.list, rnti, slot);
    } else {
      hide Step;
      SetupStep(env, db, call, rnti, slot);
    }
  }

  /** Removing, completing and activating. */
  lemma SetupStep(env: Env, db: Db, call: Call, rnti: nat, slot: nat)
    requires slot < MAX_CARRIERS && !PerTti(call) && !call.AddModRnti?
    ensures StateOf(Step(env, db, call), rnti, slot) == NextState(StateOf(db, rnti, slot), call, rnti, slot)
  {
    hide Asks;
    match call {
      case RemRnti(_) =>
      case CompleteConfig(r) =>
        if r in db {
          assert Complete(db[r]).cells[slot].state == db[r].cells[slot].state;
        }
        hide Complete;
      case ActivateScell(_, _, _) =>
    }
  }

  lemma AddModStep(env: Env, db: Db, r: nat, list: RrcList, rnti: nat, slot: nat)
    requires 1 <= slot < MAX_CARRIERS && PcellOnlyInSlot0(db)
    ensures StateOf(Step(env, db, AddModRnti(r, list)), rnti, slot)
         == NextState(StateOf(db, rnti, slot), AddModRnti(r, list), rnti, slot)
  {
    hide AddMod, NewUe, Asks;
    AddModState(if r in db then db[r] else NewUe(r, env.args), r, env.args, list, slot);
    NewUeStates(r, env.args, slot);
  }

  lemma PrimaryStep(env: Env, db: Db, call: Call, rnti: nat)
    requires Legal(call) && PcellOnlyInSlot0(db)
    requires rnti in Step(env, db, call)
    ensures Step(env, db, call)[rnti].cells[0].state == Primary
  {
    match call {
      case AddModRnti(r, list) =>
        AddModState(if r in db then db[r] else NewUe(r, env.args), r, env.args, list, 0);
        NewUeStates(r, env.args, 0);
        hide AddMod, NewUe;
      case RemRnti(r) =>
      case CompleteConfig(r) =>
      case ActivateScell(r, s, on) =>
      case _ =>
        PerTtiKeepsSetup(env, db, call);
        hide Step;
    }
  }

  lemma PrimaryPreserved(env: Env, db: Db, call: Call)
    requires Legal(call) && PcellOnlyInSlot0(db)
    ensures PcellOnlyInSlot0(Step(env, db, call))
  {
    var db' := Step(env, db, call);
    forall r | r in db'
      ensures db'[r].cells[0].state == Primary
      ensures forall i :: 1 <= i < MAX_CARRIERS ==> db'[r].cells[i].state != Primary
    {
      PrimaryStep(env, db, call, r);
      forall i | 1 <= i < MAX_CARRIERS
        ensures db'[r].cells[i].state != Primary
      {
        SecondaryStep(env, db, call, r, i);
        assert StateOf(db', r, i) == db'[r].cells[i].state;
      }
    }
  }

  /** The obligations are what it takes: any other call on a UE in the database loses its PCell. */
  lemma PrimaryLostOtherwise(env: Env, db: Db, call: Call)
    requires PcellOnlyInSlot0(db)
    ensures PcellOnlyInSlot0(Step(env, db, call)) <==> Legal(call) || (call.ActivateScell? && call.rnti !in db)
  {
    if Legal(call) {
      PrimaryPreserved(env, db, call);
    } else if call.AddModRnti? {
      AddModState(if call.rnti in db then db[call.rnti] else NewUe(call.rnti, env.args), call.rnti, env.args, call.list, 0);
      assert call.rnti in Step(env, db, call);
      hide AddMod, NewUe;
    } else if call.rnti in db {
      assert Step(env, db, call)[call.rnti].cells[0].state != Primary;
    }
  }

  /** In every reachable state slot 0, and no other, is primary. */
  lemma {:induction false} PrimaryInEveryRun(env: Env, calls: seq<Call>)
    requires AllLegal(calls)
    ensures PcellOnlyInSlot0(Run(env, calls))
    decreases |calls|
  {
    if calls != [] {
      PrimaryInEveryRun(env, calls[..|calls| - 1]);
      PrimaryPreserved(env, Run(env, calls[..|calls| - 1]), calls[|calls| - 1]);
    }
  }

  // ---------- the history of a secondary slot ----------

  /** The slot was configured at some call and not dropped by a later one. */
  ghost predicate ConfiguredSince(calls: seq<Call>, rnti: nat, slot: nat) {
    exists m :: 0 <= m < |calls| && Configures(calls[m], rnti, slot)
                && forall j :: m < j < |calls| ==> !Drops(calls[j], rnti, slot)
  }

  /** Call m switched the configured slot on; since then it was neither switched off nor dropped. */
  ghost predicate OnSince(calls: seq<Call>, rnti: nat, slot: nat, m: nat) {
    && m < |calls|
    && calls[m] == ActivateScell(rnti, slot, true)
    && ConfiguredSince(calls[..m], rnti, slot)
    && forall j :: m < j < |calls| ==> !Drops(calls[j], rnti, slot) && calls[j] != ActivateScell(rnti, slot, false)
  }

  ghost predicate SwitchedOn(calls: seq<Call>, rnti: nat, slot: nat) {
    exists m :: OnSince(calls, rnti, slot, m)
  }

  lemma ConfiguredSinceStep(calls: seq<Call>, call: Call, rnti: nat, slot: nat)
    ensures ConfiguredSince(calls + [call], rnti, slot)
       <==> Configures(call, rnti, slot) || (ConfiguredSince(calls, rnti, slot) && !Drops(call, rnti, slot))
  {
    var all := calls + [call];
    if ConfiguredSince(all, rnti, slot) {
      var m :| 0 <= m < |all| && Configures(all[m], rnti, slot)
               && forall j :: m < j < |all| ==> !Drops(all[j], rnti, slot);
      if m < |calls| {
        assert Configures(calls[m], rnti, slot);
        assert !Drops(all[|calls|], rnti, slot);
        forall j | m < j < |calls|
          ensures !Drops(calls[j], rnti, slot)
        {
          assert all[j] == calls[j];
        }
      }
    }
    if Configures(call, rnti, slot) {
      assert Configures(all[|calls|], rnti, slot);
    }
    if ConfiguredSince(calls, rnti, slot) && !Drops(call, rnti, slot) {
      var m :| 0 <= m < |calls| && Configures(calls[m], rnti, slot)
               && forall j :: m < j < |calls| ==> !Drops(calls[j], rnti, slot);
      assert Configures(all[m], rnti, slot);
    }
  }

  lemma SwitchedOnStep(calls: seq<Call>, call: Call, rnti: nat, slot: nat)
    ensures SwitchedOn(calls + [call], rnti, slot)
       <==> || (call == ActivateScell(rnti, slot, true) && ConfiguredSince(calls, rnti, slot))
            || (SwitchedOn(calls, rnti, slot) && !Drops(call, rnti, slot) && call != ActivateScell(rnti, slot, false))
  {
    var all := calls + [call];
    if SwitchedOn(all, rnti, slot) {
      var m: nat :| OnSince(all, rnti, slot, m);
      if m < |calls| {
        assert all[..m] == calls[..m];
        forall j | m < j < |calls|
          ensures !Drops(calls[j], rnti, slot) && calls[j] != ActivateScell(rnti, slot, false)
        {
          assert all[j] == calls[j];
        }
        assert OnSince(calls, rnti, slot, m);
        assert all[|calls|] == call;
      } else {
        assert all[..m] == calls;
      }
    }
    if call == ActivateScell(rnti, slot, true) && ConfiguredSince(calls, rnti, slot) {
      assert all[..|calls|] == calls;
      assert OnSince(all, rnti, slot, |calls|);
    }
    if SwitchedOn(calls, rnti, slot) && !Drops(call, rnti, slot) && call != ActivateScell(rnti, slot, false) {
      var m: nat :| OnSince(calls, rnti, slot, m);
      assert all[..m] == calls[..m];
      assert OnSince(all, rnti, slot, m);
    }
  }

  /** After any run a secondary slot is configured exactly when it was configured and not dropped
      since, and active exactly when it was, while configured, switched on and not off since. */
  lemma {:induction false} SlotHistory(env: Env, calls: seq<Call>, rnti: nat, slot: nat)
    requires AllLegal(calls) && 1 <= slot < MAX_CARRIERS
    ensures var state := StateOf(Run(env, calls), rnti, slot);
            && (state != Unconfigured <==> ConfiguredSince(calls, rnti, slot))
            && (state == SecondaryActive <==> SwitchedOn(calls, rnti, slot))
    decreases |calls|
  {
    if calls != [] {
      var front, call := calls[..|calls| - 1], calls[|calls| - 1];
      assert calls == front + [call];
      SlotHistory(env, front, rnti, slot);
      PrimaryInEveryRun(env, front);
      SecondaryStep(env, Run(env, front), call, rnti, slot);
      ConfiguredSinceStep(front, call, rnti, slot);
      SwitchedOnStep(front, call, rnti, slot);
      hide Step, ConfiguredSince, SwitchedOn, OnSince;
    }
  }
  // ---------- whose configuration a slot holds ----------

  /** A configured slot carries the UE's own RNTI, down and up, and the settings from the PHY arguments. */
  predicate Labelled(c: CellInfo, rnti: nat, args: int) {
    c.state != Unconfigured ==> c.cfg.dl.rnti == rnti && c.cfg.ul.rnti == rnti && c.cfg.ul.common == args
  }

  predicate AllLabelled(db: Db, args: int) {
    forall r, i :: r in db && 0 <= i < MAX_CARRIERS ==> Labelled(db[r].cells[i], r, args)
  }

  lemma NewUeLabelled(rnti: nat, args: int, i: nat)
    requires i < MAX_CARRIERS
    ensures Labelled(NewUe(rnti, args).cells[i], rnti, args)
  {
  }

  /** A reconfiguration labels every slot it leaves configured, whatever was there. */
  lemma AddModLabels(u: Ue, rnti: nat, args: int, list: RrcList, i: nat)
    requires i < MAX_CARRIERS
    ensures Labelled(AddMod(u, rnti, args, list).cells[i], rnti, args)
  {
    hide CountSecondary;
  }

  lemma LabelledStep(env: Env, db: Db, call: Call, r: nat, i: nat)
    requires r in Step(env, db, call) && i < MAX_CARRIERS
    requires r in db ==> Labelled(db[r].cells[i], r, env.args)
    ensures Labelled(Step(env, db, call)[r].cells[i], r, env.args)
  {
    if PerTti(call) {
      PerTtiKeepsSetup(env, db, call);
      hide Step;
    } else if call.AddModRnti? && call.rnti == r {
      AddModLabels(if r in db then db[r] else NewUe(r, env.args), r, env.args, call.list, i);
      hide AddMod, NewUe;
    } else {
      hide AddMod, NewUe, CountSecondary;
    }
  }

  /** In every reachable state, SCells included, and whatever the calls. */
  lemma {:induction false} LabelledInEveryRun(env: Env, calls: seq<Call>)
    ensures AllLabelled(Run(env, calls), env.args)
    decreases |calls|
  {
    if calls != [] {
      var front, call := calls[..|calls| - 1], calls[|calls| - 1];
      LabelledInEveryRun(env, front);
      var db := Run(env, front);
      hide Step, Labelled;
      forall r, i | r in Step(env, db, call) && 0 <= i < MAX_CARRIERS
        ensures Labelled(Step(env, db, call)[r].cells[i], r, env.args)
      {
        LabelledStep(env, db, call, r, i);
      }
    }
  }

  /** So a getter never returns the configuration of another RNTI: not for a UE, whose uplink then also has
      the settings from the PHY arguments, and not for the RNTIs that get the defaults. */
  lemma GettersCarryRnti(env: Env, calls: seq<Call>, rnti: nat, enbCc: nat)
    ensures var db := Run(env, calls);
            && (DlConfig(db, rnti, enbCc).Some? ==> DlConfig(db, rnti, enbCc).value.rnti == rnti)
            && (UlConfig(db, rnti, enbCc).Some? ==>
                  && UlConfig(db, rnti, enbCc).value.rnti == rnti
                  && (IsUserRnti(rnti) ==> UlConfig(db, rnti, enbCc).value.common == env.args))
  {
    LabelledInEveryRun(env, calls);
    hide Run;
  }
}

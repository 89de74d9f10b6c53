/** The window between a reconfiguration and its completion: what the downlink and the uplink getters
    return for the PCell. */
module PhyUeReconfig {
  import opened Basics
  import opened PhyUe
  import opened PhyUeRuns

  /** The two parameters that a reconfiguration applies late for the downlink. */
  datatype View = View(tbsIndexAlt: bool, multipleCsi: bool)

  function FlagsOf(cfg: PhyCfg): View {
    View(cfg.dl.useTbsIndexAlt, cfg.dl.dci.multipleCsi)
  }

  /** The flags the downlink getters return for the PCell. */
  function DlView(db: Db, rnti: nat): Option<View>
    requires rnti in db
  {
    var enbCc := db[rnti].cells[0].enbCc;
    match (DlConfig(db, rnti, enbCc), DciDlConfig(db, rnti, enbCc))
    case (Some(dl), Some(dci)) => Some(View(dl.useTbsIndexAlt, dci.multipleCsi))
    case _ => None
  }

  /** The flags of the stored PCell configuration; a UE that is not there yet has none set. */
  function Stored(db: Db, rnti: nat): View {
    if rnti in db then FlagsOf(db[rnti].cells[0].cfg) else View(false, false)
  }

  /** The downlink getters return a PCell configuration with these flags in place of its own, the uplink
      getters return it as it is. */
  predicate Shows(db: Db, rnti: nat, enbCc: nat, cfg: PhyCfg, dl: View) {
    && DlConfig(db, rnti, enbCc) == Some(cfg.dl.(useTbsIndexAlt := dl.tbsIndexAlt))
    && DciDlConfig(db, rnti, enbCc) == Some(cfg.dl.dci.(multipleCsi := dl.multipleCsi))
    && UlConfig(db, rnti, enbCc) == Some(cfg.ul)
    && DciUlConfig(db, rnti, enbCc) == Some(cfg.dl.dci)
  }

  /** For a user RNTI with its PCell that is the stored configuration and the stashed flags. */
  lemma GettersShowStored(db: Db, rnti: nat)
    requires rnti in db && IsUserRnti(rnti) && db[rnti].cells[0].state == Primary
    ensures var c := db[rnti].cells[0];
            && Shows(db, rnti, c.enbCc, c.cfg, View(c.stashTbs, db[rnti].stashedMultipleCsi))
            && DlView(db, rnti) == Some(View(c.stashTbs, db[rnti].stashedMultipleCsi))
  {
    LookupIs(db[rnti].cells, db[rnti].cells[0].enbCc, 0);
  }

  /** For an active SCell it is that slot's own configuration, all of it. */
  lemma SecondaryShowsStored(db: Db, rnti: nat, enbCc: nat, i: nat)
    requires rnti in db && IsUserRnti(rnti) && 1 <= i < MAX_CARRIERS
    requires Serves(db[rnti].cells[i], enbCc)
    requires forall j :: 0 <= j < i ==> !Serves(db[rnti].cells[j], enbCc)
    ensures var cfg := db[rnti].cells[i].cfg;
            && DlConfig(db, rnti, enbCc) == Some(cfg.dl) && DciDlConfig(db, rnti, enbCc) == Some(cfg.dl.dci)
            && UlConfig(db, rnti, enbCc) == Some(cfg.ul) && DciUlConfig(db, rnti, enbCc) == Some(cfg.dl.dci)
  {
    LookupIs(db[rnti].cells, enbCc, i);
  }

  // ---------- the CSI flag goes with the configured cells ----------

  predicate CsiInStep(u: Ue) {
    u.cells[0].cfg.dl.dci.multipleCsi == CsiFlag(u.cells)
  }

  lemma SameSecondaries(a: Slots, b: Slots)
    requires forall i :: 0 <= i < MAX_CARRIERS ==> Secondary(a[i]) == Secondary(b[i])
    ensures CsiFlag(a) == CsiFlag(b)
  {
    hide CountSecondary;
    SomeSecondary(a);
    SomeSecondary(b);
    if i :| 0 <= i < |a| && Secondary(a[i]) {
      assert Secondary(b[i]);
    }
    if i :| 0 <= i < |b| && Secondary(b[i]) {
      assert Secondary(a[i]);
    }
  }

  /** A reconfiguration that keeps the PCell sets the flag if and only if it asks for an SCell. */
  lemma AddModCsi(u: Ue, rnti: nat, args: int, list: RrcList)
    requires list != [] && u.cells[0].state == Primary
    requires forall i :: 1 <= i < MAX_CARRIERS ==> u.cells[i].state != Primary
    ensures var u' := AddMod(u, rnti, args, list);
            && CsiInStep(u')
            && (u'.cells[0].cfg.dl.dci.multipleCsi <==> exists i :: 1 <= i < MAX_CARRIERS && Asks(list, i))
  {
    var cells := Configured(u.cells, rnti, args, list);
    AddModStoresCsi(u, rnti, args, list);
    forall i | 0 <= i < MAX_CARRIERS
      ensures Secondary(cells[i]) <==> 1 <= i && Asks(list, i)
    {
    }
    hide AddMod, Configured, CountSecondary;
    SomeSecondary(cells);
    if i :| 0 <= i < |cells| && Secondary(cells[i]) {
      assert Asks(list, i);
    }
    if i :| 1 <= i < MAX_CARRIERS && Asks(list, i) {
      assert Secondary(cells[i]);
    }
  }

  lemma AddModStoresCsi(u: Ue, rnti: nat, args: int, list: RrcList)
    requires list != []
    ensures var u' := AddMod(u, rnti, args, list);
            && CsiInStep(u')
            && u'.cells[0].cfg.dl.dci.multipleCsi == CsiFlag(Configured(u.cells, rnti, args, list))
  {
    hide CountSecondary;
    SameSecondaries(Configured(u.cells, rnti, args, list), AddMod(u, rnti, args, list).cells);
  }

  /** Every parameter of a slot's configuration but the RNTI and the common settings is that of an entry, the
      CSI flag apart. */
  predicate TakenFrom(c: PhyCfg, entry: PhyCfg) {
    && c.dl.tm == entry.dl.tm && c.dl.useTbsIndexAlt == entry.dl.useTbsIndexAlt
    && c.dl.other == entry.dl.other && c.dl.dci.other == entry.dl.dci.other
    && c.ul.feedback == entry.ul.feedback && c.ul.simulCqiAck == entry.ul.simulCqiAck
    && c.ul.other == entry.ul.other && c.prach == entry.prach
  }

  /** Slot by slot: a listed slot that is the PCell or is asked for takes the parameters of its own entry; any
      other keeps the configuration it had, but for the CSI flag of the listed ones, and is dropped. */
  lemma AddModFields(u: Ue, rnti: nat, args: int, list: RrcList, i: nat)
    requires list != [] && u.cells[0].state == Primary && i < MAX_CARRIERS
    requires forall j :: 1 <= j < MAX_CARRIERS ==> u.cells[j].state != Primary
    ensures var c, was := AddMod(u, rnti, args, list).cells[i], u.cells[i];
            && (i < |list| && (i == 0 || list[i].configured) ==>
                  TakenFrom(c.cfg, list[i].cfg) && c.state != Unconfigured)
            && (!(i < |list| && (i == 0 || list[i].configured)) ==>
                  TakenFrom(c.cfg, was.cfg) && c.state == Unconfigured
                  && c.cfg.dl.rnti == was.cfg.dl.rnti && c.cfg.ul == was.cfg.ul)
            && c.enbCc == (if i < |list| then list[i].enbCc else was.enbCc)
            && (i < |list| ==> (c.cfg.dl.dci.multipleCsi <==> exists j :: 1 <= j < MAX_CARRIERS && Asks(list, j)))
            && (i >= |list| ==> c.cfg == was.cfg)
            && c.stashTbs == was.cfg.dl.useTbsIndexAlt && c.grant == was.grant
            && AddMod(u, rnti, args, list).pdschAck == u.pdschAck
  {
    AddModCsi(u, rnti, args, list);
    AddModSlot(u, rnti, args, list, i);
    hide AddMod, Configured, Asks;
  }

  lemma AddModSlot(u: Ue, rnti: nat, args: int, list: RrcList, i: nat)
    requires list != [] && u.cells[0].state == Primary && i < MAX_CARRIERS
    requires forall j :: 1 <= j < MAX_CARRIERS ==> u.cells[j].state != Primary
    ensures var u' := AddMod(u, rnti, args, list);
            var c, was := u'.cells[i], u.cells[i];
            && (i < |list| && (i == 0 || list[i].configured) ==>
                  TakenFrom(c.cfg, list[i].cfg) && c.state != Unconfigured)
            && (!(i < |list| && (i == 0 || list[i].configured)) ==>
                  TakenFrom(c.cfg, was.cfg) && c.state == Unconfigured
                  && c.cfg.dl.rnti == was.cfg.dl.rnti && c.cfg.ul == was.cfg.ul)
            && c.enbCc == (if i < |list| then list[i].enbCc else was.enbCc)
            && (i < |list| ==> c.cfg.dl.dci.multipleCsi == u'.cells[0].cfg.dl.dci.multipleCsi)
            && (i >= |list| ==> c.cfg == was.cfg)
            && c.stashTbs == was.cfg.dl.useTbsIndexAlt && c.grant == was.grant
            && u'.pdschAck == u.pdschAck
  {
    hide CountSecondary;
  }

  lemma CsiInStepKept(env: Env, db: Db, call: Call, rnti: nat)
    requires Legal(call) && PcellOnlyInSlot0(db) && rnti in Step(env, db, call)
    requires rnti in db ==> CsiInStep(db[rnti])
    ensures CsiInStep(Step(env, db, call)[rnti])
  {
    if PerTti(call) {
      PerTtiKeepsSetup(env, db, call);
      SameSecondaries(Step(env, db, call)[rnti].cells, db[rnti].cells);
      hide Step;
    } else if call.AddModRnti? && call.rnti == rnti {
      var u := if rnti in db then db[rnti] else NewUe(rnti, env.args);
      forall i | 0 <= i < MAX_CARRIERS
        ensures u.cells[i].state == Primary <==> i == 0
      {
        NewUeStates(rnti, env.args, i);
      }
      AddModCsi(u, rnti, env.args, call.list);
    } else {
      hide CountSecondary, AddMod;
      SameSecondaries(Step(env, db, call)[rnti].cells, db[rnti].cells);
    }
  }

  lemma {:induction false} CsiInStepInEveryRun(env: Env, calls: seq<Call>, rnti: nat)
    requires AllLegal(calls)
    ensures rnti in Run(env, calls) ==> CsiInStep(Run(env, calls)[rnti])
    decreases |calls|
  {
    if calls != [] && rnti in Run(env, calls) {
      var front := calls[..|calls| - 1];
      CsiInStepInEveryRun(env, front, rnti);
      PrimaryInEveryRun(env, front);
      CsiInStepKept(env, Run(env, front), calls[|calls| - 1], rnti);
    }
  }

  // ---------- the window ----------

  /** A call that neither starts, ends nor cancels a reconfiguration of this UE. */
  predicate Between(call: Call, rnti: nat) {
    Legal(call) && !(call.AddModRnti? && call.rnti == rnti) && call != RemRnti(rnti) && call != CompleteConfig(rnti)
  }

  predicate AllBetween(calls: seq<Call>, rnti: nat) {
    forall i :: 0 <= i < |calls| ==> Between(calls[i], rnti)
  }

  /** The PCell as a reconfiguration left it. */
  predicate PcellHeld(u: Ue, v: Ue) {
    && u.cells[0].state == v.cells[0].state && u.cells[0].enbCc == v.cells[0].enbCc
    && u.cells[0].stashTbs == v.cells[0].stashTbs && u.cells[0].cfg == v.cells[0].cfg
    && u.stashedMultipleCsi == v.stashedMultipleCsi
  }

  lemma BetweenHoldsPcell(env: Env, db: Db, call: Call, rnti: nat)
    requires rnti in db && Between(call, rnti)
    ensures rnti in Step(env, db, call) && PcellHeld(Step(env, db, call)[rnti], db[rnti])
  {
    if PerTti(call) {
      PerTtiKeepsSetup(env, db, call);
      hide Step;
    } else {
      hide AddMod;
    }
  }

  lemma {:induction false} WindowHoldsPcell(env: Env, db: Db, calls: seq<Call>, rnti: nat)
    requires rnti in db && AllBetween(calls, rnti)
    ensures rnti in RunFrom(env, db, calls) && PcellHeld(RunFrom(env, db, calls)[rnti], db[rnti])
    decreases |calls|
  {
    if calls != [] {
      var front := calls[..|calls| - 1];
      WindowHoldsPcell(env, db, front, rnti);
      BetweenHoldsPcell(env, RunFrom(env, db, front), calls[|calls| - 1], rnti);
    }
  }

  /** The PCell configuration a reconfiguration asks for: the first entry of its list with the common
      settings of the UE, and the CSI flag set if and only if it asks for an SCell. */
  ghost function Asked(env: Env, rnti: nat, list: RrcList): PhyCfg
    requires list != []
  {
    WithCsi(WithCommon(list[0].cfg, rnti, env.args), exists i :: 1 <= i < MAX_CARRIERS && Asks(list, i))
  }

  /** The PCell with a stored configuration and stashed flags. */
  predicate PcellIs(db: Db, rnti: nat, enbCc: nat, cfg: PhyCfg, stashed: View) {
    && rnti in db
    && db[rnti].cells[0].state == Primary && db[rnti].cells[0].enbCc == enbCc && db[rnti].cells[0].cfg == cfg
    && View(db[rnti].cells[0].stashTbs, db[rnti].stashedMultipleCsi) == stashed
  }

  /** What one reconfiguration does to the PCell. */
  lemma AddModFlags(env: Env, db: Db, rnti: nat, list: RrcList)
    requires list != [] && PcellOnlyInSlot0(db)
    requires rnti in db ==> CsiInStep(db[rnti])
    ensures PcellIs(Step(env, db, AddModRnti(rnti, list)), rnti, list[0].enbCc, Asked(env, rnti, list), Stored(db, rnti))
  {
    var u := if rnti in db then db[rnti] else NewUe(rnti, env.args);
    if rnti !in db {
      assert !CsiFlag(u.cells) by {
        SomeSecondary(u.cells);
      }
    }
    forall i | 0 <= i < MAX_CARRIERS
      ensures u.cells[i].state == Primary <==> i == 0
    {
      NewUeStates(rnti, env.args, i);
    }
    AddModCsi(u, rnti, env.args, list);
    hide CountSecondary;
  }

  lemma PcellShows(db: Db, rnti: nat, enbCc: nat, cfg: PhyCfg, stashed: View)
    requires IsUserRnti(rnti) && PcellIs(db, rnti, enbCc, cfg, stashed)
    ensures Shows(db, rnti, enbCc, cfg, stashed) && DlView(db, rnti) == Some(stashed)
    ensures Stored(db, rnti) == FlagsOf(cfg)
  {
    GettersShowStored(db, rnti);
    hide Shows, DlView;
  }

  /** From any reachable state, through a reconfiguration and whatever else happens short of its
      completion, all four getters show the whole configuration it asks for, but the downlink getters
      with the two flags stored before it; and completion makes the downlink follow. */
  lemma ReconfigurationWindow(env: Env, pre: seq<Call>, rnti: nat, list: RrcList, mid: seq<Call>)
    requires AllLegal(pre) && list != [] && IsUserRnti(rnti) && AllBetween(mid, rnti)
    ensures var during := Run(env, pre + [AddModRnti(rnti, list)] + mid);
            && rnti in during
            && Shows(during, rnti, list[0].enbCc, Asked(env, rnti, list), Stored(Run(env, pre), rnti))
            && DlView(during, rnti) == Some(Stored(Run(env, pre), rnti))
            && Stored(during, rnti) == FlagsOf(Asked(env, rnti, list))
    ensures var done := Run(env, pre + [AddModRnti(rnti, list)] + mid + [CompleteConfig(rnti)]);
            && rnti in done
            && Shows(done, rnti, list[0].enbCc, Asked(env, rnti, list), FlagsOf(Asked(env, rnti, list)))
  {
    var cfg := Asked(env, rnti, list);
    var during := WindowFlags(env, pre, rnti, list, mid);
    var done := CompletedFlags(env, pre, rnti, list, mid);
    PcellShows(during, rnti, list[0].enbCc, cfg, Stored(Run(env, pre), rnti));
    PcellShows(done, rnti, list[0].enbCc, cfg, FlagsOf(cfg));
    assert rnti in during && rnti in done;
    hide *;
  }

  /** The PCell anywhere in the window. */
  lemma WindowFlags(env: Env, pre: seq<Call>, rnti: nat, list: RrcList, mid: seq<Call>) returns (during: Db)
    requires AllLegal(pre) && list != [] && AllBetween(mid, rnti)
    ensures during == Run(env, pre + [AddModRnti(rnti, list)] + mid)
    ensures PcellIs(during, rnti, list[0].enbCc, Asked(env, rnti, list), Stored(Run(env, pre), rnti))
  {
    var call := AddModRnti(rnti, list);
    var start := Step(env, Run(env, pre), call);
    PrimaryInEveryRun(env, pre);
    CsiInStepInEveryRun(env, pre, rnti);
    AddModFlags(env, Run(env, pre), rnti, list);
    assert (pre + [call])[..|pre|] == pre;
    assert Run(env, pre + [call]) == start;
    during := RunFrom(env, start, mid);
    RunFromAppend(env, map[], pre + [call], mid);
    WindowHoldsPcell(env, start, mid, rnti);
    hide Step, Stored, Asked;
  }

  /** And once it is completed. */
  lemma CompletedFlags(env: Env, pre: seq<Call>, rnti: nat, list: RrcList, mid: seq<Call>) returns (done: Db)
    requires AllLegal(pre) && list != [] && AllBetween(mid, rnti)
    ensures done == Run(env, pre + [AddModRnti(rnti, list)] + mid + [CompleteConfig(rnti)])
    ensures PcellIs(done, rnti, list[0].enbCc, Asked(env, rnti, list), FlagsOf(Asked(env, rnti, list)))
  {
    var during := WindowFlags(env, pre, rnti, list, mid);
    var all := pre + [AddModRnti(rnti, list)] + mid;
    AllLegalParts(pre, rnti, list, mid);
    CsiInStepInEveryRun(env, all, rnti);
    assert (all + [CompleteConfig(rnti)])[..|all|] == all;
    done := Step(env, during, CompleteConfig(rnti));
    CompletionAligns(env, during, rnti);
    hide Step, Stored, Asked, CsiInStep, AllLegal, AllBetween;
  }

  lemma AllLegalParts(pre: seq<Call>, rnti: nat, list: RrcList, mid: seq<Call>)
    requires AllLegal(pre) && list != [] && AllBetween(mid, rnti)
    ensures AllLegal(pre + [AddModRnti(rnti, list)] + mid)
  {
    var all := pre + [AddModRnti(rnti, list)] + mid;
    forall i | 0 <= i < |all|
      ensures Legal(all[i])
    {
      if i > |pre| {
        assert Between(mid[i - |pre| - 1], rnti);
      }
    }
  }

  lemma CompletionAligns(env: Env, db: Db, rnti: nat)
    requires rnti in db && CsiInStep(db[rnti])
    ensures var db' := Step(env, db, CompleteConfig(rnti));
            && rnti in db'
            && db'[rnti].cells[0].state == db[rnti].cells[0].state
            && db'[rnti].cells[0].cfg == db[rnti].cells[0].cfg
            && db'[rnti].cells[0].stashTbs == db[rnti].cells[0].cfg.dl.useTbsIndexAlt
            && db'[rnti].stashedMultipleCsi == db[rnti].cells[0].cfg.dl.dci.multipleCsi
  {
  }

  /** So the flags the downlink of a known UE shows are undisturbed by a reconfiguration exactly when they
      were the stored ones before it. */
  lemma UndisturbedIffInStep(env: Env, pre: seq<Call>, rnti: nat, list: RrcList, mid: seq<Call>)
    requires AllLegal(pre) && list != [] && IsUserRnti(rnti) && AllBetween(mid, rnti)
    requires rnti in Run(env, pre)
    ensures var before := Run(env, pre);
            var during := Run(env, pre + [AddModRnti(rnti, list)] + mid);
            && rnti in during
            && (DlView(during, rnti) == DlView(before, rnti) <==> DlView(before, rnti) == Some(Stored(before, rnti)))
  {
    ReconfigurationWindow(env, pre, rnti, list, mid);
  }

  /** That is so whenever the last reconfiguration was completed. */
  lemma CompletedIsInStep(
    env: Env, pre: seq<Call>, rnti: nat, list: RrcList, mid: seq<Call>, since: seq<Call>)
    requires AllLegal(pre) && list != [] && IsUserRnti(rnti) && AllBetween(mid, rnti) && AllBetween(since, rnti)
    ensures var db := Run(env, pre + [AddModRnti(rnti, list)] + mid + [CompleteConfig(rnti)] + since);
            && rnti in db
            && DlView(db, rnti) == Some(Stored(db, rnti))
            && Stored(db, rnti) == FlagsOf(Asked(env, rnti, list))
  {
    var calls := pre + [AddModRnti(rnti, list)] + mid + [CompleteConfig(rnti)];
    var done := CompletedFlags(env, pre, rnti, list, mid);
    RunFromAppend(env, map[], calls, since);
    WindowHoldsPcell(env, done, since, rnti);
    PcellShows(Run(env, calls + since), rnti, list[0].enbCc, Asked(env, rnti, list), FlagsOf(Asked(env, rnti, list)));
    hide Asked, FlagsOf, Stored, DlView, Shows, Step;
  }

  /** And not so while one is pending that changes a flag: a second reconfiguration then makes the
      downlink jump to the flags the first one asked for, before either is completed. */
  lemma SecondReconfigurationJumps(env: Env, rnti: nat, first: RrcList, second: RrcList)
    requires IsUserRnti(rnti) && first != [] && second != []
    requires FlagsOf(Asked(env, rnti, first)) != View(false, false)
    ensures var before := Run(env, [AddModRnti(rnti, first)]);
            var after := Run(env, [AddModRnti(rnti, first), AddModRnti(rnti, second)]);
            && rnti in before && rnti in after
            && DlView(before, rnti) == Some(View(false, false))
            && DlView(after, rnti) == Some(FlagsOf(Asked(env, rnti, first))) != DlView(before, rnti)
  {
    var one, two := [AddModRnti(rnti, first)], [AddModRnti(rnti, first), AddModRnti(rnti, second)];
    assert [] + one + [] == one && one + [AddModRnti(rnti, second)] + [] == two;
    ReconfigurationWindow(env, [], rnti, first, []);
    ReconfigurationWindow(env, one, rnti, second, []);
    hide Asked, Shows, Step, DlView, FlagsOf;
  }

  /** A reachable case: a UE configured twice with 256QAM before it confirms. */
  lemma JumpIsReachable(env: Env)
    ensures var list := [RrcCfg(true, 0, DEFAULT_CFG.(dl := DEFAULT_CFG.dl.(useTbsIndexAlt := true)))];
            var before := Run(env, [AddModRnti(0x46, list)]);
            var after := Run(env, [AddModRnti(0x46, list), AddModRnti(0x46, list)]);
            && 0x46 in before && DlView(before, 0x46) == Some(View(false, false))
            && 0x46 in after && DlView(after, 0x46) == Some(View(true, false))
  {
    var list := [RrcCfg(true, 0, DEFAULT_CFG.(dl := DEFAULT_CFG.dl.(useTbsIndexAlt := true)))];
    assert FlagsOf(Asked(env, 0x46, list)) == View(true, false);
    SecondReconfigurationJumps(env, 0x46, list, list);
    hide *;
  }
  // ---------- the other slots ----------

  /** A call that leaves the configuration of this UE alone. */
  predicate Keeps(call: Call, rnti: nat) {
    !(call.AddModRnti? && call.rnti == rnti) && call != RemRnti(rnti)
  }

  predicate AllKeep(calls: seq<Call>, rnti: nat) {
    forall i :: 0 <= i < |calls| ==> Keeps(calls[i], rnti)
  }

  lemma SlotKept(env: Env, db: Db, call: Call, rnti: nat, i: nat)
    requires rnti in db && Keeps(call, rnti) && i < MAX_CARRIERS
    ensures rnti in Step(env, db, call)
    ensures var c, was := Step(env, db, call)[rnti].cells[i], db[rnti].cells[i];
            c.cfg == was.cfg && c.enbCc == was.enbCc
  {
    if PerTti(call) {
      PerTtiKeepsSetup(env, db, call);
      hide Step;
    } else {
      hide AddMod, NewUe, CountSecondary;
    }
  }

  lemma {:induction false} SlotKeptInRun(env: Env, db: Db, calls: seq<Call>, rnti: nat, i: nat)
    requires rnti in db && AllKeep(calls, rnti) && i < MAX_CARRIERS
    ensures rnti in RunFrom(env, db, calls)
    ensures var c, was := RunFrom(env, db, calls)[rnti].cells[i], db[rnti].cells[i];
            c.cfg == was.cfg && c.enbCc == was.enbCc
    decreases |calls|
  {
    if calls != [] {
      hide Step;
      var front := calls[..|calls| - 1];
      SlotKeptInRun(env, db, front, rnti, i);
      SlotKept(env, RunFrom(env, db, front), calls[|calls| - 1], rnti, i);
    }
  }

  /** From any reachable state, after a reconfiguration that asks for an SCell and whatever happens short of
      the next one, the slot has the parameters of its own entry under the UE's RNTI; and whenever an active
      slot is the first that its eNB cell serves, all four getters show what it holds. */
  lemma ScellKeepsRequested(env: Env, pre: seq<Call>, rnti: nat, list: RrcList, mid: seq<Call>, i: nat)
    requires AllLegal(pre) && list != [] && AllKeep(mid, rnti) && 1 <= i && Asks(list, i)
    ensures var db := Run(env, pre + [AddModRnti(rnti, list)] + mid);
            && rnti in db
            && var c := db[rnti].cells[i];
               && c.enbCc == list[i].enbCc && TakenFrom(c.cfg, list[i].cfg) && c.cfg.dl.dci.multipleCsi
               && (IsUserRnti(rnti) && Lookup(db[rnti].cells, c.enbCc) == i ==>
                     && DlConfig(db, rnti, c.enbCc) == Some(c.cfg.dl) && UlConfig(db, rnti, c.enbCc) == Some(c.cfg.ul)
                     && DciDlConfig(db, rnti, c.enbCc) == Some(c.cfg.dl.dci)
                     && DciUlConfig(db, rnti, c.enbCc) == Some(c.cfg.dl.dci))
  {
    var start := AskedSlot(env, pre, rnti, list, i);
    RunFromAppend(env, map[], pre + [AddModRnti(rnti, list)], mid);
    SlotKeptInRun(env, start, mid, rnti, i);
    var db := RunFrom(env, start, mid);
    hide Step, RunFrom, TakenFrom, DlConfig, UlConfig, DciDlConfig, DciUlConfig, Asks, LookupFrom;
    var c := db[rnti].cells[i];
    if IsUserRnti(rnti) && Lookup(db[rnti].cells, c.enbCc) == i {
      SecondaryShowsStored(db, rnti, c.enbCc, i);
    }
  }

  lemma AskedSlot(env: Env, pre: seq<Call>, rnti: nat, list: RrcList, i: nat) returns (start: Db)
    requires AllLegal(pre) && list != [] && 1 <= i && Asks(list, i)
    ensures start == Run(env, pre + [AddModRnti(rnti, list)]) && rnti in start
    ensures var c := start[rnti].cells[i];
            c.enbCc == list[i].enbCc && TakenFrom(c.cfg, list[i].cfg) && c.cfg.dl.dci.multipleCsi
  {
    hide AddMod, NewUe, TakenFrom;
    var db := Run(env, pre);
    PrimaryInEveryRun(env, pre);
    var u := if rnti in db then db[rnti] else NewUe(rnti, env.args);
    forall j | 0 <= j < MAX_CARRIERS
      ensures u.cells[j].state == Primary <==> j == 0
    {
      NewUeStates(rnti, env.args, j);
    }
    AddModFields(u, rnti, env.args, list, i);
    RunSnoc(env, pre, AddModRnti(rnti, list));
    start := Step(env, db, AddModRnti(rnti, list));
  }
}

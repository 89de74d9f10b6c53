# Proofs about the base station PHY and the core network of AIRadio

This project models six components of the AIRadio repository in Dafny and proves what holds over all their
inputs, runs and interleavings. Code that updates state in place is a class or a method with loops, each
method proved equal to a specification function; the properties are lemmas about those functions.

| component | files |
|---|---|
| What several components share | `Basics` |
| PHY UE database of the eNodeB, its uplink grants, UCI routing and HARQ feedback | `PhyUe`, `PhyUeUci`, `PhyUeRuns`, `PhyUeReconfig`, `UeDl`, `PhyHarq`, `PhyUeDb`, `GrantStore` |
| Ordered transmission of the PHY workers through one transmit buffer | `TxOrder` |
| PRACH capture into pooled buffers | `Prach`, `PrachRuns` |
| Home subscriber server: sequence numbers, authentication vectors, resynchronisation, user database file | `Sqn`, `AuthVectors`, `UserDbText`, `UserDb`, `UserDbFile`, `Hss` |
| Cell list checks of the eNodeB configuration parser | `CellChecks` |
| RBG bitmap and byte-stream framing of the PDSCH example | `RbgBitmap`, `NetFraming` |

`dafny verify dfyconfig.toml` checks everything.

## What the proofs say about the code

* **Transmission.** In every interleaving of any number of workers the radio sends, in order, exactly what
  serving the workers one after the other would send. The combined buffer never carries samples of another
  TTI, although it only points into the workers' own memories and those are overwritten by later work. No
  deadlock, and every run ends.
* **A stale sample count.** Assigning a fresh `rf_buffer_t` does not reset the sample count, so a TTI takes
  its count from the transmission before it exactly if none of its workers is enabled
  (`TxOrder.SampleCount`, reached in `TxOrder.StaleCountIsReachable`).
* **Reconfiguration.** A reconfiguration applies the whole PCell configuration at once, except for the 256QAM
  and the multiple-CSI flag as the downlink getters show them: those keep the values stored before it until
  its completion (`PhyUeReconfig.ReconfigurationWindow`). The comment in `phy_ue_db.h` (lines 39-46) says
  that the PCell configuration is stashed and not applied; the code does not do that. If an earlier
  reconfiguration that changed a flag is still pending, the downlink jumps to the flags that earlier one
  asked for (`PhyUeReconfig.UndisturbedIffInStep`, `PhyUeReconfig.SecondReconfigurationJumps`).
* **HARQ feedback** is conserved. If the UE received what was scheduled and its bits arrive, the stack is told
  the UE's own answers, in every feedback mode and with or without a PUSCH, a scheduling request or a CSI
  report (`UeDl.AnswersComeBack`, `PhyHarq.AnswersReported`), but a codeword the decoder does not look at is
  reported as acknowledged (`PhyHarq.FeedbackValue`). That is every codeword outside the PCell in normal
  feedback mode. In every mode it is also every codeword of an SCell whose slot number is at least the
  number of active slots, because the decoder takes that number for a bound on slot numbers (`PhyHarq.PastActiveIsAcked`): with
  slots 0 and 2 active and slot 1 not, slot 2 is never looked at (`PhyHarq.FalseAckIsReachable`).
* **Cleared grants** of a removed UE stay in the lists under RNTI 0. So after a removal a TTI is reported as
  set exactly if it had no grant for that UE and all its grants hit active cells
  (`GrantStore.RemovalReportedIff`), although the remaining UEs are served either way
  (`GrantStore.ServedButReportedFailed`).
* **PRACH.** Windows are exactly the greedy ones if `nof_sf` subframes are shorter than a buffer
  (`Prach.PrachWorker.Captured`), and an opportunity is missed only while all buffers are outstanding
  (`PrachRuns.OpportunityTakenIff`, `PrachRuns.NothingMissed`). Longer windows are never handed over,
  because the test for space is strict and the count is never reset; if not even one subframe fits, every
  opportunity costs the pool a buffer. The sizes of the source rule both out (`PrachRuns.SourceSizesFit`).
* **Sequence numbers** repeat after exactly 31*(2^43-1) steps and not earlier. After a resynchronisation the
  next number is larger than the USIM's exactly when its SEQ is below 2^43-2. The server does not look at the
  MAC of the resynchronisation token, and for a user of the XOR algorithm it does not take over the USIM's
  number at all, so that user can stay behind (`AuthVectors.XorResyncCanStayBehind`).
* **User database.** Users survive a restart exactly if they are storable: names without commas or newlines
  that do not begin with a hash, distinct valid static addresses, and OPc derived from OP where OP is
  configured. Of two records with one IMSI the first stays, but the second's static address counts as taken: a file
  goes through exactly if no line is malformed and no two accepted lines carry one address, kept or dropped
  (`UserDbFile.FileGoesThroughIff`).
* **Framing.** In MBSFN mode no byte is lost, added or reordered. With two transport blocks both are copied
  from the first half of the packet, so a packet arrives whole only if its two halves are equal
  (`NetFraming.DeliveredWhole`).
* **RBG selection.** Growing the selection ignores its origin, and so does falling back to the last size when
  an allocation is refused; by either way it may reach past the last group. A run stays inside exactly if
  no turn does either at the wrong place (`RbgBitmap.RunFitsIffSafe`). The bitmap then has one bit for each
  selected group that exists.

## Model

| member | source | states |
|---|---|---|
| PhyUe.LookupIs | AIRadio/isrenb/src/phy/phy_ue_db.cc:112-126 | The lookup result is singled out by two facts: the slot is active and uses the eNB cell, and no lower slot does; with no such slot it is the number of slots. |
| PhyUe.PosShared | AIRadio/lib/include/isrran/adt/circular_array.h:24-60 | Two TTIs share a position of a ring if and only if their distance is a multiple of 20. |
| PhyUe.SomeSecondary | AIRadio/isrenb/src/phy/phy_ue_db.cc:360-370 | The count of configured SCells is positive if and only if some slot is a secondary one, active or not. |
| PhyUe.CountActiveIs | AIRadio/isrenb/src/phy/phy_ue_db.cc:77-84 | The counting loop gives the number of slots that are primary or active secondary. |
| PhyUe.ClearedPosition | AIRadio/isrenb/src/phy/phy_ue_db.cc:67-91 | Clearing a TTI position leaves it without entries, with the number of active slots and the PCell modes, and touches nothing else of the UE. |
| PhyUe.ActivatedSlot | AIRadio/isrenb/src/phy/phy_ue_db.cc:394-414 | An activation command changes the state of a configured slot and nothing else. |
| PhyUe.CompletedSlot | AIRadio/isrenb/src/phy/phy_ue_db.cc:372-392 | Completion makes the stashed flags of every slot those of its configuration, the CSI flag that of the configured SCells, and changes nothing else. |
| PhyUe.DefaultsShown | AIRadio/isrenb/src/phy/phy_ue_db.cc:236-248 | RNTIs outside 0x000B to 0xFFF3 get the default configuration under their own RNTI from all four getters. |
| PhyUeDb.GetUeCcIdx | AIRadio/isrenb/src/phy/phy_ue_db.cc:112-126 | The search loop returns the lowest active slot using the eNB cell, or the number of slots. |
| PhyUeDb.GetUciEnbCcIdx | AIRadio/isrenb/src/phy/phy_ue_db.cc:128-138 | The loop returns the eNB cell of the lowest slot flagged with a grant at the TTI, or the number of eNB cells. |
| PhyUeDb.CountNofConfiguredScell | AIRadio/isrenb/src/phy/phy_ue_db.cc:360-370 | The loop counts the slots in either secondary state. |
| PhyUeDb.FreshAck | AIRadio/isrenb/src/phy/phy_ue_db.cc:67-91 | A cleared position has no entries, counts the active slots and copies the PCell mode fields. |
| PhyUeDb.UeDb.AddRnti | AIRadio/isrenb/src/phy/phy_ue_db.cc:35-65 | Fails, changing nothing, for a known RNTI; otherwise adds a UE with a default primary slot 0, four unconfigured slots and all TTI positions cleared. |
| PhyUeDb.UeDb.AddModRnti | AIRadio/isrenb/src/phy/phy_ue_db.cc:271-345 | The reconfiguration loops bring the database to the state the run model steps to, and no other UE changes. |
| PhyUeDb.UeDb.ConfigureSlots | AIRadio/isrenb/src/phy/phy_ue_db.cc:297-339 | Listed slots are configured each by its entry, the rest lose their configuration. |
| PhyUeDb.UeDb.RemRnti | AIRadio/isrenb/src/phy/phy_ue_db.cc:347-358 | Succeeds if and only if the RNTI was known, and removes that UE only. |
| PhyUeDb.UeDb.CompleteConfig | AIRadio/isrenb/src/phy/phy_ue_db.cc:372-392 | Succeeds if and only if the RNTI is known; the stashed flags become the current ones. |
| PhyUeDb.UeDb.ActivateDeactivateScell | AIRadio/isrenb/src/phy/phy_ue_db.cc:394-414 | Always reports success; only a configured slot of a known UE changes, and only its state. |
| PhyUeDb.UeDb.GetRntiConfig | AIRadio/isrenb/src/phy/phy_ue_db.cc:236-259 | Defaults for RNTIs outside the user range, an error unless the UE has the cell active, otherwise the configuration of the slot found. |
| PhyUeDb.UeDb.GetDlConfig | AIRadio/isrenb/src/phy/phy_ue_db.cc:422-441 | The downlink part of the slot configuration, with the stashed 256QAM flag if the slot is the PCell. |
| PhyUeDb.UeDb.GetDciDlConfig | AIRadio/isrenb/src/phy/phy_ue_db.cc:443-462 | The DCI part of the slot configuration, with the stashed multiple-CSI flag if the slot is the PCell. |
| PhyUeDb.UeDb.GetUlConfig | AIRadio/isrenb/src/phy/phy_ue_db.cc:464-475 | The uplink part of the slot configuration as it is. |
| PhyUeDb.UeDb.GetDciUlConfig | AIRadio/isrenb/src/phy/phy_ue_db.cc:477-488 | The DCI part of the slot configuration as it is. |
| PhyUeDb.UeDb.AssertActiveEnbCc | AIRadio/isrenb/src/phy/phy_ue_db.cc:203-216 | True if and only if the RNTI is known and one of its active slots uses the eNB cell. |
| PhyUeDb.UeDb.ClearTtiPendingAck | AIRadio/isrenb/src/phy/phy_ue_db.cc:261-269 | Every UE gets the TTI position cleared, all other positions stay. |
| PhyUeDb.UeDb.SetAckPending | AIRadio/isrenb/src/phy/phy_ue_db.cc:490-524 | Fails, changing nothing, without an active cell; otherwise the entry of the looked-up slot registers exactly the enabled codewords. |
| PhyUeDb.UeDb.SetUlGrantAvailable | AIRadio/isrenb/src/phy/phy_ue_db.cc:775-805 | The reset and raise loops give exactly the flags of the specification, and success if and only if every grant hits an active cell. |
| PhyUeDb.UeDb.FillUciCfg | AIRadio/isrenb/src/phy/phy_ue_db.cc:526-616 | The gate outcome, and its only effect on the database: the PUSCH mark of the position when it lets the call through. |
| PhyUeDb.UeDb.SendUciData | AIRadio/isrenb/src/phy/phy_ue_db.cc:657-743 | Fails without an active cell; otherwise stores the decoded entries and makes the reports in slot and codeword order. |
| PhyUeDb.Perform | AIRadio/isrenb/src/phy/phy_ue_db.cc:261-805 | Every call on the object is the step of the run model. |
| PhyUeDb.Replay | AIRadio/isrenb/src/phy/phy_ue_db.cc:261-805 | Any sequence of calls on a new object leaves it where the run of those calls ends, so the lemmas about runs hold of the object. |
| PhyUeDb.DecodeAcks | AIRadio/lib/src/phy/enb/enb_dl.c:609-677 | The decoder overwrites exactly the covered codewords that were sent, with the bits the specification names. |
| PhyUeDb.PcellSkipDrx | AIRadio/lib/src/phy/enb/enb_dl.c:572-588 | PCell bits are taken in order, skipping codewords that were not sent; invalid bits count as NACK. |
| PhyUeDb.AllKeepDrx | AIRadio/lib/src/phy/enb/enb_dl.c:556-607 | Every counted carrier takes its bits at its fixed position, or one bit for all codewords when bundled. |
| PhyUeDb.ScellCodewords | AIRadio/lib/src/phy/enb/enb_dl.c:618-671 | The two counters differ if and only if some carrier other than the first has a sent codeword. |
| PhyUeRuns.SecondaryStep | AIRadio/isrenb/src/phy/phy_ue_db.cc:271-414 | One call moves a secondary slot as in its state machine: configuring and dropping never switch it on or off, only an activation command for that slot does. |
| PhyUeRuns.PerTtiKeepsSetup | AIRadio/isrenb/src/phy/phy_ue_db.cc:490-805 | The calls made every TTI change no slot state, configuration or stash of any UE. |
| PhyUeRuns.AddModState | AIRadio/isrenb/src/phy/phy_ue_db.cc:297-339 | The state of each slot after a reconfiguration, from its state before and the list. |
| PhyUeRuns.NewUeStarts | AIRadio/isrenb/src/phy/phy_ue_db.cc:35-65 | A UE just added counts one active slot in every TTI position, with transmission mode 1, nothing pending, no grant flag and nothing stashed. |
| PhyUeRuns.LabelledInEveryRun | AIRadio/isrenb/src/phy/phy_ue_db.cc:93-98 | In every reachable state every configured slot of a UE, SCells included, has that UE's RNTI for downlink and uplink and the settings derived from the PHY arguments. |
| PhyUeRuns.GettersCarryRnti | AIRadio/isrenb/src/phy/phy_ue_db.cc:236-259 | In every reachable state a configuration that a getter returns carries the RNTI it was asked for, also for RNTIs that get the defaults; that of a UE also the common uplink settings. |
| PhyUeRuns.PrimaryPreserved | AIRadio/isrenb/src/phy/phy_ue_db.cc:271-414 | A legal call keeps slot 0 the only primary slot of every UE. |
| PhyUeRuns.PrimaryLostOtherwise | AIRadio/isrenb/src/phy/phy_ue_db.cc:271-414 | Exactly the caller obligations keep it: an empty list, or an activation command for slot 0 of a known UE, loses the PCell. |
| PhyUeRuns.PrimaryInEveryRun | AIRadio/isrenb/hdr/phy/phy_ue_db.h:37-75 | After every run of legal calls slot 0, and no other, is primary. |
| PhyUeRuns.SlotHistory | AIRadio/isrenb/hdr/phy/phy_ue_db.h:37-75 | After every run a secondary slot is configured if and only if configured and not dropped since, and active if and only if switched on while configured and not off or dropped since. |
| PhyUeReconfig.GettersShowStored | AIRadio/isrenb/src/phy/phy_ue_db.cc:422-488 | For the PCell of a user all four getters return their part of the stored configuration, the DL ones with the stashed flag in place of its own. |
| PhyUeReconfig.SecondaryShowsStored | AIRadio/isrenb/src/phy/phy_ue_db.cc:422-488 | For an active SCell that is the first to use its eNB cell all four getters return that slot's own stored configuration unaltered. |
| PhyUeReconfig.AddModCsi | AIRadio/isrenb/src/phy/phy_ue_db.cc:292-344 | A reconfiguration sets the multiple-CSI flag if and only if the list asks for an SCell. |
| PhyUeReconfig.AddModFields | AIRadio/isrenb/src/phy/phy_ue_db.cc:271-345 | Field by field: a listed slot that is the PCell or is asked for takes every parameter of its own entry; every other slot is dropped with its parameters as they were; eNB cells are those listed; the CSI flag of listed slots says whether an SCell is asked for; 256QAM flags are stashed; grant flags and pending acknowledgements stay. |
| PhyUeReconfig.ScellKeepsRequested | AIRadio/isrenb/src/phy/phy_ue_db.cc:271-488 | From any reachable state, after a reconfiguration that asks for an SCell and any calls short of the next one, the slot still holds its own entry, and while it is the first active slot for its eNB cell all four getters show that. |
| PhyUeReconfig.CsiInStepInEveryRun | AIRadio/isrenb/src/phy/phy_ue_db.cc:271-392 | In every reachable state the PCell multiple-CSI flag says whether the UE has a configured SCell. |
| PhyUeReconfig.ReconfigurationWindow | AIRadio/isrenb/src/phy/phy_ue_db.cc:271-488 | From any reachable state, between a reconfiguration and its completion, all four getters return the whole configuration asked for, except that the two DL getters return the 256QAM and multiple-CSI flags stored before it; after completion no exception is left. |
| PhyUeReconfig.UndisturbedIffInStep | AIRadio/isrenb/src/phy/phy_ue_db.cc:271-392 | The two flags the DL getters show for a known UE are unchanged by a reconfiguration if and only if they were the stored ones before it. |
| PhyUeReconfig.CompletedIsInStep | AIRadio/isrenb/src/phy/phy_ue_db.cc:372-392 | They are the stored ones whenever the last reconfiguration of the UE was completed. |
| PhyUeReconfig.SecondReconfigurationJumps | AIRadio/isrenb/src/phy/phy_ue_db.cc:291-295 | A second reconfiguration while one that sets a flag is pending makes the DL show what the pending one asked for, before either is completed. |
| PhyUeReconfig.JumpIsReachable | AIRadio/isrenb/src/phy/phy_ue_db.cc:291-295 | A reachable case: configured twice with 256QAM, the DL flag goes from off to on without any completion. |
| PhyUeReconfig.CompletionAligns | AIRadio/isrenb/src/phy/phy_ue_db.cc:372-392 | Completion changes neither state nor configuration of the PCell and makes both stashed flags the current ones. |
| PhyUeUci.GrantFlagsExact | AIRadio/isrenb/src/phy/phy_ue_db.cc:775-805 | A flag at the TTI is true if and only if some list grants the UE in an eNB cell whose lookup is that slot; other positions, setup and acknowledgements stay. |
| PhyUeUci.UciGateExact | AIRadio/isrenb/src/phy/phy_ue_db.cc:526-565 | A call gets past the gate if and only if its cell is the target (granted cell of lowest slot, or the PCell), with a PUSCH and the cell still in use when there is a grant, or the PCell active when there is none. |
| PhyUeUci.UciRouteUnique | AIRadio/isrenb/src/phy/phy_ue_db.cc:526-565 | For any state, TTI and UE at most one eNB cell gets past the gate. |
| PhyUeUci.UciRouteAfterGrants | AIRadio/isrenb/src/phy/phy_ue_db.cc:526-565 | Right after the grants of a TTI are set, the target does get past the gate. |
| PhyUeUci.UciTargetIs | AIRadio/isrenb/src/phy/phy_ue_db.cc:128-138 | The target is the eNB cell of the lowest slot with a grant at the position if that cell exists, and the PCell's otherwise. |
| PhyUeUci.FillUciMarks | AIRadio/isrenb/src/phy/phy_ue_db.cc:526-616 | A call changes nothing unless it gets past the gate; then it is for the target cell, with a PUSCH if there is a grant, and changes nothing but the PUSCH mark of that UE and TTI position. |
| PhyUeUci.EnabledIff | AIRadio/isrenb/src/phy/phy_ue_db.cc:513-522 | A second codeword counts only in formats 2, 2A and 2B, a first one in every format, and neither with MCS 0 and redundancy version 1. |
| PhyUeUci.SendUciOutcome | AIRadio/isrenb/src/phy/phy_ue_db.cc:657-743 | Without an active cell nothing happens and the call fails; otherwise only codeword values at that position of that UE can change, and the call succeeds if and only if the slot the CSI is about is configured. |
| UeDl.PcellSkipDrx | AIRadio/lib/src/phy/ue/ue_dl.c:986-1008 | The UE's loop writes the answers for the PCell codewords it received, in order, and returns their number. |
| UeDl.AllKeepDrx | AIRadio/lib/src/phy/ue/ue_dl.c:1010-1026 | The loops give every codeword of every counted carrier its own place, 0 where nothing was received. |
| UeDl.AllSpatialBundling | AIRadio/lib/src/phy/ue/ue_dl.c:1028-1051 | One value a carrier: negative if an answer is, and 2 if the carrier is not scheduled. |
| UeDl.AnswersComeBack | AIRadio/lib/src/phy/enb/enb_dl.c:556-677 | If the UE received what was sent and its bits arrive, decoding gives back its own answer to every codeword that has a place in them, or the one for its carrier, whatever the feedback mode and whether or not a PUSCH, a scheduling request or a CSI report goes along; invalid bits count as negative except where bundled, and every other codeword keeps its value. |
| PhyHarq.LedgerIsExact | AIRadio/isrenb/src/phy/phy_ue_db.cc:490-524 | After any quiet run on a cleared position each entry is empty or booked by the one accepted call for its slot. |
| PhyHarq.FeedbackConserved | AIRadio/isrenb/src/phy/phy_ue_db.cc:490-700 | Clear, schedule each cell at most once, do not reconfigure, then hand over UCI: exactly one report for each enabled codeword registered, none for any other, whatever was decoded. |
| PhyHarq.CountFieldIsExact | AIRadio/isrenb/src/phy/phy_ue_db.cc:513-522 | Along such a run the count k of every entry equals the number of its sent codewords. |
| PhyHarq.DecodingKeepsSent | AIRadio/lib/src/phy/enb/enb_dl.c:556-677 | Decoding makes no codeword sent or unsent. |
| PhyHarq.FeedbackValue | AIRadio/lib/src/phy/enb/enb_dl.c:609-677 | In every run of that kind, the one report about an owed codeword of slot s carries its decoded bit if the feedback mode, the number of slots active when the position was cleared, s and the codeword let the decoder look at it, and says acknowledged, whatever was decoded, if not. |
| PhyHarq.AnswersReported | AIRadio/isrenb/src/phy/phy_ue_db.cc:657-700 | In every run of that kind, if the UE received what was registered and its bits arrive, the stack is told the UE's answer to every owed codeword that has a place in them, and "acknowledged" for every other. |
| PhyHarq.OwedFields | AIRadio/isrenb/src/phy/phy_ue_db.cc:502-522 | At the end of such a run the entry of an accepted call holds its resource, its slot and, codeword by codeword, what it enabled. |
| PhyHarq.MarkAfterClearing | AIRadio/isrenb/src/phy/phy_ue_db.cc:526-565 | After clearing and any quiet run, the PUSCH mark of a position is that of the last call that got past the gate, and unset if none did. |
| PhyHarq.PastActiveIsAcked | AIRadio/lib/src/phy/enb/enb_dl.c:556-607 | A codeword of an SCell whose slot number is at least the number of active slots is not looked at in any feedback mode. |
| PhyHarq.FalseAck | AIRadio/lib/src/phy/enb/enb_dl.c:556-607 | A UE with slots 0 and 2 active and slot 1 not: what it answers in the cell of slot 2 is reported as acknowledged though only zeros were decoded. |
| PhyHarq.FalseAckIsReachable | AIRadio/lib/src/phy/enb/enb_dl.c:556-607 | Such a run: three cells configured, the last one switched on, one transmission in it; in whatever feedback mode. |
| PhyHarq.ModesKept | AIRadio/isrenb/src/phy/phy_ue_db.cc:67-91 | A position keeps the number of active slots and the modes it was cleared with, also if slots are switched in between. |
| GrantStore.SharedGrants.SetUlGrants | AIRadio/isrenb/src/phy/phy_common.cc:108-112 | The list replaces the one at its ring position, no other. |
| GrantStore.SharedGrants.GetUlGrants | AIRadio/isrenb/src/phy/phy_common.cc:102-106 | The list last stored at the ring position. |
| GrantStore.SharedGrants.ClearGrants | AIRadio/isrenb/src/phy/phy_common.cc:86-100 | The three nested loops blank the RNTI of that UE in every counted entry of every list and touch nothing else. |
| GrantStore.ClearedGranted | AIRadio/isrenb/src/phy/phy_common.cc:86-100 | After clearing, a UE is granted in a slot if and only if it was before and is not the cleared one. |
| GrantStore.ClearedEntry | AIRadio/isrenb/src/phy/phy_common.cc:86-100 | Every entry of another UE, and every entry past the count, is left exactly as it was; a cleared entry loses nothing but its RNTI. |
| GrantStore.RemovalLeavesOthersAlone | AIRadio/isrenb/src/phy/phy.cc:221-235 | Removing a UE and clearing its grants leaves every other UE the same flags and state when the grants of any TTI are set. |
| GrantStore.ClearedIsNeverFlagged | AIRadio/isrenb/src/phy/phy.cc:221-235 | A UE that reuses the RNTI is never flagged for a grant of its predecessor. |
| GrantStore.RemovalReportedIff | AIRadio/isrenb/src/phy/phy.cc:221-235 | After a removal, setting a list that was cleared reports success if and only if each of its grants was of another UE and hit an active cell of it. |
| GrantStore.ServedButReportedFailed | AIRadio/isrenb/src/phy/phy_ue_db.cc:775-805 | With one grant left of the removed UE failure is reported, and yet the database of the remaining UEs becomes exactly what it would have been with that UE there. |
| TxOrder.ActsInTurn | AIRadio/lib/include/isrran/common/tti_sempahore.h:56-95 | Whoever acts inside worker_end holds the head of the queue; the semaphore never lets a worker in on an empty queue. |
| TxOrder.HoldersDoNotReturn | AIRadio/lib/include/isrran/interfaces/phy_common_interface.h:41-66 | While the transmit buffer points into the memory of a worker, the hold flag keeps that worker from returning. |
| TxOrder.SamplesKept | AIRadio/lib/include/isrran/radio/rf_buffer.h:98-143 | Samples a worker has computed are undisturbed by all others until it combines them. |
| TxOrder.ContentsKept | AIRadio/lib/include/isrran/radio/rf_buffer.h:98-143 | What the transmit buffer points to is undisturbed by workers still computing. |
| TxOrder.MergeCombines | AIRadio/lib/include/isrran/radio/rf_buffer.h:98-143 | Combining in place, through pointers, gives the combination of the values. |
| TxOrder.InvKept | AIRadio/isrenb/src/phy/phy_common.cc:121-168 | Every step of every worker, and every push, keeps the invariant of the interleaved system. |
| TxOrder.InvInEveryRun | AIRadio/isrenb/src/phy/phy_common.cc:121-168 | It holds in every reachable state. |
| TxOrder.ReturnsAfterTx | AIRadio/isrenb/src/phy/phy_common.cc:134-148 | A worker that waits for the last one can return only once its own TTI has been transmitted. |
| TxOrder.OrderedTransmission | AIRadio/isrenb/src/phy/phy_common.cc:121-168 | In every interleaving the radio log is a prefix of what serving the pushed workers one after the other sends, and all of it once every worker is done; a non-last worker that had something to send has returned only if the transmission of its TTI is in the log. |
| TxOrder.JobsArePushed | AIRadio/isrenb/src/phy/txrx.cc:209-237 | After any run the workers are those that were pushed, unaltered and in that order. |
| TxOrder.PairSends | AIRadio/isrenb/src/phy/txrx.cc:209-237 | A reachable run of two enabled workers of one TTI that overlap: the one transmission combines the buffers of both, with the count and time of the second. |
| TxOrder.PairSendsSum | AIRadio/isrenb/src/phy/phy_common.cc:128-160 | In particular [1] and [10] are sent as [11]. |
| TxOrder.TtiTransmission | AIRadio/isrenb/src/phy/phy_common.cc:128-160 | The k-th transmission carries exactly the combination of the enabled buffers of the k-th TTI, at the time of its last worker. |
| TxOrder.SampleCount | AIRadio/lib/include/isrran/radio/rf_buffer.h:98-143 | Its sample count is that of the last enabled worker of the TTI; if none is enabled it is the count of the transmission before, or 0 for the first. |
| TxOrder.CountOwnOrLeft | AIRadio/isrenb/src/phy/phy_common.cc:128-132 | A count comes from the TTI itself if it has an enabled worker and is the one left over if it has none. |
| TxOrder.StaleCountIsReachable | AIRadio/isrenb/src/phy/phy_common.cc:121-168 | A run whose second transmission is an empty buffer with the sample count of the first. |
| TxOrder.CombinationIsSum | AIRadio/lib/include/isrran/radio/rf_buffer.h:98-143 | With equal lengths the combination is, channel by channel and sample by sample, the sum over the enabled workers. |
| TxOrder.CombinedSample | AIRadio/lib/include/isrran/radio/rf_buffer.h:98-143 | For any lengths: a channel of one side only keeps its samples; where both have it the first n are added and the rest stays. |
| TxOrder.NoDeadlock | AIRadio/isrenb/src/phy/txrx.cc:209-237 | Unless a TTI is only half pushed, some worker can go on as long as one is not done. |
| TxOrder.EveryStepCounts | AIRadio/isrenb/src/phy/phy_common.cc:121-168 | Every worker step other than computing samples strictly decreases a measure, so every run ends. |
| TxOrder.AllDoneWeighsNothing | AIRadio/isrenb/src/phy/phy_common.cc:121-168 | The measure is zero if and only if all workers are done. |
| Prach.WindowsAreGreedy | AIRadio/isrenb/src/phy/prach_worker.cc:99-139 | The windows are exactly those at the greedy positions: each the first opportunity, with a buffer, at or after the end of the one before, and nof_sf subframes long; so they never overlap and none is missed. |
| Prach.OneMore | AIRadio/isrenb/src/phy/prach_worker.cc:99-139 | One more subframe adds at most one window, at the end, and leaves all earlier ones alone. |
| Prach.WindowsStartAtOpportunities | AIRadio/isrenb/src/phy/prach_worker.cc:141-144 | Every window is stamped with an opportunity, so the test in run_tti always succeeds. |
| Prach.WindowSamples | AIRadio/isrenb/src/phy/prach_worker.cc:110-124 | A window is stamped with the TTI of its first subframe and holds the samples of all its subframes in order. |
| Prach.PrachWorker.constructor | AIRadio/isrenb/hdr/phy/prach_worker.h:77-93 | At start all buffers are free, none is lost and the invariant holds. |
| Prach.PrachWorker.NewTti | AIRadio/isrenb/src/phy/prach_worker.cc:99-139 | Keeps the invariant: pool partitioned into free, filling, queued and taken; free buffers empty; a non-zero count means a current buffer with exactly that many subframes; windows handed over are the greedy ones, or none at all if a window does not fit. A buffer is lost at every opportunity if not even one subframe fits, and never otherwise. |
| Prach.PrachWorker.Allocate | AIRadio/lib/include/isrran/common/buffer_pool.h:106-158 | A buffer moves from the free list to being filled, and is empty. |
| Prach.PrachWorker.StoreSubframe | AIRadio/isrenb/src/phy/prach_worker.cc:114-122 | The samples go behind those already there, and the first one stamps the buffer. |
| Prach.PrachWorker.Collect | AIRadio/isrenb/src/phy/prach_worker.cc:110-137 | Returns an error only if a whole window does not fit a buffer. |
| Prach.PrachWorker.Complete | AIRadio/isrenb/src/phy/prach_worker.cc:126-137 | A full window is processed at once or queued, and the count starts again. |
| Prach.PrachWorker.Pop | AIRadio/isrenb/src/phy/prach_worker.cc:187-192 | The oldest queued buffer is taken, the order of the others stays. |
| Prach.PrachWorker.Examine | AIRadio/isrenb/src/phy/prach_worker.cc:187-193 | The window looked at is exactly the one handed over, whatever was received meanwhile. |
| Prach.PrachWorker.GiveBack | AIRadio/isrenb/src/phy/prach_worker.cc:194-195 | The buffer is emptied and free again. |
| Prach.PrachWorker.ValidMeans | AIRadio/isrenb/src/phy/prach_worker.cc:99-201 | The invariant in plain terms: windows looked at are the greedy ones in order, those left are in hand or queued in order and unharmed, and every buffer is in exactly one place. |
| PrachRuns.TakeTurn | AIRadio/isrenb/src/phy/prach_worker.cc:99-201 | One turn of either thread leads the worker exactly where the specification goes: the stream with its free-buffer flags, and what the detector has taken, looked at and given back. |
| PrachRuns.Interleave | AIRadio/isrenb/src/phy/prach_worker.cc:99-201 | After any sequence of turns of the two threads a subframe found a free buffer if and only if fewer than all were outstanding then; the buffers free are those not outstanding; the windows looked at are the first of those handed over; windows are captured and the pool kept. |
| PrachRuns.FreeCount | AIRadio/lib/include/isrran/common/buffer_pool.h:106-158 | The free buffers are all but the window being collected and the windows completed and not given back; for windows too long for a buffer, all but those used up. |
| PrachRuns.OpportunityTakenIff | AIRadio/isrenb/src/phy/prach_worker.cc:99-110 | An opportunity met while idle opens a window if and only if fewer than all buffers are outstanding. |
| PrachRuns.NothingMissed | AIRadio/isrenb/src/phy/prach_worker.cc:99-139 | If that was so at every opportunity met while idle, the windows are the greedy ones of the subframes received, as if buffers never ran out. |
| PrachRuns.SourceSizesFit | AIRadio/isrenb/hdr/phy/prach_worker.h:77-77 | With 131072 samples a buffer, at most 2048 samples a symbol and the durations of the five preamble formats, every window fits. |
| Prach.PrachWorker.PoolCount | AIRadio/lib/include/isrran/common/buffer_pool.h:106-158 | Free, queued, lost, filling and taken buffers add up to the pool. |
| Prach.SfBuffer.AddSubframe | AIRadio/isrenb/src/phy/prach_worker.cc:115-122 | The buffer grows by exactly the subframe, earlier samples and stamp stay. |
| Sqn.ValueOfBytes | AIRadio/isrepc/src/hss/hss.cc:569-571 | A 48-bit number comes back from its big-endian bytes. |
| Sqn.BytesOfValue | AIRadio/isrepc/src/hss/hss.cc:552-571 | Bytes come back from their number, so packing and unpacking are inverse. |
| Sqn.ByteByShift | AIRadio/isrepc/src/hss/hss.cc:569-571 | Byte i is what the right shift of the unpacking loop leaves in the lowest byte. |
| Sqn.Pack | AIRadio/isrepc/src/hss/hss.cc:552-556 | The packing loop computes the big-endian number. |
| Sqn.Unpack | AIRadio/isrepc/src/hss/hss.cc:569-571 | The unpacking loop stores the big-endian bytes. |
| Sqn.IncrementSqn | AIRadio/isrepc/src/hss/hss.cc:545-573 | One step of both counters, also when source and target are the same array. |
| Sqn.IncrementSeqAfterResync | AIRadio/isrepc/src/hss/hss.cc:575-603 | One step of SEQ with IND unchanged, in place. |
| Sqn.StepsClosedForm | AIRadio/isrepc/src/hss/hss.cc:552-571 | n steps give (SEQ+n) mod (2^43-1) and (IND+n) mod 31, within 48 bits, with SEQ at most 2^43-2 and IND at most 30. |
| Sqn.CommonMultiple | AIRadio/isrepc/src/hss/hss.cc:565-567 | A number is a multiple of both moduli if and only if of their product. |
| Sqn.ExactPeriod | AIRadio/isrepc/src/hss/hss.cc:552-571 | Two members of a run are equal if and only if a multiple of 31*(2^43-1) steps apart. |
| Sqn.ReturnToStart | AIRadio/isrepc/src/hss/hss.cc:552-571 | The starting value comes back after a full period if its counters are in range, and otherwise never. |
| Sqn.ResyncMovesForward | AIRadio/isrepc/src/hss/hss.cc:575-603 | The step after a resynchronisation is strictly forward as a 48-bit number if and only if SEQ is below 2^43-2. |
| Sqn.ResyncStep | AIRadio/isrepc/src/hss/hss.cc:590-597 | That step adds 32, except from the two highest values of SEQ, from which it goes back to the bottom. |
| AuthVectors.XorTwice | AIRadio/isrepc/src/hss/hss.cc:365-396 | Exclusive or with the same bytes twice gives the bytes back. |
| AuthVectors.XorByteAt | AIRadio/isrepc/src/hss/hss.cc:365-367 | Bit i of the exclusive or is set if and only if bit i of exactly one operand is. |
| AuthVectors.XorVectorBytes | AIRadio/isrepc/src/hss/hss.cc:342-439 | Byte by byte, the AUTN, response, CK and IK of an XOR user from K, RAND, SQN and AMF. |
| AuthVectors.MilenageVectorBytes | AIRadio/isrepc/src/hss/hss.cc:280-340 | The same for a Milenage user from the values of f1 to f5. |
| AuthVectors.VectorIsAccepted | AIRadio/isrue/src/stack/upper/usim.cc:173-289 | The USIM accepts every vector of its server and recovers exactly the SQN and AMF used; both ends hold the same response and session key. |
| AuthVectors.AcceptedIsGenerated | AIRadio/isrue/src/stack/upper/usim.cc:173-289 | The USIM accepts an AUTN if and only if it is the one the server makes for some SQN and AMF. |
| AuthVectors.AutnInjective | AIRadio/isrepc/src/hss/hss.cc:342-439 | For fixed key and challenge the map from SQN and AMF to AUTN is injective, for both algorithms. |
| AuthVectors.ResyncIsFresh | AIRadio/isrepc/src/hss/hss.cc:455-603 | After a Milenage resynchronisation the next vector uses SEQ_MS+1 with IND_MS, larger than SQN_MS if and only if SEQ_MS is below 2^43-2, whatever the MAC in the token. |
| AuthVectors.XorResyncIgnoresToken | AIRadio/isrepc/src/hss/hss.cc:455-483 | For an XOR user the next vector carries the server's own stepped SQN whatever the token; it is ahead of the USIM if and only if that SQN lagged by less than 32, or at the two highest values of SEQ by a bound near the bottom. |
| AuthVectors.XorResyncCanStayBehind | AIRadio/isrepc/src/hss/hss.cc:478-483 | A server at SQN 0 sends 32 whatever the token, so it is not ahead of a USIM at 32 or more. |
| AuthVectors.RunCounts | AIRadio/isrepc/src/hss/hss.cc:257-278 | After n requests the SQN has made n steps and nothing else of the user changed but the last challenge. |
| AuthVectors.SqnNeverReusedEarly | AIRadio/isrepc/src/hss/hss.cc:257-278 | Two vectors of a run carry the same SQN if and only if a multiple of the period apart. |
| Hss.XorBytes | AIRadio/isrepc/src/hss/hss.cc:365-367 | The byte loop computes the exclusive or. |
| Hss.RotateBytes | AIRadio/isrepc/src/hss/hss.cc:369-373 | The loop cuts CK and IK out of XDOUT by rotation. |
| Hss.StoreAutn | AIRadio/isrepc/src/hss/hss.cc:325-334 | SQN xor AK, AMF and MAC in their places; building it twice changes nothing. |
| Hss.UeCtx.constructor | AIRadio/isrepc/src/hss/hss.cc:113-171 | A context holds exactly the record it is made from, in arrays of its own. |
| Hss.HssServer.GenAuthInfoAnswer | AIRadio/isrepc/src/hss/hss.cc:257-278 | Fails, changing nothing, for an unknown IMSI; otherwise the vector of the current SQN, then one step of the counter, and no other user is touched. |
| Hss.HssServer.AnswerXor | AIRadio/isrepc/src/hss/hss.cc:342-439 | Challenge, AUTN, response and session key are those of the XOR vector; the second AUTN leaves the first as it was. |
| Hss.HssServer.AnswerMilenage | AIRadio/isrepc/src/hss/hss.cc:280-340 | The same for Milenage, leaving the upper half of the response array alone. |
| Hss.HssServer.ResyncSqnMilenage | AIRadio/isrepc/src/hss/hss.cc:485-536 | The stored SQN becomes the one unmasked with f5* under the last challenge. |
| Hss.HssServer.ResyncSqn | AIRadio/isrepc/src/hss/hss.cc:455-483 | Fails for an unknown IMSI; otherwise the SQN of that user, and of no other, becomes the resynchronised and stepped one. |
| UserDbText.SplitString | AIRadio/lib/include/isrran/common/string_helpers.h:142-152 | The getline loop gives the pieces between delimiters, with no piece after a final one. |
| UserDbText.ScanHex | AIRadio/lib/include/isrran/common/string_helpers.h:154-163 | Two hexadecimal digits make a byte; a place that does not scan keeps what was there. |
| UserDbText.FormatHex | AIRadio/lib/include/isrran/common/string_helpers.h:165-174 | Two lower-case digits for every byte. |
| UserDbText.PiecesAreClean | AIRadio/lib/include/isrran/common/string_helpers.h:142-152 | No piece contains the delimiter or a character the whole does not. |
| UserDbText.HexRoundTrip | AIRadio/lib/include/isrran/common/string_helpers.h:154-174 | Scanning what was printed gives the bytes back, whatever the target held. |
| UserDbText.HexStringDigits | AIRadio/lib/include/isrran/common/string_helpers.h:165-174 | Byte by byte the two digits of the printed text, the higher four bits first. |
| UserDbText.DecimalStep | AIRadio/isrepc/src/hss/hss.cc:222-245 | The decimal form digit by digit, the most significant first and without leading zeros. |
| UserDbText.ReadPadded | AIRadio/isrepc/src/hss/hss.cc:222-245 | Numbers printed in decimal, with or without leading zeros, are read back, up to 64 and 16 bits. |
| UserDbText.ReadSigned | AIRadio/isrepc/src/hss/hss.cc:122-152 | What a number with a blank and a sign before it and other text behind it is read as: an IMSI saturates at 64 bits and wraps around below 0, a QCI keeps its lowest 16 bits. |
| UserDbText.DottedQuadIff | AIRadio/isrepc/src/hss/hss.cc:155-170 | A static address is valid if and only if it is four decimal numbers up to 255, without leading zeros, with dots between them. |
| UserDb.SplitJoined | AIRadio/isrepc/src/hss/hss.cc:105-108 | Splitting fields joined by commas gives the fields back if none contains a comma and the last is not empty. |
| UserDb.FieldsRoundTrip | AIRadio/isrepc/src/hss/hss.cc:108-172 | Reading the ten fields of a storable record gives the record back, but for an OP that was not written. |
| UserDb.LineRoundTrip | AIRadio/isrepc/src/hss/hss.cc:104-109 | The line of a storable record has no newline, is not taken for a comment, and splits into its fields. |
| UserDb.LineColumns | AIRadio/isrepc/src/hss/hss.cc:221-248 | The ten columns of a written line, each from its own part of the record. |
| UserDbFile.WrittenComesBack | AIRadio/isrepc/src/hss/hss.cc:182-255 | For any number of storable users the file reads back without error to the same users and to the exact map from static addresses to their owners. |
| UserDbFile.ReadingKeepsSound | AIRadio/isrepc/src/hss/hss.cc:93-180 | Whatever the lines are, the users read so far have clean names, valid and distinct static addresses and an OPc that fits. |
| UserDbFile.ReadUsersAreStorable | AIRadio/isrepc/src/hss/hss.cc:93-180 | The users read from any file, even one refused half-way, could be written again. |
| UserDbFile.DroppedUserKeepsAddress | AIRadio/isrepc/src/hss/hss.cc:156-172 | After a record dropped because its IMSI is taken, with any lines in between, no user has its static address and still a later record with that address is refused. |
| UserDbFile.RefusedForNoOnesAddress | AIRadio/isrepc/src/hss/hss.cc:156-172 | Three sound records, the first two with one IMSI, the last two with one address: reading stops, and the one user read does not have that address. |
| UserDbFile.ReadingGoesThroughIff | AIRadio/isrepc/src/hss/hss.cc:93-180 | Reading goes through if and only if no line is refused for its form, no static address is one already taken, and no two accepted lines carry the same one, kept or dropped. |
| UserDbFile.FileGoesThroughIff | AIRadio/isrepc/src/hss/hss.cc:93-180 | The same for whole files, read into empty maps. |
| UserDbFile.ReadingOnlyAdds | AIRadio/isrepc/src/hss/hss.cc:93-180 | Users and addresses read before stay as they are. |
| UserDbFile.RestartRestoresIff | AIRadio/isrepc/src/hss/hss.cc:93-255 | Writing and reading gives the same users if and only if they are storable. |
| UserDbFile.RereadingIsStable | AIRadio/isrepc/src/hss/hss.cc:93-255 | What any file gives when read, it gives again after being written and read once more. |
| UserDbFile.RestartKeepsVectors | AIRadio/isrepc/src/hss/hss.cc:67-91 | After a restart a user is served the very vector it would have been served without it. |
| Hss.HssServer.InsertUser | AIRadio/isrepc/src/hss/hss.cc:171-172 | A user whose IMSI is taken is dropped, any other is added, and no context changes. |
| Hss.ReadFields | AIRadio/isrepc/src/hss/hss.cc:113-170 | The chain of tests and conversions makes of ten fields what the specification makes of them, refusing at the first bad one. |
| Hss.WriteLine | AIRadio/isrepc/src/hss/hss.cc:221-248 | The formatted fields, joined by commas, and the end of the line. |
| Hss.HssServer.AddLine | AIRadio/isrepc/src/hss/hss.cc:104-172 | One line updates both maps as specified, including the address that stays taken when the user is dropped. |
| Hss.HssServer.ReadDbFile | AIRadio/isrepc/src/hss/hss.cc:93-180 | Reading stops at the first refused line; both maps and the result are those of the specification. |
| Hss.HssServer.WriteDbFile | AIRadio/isrepc/src/hss/hss.cc:182-255 | The comment block and then one line for each user by ascending IMSI. |
| Hss.StopAndStart | AIRadio/isrepc/src/hss/hss.cc:67-91 | Shutdown and start with a new server object give success and the same users if and only if they were storable. |
| CellChecks.CheckLteCells | AIRadio/isrenb/src/enb_cfg_parser.cc:1524-1550 | Succeeds if and only if cell i uses port i and no identifier repeats. |
| CellChecks.CheckNrCells | AIRadio/isrenb/src/enb_cfg_parser.cc:1579-1661 | Succeeds if and only if the NR cells take the ports after the LTE ones in order and every test on identifiers, bands and settings passes. |
| CellChecks.NrCellsFitIff | AIRadio/isrenb/src/enb_cfg_parser.cc:1579-1661 | That is so if and only if ports go on where the LTE ones end, PCIs and cell identifiers are pairwise distinct, no port is an LTE one, and every cell lies in its band, downlink and uplink. |
| CellChecks.BandListed | AIRadio/isrenb/src/enb_cfg_parser.cc:1621-1628 | The search loop finds a band if and only if it is listed. |
| CellChecks.PortsAreDense | AIRadio/isrenb/src/enb_cfg_parser.cc:1524-1619 | When both checks pass the ports in use are exactly 0 to n-1, each once. |
| CellChecks.KnownKeepsOccurrences | AIRadio/isrenb/src/enb_cfg_parser.cc:1939-1952 | Pruning keeps every occurrence of a configured cell and no other entry. |
| CellChecks.KnownInOrder | AIRadio/isrenb/src/enb_cfg_parser.cc:1939-1952 | Pruning goes entry by entry, so the order of what is kept stays. |
| CellChecks.FindCell | AIRadio/isrenb/src/enb_cfg_parser.cc:1940-1942 | The search finds the first cell with the identity, and fails if and only if none has it. |
| CellChecks.PruneScells | AIRadio/isrenb/src/enb_cfg_parser.cc:1939-1952 | The erase-while-iterating loop ends, fails if and only if the cell lists itself, and otherwise leaves the list filtered, in order, to configured cells. |
| CellChecks.DeriveFrequencies | AIRadio/isrenb/src/enb_cfg_parser.cc:1916-1937 | Fails if and only if a frequency is neither given nor found for its channel; the uplink channel is filled in only where nothing else gives the uplink frequency. |
| CellChecks.DerivedFrequencies | AIRadio/isrenb/src/enb_cfg_parser.cc:1916-1937 | Case by case: a given frequency is used as it is; a missing one comes from its channel number, and a missing uplink channel number from the downlink one; when a cell is refused. |
| CellChecks.DeriveCell | AIRadio/isrenb/src/enb_cfg_parser.cc:1916-1952 | One turn of the loop over the cells: frequencies, then the scell list. |
| CellChecks.CellList.SetDerivedArgs | AIRadio/isrenb/src/enb_cfg_parser.cc:1904-1952 | The loop over all cells succeeds if and only if every cell has or gets both frequencies and does not list itself; then each list is pruned against the original cells, missing uplink channels are filled in, and the PHY gets all cells in order. |
| RbgBitmap.ReverseMovesBit | AIRadio/lib/examples/pdsch_enodeb.c:552-559 | Bit i of the word goes to bit 31-i. |
| RbgBitmap.ReverseTwice | AIRadio/lib/examples/pdsch_enodeb.c:552-559 | Reversal is its own inverse. |
| RbgBitmap.AlignedBit | AIRadio/lib/examples/pdsch_enodeb.c:570 | Reversal and the right shift together move bit nb-1-j to bit j and leave nothing above. |
| RbgBitmap.RunStaysInRange | AIRadio/lib/examples/pdsch_enodeb.c:731-750 | After any keys and refusals origin and size each stay within the number of groups. |
| RbgBitmap.HeldKey | AIRadio/lib/examples/pdsch_enodeb.c:731-750 | Where holding each key for any number of turns takes a selection, in closed form. |
| RbgBitmap.KeysUndo | AIRadio/lib/examples/pdsch_enodeb.c:731-822 | Left undoes a Right that moved, Right a Left, Down an Up that grew, and a refused turn a Down. |
| RbgBitmap.TurnFitsIffSafe | AIRadio/lib/examples/pdsch_enodeb.c:731-822 | From a selection that ends with the last group or before, one turn keeps it so if and only if it is neither growing at the end away from the first group nor falling back to a size too large for the origin. |
| RbgBitmap.RunFitsIffSafe | AIRadio/lib/examples/pdsch_enodeb.c:731-822 | A run stays inside all the way if and only if every turn is safe where it is taken. |
| RbgBitmap.GrowingReachesPast | AIRadio/lib/examples/pdsch_enodeb.c:741-744 | Shrinking, moving right and growing again reaches past the last of four groups. |
| RbgBitmap.RefusalReachesPast | AIRadio/lib/examples/pdsch_enodeb.c:817-821 | Shrinking, moving right and a refused allocation does so without growing. |
| RbgBitmap.OnesCount | AIRadio/lib/examples/pdsch_enodeb.c:561-571 | After any keys the bitmap has min(num, nb-orig) bits set. |
| RbgBitmap.PrbControl.UpdateControl | AIRadio/lib/examples/pdsch_enodeb.c:731-822 | One turn of the control loop, key and fall-back, takes the selection where the run model does. |
| RbgBitmap.PrbControl.PrbsetToBitmask | AIRadio/lib/examples/pdsch_enodeb.c:561-571 | Bit j is set if and only if group nb-1-j is selected, so group 0 is the most significant bit, as in section 7.1.6.1 of 3GPP TS 36.213. |
| NetFraming.PacketBytes | AIRadio/lib/examples/pdsch_enodeb.c:845-848 | The smallest number of bytes that holds the transport block, and one byte for none. |
| NetFraming.CutConserves | AIRadio/lib/examples/pdsch_enodeb.c:852-865 | Cutting loses nothing, every packet is full, and less than a packet is left. |
| NetFraming.CutInInstalments | AIRadio/lib/examples/pdsch_enodeb.c:849-869 | Cutting in two instalments, the second behind what the first kept, is cutting at once. |
| NetFraming.RunConserves | AIRadio/lib/examples/pdsch_enodeb.c:835-877 | Over any run of reads, with any packet sizes, packets followed by kept bytes are the bytes read. |
| NetFraming.ChunkingIsIrrelevant | AIRadio/lib/examples/pdsch_enodeb.c:835-877 | With a constant packet size the outcome does not depend on how the stream arrives. |
| NetFraming.DeliveredWhole | AIRadio/lib/examples/pdsch_enodeb.c:855-860 | A packet reaches the encoder whole if and only if in MBSFN mode, or of even size with two equal halves. |
| NetFraming.DeliveredBytes | AIRadio/lib/examples/pdsch_enodeb.c:855-860 | Byte by byte: two blocks are both the first half of the packet, rounded down; in MBSFN mode the one block is all of it. |
| NetFraming.OddPacketIsTruncated | AIRadio/lib/examples/pdsch_enodeb.c:858-860 | A two-block packet of odd size loses a byte. |
| NetFraming.Memcpy | AIRadio/lib/examples/pdsch_enodeb.c:866-869 | Copying inside one array, allowed only for disjoint ranges. |
| NetFraming.NetThread.SendPackets | AIRadio/lib/examples/pdsch_enodeb.c:851-865 | The inner loop ends with less than a packet kept and sends exactly the packets of the specification. |
| NetFraming.NetThread.Compact | AIRadio/lib/examples/pdsch_enodeb.c:866-869 | What is left moves to the front; its ranges never overlap. |
| NetFraming.NetThread.Receive | AIRadio/lib/examples/pdsch_enodeb.c:842-869 | A read keeps the account of the run; space always remains if packets fit the buffer. |
| NetFraming.NetThread.ReceiveNothing | AIRadio/lib/examples/pdsch_enodeb.c:870-871 | A read of no bytes forgets what was kept and starts a new run. |

## Left out

- Radio, OFDM, channel estimation and PRACH detection: the opportunity test is any fixed predicate on the TTI, samples are numbers that can be added, and the decoder is modelled only where it writes acknowledgement values.
- Milenage, K_ASME derivation and OPc computation are arbitrary functions of their arguments; random challenges are arguments.
- The channel emulator in `phy_common::worker_end`, which may change the samples just before they are sent.
- Prach.PrachWorker.constructor: requires a window of at least one subframe, as any configured preamble has.
- Prach.PrachWorker.NewTti: one call is one step; the consumer thread's steps happen between calls, not inside one. The receive thread and the consumer share only the pool and the queue, both of which lock.
- Prach.PrachWorker.Examine: a detector error, after which the consumer thread gives the buffer back and ends (`prach_worker.cc` 193-198), is not told apart from a detection; a run in which the detector takes no further turn is among those of PrachRuns.Interleave.
- PrachRuns.SourceSizesFit: durations are computed in whole samples where the source rounds a `float` up; none of them is near a whole millisecond.
- RbgBitmap.PrbControl.constructor: takes the number of groups, 1 to 32, as an argument; for no group the source shifts a word by its whole width, which C leaves undefined.
- NetFraming.NetThread.Receive: a negative read ends the program and waiting for the transmitter is not modelled; the packet is copied at once.
- Hss.HssServer.ReadDbFile: opening the file and its failures are not modelled; nor are they in Hss.HssServer.WriteDbFile.
- UserDbText.ScanHex: where a text does not have two hexadecimal digits in the place of a byte, the byte is arbitrary, although `sscanf` would still take a single digit or skip a blank.
- UserDb.FieldsRoundTrip: uninitialised memory left by malformed hexadecimal text, and the OP of a user whose OPc was given, are arbitrary; `strtoull`, `strtol` and `inet_pton` are modelled after the C and POSIX standards.
- PhyUeDb.UeDb.FillUciCfg: the CQI, PMI, RI and scheduling request fields that are filled behind the gate are left out.
- PhyUeDb.UeDb.SendUciData: reports of CQI, PMI and RI, the scheduling request notice and the stored last RI are left out; the last transport block table of the uplink is a plain store and is left out too.
- UeDl.AnswersComeBack: both ends have the same settings and the same view of whether a CSI report goes along; the rule by which a CSI report is dropped, and the numbers of acknowledgement bits handed to the encoder, are left out. Nothing is said about a UE that missed a transmission.
- UeDl.AllSpatialBundling: the conjunction of bits is a test for a negative answer; answers are 0 or 1.
- Time division duplex: the acknowledgement entries hold one subframe, as the source hard-codes for FDD.
- The errors for a missing stack or an empty eNB cell list, and any eNB cell index beyond that list.
- Slots of the UE database and the grant lists are values inside the map or array the class updates in place, so aliasing between them is not modelled; the source has none.
- Counters are unbounded where the source has 32 bits and no test promises wrap-around: TTIs, counts of samples, and numbers of cells.
- CellChecks.CheckNrCells: the bands of an ARFCN are an argument, and parsing of the configuration file is left out.
- CellChecks.CellList.SetDerivedArgs: the band tables are arbitrary functions of the channel number and frequencies are reals; the other fields copied to the PHY, the TAC of measurement cells and the warning about equal PSS are left out.
- MBSFN subframe tables, NR carrier configuration, metrics, GUI, logging, `stop()` sequences, and the S1AP, GTP-C and GTP-U handlers of the core network.

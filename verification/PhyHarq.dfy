/** HARQ feedback of one UE and one TTI position, from the moment the position is cleared to the
    moment decoded control information is handed to the stack. */
module PhyHarq {
  import opened PhyUe
  import opened PhyUeUci
  import opened PhyUeRuns
  import opened UeDl

  // ---------- which calls register something ----------

  /** A call registering pending acknowledgements of this UE at this TTI position. */
  predicate Schedules(call: Call, rnti: nat, pos: nat) {
    call.SetAck? && call.dci.rnti == rnti && Pos(call.tti) == pos
  }

  /** A call that may come between clearing the position and reading it out. */
  predicate Quiet(call: Call, rnti: nat, pos: nat) {
    && !(call.AddModRnti? && call.rnti == rnti)
    && call != RemRnti(rnti)
    && !(call.ClearAcks? && Pos(call.tti) == pos)
    && !(call.SendUciData? && call.rnti == rnti && Pos(call.tti) == pos)
  }

  predicate AllQuiet(calls: seq<Call>, rnti: nat, pos: nat) {
    forall i :: 0 <= i < |calls| ==> Quiet(calls[i], rnti, pos)
  }

  /** No eNB cell is scheduled twice. */
  predicate OncePerCell(calls: seq<Call>, rnti: nat, pos: nat) {
    forall i, j :: 0 <= i < j < |calls| && Schedules(calls[i], rnti, pos) && Schedules(calls[j], rnti, pos) ==>
      calls[i].enbCc != calls[j].enbCc
  }

  /** Call m was accepted: it found its eNB cell active in the UE's slot s. */
  ghost predicate Accepted(env: Env, db: Db, calls: seq<Call>, rnti: nat, pos: nat, m: nat, s: nat) {
    && m < |calls| && s < MAX_CARRIERS
    && Schedules(calls[m], rnti, pos)
    && rnti in RunFrom(env, db, calls[..m])
    && Lookup(RunFrom(env, db, calls[..m])[rnti].cells, calls[m].enbCc) == s
  }

  // ---------- what one call does to the pending acknowledgements ----------

  predicate SameCells(u: Ue, v: Ue) {
    forall i :: 0 <= i < MAX_CARRIERS ==> u.cells[i].enbCc == v.cells[i].enbCc
  }

  lemma QuietStep(env: Env, db: Db, call: Call, rnti: nat, pos: nat, s: nat)
    requires rnti in db && pos < TTIMOD_SZ && s < MAX_CARRIERS && Quiet(call, rnti, pos)
    ensures rnti in Step(env, db, call) && SameCells(Step(env, db, call)[rnti], db[rnti])
    ensures Step(env, db, call)[rnti].pdschAck[pos].cc[s]
         == if Schedules(call, rnti, pos) && Lookup(db[rnti].cells, call.enbCc) == s
            then Registered(db[rnti].pdschAck[pos].cc[s], s, call.dci)
            else db[rnti].pdschAck[pos].cc[s]
  {
    hide AddMod, Registered, GetAck;
  }

  lemma {:induction false} QuietRun(env: Env, db: Db, calls: seq<Call>, rnti: nat, pos: nat)
    requires rnti in db && pos < TTIMOD_SZ && AllQuiet(calls, rnti, pos)
    ensures rnti in RunFrom(env, db, calls) && SameCells(RunFrom(env, db, calls)[rnti], db[rnti])
    decreases |calls|
  {
    if calls != [] {
      var front := calls[..|calls| - 1];
      QuietRun(env, db, front, rnti, pos);
      QuietStep(env, RunFrom(env, db, front), calls[|calls| - 1], rnti, pos, 0);
      hide Step;
    }
  }

  /** The entry of slot s holds what an accepted call registered, or nothing if none was accepted. */
  ghost predicate Booked(env: Env, db: Db, calls: seq<Call>, rnti: nat, pos: nat, s: nat, cc: AckCc) {
    || (exists m: nat :: Accepted(env, db, calls, rnti, pos, m, s) && cc == Registered(NO_ACK, s, calls[m].dci))
    || ((forall m: nat :: !Accepted(env, db, calls, rnti, pos, m, s)) && cc == NO_ACK)
  }

  lemma AcceptedPrefix(env: Env, db: Db, calls: seq<Call>, call: Call, rnti: nat, pos: nat, m: nat, s: nat)
    requires m < |calls|
    ensures Accepted(env, db, calls + [call], rnti, pos, m, s) == Accepted(env, db, calls, rnti, pos, m, s)
  {
    assert (calls + [call])[..m] == calls[..m];
  }

  /** Two accepted calls for the same slot, or for the same eNB cell, are the same call. */
  lemma AcceptedOnce(env: Env, db: Db, calls: seq<Call>, rnti: nat, pos: nat, m: nat, s: nat, m': nat, s': nat)
    requires rnti in db && pos < TTIMOD_SZ && AllQuiet(calls, rnti, pos) && OncePerCell(calls, rnti, pos)
    requires Accepted(env, db, calls, rnti, pos, m, s) && Accepted(env, db, calls, rnti, pos, m', s')
    ensures calls[m].enbCc == db[rnti].cells[s].enbCc
    ensures s == s' <==> m == m'
    ensures s == s' <==> calls[m].enbCc == calls[m'].enbCc
  {
    QuietRun(env, db, calls[..m], rnti, pos);
    QuietRun(env, db, calls[..m'], rnti, pos);
  }

  /** A call that is not accepted for the slot leaves its booking as it was. */
  lemma BookedKept(env: Env, db: Db, calls: seq<Call>, call: Call, rnti: nat, pos: nat, s: nat, cc: AckCc)
    requires Booked(env, db, calls, rnti, pos, s, cc)
    requires !Accepted(env, db, calls + [call], rnti, pos, |calls|, s)
    ensures Booked(env, db, calls + [call], rnti, pos, s, cc)
  {
    var all := calls + [call];
    forall m: nat
      ensures Accepted(env, db, all, rnti, pos, m, s) == Accepted(env, db, calls, rnti, pos, m, s)
    {
      if m < |calls| {
        AcceptedPrefix(env, db, calls, call, rnti, pos, m, s);
      }
    }
    hide Accepted, Registered;
    if m: nat :| Accepted(env, db, calls, rnti, pos, m, s) && cc == Registered(NO_ACK, s, calls[m].dci) {
      assert Accepted(env, db, all, rnti, pos, m, s);
      assert m < |calls| by {
        InRange(env, db, calls, rnti, pos, m, s);
      }
    }
  }

  lemma InRange(env: Env, db: Db, calls: seq<Call>, rnti: nat, pos: nat, m: nat, s: nat)
    requires Accepted(env, db, calls, rnti, pos, m, s)
    ensures m < |calls| && calls[m].SetAck?
  {
  }

  /** Before an accepted call the slot was empty: no other call for it can have been accepted. */
  lemma BookedFirst(env: Env, db: Db, calls: seq<Call>, call: Call, rnti: nat, pos: nat, s: nat, cc: AckCc)
    requires rnti in db && pos < TTIMOD_SZ
    requires AllQuiet(calls + [call], rnti, pos) && OncePerCell(calls + [call], rnti, pos)
    requires Booked(env, db, calls, rnti, pos, s, cc)
    requires Accepted(env, db, calls + [call], rnti, pos, |calls|, s)
    ensures cc == NO_ACK
  {
    if m: nat :| Accepted(env, db, calls, rnti, pos, m, s) && cc == Registered(NO_ACK, s, calls[m].dci) {
      AcceptedPrefix(env, db, calls, call, rnti, pos, m, s);
      AcceptedOnce(env, db, calls + [call], rnti, pos, m, s, |calls|, s);
      assert false;
    }
  }

  lemma {:induction false} LedgerIsExact(env: Env, db: Db, calls: seq<Call>, rnti: nat, pos: nat, s: nat)
    requires rnti in db && pos < TTIMOD_SZ && s < MAX_CARRIERS
    requires db[rnti].pdschAck[pos].cc[s] == NO_ACK
    requires AllQuiet(calls, rnti, pos) && OncePerCell(calls, rnti, pos)
    ensures rnti in RunFrom(env, db, calls)
    ensures Booked(env, db, calls, rnti, pos, s, RunFrom(env, db, calls)[rnti].pdschAck[pos].cc[s])
    decreases |calls|
  {
    if calls != [] {
      var n := |calls| - 1;
      var front, call := calls[..n], calls[n];
      assert calls == front + [call];
      LedgerIsExact(env, db, front, rnti, pos, s);
      var mid := RunFrom(env, db, front);
      QuietStep(env, mid, call, rnti, pos, s);
      var cc := mid[rnti].pdschAck[pos].cc[s];
      hide Step, Registered, Booked;
      if Accepted(env, db, calls, rnti, pos, n, s) {
        BookedFirst(env, db, front, call, rnti, pos, s, cc);
        BookedByLast(env, db, calls, rnti, pos, s);
      } else {
        BookedKept(env, db, front, call, rnti, pos, s, cc);
      }
    }
  }

  lemma BookedByLast(env: Env, db: Db, calls: seq<Call>, rnti: nat, pos: nat, s: nat)
    requires calls != [] && Accepted(env, db, calls, rnti, pos, |calls| - 1, s)
    ensures Booked(env, db, calls, rnti, pos, s, Registered(NO_ACK, s, calls[|calls| - 1].dci))
  {
  }

  // ---------- the reports ----------

  function Matches(r: Report, enbCc: nat, tb: nat): nat {
    if r.enbCc == enbCc && r.tb == tb then 1 else 0
  }

  /** How many reports are about a codeword of an eNB cell. */
  function Count(reports: seq<Report>, enbCc: nat, tb: nat): nat {
    if reports == [] then 0 else Matches(reports[0], enbCc, tb) + Count(reports[1..], enbCc, tb)
  }

  lemma {:induction false} CountAppend(a: seq<Report>, b: seq<Report>, enbCc: nat, tb: nat)
    ensures Count(a + b, enbCc, tb) == Count(a, enbCc, tb) + Count(b, enbCc, tb)
  {
    if a == [] {
      assert a + b == b;
    } else {
      CountAppend(a[1..], b, enbCc, tb);
      assert (a + b)[1..] == a[1..] + b;
    }
  }

  /** The slot's entry leads to a report about the codeword. */
  predicate Reported(c: CellInfo, cc: AckCc, enbCc: nat, tb: nat) {
    c.enbCc == enbCc && tb < MAX_CODEWORDS && cc.count > 0 && Sent(cc, tb)
  }

  lemma CountSlot(c: CellInfo, cc: AckCc, enbCc: nat, tb: nat)
    ensures Count(SlotReports(c, cc), enbCc, tb) == if Reported(c, cc, enbCc, tb) then 1 else 0
  {
    CountAppend(TbReport(c, cc, 0), TbReport(c, cc, 1), enbCc, tb);
  }

  /** At most one slot leads to a report about a codeword of a cell. */
  ghost predicate OneSlotPerCell(cells: Slots, ack: PdschAck) {
    forall i, j, enbCc, tb |
      && 0 <= i < MAX_CARRIERS && 0 <= j < MAX_CARRIERS
      && Reported(cells[i], ack.cc[i], enbCc, tb) && Reported(cells[j], ack.cc[j], enbCc, tb) :: i == j
  }

  ghost predicate SomeSlotReports(cells: Slots, ack: PdschAck, n: nat, enbCc: nat, tb: nat)
    requires n <= MAX_CARRIERS
  {
    exists s :: 0 <= s < n && Reported(cells[s], ack.cc[s], enbCc, tb)
  }

  lemma SomeSlotStep(cells: Slots, ack: PdschAck, n: nat, enbCc: nat, tb: nat)
    requires n < MAX_CARRIERS && OneSlotPerCell(cells, ack)
    ensures SomeSlotReports(cells, ack, n + 1, enbCc, tb)
       <==> SomeSlotReports(cells, ack, n, enbCc, tb) || Reported(cells[n], ack.cc[n], enbCc, tb)
    ensures !(SomeSlotReports(cells, ack, n, enbCc, tb) && Reported(cells[n], ack.cc[n], enbCc, tb))
  {
    hide Reported;
  }

  lemma {:induction false} CountBelow(cells: Slots, ack: PdschAck, n: nat, enbCc: nat, tb: nat)
    requires n <= MAX_CARRIERS && OneSlotPerCell(cells, ack)
    ensures Count(ReportsBelow(cells, ack, n), enbCc, tb)
         == if SomeSlotReports(cells, ack, n, enbCc, tb) then 1 else 0
  {
    hide SomeSlotReports, Reported, Count, SlotReports, OneSlotPerCell;
    if n == 0 {
      NoneBelow(cells, ack, enbCc, tb);
    } else {
      CountBelow(cells, ack, n - 1, enbCc, tb);
      CountAppend(ReportsBelow(cells, ack, n - 1), SlotReports(cells[n - 1], ack.cc[n - 1]), enbCc, tb);
      CountSlot(cells[n - 1], ack.cc[n - 1], enbCc, tb);
      SomeSlotStep(cells, ack, n - 1, enbCc, tb);
    }
  }

  lemma NoneBelow(cells: Slots, ack: PdschAck, enbCc: nat, tb: nat)
    ensures Count([], enbCc, tb) == 0 && !SomeSlotReports(cells, ack, 0, enbCc, tb)
  {
  }

  /** Decoding changes the value of no codeword to or from "nothing sent". */
  lemma DecodingKeepsSent(ack: PdschAck, uci: Uci, s: nat, c: CellInfo, enbCc: nat, tb: nat)
    requires s < MAX_CARRIERS
    ensures Reported(c, GetAck(ack, uci).cc[s], enbCc, tb) == Reported(c, ack.cc[s], enbCc, tb)
  {
    hide DecodeKind, DecodedBit, Covered;
  }

  // ---------- conservation ----------

  /** An accepted call registered this codeword of this eNB cell. */
  ghost predicate Owed(env: Env, db: Db, calls: seq<Call>, rnti: nat, pos: nat, enbCc: nat, tb: nat) {
    tb < MAX_CODEWORDS && exists m: nat, s: nat :: OwedBy(env, db, calls, rnti, pos, enbCc, tb, m, s)
  }

  ghost predicate OwedBy(env: Env, db: Db, calls: seq<Call>, rnti: nat, pos: nat, enbCc: nat, tb: nat, m: nat, s: nat)
    requires tb < MAX_CODEWORDS
  {
    Accepted(env, db, calls, rnti, pos, m, s) && calls[m].enbCc == enbCc && Enabled(calls[m].dci, tb)
  }

  /** An entry leads to a report exactly when an accepted call for that slot owes it. */
  lemma EntryIsOwed(env: Env, db: Db, calls: seq<Call>, rnti: nat, pos: nat, s: nat, enbCc: nat, tb: nat)
    requires rnti in db && pos < TTIMOD_SZ && s < MAX_CARRIERS && tb < MAX_CODEWORDS
    requires db[rnti].pdschAck[pos].cc[s] == NO_ACK
    requires AllQuiet(calls, rnti, pos) && OncePerCell(calls, rnti, pos)
    ensures rnti in RunFrom(env, db, calls)
    ensures var u := RunFrom(env, db, calls)[rnti];
            (Reported(u.cells[s], u.pdschAck[pos].cc[s], enbCc, tb)
             <==> exists m: nat :: OwedBy(env, db, calls, rnti, pos, enbCc, tb, m, s))
  {
    LedgerIsExact(env, db, calls, rnti, pos, s);
    QuietRun(env, db, calls, rnti, pos);
    var u := RunFrom(env, db, calls)[rnti];
    var cc := u.pdschAck[pos].cc[s];
    hide Registered, Reported, Enabled, RunFrom, OncePerCell, AllQuiet;
    if m: nat :| Accepted(env, db, calls, rnti, pos, m, s) && cc == Registered(NO_ACK, s, calls[m].dci) {
      AcceptedOnce(env, db, calls, rnti, pos, m, s, m, s);
      RegisteredIsReported(u.cells[s], s, calls[m].dci, enbCc, tb);
      assert Reported(u.cells[s], cc, enbCc, tb) <==> OwedBy(env, db, calls, rnti, pos, enbCc, tb, m, s);
      forall m': nat | OwedBy(env, db, calls, rnti, pos, enbCc, tb, m', s)
        ensures m' == m
      {
        AcceptedOnce(env, db, calls, rnti, pos, m, s, m', s);
      }
    } else {
      EmptyIsSilent(u.cells[s], enbCc, tb);
    }
  }

  lemma RegisteredIsReported(c: CellInfo, s: nat, dci: Dci, enbCc: nat, tb: nat)
    requires tb < MAX_CODEWORDS
    ensures Reported(c, Registered(NO_ACK, s, dci), enbCc, tb) <==> c.enbCc == enbCc && Enabled(dci, tb)
  {
  }

  lemma EmptyIsSilent(c: CellInfo, enbCc: nat, tb: nat)
    ensures !Reported(c, NO_ACK, enbCc, tb)
  {
  }

  /** The position as it is once cleared. */
  lemma ClearedIsEmpty(env: Env, db: Db, tti: nat, rnti: nat, s: nat)
    requires rnti in db && s < MAX_CARRIERS
    ensures rnti in Step(env, db, ClearAcks(tti))
    ensures Step(env, db, ClearAcks(tti))[rnti].pdschAck[Pos(tti)].cc[s] == NO_ACK
  {
  }

  /** Clear a position, let anything happen that schedules each eNB cell at most once and does not
      reconfigure the UE, then hand over decoded UCI: the stack gets exactly one report for every
      codeword that was registered, and none for any other. */
  lemma FeedbackConserved(env: Env, db: Db, cleared: nat, calls: seq<Call>, tti: nat, rnti: nat, via: nat, uci: Uci,
                          enbCc: nat, tb: nat)
    requires rnti in db && Pos(cleared) == Pos(tti) && tb < MAX_CODEWORDS
    requires AllQuiet(calls, rnti, Pos(tti)) && OncePerCell(calls, rnti, Pos(tti))
    ensures var start := Step(env, db, ClearAcks(cleared));
            var end := RunFrom(env, start, calls);
            var due := if Owed(env, start, calls, rnti, Pos(tti), enbCc, tb) then 1 else 0;
            HasActiveCell(end, rnti, via) ==> Count(SendUci(end, tti, rnti, via, uci).reports, enbCc, tb) == due
  {
    var start := Step(env, db, ClearAcks(cleared));
    var end := RunFrom(env, start, calls);
    if HasActiveCell(end, rnti, via) {
      var u := end[rnti];
      var ack := GetAck(u.pdschAck[Pos(tti)], uci);
      assert SendUci(end, tti, rnti, via, uci).reports == ReportsBelow(u.cells, ack, MAX_CARRIERS);
      SlotsAreSeparate(env, db, cleared, calls, rnti, uci);
      CountBelow(u.cells, ack, MAX_CARRIERS, enbCc, tb);
      ReportsAreOwed(env, db, cleared, calls, rnti, uci, enbCc, tb);
      hide *;
    }
  }

  /** Some slot reports a codeword of a cell exactly when an accepted call owes it. */
  lemma ReportsAreOwed(env: Env, db: Db, cleared: nat, calls: seq<Call>, rnti: nat, uci: Uci, enbCc: nat, tb: nat)
    requires rnti in db && tb < MAX_CODEWORDS
    requires AllQuiet(calls, rnti, Pos(cleared)) && OncePerCell(calls, rnti, Pos(cleared))
    ensures var start := Step(env, db, ClearAcks(cleared));
            var end := RunFrom(env, start, calls);
            && rnti in end
            && (SomeSlotReports(end[rnti].cells, GetAck(end[rnti].pdschAck[Pos(cleared)], uci), MAX_CARRIERS, enbCc, tb)
                <==> Owed(env, start, calls, rnti, Pos(cleared), enbCc, tb))
  {
    var start := Step(env, db, ClearAcks(cleared));
    ClearedIsEmpty(env, db, cleared, rnti, 0);
    QuietRun(env, start, calls, rnti, Pos(cleared));
    var u := RunFrom(env, start, calls)[rnti];
    var before := u.pdschAck[Pos(cleared)];
    var ack := GetAck(before, uci);
    hide Step, RunFrom, Reported, GetAck, OncePerCell, AllQuiet;
    forall s | 0 <= s < MAX_CARRIERS
      ensures Reported(u.cells[s], ack.cc[s], enbCc, tb)
         <==> exists m: nat :: OwedBy(env, start, calls, rnti, Pos(cleared), enbCc, tb, m, s)
    {
      ClearedIsEmpty(env, db, cleared, rnti, s);
      DecodingKeepsSent(before, uci, s, u.cells[s], enbCc, tb);
      EntryIsOwed(env, start, calls, rnti, Pos(cleared), s, enbCc, tb);
    }
    if m: nat, s: nat :| OwedBy(env, start, calls, rnti, Pos(cleared), enbCc, tb, m, s) {
      assert Reported(u.cells[s], ack.cc[s], enbCc, tb);
    }
  }

  /** No two slots can report about the same codeword of a cell. */
  lemma SlotsAreSeparate(env: Env, db: Db, cleared: nat, calls: seq<Call>, rnti: nat, uci: Uci)
    requires rnti in db
    requires AllQuiet(calls, rnti, Pos(cleared)) && OncePerCell(calls, rnti, Pos(cleared))
    ensures var start := Step(env, db, ClearAcks(cleared));
            var end := RunFrom(env, start, calls);
            rnti in end && OneSlotPerCell(end[rnti].cells, GetAck(end[rnti].pdschAck[Pos(cleared)], uci))
  {
    var pos := Pos(cleared);
    var start := Step(env, db, ClearAcks(cleared));
    ClearedIsEmpty(env, db, cleared, rnti, 0);
    QuietRun(env, start, calls, rnti, pos);
    var u := RunFrom(env, start, calls)[rnti];
    var ack := GetAck(u.pdschAck[pos], uci);
    hide Step, RunFrom, Reported, GetAck, OncePerCell, AllQuiet;
    forall i, j, enbCc, tb |
      && 0 <= i < MAX_CARRIERS && 0 <= j < MAX_CARRIERS
      && Reported(u.cells[i], ack.cc[i], enbCc, tb) && Reported(u.cells[j], ack.cc[j], enbCc, tb)
      ensures i == j
    {
      var m := OwingCall(env, db, cleared, calls, rnti, uci, i, enbCc, tb);
      var m' := OwingCall(env, db, cleared, calls, rnti, uci, j, enbCc, tb);
      AcceptedOnce(env, start, calls, rnti, pos, m, i, m', j);
    }
  }

  /** The accepted call behind a report. */
  lemma OwingCall(env: Env, db: Db, cleared: nat, calls: seq<Call>, rnti: nat, uci: Uci, s: nat, enbCc: nat, tb: nat)
    returns (m: nat)
    requires rnti in db && s < MAX_CARRIERS
    requires AllQuiet(calls, rnti, Pos(cleared)) && OncePerCell(calls, rnti, Pos(cleared))
    requires var end := RunFrom(env, Step(env, db, ClearAcks(cleared)), calls);
             rnti in end && Reported(end[rnti].cells[s], GetAck(end[rnti].pdschAck[Pos(cleared)], uci).cc[s], enbCc, tb)
    ensures tb < MAX_CODEWORDS
    ensures OwedBy(env, Step(env, db, ClearAcks(cleared)), calls, rnti, Pos(cleared), enbCc, tb, m, s)
  {
    var start := Step(env, db, ClearAcks(cleared));
    var u := RunFrom(env, start, calls)[rnti];
    ClearedIsEmpty(env, db, cleared, rnti, s);
    assert tb < MAX_CODEWORDS;
    DecodingKeepsSent(u.pdschAck[Pos(cleared)], uci, s, u.cells[s], enbCc, tb);
    EntryIsOwed(env, start, calls, rnti, Pos(cleared), s, enbCc, tb);
    m :| OwedBy(env, start, calls, rnti, Pos(cleared), enbCc, tb, m, s);
  }

  /** Along the way the count k of every entry is the number of its codewords that will be reported. */
  lemma CountFieldIsExact(env: Env, db: Db, cleared: nat, calls: seq<Call>, rnti: nat, s: nat)
    requires rnti in db && s < MAX_CARRIERS
    requires AllQuiet(calls, rnti, Pos(cleared)) && OncePerCell(calls, rnti, Pos(cleared))
    ensures var end := RunFrom(env, Step(env, db, ClearAcks(cleared)), calls);
            && rnti in end
            && var cc := end[rnti].pdschAck[Pos(cleared)].cc[s];
               cc.k == (if Sent(cc, 0) then 1 else 0) + (if Sent(cc, 1) then 1 else 0)
  {
    ClearedIsEmpty(env, db, cleared, rnti, s);
    LedgerIsExact(env, Step(env, db, ClearAcks(cleared)), calls, rnti, Pos(cleared), s);
    hide Step, RunFrom;
  }

  // ---------- the values reported ----------

  /** A registered codeword is reported with its decoded bit where the decoder covers it; anywhere
      else, in particular on carriers the feedback mode leaves out, it is reported as acknowledged. */
  lemma ReportedValue(ack: PdschAck, uci: Uci, c: CellInfo, s: nat, tb: nat)
    requires s < MAX_CARRIERS && tb < MAX_CODEWORDS
    requires ack.cc[s].count > 0 && ack.cc[s].present && ack.cc[s].value[tb] == 1
    ensures TbReport(c, GetAck(ack, uci).cc[s], tb)
         == [Report(c.enbCc, tb, Covered(ack, uci, s) && tb < NofTb(ack) ==> DecodedBit(ack, uci, s, tb) == 1)]
  {
    hide DecodeKind;
  }

  /** In normal feedback mode that is every codeword outside the PCell. */
  lemma NormalModeAcksScells(ack: PdschAck, uci: Uci, c: CellInfo, s: nat, tb: nat)
    requires 1 <= s < MAX_CARRIERS && tb < MAX_CODEWORDS && ack.feedback == Normal
    requires ack.cc[s].count > 0 && ack.cc[s].present && ack.cc[s].value[tb] == 1
    ensures TbReport(c, GetAck(ack, uci).cc[s], tb) == [Report(c.enbCc, tb, true)]
  {
    ReportedValue(ack, uci, c, s, tb);
  }

  /** A position keeps what it was cleared with: the number of active slots and the modes. */
  predicate SameModes(a: PdschAck, b: PdschAck) {
    a.nofCc == b.nofCc && a.tm == b.tm && a.feedback == b.feedback
  }

  lemma {:induction false} ModesKept(env: Env, db: Db, calls: seq<Call>, rnti: nat, pos: nat)
    requires rnti in db && pos < TTIMOD_SZ && AllQuiet(calls, rnti, pos)
    ensures rnti in RunFrom(env, db, calls)
    ensures SameModes(RunFrom(env, db, calls)[rnti].pdschAck[pos], db[rnti].pdschAck[pos])
    decreases |calls|
  {
    if calls != [] {
      var front := calls[..|calls| - 1];
      ModesKept(env, db, front, rnti, pos);
      ModesKeptByStep(env, RunFrom(env, db, front), calls[|calls| - 1], rnti, pos);
      hide Step;
    }
  }

  lemma ModesKeptByStep(env: Env, db: Db, call: Call, rnti: nat, pos: nat)
    requires rnti in db && pos < TTIMOD_SZ && Quiet(call, rnti, pos)
    ensures rnti in Step(env, db, call)
    ensures SameModes(Step(env, db, call)[rnti].pdschAck[pos], db[rnti].pdschAck[pos])
  {
    hide AddMod, Registered, GetAck;
  }

  // ---------- the PUSCH mark ----------

  /** Call m asked to fill the control information of this UE and TTI position and got past the gate. */
  ghost predicate LetThrough(env: Env, db: Db, calls: seq<Call>, rnti: nat, pos: nat, m: nat) {
    && m < |calls| && calls[m].FillUciCfg? && calls[m].rnti == rnti && Pos(calls[m].tti) == pos
    && UciGate(RunFrom(env, db, calls[..m]), env.nofCells, calls[m].tti, rnti, calls[m].enbCc, calls[m].isPusch) == Here
  }

  /** Only such a call moves the mark that the decoding of channel selection goes by. */
  lemma MarkStep(env: Env, db: Db, call: Call, rnti: nat, pos: nat)
    requires rnti in db && pos < TTIMOD_SZ && Quiet(call, rnti, pos)
    ensures rnti in Step(env, db, call)
    ensures Step(env, db, call)[rnti].pdschAck[pos].puschAvailable
         == if call.FillUciCfg? && call.rnti == rnti && Pos(call.tti) == pos
               && UciGate(db, env.nofCells, call.tti, rnti, call.enbCc, call.isPusch) == Here
            then call.isPusch else db[rnti].pdschAck[pos].puschAvailable
  {
    hide AddMod, Registered, GetAck, UciGate;
  }

  /** The mark is that of the last call let through, or the one at the start if there was none. */
  ghost predicate MarkIs(env: Env, db: Db, calls: seq<Call>, rnti: nat, pos: nat, start: bool, mark: bool) {
    || (exists m: nat :: LetThrough(env, db, calls, rnti, pos, m) && mark == calls[m].isPusch
                         && forall j: nat :: m < j ==> !LetThrough(env, db, calls, rnti, pos, j))
    || (mark == start && forall j: nat :: !LetThrough(env, db, calls, rnti, pos, j))
  }

  lemma LetThroughPrefix(env: Env, db: Db, front: seq<Call>, call: Call, rnti: nat, pos: nat)
    ensures forall m: nat :: m < |front| ==>
              LetThrough(env, db, front + [call], rnti, pos, m) == LetThrough(env, db, front, rnti, pos, m)
    ensures forall m: nat :: LetThrough(env, db, front, rnti, pos, m) ==> m < |front|
    ensures forall m: nat :: LetThrough(env, db, front + [call], rnti, pos, m) ==> m <= |front|
  {
    forall m: nat | m < |front|
      ensures LetThrough(env, db, front + [call], rnti, pos, m) == LetThrough(env, db, front, rnti, pos, m)
    {
      hide RunFrom, UciGate;
      assert (front + [call])[..m] == front[..m];
    }
  }

  lemma MarkSnoc(env: Env, db: Db, front: seq<Call>, call: Call, rnti: nat, pos: nat, start: bool, mark: bool)
    requires MarkIs(env, db, front, rnti, pos, start, mark) && call.FillUciCfg?
    ensures MarkIs(env, db, front + [call], rnti, pos, start,
                   if LetThrough(env, db, front + [call], rnti, pos, |front|) then call.isPusch else mark)
  {
    hide LetThrough;
    LetThroughPrefix(env, db, front, call, rnti, pos);
    assert (front + [call])[|front|] == call;
  }

  /** Any other call cannot be let through. */
  lemma MarkSkip(env: Env, db: Db, front: seq<Call>, call: Call, rnti: nat, pos: nat, start: bool, mark: bool)
    requires MarkIs(env, db, front, rnti, pos, start, mark) && !call.FillUciCfg?
    ensures MarkIs(env, db, front + [call], rnti, pos, start, mark)
  {
    assert !LetThrough(env, db, front + [call], rnti, pos, |front|);
    hide LetThrough;
    LetThroughPrefix(env, db, front, call, rnti, pos);
  }

  lemma {:induction false} MarkOfRun(env: Env, db: Db, calls: seq<Call>, rnti: nat, pos: nat)
    requires rnti in db && pos < TTIMOD_SZ && AllQuiet(calls, rnti, pos)
    ensures rnti in RunFrom(env, db, calls)
    ensures MarkIs(env, db, calls, rnti, pos, db[rnti].pdschAck[pos].puschAvailable,
                   RunFrom(env, db, calls)[rnti].pdschAck[pos].puschAvailable)
    decreases |calls|
  {
    hide Step, UciGate, MarkIs;
    if calls == [] {
      NoMarkYet(env, db, rnti, pos);
    } else {
      var front, call := calls[..|calls| - 1], calls[|calls| - 1];
      assert calls == front + [call];
      MarkOfRun(env, db, front, rnti, pos);
      var mid, start := RunFrom(env, db, front), db[rnti].pdschAck[pos].puschAvailable;
      MarkStep(env, mid, call, rnti, pos);
      if call.FillUciCfg? {
        assert calls[..|front|] == front;
        MarkSnoc(env, db, front, call, rnti, pos, start, mid[rnti].pdschAck[pos].puschAvailable);
      } else {
        MarkSkip(env, db, front, call, rnti, pos, start, mid[rnti].pdschAck[pos].puschAvailable);
      }
    }
  }

  lemma NoMarkYet(env: Env, db: Db, rnti: nat, pos: nat)
    requires rnti in db && pos < TTIMOD_SZ
    ensures MarkIs(env, db, [], rnti, pos, db[rnti].pdschAck[pos].puschAvailable,
                   db[rnti].pdschAck[pos].puschAvailable)
  {
  }

  /** Clearing a position removes the mark, so afterwards it says whether the last call let through had a
      PUSCH, and false if none was. With a grant that is always true: the gate lets nothing else through. */
  lemma MarkAfterClearing(env: Env, db: Db, cleared: nat, calls: seq<Call>, rnti: nat)
    requires rnti in db && AllQuiet(calls, rnti, Pos(cleared))
    ensures var start := Step(env, db, ClearAcks(cleared));
            var end := RunFrom(env, start, calls);
            && rnti in end
            && MarkIs(env, start, calls, rnti, Pos(cleared), false, end[rnti].pdschAck[Pos(cleared)].puschAvailable)
  {
    MarkOfRun(env, Step(env, db, ClearAcks(cleared)), calls, rnti, Pos(cleared));
    hide MarkIs;
  }

  /** The decoder looks at this codeword. `pcell` is the PCell configuration and n the number of active
      slots when the position was cleared; the rest is known when the control information arrives:
      whether a PUSCH carries it and whether anything was sent on slots 1 to n-1. Slots are compared
      with their number, so an active slot past n is never looked at. */
  predicate LookedAt(pcell: PhyCfg, n: nat, pusch: bool, scellSent: bool, uci: Uci, s: nat, tb: nat) {
    && tb < (if pcell.dl.tm > 2 then 2 else 1)
    && match pcell.ul.feedback
       case Normal => s == 0
       case ChannelSelection =>
         if n == 1 || (!pusch && !uci.schedulingRequest && uci.csiReport) then s == 0 else s < n
       case Pucch3 => if scellSent then s < n else s == 0
       case NoFeedback => false
  }

  /** What an accepted call registered is still there at the end of a quiet run. */
  lemma OwedEntry(env: Env, db: Db, calls: seq<Call>, rnti: nat, pos: nat, enbCc: nat, tb: nat, m: nat, s: nat)
    requires rnti in db && pos < TTIMOD_SZ && s < MAX_CARRIERS && tb < MAX_CODEWORDS
    requires db[rnti].pdschAck[pos].cc[s] == NO_ACK
    requires AllQuiet(calls, rnti, pos) && OncePerCell(calls, rnti, pos)
    requires OwedBy(env, db, calls, rnti, pos, enbCc, tb, m, s)
    ensures rnti in RunFrom(env, db, calls)
    ensures var u := RunFrom(env, db, calls)[rnti];
            u.cells[s].enbCc == enbCc && u.pdschAck[pos].cc[s] == Registered(NO_ACK, s, calls[m].dci)
  {
    LedgerIsExact(env, db, calls, rnti, pos, s);
    QuietRun(env, db, calls, rnti, pos);
    AcceptedOnce(env, db, calls, rnti, pos, m, s, m, s);
    var cc := RunFrom(env, db, calls)[rnti].pdschAck[pos].cc[s];
    hide Registered, RunFrom, OncePerCell, AllQuiet, Accepted;
    if m': nat :| Accepted(env, db, calls, rnti, pos, m', s) && cc == Registered(NO_ACK, s, calls[m'].dci) {
      AcceptedOnce(env, db, calls, rnti, pos, m, s, m', s);
    }
  }

  /** Field by field: an accepted call leaves its resource, its slot and the value "acknowledged" for each
      codeword it enables, "nothing sent" for each other one. */
  lemma OwedFields(env: Env, db: Db, calls: seq<Call>, rnti: nat, pos: nat, enbCc: nat, tb: nat, m: nat, s: nat)
    requires rnti in db && pos < TTIMOD_SZ && s < MAX_CARRIERS && tb < MAX_CODEWORDS
    requires db[rnti].pdschAck[pos].cc[s] == NO_ACK
    requires AllQuiet(calls, rnti, pos) && OncePerCell(calls, rnti, pos)
    requires OwedBy(env, db, calls, rnti, pos, enbCc, tb, m, s)
    ensures rnti in RunFrom(env, db, calls)
    ensures var cc, dci := RunFrom(env, db, calls)[rnti].pdschAck[pos].cc[s], calls[m].dci;
            && cc.count == 1 && cc.present && cc.grantCc == s && cc.ncce == dci.ncce && cc.tpc == dci.tpc
            && forall t :: 0 <= t < MAX_CODEWORDS ==> cc.value[t] == if Enabled(dci, t) then 1 else 2
  {
    OwedEntry(env, db, calls, rnti, pos, enbCc, tb, m, s);
    hide RunFrom, Accepted, AllQuiet, OncePerCell, Enabled;
  }

  lemma {:induction false} InReports(cells: Slots, ack: PdschAck, n: nat, s: nat, r: Report)
    requires s < n <= MAX_CARRIERS && r in SlotReports(cells[s], ack.cc[s])
    ensures r in ReportsBelow(cells, ack, n)
  {
    if s < n - 1 {
      InReports(cells, ack, n - 1, s, r);
    }
  }

  /** The one report about an owed codeword carries the decoded bit if the decoder looks at it, and says
      acknowledged, whatever was decoded, if not. */
  lemma FeedbackValue(env: Env, db: Db, cleared: nat, calls: seq<Call>, tti: nat, rnti: nat, via: nat, uci: Uci,
                      enbCc: nat, tb: nat, m: nat, s: nat)
    requires rnti in db && Pos(cleared) == Pos(tti) && tb < MAX_CODEWORDS && s < MAX_CARRIERS
    requires AllQuiet(calls, rnti, Pos(tti)) && OncePerCell(calls, rnti, Pos(tti))
    requires OwedBy(env, Step(env, db, ClearAcks(cleared)), calls, rnti, Pos(tti), enbCc, tb, m, s)
    ensures var end := RunFrom(env, Step(env, db, ClearAcks(cleared)), calls);
            && rnti in end
            && (HasActiveCell(end, rnti, via) ==>
                  var ack := end[rnti].pdschAck[Pos(tti)];
                  var looked := LookedAt(db[rnti].cells[0].cfg, CountActive(db[rnti].cells), ack.puschAvailable,
                                         ScellSent(ack), uci, s, tb);
                  Report(enbCc, tb, looked ==> DecodedBit(ack, uci, s, tb) == 1)
                    in SendUci(end, tti, rnti, via, uci).reports)
  {
    var pos := Pos(tti);
    var start := Step(env, db, ClearAcks(cleared));
    ClearedIsEmpty(env, db, cleared, rnti, s);
    OwedEntry(env, start, calls, rnti, pos, enbCc, tb, m, s);
    ModesKept(env, start, calls, rnti, pos);
    assert SameModes(start[rnti].pdschAck[pos], ClearedAck(db[rnti]));
    var end := RunFrom(env, start, calls);
    var u := end[rnti];
    var ack := u.pdschAck[pos];
    LookedAtIsCovered(db[rnti], ack, uci, s, tb);
    ReportedValue(ack, uci, u.cells[s], s, tb);
    hide RunFrom, Step, Covered, DecodedBit, AllQuiet, OncePerCell, OwedBy, LookedAt, NofTb, ScellSent;
    var looked := LookedAt(db[rnti].cells[0].cfg, CountActive(db[rnti].cells), ack.puschAvailable, ScellSent(ack), uci, s, tb);
    var r := Report(enbCc, tb, looked ==> DecodedBit(ack, uci, s, tb) == 1);
    assert TbReport(u.cells[s], GetAck(ack, uci).cc[s], tb) == [r];
    hide GetAck;
    assert r in SlotReports(u.cells[s], GetAck(ack, uci).cc[s]);
    InReports(u.cells, GetAck(ack, uci), MAX_CARRIERS, s, r);
  }

  lemma LookedAtIsCovered(u: Ue, ack: PdschAck, uci: Uci, s: nat, tb: nat)
    requires SameModes(ack, ClearedAck(u))
    ensures LookedAt(u.cells[0].cfg, CountActive(u.cells), ack.puschAvailable, ScellSent(ack), uci, s, tb)
       <==> Covered(ack, uci, s) && tb < NofTb(ack)
  {
    hide CountActive, ScellSent;
  }

  /** The position at the end of a run, and the codeword in it that an accepted call registered. */
  lemma OwedIsSent(env: Env, db: Db, cleared: nat, calls: seq<Call>, rnti: nat, enbCc: nat, tb: nat, m: nat, s: nat)
    requires rnti in db && db[rnti].cells[0].state == Primary && tb < MAX_CODEWORDS && s < MAX_CARRIERS
    requires AllQuiet(calls, rnti, Pos(cleared)) && OncePerCell(calls, rnti, Pos(cleared))
    requires OwedBy(env, Step(env, db, ClearAcks(cleared)), calls, rnti, Pos(cleared), enbCc, tb, m, s)
    ensures var end := RunFrom(env, Step(env, db, ClearAcks(cleared)), calls);
            && rnti in end
            && var ack := end[rnti].pdschAck[Pos(cleared)];
               Sent(ack.cc[s], tb) && ack.nofCc >= 1 && SameModes(ack, ClearedAck(db[rnti]))
  {
    var pos, start := Pos(cleared), Step(env, db, ClearAcks(cleared));
    ClearedIsEmpty(env, db, cleared, rnti, s);
    OwedEntry(env, start, calls, rnti, pos, enbCc, tb, m, s);
    ModesKept(env, start, calls, rnti, pos);
    assert SameModes(start[rnti].pdschAck[pos], ClearedAck(db[rnti]));
    SomeActive(db[rnti].cells, 0);
    hide RunFrom, Step, AllQuiet, OncePerCell, CountActive, Accepted;
  }

  lemma {:induction false} SomeActive(cells: seq<CellInfo>, i: nat)
    requires i < |cells| && Active(cells[i])
    ensures CountActive(cells) >= 1
    decreases |cells|
  {
    if i < |cells| - 1 {
      SomeActive(cells[..|cells| - 1], i);
    }
  }

  /** So if the UE received what was registered and its bits arrive, the stack is told the UE's own answer
      to every codeword that has a place in them, and that of the carrier where one answer stands for it;
      invalid bits count as negative; a codeword without a place is reported as acknowledged. */
  lemma AnswersReported(env: Env, db: Db, cleared: nat, calls: seq<Call>, tti: nat, rnti: nat, via: nat, uci: Uci,
                        enbCc: nat, tb: nat, m: nat, s: nat, ue: PdschAck)
    requires rnti in db && db[rnti].cells[0].state == Primary
    requires Pos(cleared) == Pos(tti) && tb < MAX_CODEWORDS && s < MAX_CARRIERS
    requires AllQuiet(calls, rnti, Pos(tti)) && OncePerCell(calls, rnti, Pos(tti))
    requires OwedBy(env, Step(env, db, ClearAcks(cleared)), calls, rnti, Pos(tti), enbCc, tb, m, s)
    requires var end := RunFrom(env, Step(env, db, ClearAcks(cleared)), calls);
             HasActiveCell(end, rnti, via) && Detected(ue, end[rnti].pdschAck[Pos(tti)])
    requires Answered(ue) && Carries(uci.bits, Word(ue, LayoutOf(ue, uci.schedulingRequest, uci.csiReport)))
    ensures var layout := LayoutOf(ue, uci.schedulingRequest, uci.csiReport);
            var positive :=
              if tb >= Codewords(ue.tm) || !Told(ue, layout, s) then true
              else if layout == OnePerCarrier then Bundle(ue.cc[s], Codewords(ue.tm)) == 1
              else uci.valid && ue.cc[s].value[tb] == 1;
            Report(enbCc, tb, positive)
              in SendUci(RunFrom(env, Step(env, db, ClearAcks(cleared)), calls), tti, rnti, via, uci).reports
  {
    var ack := RunFrom(env, Step(env, db, ClearAcks(cleared)), calls)[rnti].pdschAck[Pos(tti)];
    var layout := LayoutOf(ue, uci.schedulingRequest, uci.csiReport);
    OwedIsSent(env, db, cleared, calls, rnti, enbCc, tb, m, s);
    FeedbackValue(env, db, cleared, calls, tti, rnti, via, uci, enbCc, tb, m, s);
    LookedAtIsCovered(db[rnti], ack, uci, s, tb);
    SameSettings(ue, ack);
    hide *;
    if tb < Codewords(ue.tm) {
      CoveredIsTold(ue, ack, uci, s, tb);
      if Told(ue, layout, s) {
        ToldIsCounted(ue, layout, s);
        SentComesBack(ue, ack, uci, s, tb);
      }
    }
  }

  lemma SameSettings(ue: PdschAck, sent: PdschAck)
    requires Detected(ue, sent)
    ensures ue.nofCc == sent.nofCc && NofTb(sent) == Codewords(ue.tm)
  {
  }

  /** In particular a codeword of an SCell whose slot number is at least the number of active slots is
      acknowledged in every feedback mode. */
  lemma PastActiveIsAcked(pcell: PhyCfg, n: nat, pusch: bool, scellSent: bool, uci: Uci, s: nat, tb: nat)
    requires s >= 1 && s >= n
    ensures !LookedAt(pcell, n, pusch, scellSent, uci, s, tb)
  {
  }

  // ---------- a reachable false acknowledgement ----------

  function ThreeCells(mode: FeedbackMode): RrcList {
    var cfg := DEFAULT_CFG.(ul := DEFAULT_CFG.ul.(feedback := mode));
    [RrcCfg(true, 0, cfg), RrcCfg(true, 1, cfg), RrcCfg(true, 2, cfg)]
  }

  /** One enabled codeword. */
  function OneTb(rnti: nat): Dci {
    Dci(rnti, Format1, [Tb(5, 0), Tb(0, 1)], 0, 0)
  }

  /** Nothing but negative acknowledgements. */
  function AllNack(): Uci {
    Uci([0, 0, 0, 0, 0, 0, 0, 0, 0, 0], true, false, false, 0)
  }

  /** A UE with cells 0, 1 and 2 of which only 2 is switched on besides the PCell. */
  ghost predicate OnlyLastOn(u: Ue) {
    && u.cells[0].state == Primary && u.cells[0].enbCc == 0
    && u.cells[1].state == SecondaryInactive && u.cells[2].state == SecondaryActive && u.cells[2].enbCc == 2
    && u.cells[1].enbCc == 1 && u.cells[3].state == Unconfigured && u.cells[4].state == Unconfigured
  }

  /** What it answers to a transmission in cell 2 is reported as acknowledged though only zeros were
      decoded; */
  lemma FalseAck(env: Env, db: Db, rnti: nat)
    requires rnti in db && OnlyLastOn(db[rnti])
    ensures var end := Step(env, Step(env, db, ClearAcks(0)), SetAck(0, 2, OneTb(rnti)));
            && HasActiveCell(end, rnti, 0)
            && Report(2, 0, true) in SendUci(end, 0, rnti, 0, AllNack()).reports
  {
    var start, y := Step(env, db, ClearAcks(0)), SetAck(0, 2, OneTb(rnti));
    LookupIs(start[rnti].cells, 2, 2);
    LookupIs(db[rnti].cells, 0, 0);
    CountFive(db[rnti].cells);
    OneCall(env, start, y);
    assert OwedBy(env, start, [y], rnti, 0, 2, 0, 0, 2);
    var end := Step(env, start, y);
    assert end[rnti].cells == db[rnti].cells;
    assert HasActiveCell(end, rnti, 0);
    hide Step, OwedBy, SendUci, DecodedBit, OnlyLastOn, ScellSent, CountActive, HasActiveCell;
    FeedbackValue(env, db, 0, [y], 0, rnti, 0, AllNack(), 2, 0, 0, 2);
  }

  lemma OneCall(env: Env, db: Db, call: Call)
    ensures RunFrom(env, db, [call][..0]) == db && RunFrom(env, db, [call]) == Step(env, db, call)
  {
    assert [call][..0] == [];
    assert RunFrom(env, db, []) == db;
    hide Step;
  }

  /** and such a UE is reachable, in whatever feedback mode. */
  lemma FalseAckIsReachable(env: Env, mode: FeedbackMode)
    ensures var db := Run(env, [AddModRnti(0x46, ThreeCells(mode)), ActivateScell(0x46, 2, true),
                                ClearAcks(0), SetAck(0, 2, OneTb(0x46))]);
            && HasActiveCell(db, 0x46, 0)
            && Report(2, 0, true) in SendUci(db, 0, 0x46, 0, AllNack()).reports
  {
    var rnti, list := 0x46, ThreeCells(mode);
    var a, b, x, y := AddModRnti(rnti, list), ActivateScell(rnti, 2, true), ClearAcks(0), SetAck(0, 2, OneTb(rnti));
    Configured3(env, rnti, mode);
    SwitchedLast(env, Step(env, map[], a), rnti);
    FalseAck(env, Step(env, Step(env, map[], a), b), rnti);
    assert [] + [a] == [a] && [a] + [b] == [a, b] && [a, b] + [x] == [a, b, x] && [a, b, x] + [y] == [a, b, x, y];
    assert Run(env, []) == map[];
    hide *;
    RunSnoc(env, [], a);
    RunSnoc(env, [a], b);
    RunSnoc(env, [a, b], x);
    RunSnoc(env, [a, b, x], y);
  }

  lemma Configured3(env: Env, rnti: nat, mode: FeedbackMode)
    ensures var db := Step(env, map[], AddModRnti(rnti, ThreeCells(mode)));
            && rnti in db
            && forall i :: 0 <= i < MAX_CARRIERS ==>
                 && db[rnti].cells[i].state == (if i == 0 then Primary else if i <= 2 then SecondaryInactive else Unconfigured)
                 && (i <= 2 ==> db[rnti].cells[i].enbCc == i)
  {
    var u, list := NewUe(rnti, env.args), ThreeCells(mode);
    forall i | 0 <= i < MAX_CARRIERS
      ensures var c := AddMod(u, rnti, env.args, list).cells[i];
              && c.state == (if i == 0 then Primary else if i <= 2 then SecondaryInactive else Unconfigured)
              && (i <= 2 ==> c.enbCc == i)
    {
      NewUeStates(rnti, env.args, i);
      AddModState(u, rnti, env.args, list, i);
    }
    hide AddMod, NewUe;
  }

  lemma SwitchedLast(env: Env, db: Db, rnti: nat)
    requires rnti in db
    requires forall i :: 0 <= i < MAX_CARRIERS ==>
               && db[rnti].cells[i].state == (if i == 0 then Primary else if i <= 2 then SecondaryInactive else Unconfigured)
               && (i <= 2 ==> db[rnti].cells[i].enbCc == i)
    ensures var db' := Step(env, db, ActivateScell(rnti, 2, true)); rnti in db' && OnlyLastOn(db'[rnti])
  {
  }

  lemma CountFive(cells: Slots)
    requires Active(cells[0]) && !Active(cells[1]) && Active(cells[2]) && !Active(cells[3]) && !Active(cells[4])
    ensures CountActive(cells) == 2
  {
    assert cells[..4][..3] == cells[..3] && cells[..3][..2] == cells[..2] && cells[..2][..1] == cells[..1];
    assert cells[..1][..0] == [];
    assert CountActive(cells[..1]) == 1;
    assert CountActive(cells[..2]) == 1;
    assert CountActive(cells[..3]) == 2;
    assert CountActive(cells[..4]) == 2;
  }
}

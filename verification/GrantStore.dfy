/** The uplink grants the workers of different subframes hand to each other, and what is left of them
    once a UE is removed. */
module GrantStore {
  import opened PhyUe
  import opened PhyUeUci
  import opened PhyUeRuns

  /** One uplink grant; `other` stands for everything but its RNTI. */
  datatype Grant = Grant(rnti: nat, other: int)

  /** The grants of one eNB cell: an array of which the first nofGrants entries count. */
  datatype UlSched = UlSched(nofGrants: nat, pusch: seq<Grant>)

  type SchedList = l: seq<UlSched> | forall e :: 0 <= e < |l| ==> l[e].nofGrants <= |l[e].pusch|

  /** The RNTIs that have grants, cell by cell. */
  function Rntis(list: SchedList): (r: GrantLists) {
    seq(|list|, e requires 0 <= e < |list| =>
      seq(list[e].nofGrants, i requires 0 <= i < list[e].nofGrants => list[e].pusch[i].rnti))
  }

  function Blanked(g: Grant, rnti: nat): Grant {
    if g.rnti == rnti then g.(rnti := 0) else g
  }

  function ClearedSched(q: UlSched, rnti: nat): (r: UlSched)
    requires q.nofGrants <= |q.pusch|
    ensures r.nofGrants == q.nofGrants && |r.pusch| == |q.pusch|
  {
    q.(pusch := seq(|q.pusch|, i requires 0 <= i < |q.pusch| =>
      if i < q.nofGrants then Blanked(q.pusch[i], rnti) else q.pusch[i]))
  }

  function ClearedList(list: SchedList, rnti: nat): (r: SchedList)
    ensures |r| == |list|
  {
    seq(|list|, e requires 0 <= e < |list| => ClearedSched(list[e], rnti))
  }

  /** The entries are edited in place; indices wrap around at the length of the ring. */
  class SharedGrants {
    const ulGrants: array<SchedList>

    predicate Wf() {
      ulGrants.Length == TTIMOD_SZ
    }

    constructor ()
      ensures Wf() && fresh(ulGrants) && forall p :: 0 <= p < TTIMOD_SZ ==> ulGrants[p] == []
    {
      ulGrants := new SchedList[TTIMOD_SZ](_ => []);
    }

    method SetUlGrants(tti: nat, list: SchedList)
      requires Wf()
      modifies ulGrants
      ensures ulGrants[..] == old(ulGrants[..])[Pos(tti) := list]
    {
      ulGrants[Pos(tti)] := list;
    }

    method GetUlGrants(tti: nat) returns (list: SchedList)
      requires Wf()
      ensures list == ulGrants[Pos(tti)]
    {
      list := ulGrants[Pos(tti)];
    }

    method ClearGrants(rnti: nat)
      requires Wf()
      modifies ulGrants
      ensures forall p :: 0 <= p < TTIMOD_SZ ==> ulGrants[p] == ClearedList(old(ulGrants[p]), rnti)
    {
      var p := 0;
      while p < TTIMOD_SZ
        invariant p <= TTIMOD_SZ
        invariant forall k :: 0 <= k < p ==> ulGrants[k] == ClearedList(old(ulGrants[k]), rnti)
        invariant forall k :: p <= k < TTIMOD_SZ ==> ulGrants[k] == old(ulGrants[k])
      {
        var list := ClearList(ulGrants[p], rnti);
        ulGrants[p] := list;
        p := p + 1;
      }
    }
  }

  method ClearList(start: SchedList, rnti: nat) returns (list: SchedList)
    ensures list == ClearedList(start, rnti)
  {
    list := start;
    var e := 0;
    while e < |list|
      invariant e <= |list| == |start|
      invariant forall k :: 0 <= k < e ==> list[k] == ClearedSched(start[k], rnti)
      invariant forall k :: e <= k < |list| ==> list[k] == start[k]
    {
      var q := ClearSched(list[e], rnti);
      list := list[e := q];
      e := e + 1;
    }
  }

  method ClearSched(start: UlSched, rnti: nat) returns (q: UlSched)
    requires start.nofGrants <= |start.pusch|
    ensures q == ClearedSched(start, rnti)
  {
    q := start;
    var j := 0;
    while j < q.nofGrants
      invariant j <= q.nofGrants == start.nofGrants && |q.pusch| == |start.pusch|
      invariant forall i :: 0 <= i < j ==> q.pusch[i] == Blanked(start.pusch[i], rnti)
      invariant forall i :: j <= i < |q.pusch| ==> q.pusch[i] == start.pusch[i]
    {
      if q.pusch[j].rnti == rnti {
        q := q.(pusch := q.pusch[j := q.pusch[j].(rnti := 0)]);
      }
      j := j + 1;
    }
    assert q.pusch == ClearedSched(start, rnti).pusch;
  }

  // ---------- what clearing means for the database ----------

  /** Clearing rewrites nothing but the RNTI of the counted entries of that UE: every entry of another UE
      and every entry past the count is the one it was. */
  lemma ClearedEntry(list: SchedList, rnti: nat, e: nat, i: nat)
    requires e < |list| && i < |list[e].pusch|
    ensures var was, after := list[e], ClearedList(list, rnti)[e];
            && |after.pusch| == |was.pusch| && after.nofGrants == was.nofGrants
            && (was.pusch[i].rnti == rnti && i < was.nofGrants ==>
                  after.pusch[i].rnti == 0 && after.pusch[i].other == was.pusch[i].other)
            && (was.pusch[i].rnti != rnti || i >= was.nofGrants ==> after.pusch[i] == was.pusch[i])
  {
  }

  lemma RntiRow(list: SchedList, e: nat, r: nat)
    requires e < |list|
    ensures r in Rntis(list)[e] <==> exists i :: 0 <= i < list[e].nofGrants && list[e].pusch[i].rnti == r
  {
    var row := Rntis(list)[e];
    if r in row {
      var i :| 0 <= i < |row| && row[i] == r;
      assert list[e].pusch[i].rnti == r;
    }
    if i :| 0 <= i < list[e].nofGrants && list[e].pusch[i].rnti == r {
      assert row[i] == r;
    }
  }

  /** In every cell the cleared RNTI is gone and every other one, except the 0 that takes its place,
      has its grants as before. */
  lemma ClearedRow(list: SchedList, rnti: nat, e: nat, r: nat)
    requires e < |list| && r != 0
    ensures r in Rntis(ClearedList(list, rnti))[e] <==> r != rnti && r in Rntis(list)[e]
  {
    RntiRow(list, e, r);
    RntiRow(ClearedList(list, rnti), e, r);
    var before, after := list[e], ClearedList(list, rnti)[e];
    assert forall i :: 0 <= i < before.nofGrants ==> after.pusch[i] == Blanked(before.pusch[i], rnti);
    if i :| 0 <= i < before.nofGrants && before.pusch[i].rnti == r && r != rnti {
      assert after.pusch[i].rnti == r;
    }
    if i :| 0 <= i < after.nofGrants && after.pusch[i].rnti == r {
      assert before.pusch[i].rnti == r;
    }
  }

  lemma ClearedGranted(list: SchedList, rnti: nat, r: nat, cells: Slots, slot: nat)
    requires r != 0
    ensures Granted(Rntis(ClearedList(list, rnti)), r, cells, slot)
       <==> r != rnti && Granted(Rntis(list), r, cells, slot)
  {
    var before, after := Rntis(list), Rntis(ClearedList(list, rnti));
    forall e | 0 <= e < |list|
      ensures r in after[e] <==> r != rnti && r in before[e]
    {
      ClearedRow(list, rnti, e, r);
    }
    if e :| 0 <= e < |before| && r in before[e] && Lookup(cells, e) == slot && r != rnti {
      assert r in after[e];
    }
    if e :| 0 <= e < |after| && r in after[e] && Lookup(cells, e) == slot {
      assert r in before[e];
    }
  }

  /** Removing a UE and clearing its grants is not noticed by any other UE: when the grants of a TTI are
      set, each gets the flags it would have got with that UE still there. */
  lemma RemovalLeavesOthersAlone(env: Env, db: Db, tti: nat, list: SchedList, rnti: nat, r: nat)
    requires r in db && r != rnti && r != 0
    ensures var gone := Step(env, db, Call.RemRnti(rnti));
            var flagged := SetGrants(gone, tti, Rntis(ClearedList(list, rnti)));
            r in flagged && flagged[r] == SetGrants(db, tti, Rntis(list))[r]
  {
    var u := db[r];
    forall i | 0 <= i < MAX_CARRIERS
      ensures Granted(Rntis(ClearedList(list, rnti)), r, u.cells, i) == Granted(Rntis(list), r, u.cells, i)
    {
      ClearedGranted(list, rnti, r, u.cells, i);
    }
    hide Granted, Rntis, ClearedList;
    assert WithGrants(u, r, tti, Rntis(ClearedList(list, rnti))).cells == WithGrants(u, r, tti, Rntis(list)).cells;
  }

  /** A UE that comes back under a cleared RNTI is not flagged for any grant of its predecessor. */
  lemma ClearedIsNeverFlagged(db: Db, tti: nat, list: SchedList, rnti: nat, slot: nat)
    requires rnti in db && rnti != 0 && slot < MAX_CARRIERS
    ensures !SetGrants(db, tti, Rntis(ClearedList(list, rnti)))[rnti].cells[slot].grant[Pos(tti)]
  {
    ClearedGranted(list, rnti, rnti, db[rnti].cells, slot);
  }

  /** Every grant that counts satisfies what set_ul_grant_available asks of it. */
  ghost predicate EachPlaced(db: Db, list: SchedList) {
    forall e, i :: 0 <= e < |list| && 0 <= i < list[e].nofGrants ==> HasActiveCell(db, list[e].pusch[i].rnti, e)
  }

  lemma PlacedByEntry(db: Db, list: SchedList)
    ensures AllGrantsPlaced(db, Rntis(list)) <==> EachPlaced(db, list)
  {
    var lists := Rntis(list);
    hide HasActiveCell;
    if AllGrantsPlaced(db, lists) {
      forall e, i | 0 <= e < |list| && 0 <= i < list[e].nofGrants
        ensures HasActiveCell(db, list[e].pusch[i].rnti, e)
      {
        assert lists[e][i] == list[e].pusch[i].rnti;
      }
    }
    if EachPlaced(db, list) {
      forall e, i | 0 <= e < |lists| && 0 <= i < |lists[e]|
        ensures HasActiveCell(db, lists[e][i], e)
      {
        assert lists[e][i] == list[e].pusch[i].rnti;
      }
    }
  }

  /** But a cleared grant still counts as one, for RNTI 0. So after a removal the grants of a TTI are
      reported as set exactly when each is of another UE and hits an active cell of it. */
  lemma RemovalReportedIff(env: Env, db: Db, list: SchedList, rnti: nat)
    requires 0 !in db && rnti != 0
    ensures AllGrantsPlaced(Step(env, db, Call.RemRnti(rnti)), Rntis(ClearedList(list, rnti)))
       <==> forall e, i :: 0 <= e < |list| && 0 <= i < list[e].nofGrants ==>
              list[e].pusch[i].rnti != rnti && HasActiveCell(db, list[e].pusch[i].rnti, e)
  {
    var gone, cleared := db - {rnti}, ClearedList(list, rnti);
    PlacedByEntry(gone, cleared);
    forall e, i | 0 <= e < |list| && 0 <= i < list[e].nofGrants
      ensures HasActiveCell(gone, cleared[e].pusch[i].rnti, e)
         <==> list[e].pusch[i].rnti != rnti && HasActiveCell(db, list[e].pusch[i].rnti, e)
    {
      assert cleared[e].pusch[i] == Blanked(list[e].pusch[i], rnti);
    }
    hide AllGrantsPlaced, HasActiveCell, Rntis;
  }

  /** The failing case: one grant for the removed UE is left, and every UE still there is flagged as if
      nothing had happened, yet failure is reported. */
  lemma ServedButReportedFailed(env: Env, db: Db, tti: nat, list: SchedList, rnti: nat, e: nat, i: nat)
    requires 0 !in db && rnti != 0
    requires e < |list| && i < list[e].nofGrants && list[e].pusch[i].rnti == rnti
    ensures var gone, lists := Step(env, db, Call.RemRnti(rnti)), Rntis(ClearedList(list, rnti));
            && !AllGrantsPlaced(gone, lists)
            && SetGrants(gone, tti, lists) == SetGrants(db, tti, Rntis(list)) - {rnti}
  {
    RemovalReportedIff(env, db, list, rnti);
    forall r | r in db && r != rnti
      ensures SetGrants(db - {rnti}, tti, Rntis(ClearedList(list, rnti)))[r] == SetGrants(db, tti, Rntis(list))[r]
    {
      RemovalLeavesOthersAlone(env, db, tti, list, rnti, r);
    }
    hide AllGrantsPlaced, Rntis, ClearedList, WithGrants;
  }
}

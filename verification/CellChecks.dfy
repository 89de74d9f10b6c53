/** Consistency checks on the configured cells: RF ports and identities of the LTE and NR lists,
    and the removal of secondary cell entries that name no configured cell. */
module CellChecks {
  import opened Basics

  datatype LteCell = LteCell(rfPort: nat, cellId: nat)

  datatype NrCell = NrCell(rfPort: nat, pci: nat, cellId: nat, dlArfcn: nat, ulArfcn: nat, band: nat)

  /** The bands an NR carrier number may belong to. */
  type BandTable = nat -> seq<nat>

  predicate DistinctIds(cells: seq<LteCell>) {
    forall i, j :: 0 <= i < j < |cells| ==> cells[i].cellId != cells[j].cellId
  }

  predicate PortsInOrder(cells: seq<LteCell>) {
    forall i :: 0 <= i < |cells| ==> cells[i].rfPort == i
  }

  /** The LTE list passes exactly when cell i sits on port i and no cell identifier repeats. */
  method CheckLteCells(cells: seq<LteCell>) returns (ok: bool)
    ensures ok <==> PortsInOrder(cells) && DistinctIds(cells)
  {
    var nextRfPort := 0;
    var it := 0;
    while it < |cells|
      invariant 0 <= it <= |cells| && nextRfPort == it
      invariant forall i :: 0 <= i < it ==> cells[i].rfPort == i
      invariant forall i, j :: 0 <= i < it && i < j < |cells| ==> cells[i].cellId != cells[j].cellId
    {
      if cells[it].rfPort != nextRfPort {
        return false;
      }
      nextRfPort := nextRfPort + 1;
      var it2 := it + 1;
      while it2 < |cells|
        invariant it + 1 <= it2 <= |cells|
        invariant forall j :: it < j < it2 ==> cells[it].cellId != cells[j].cellId
      {
        if cells[it].rfPort == cells[it2].rfPort {
          return false;
        }
        if cells[it].cellId == cells[it2].cellId {
          return false;
        }
        it2 := it2 + 1;
      }
      it := it + 1;
    }
    return true;
  }

  /** What the checks demand of one NR cell taken against the cells after it and the LTE cells. */
  predicate NrCellFits(nr: seq<NrCell>, lte: seq<LteCell>, bands: BandTable, i: int)
    requires 0 <= i < |nr|
  {
    && nr[i].rfPort == |lte| + i
    && (forall j :: i < j < |nr| ==> nr[i].pci != nr[j].pci && nr[i].cellId != nr[j].cellId)
    && (forall k :: 0 <= k < |lte| ==> lte[k].rfPort != nr[i].rfPort)
    && nr[i].band in bands(nr[i].dlArfcn)
    && (nr[i].ulArfcn != 0 ==> nr[i].band in bands(nr[i].ulArfcn))
  }

  predicate NrCellsFit(nr: seq<NrCell>, lte: seq<LteCell>, bands: BandTable) {
    forall i :: 0 <= i < |nr| ==> NrCellFits(nr, lte, bands, i)
  }

  /** Taken together: the ports go on where the LTE cells end, the physical and the cell identifiers are
      pairwise distinct, no port is one of an LTE cell, and every cell lies in its band, downlink and
      uplink, where 0 stands for no uplink channel. */
  lemma NrCellsFitIff(nr: seq<NrCell>, lte: seq<LteCell>, bands: BandTable)
    ensures NrCellsFit(nr, lte, bands)
       <==> && (forall i :: 0 <= i < |nr| ==> nr[i].rfPort == |lte| + i)
            && (forall i, j :: 0 <= i < |nr| && 0 <= j < |nr| && i != j ==> nr[i].pci != nr[j].pci)
            && (forall i, j :: 0 <= i < |nr| && 0 <= j < |nr| && i != j ==> nr[i].cellId != nr[j].cellId)
            && (forall i, k :: 0 <= i < |nr| && 0 <= k < |lte| ==> nr[i].rfPort != lte[k].rfPort)
            && (forall i :: 0 <= i < |nr| ==> nr[i].band in bands(nr[i].dlArfcn))
            && (forall i :: 0 <= i < |nr| && nr[i].ulArfcn != 0 ==> nr[i].band in bands(nr[i].ulArfcn))
  {
    if NrCellsFit(nr, lte, bands) {
      forall i, j | 0 <= i < |nr| && 0 <= j < |nr| && i != j
        ensures nr[i].pci != nr[j].pci && nr[i].cellId != nr[j].cellId
      {
        assert NrCellFits(nr, lte, bands, if i < j then i else j);
      }
      forall i | 0 <= i < |nr|
        ensures nr[i].rfPort == |lte| + i && nr[i].band in bands(nr[i].dlArfcn)
        ensures nr[i].ulArfcn != 0 ==> nr[i].band in bands(nr[i].ulArfcn)
        ensures forall k :: 0 <= k < |lte| ==> nr[i].rfPort != lte[k].rfPort
      {
        assert NrCellFits(nr, lte, bands, i);
      }
    }
  }

  method BandListed(band: nat, listed: seq<nat>) returns (valid: bool)
    ensures valid <==> band in listed
  {
    valid := false;
    var i := 0;
    while i < |listed|
      invariant 0 <= i <= |listed|
      invariant valid <==> band in listed[..i]
    {
      if listed[i] == band {
        valid := true;
      }
      i := i + 1;
    }
  }

  method CheckNrCells(nr: seq<NrCell>, lte: seq<LteCell>, bands: BandTable) returns (ok: bool)
    ensures ok <==> NrCellsFit(nr, lte, bands)
  {
    var nextRfPort := |lte|;
    var it := 0;
    while it < |nr|
      invariant 0 <= it <= |nr| && nextRfPort == |lte| + it
      invariant forall i :: 0 <= i < it ==> NrCellFits(nr, lte, bands, i)
    {
      if nr[it].rfPort != nextRfPort {
        assert !NrCellFits(nr, lte, bands, it);
        return false;
      }
      nextRfPort := nextRfPort + 1;
      var it2 := it + 1;
      // a repeated port cannot be mistaken for a pass: the later cell would be out of order
      while it2 < |nr|
        invariant it + 1 <= it2 <= |nr|
        invariant forall j :: it < j < it2 ==> nr[it].pci != nr[j].pci && nr[it].cellId != nr[j].cellId
      {
        if nr[it].rfPort == nr[it2].rfPort {
          assert !NrCellFits(nr, lte, bands, it2);
          return false;
        }
        if nr[it].pci == nr[it2].pci || nr[it].cellId == nr[it2].cellId {
          assert !NrCellFits(nr, lte, bands, it);
          return false;
        }
        it2 := it2 + 1;
      }
      var itEutra := 0;
      while itEutra < |lte|
        invariant 0 <= itEutra <= |lte|
        invariant forall k :: 0 <= k < itEutra ==> lte[k].rfPort != nr[it].rfPort
      {
        if nr[it].rfPort == lte[itEutra].rfPort {
          assert !NrCellFits(nr, lte, bands, it);
          return false;
        }
        itEutra := itEutra + 1;
      }
      var dlValid := BandListed(nr[it].band, bands(nr[it].dlArfcn));
      if !dlValid {
        assert !NrCellFits(nr, lte, bands, it);
        return false;
      }
      if nr[it].ulArfcn != 0 {
        var ulValid := BandListed(nr[it].band, bands(nr[it].ulArfcn));
        if !ulValid {
          assert !NrCellFits(nr, lte, bands, it);
          return false;
        }
      }
      it := it + 1;
    }
    return true;
  }

  /** The RF ports of the LTE cells followed by those of the NR cells. */
  function Ports(lte: seq<LteCell>, nr: seq<NrCell>): (ports: seq<nat>)
    ensures |ports| == |lte| + |nr|
  {
    seq(|lte|, i requires 0 <= i < |lte| => lte[i].rfPort)
    + seq(|nr|, i requires 0 <= i < |nr| => nr[i].rfPort)
  }

  /** When both lists pass, the ports in use are 0..n-1, each taken by exactly one cell. */
  lemma PortsAreDense(lte: seq<LteCell>, nr: seq<NrCell>, bands: BandTable, port: nat)
    requires PortsInOrder(lte) && NrCellsFit(nr, lte, bands)
    ensures var ports := Ports(lte, nr);
            && (port in ports <==> port < |lte| + |nr|)
            && multiset(ports)[port] <= 1
  {
    var ports := Ports(lte, nr);
    assert forall i :: 0 <= i < |ports| ==> ports[i] == i by {
      forall i | 0 <= i < |ports|
        ensures ports[i] == i
      {
        if i >= |lte| {
          assert NrCellFits(nr, lte, bands, i - |lte|);
        }
      }
    }
    if port < |ports| {
      assert ports[port] == port;
    }
    OnceInOrder(ports, port);
  }

  lemma {:induction false} OnceInOrder(ports: seq<nat>, port: nat)
    requires forall i :: 0 <= i < |ports| ==> ports[i] == i
    ensures multiset(ports)[port] == if port < |ports| then 1 else 0
    decreases |ports|
  {
    if ports != [] {
      var front := ports[..|ports| - 1];
      OnceInOrder(front, port);
      assert ports == front + [|ports| - 1];
    }
  }

  // ---------- secondary cell lists ----------

  /** A configured cell: its identity, the identities its scell list names, its carrier frequencies, where
      0 or less means not given, and its channel numbers. */
  datatype Cell = Cell(
    cellId: nat, scells: seq<nat>, dlFreq: real, ulFreq: real, dlEarfcn: nat, ulEarfcn: nat)

  /** The band tables: frequencies of channel numbers, 0 for an unknown one, and the uplink channel that
      goes with a downlink channel. */
  datatype Bands = Bands(dlFreq: nat -> real, ulFreq: nat -> real, ulEarfcn: nat -> nat)

  /** What the PHY is given of a cell. */
  datatype PhyCell = PhyCell(cellId: nat, dlFreq: real, ulFreq: real)

  /** The uplink channel number, filled in where only it can give the uplink frequency. */
  function UlEarfcn(c: Cell, bands: Bands): nat {
    if c.ulFreq <= 0.0 && c.ulEarfcn == 0 then bands.ulEarfcn(c.dlEarfcn) else c.ulEarfcn
  }

  function PhyCellOf(c: Cell, bands: Bands): PhyCell {
    PhyCell(c.cellId,
            if c.dlFreq > 0.0 then c.dlFreq else bands.dlFreq(c.dlEarfcn),
            if c.ulFreq > 0.0 then c.ulFreq else bands.ulFreq(UlEarfcn(c, bands)))
  }

  predicate Configured(cells: seq<Cell>, id: nat) {
    exists i :: 0 <= i < |cells| && cells[i].cellId == id
  }

  /** The entries that name a configured cell, in their original order. */
  function Known(scells: seq<nat>, cells: seq<Cell>): seq<nat> {
    if scells == [] then []
    else (if Configured(cells, scells[0]) then [scells[0]] else []) + Known(scells[1..], cells)
  }

  /** A frequency that is given is used as it is, and then the channel numbers stay as they are. One that is
      not given comes from its channel number, and an uplink channel number that is not given either from
      the downlink one. A cell is refused exactly if a frequency it needs is unknown or it lists itself. */
  lemma DerivedFrequencies(c: Cell, bands: Bands)
    ensures var phy, ulEarfcn := PhyCellOf(c, bands), UlEarfcn(c, bands);
            && phy.cellId == c.cellId
            && (c.dlFreq > 0.0 ==> phy.dlFreq == c.dlFreq)
            && (c.dlFreq <= 0.0 ==> phy.dlFreq == bands.dlFreq(c.dlEarfcn))
            && (c.ulFreq > 0.0 ==> phy.ulFreq == c.ulFreq && ulEarfcn == c.ulEarfcn)
            && (c.ulFreq <= 0.0 && c.ulEarfcn != 0 ==>
                  ulEarfcn == c.ulEarfcn && phy.ulFreq == bands.ulFreq(c.ulEarfcn))
            && (c.ulFreq <= 0.0 && c.ulEarfcn == 0 ==>
                  ulEarfcn == bands.ulEarfcn(c.dlEarfcn) && phy.ulFreq == bands.ulFreq(bands.ulEarfcn(c.dlEarfcn)))
    ensures Acceptable(c, bands)
       <==> && (c.dlFreq > 0.0 || bands.dlFreq(c.dlEarfcn) != 0.0)
            && (c.ulFreq > 0.0 || bands.ulFreq(if c.ulEarfcn != 0 then c.ulEarfcn else bands.ulEarfcn(c.dlEarfcn)) != 0.0)
            && c.cellId !in c.scells
  {
  }

  /** Every occurrence of a configured cell survives, nothing else does. */
  lemma {:induction false} KnownKeepsOccurrences(scells: seq<nat>, cells: seq<Cell>, id: nat)
    ensures multiset(Known(scells, cells))[id] == if Configured(cells, id) then multiset(scells)[id] else 0
  {
    if scells != [] {
      KnownKeepsOccurrences(scells[1..], cells, id);
      assert scells == [scells[0]] + scells[1..];
    }
  }

  /** And their order stays: pruning goes entry by entry. */
  lemma {:induction false} KnownInOrder(a: seq<nat>, b: seq<nat>, cells: seq<Cell>)
    ensures Known(a + b, cells) == Known(a, cells) + Known(b, cells)
    ensures forall id: nat :: Known([id], cells) == if Configured(cells, id) then [id] else []
  {
    assert Known([], cells) == [];
    if a == [] {
      assert a + b == b;
    } else {
      assert (a + b)[1..] == a[1..] + b;
      KnownInOrder(a[1..], b, cells);
    }
  }

  lemma KnownAt(listed: seq<nat>, cells: seq<Cell>, i: nat)
    requires i < |listed|
    ensures Known(listed[i..], cells)
         == (if Configured(cells, listed[i]) then [listed[i]] else []) + Known(listed[i + 1..], cells)
  {
    assert listed[i..][1..] == listed[i + 1..];
  }

  predicate Acceptable(c: Cell, bands: Bands) {
    PhyCellOf(c, bands).dlFreq != 0.0 && PhyCellOf(c, bands).ulFreq != 0.0 && c.cellId !in c.scells
  }

  /** A cell after its turn: its uplink channel filled in and its list pruned against the others. */
  function Derived(c: Cell, cells: seq<Cell>, bands: Bands): Cell {
    c.(ulEarfcn := UlEarfcn(c, bands), scells := Known(c.scells, cells))
  }

  /** The frequencies of one cell; filling in the channel number is all that happens to the cell. */
  method DeriveFrequencies(c: Cell, bands: Bands) returns (ok: bool, ulEarfcn: nat, phyCell: PhyCell)
    ensures ok <==> PhyCellOf(c, bands).dlFreq != 0.0 && PhyCellOf(c, bands).ulFreq != 0.0
    ensures ok ==> ulEarfcn == UlEarfcn(c, bands) && phyCell == PhyCellOf(c, bands)
  {
    ulEarfcn := c.ulEarfcn;
    phyCell := PhyCell(c.cellId, c.dlFreq, c.ulFreq);
    if c.dlFreq <= 0.0 {
      phyCell := phyCell.(dlFreq := bands.dlFreq(c.dlEarfcn));
      if phyCell.dlFreq == 0.0 {
        return false, ulEarfcn, phyCell;
      }
    }
    if c.ulFreq <= 0.0 {
      if ulEarfcn == 0 {
        ulEarfcn := bands.ulEarfcn(c.dlEarfcn);
      }
      phyCell := phyCell.(ulFreq := bands.ulFreq(ulEarfcn));
      if phyCell.ulFreq == 0.0 {
        return false, ulEarfcn, phyCell;
      }
    }
    ok := true;
  }

  method FindCell(cells: seq<Cell>, id: nat) returns (i: nat)
    ensures i <= |cells|
    ensures i < |cells| ==> cells[i].cellId == id
    ensures i == |cells| ==> !Configured(cells, id)
  {
    i := 0;
    while i < |cells|
      invariant 0 <= i <= |cells|
      invariant forall k :: 0 <= k < i ==> cells[k].cellId != id
    {
      if cells[i].cellId == id {
        return;
      }
      i := i + 1;
    }
  }

  /** The erase-while-iterating loop over the scell list of the cell with identity `own`. */
  method PruneScells(own: nat, listed: seq<nat>, cells: seq<Cell>) returns (ok: bool, scells: seq<nat>)
    requires Configured(cells, own)
    ensures ok <==> own !in listed
    ensures ok ==> scells == Known(listed, cells)
  {
    scells := listed;
    assert Known([], cells) == [];
    hide Known;
    var scellIt := 0;
    ghost var seen := 0;
    while scellIt < |scells|
      invariant scellIt <= |scells| && 0 <= seen <= |listed|
      invariant scells[scellIt..] == listed[seen..]
      invariant Known(listed, cells) == scells[..scellIt] + Known(listed[seen..], cells)
      invariant own !in listed[..seen]
      decreases |scells| - scellIt
    {
      var id := scells[scellIt];
      assert id == scells[scellIt..][0] == listed[seen];
      KnownAt(listed, cells, seen);
      assert scells[scellIt..][1..] == scells[scellIt + 1..];
      var cellIt := FindCell(cells, id);
      if cellIt == |cells| {
        ghost var before := scells;
        scells := scells[..scellIt] + scells[scellIt + 1..];
        assert scells[..scellIt] == before[..scellIt] && scells[scellIt..] == before[scellIt + 1..];
      } else if cells[cellIt].cellId == own {
        return false, scells;
      } else {
        assert scells[..scellIt + 1] == scells[..scellIt] + [id];
        Associative(scells[..scellIt], [id], Known(listed[seen + 1..], cells));
        scellIt := scellIt + 1;
      }
      assert listed[..seen + 1] == listed[..seen] + [id];
      seen := seen + 1;
    }
    assert |listed[seen..]| == 0;
    assert listed[..seen] == listed && listed[seen..] == [];
    assert scells[..scellIt] == scells;
    return true, scells;
  }

  class CellList {
    var cells: seq<Cell>
    var phyCells: seq<PhyCell>

    constructor (cells: seq<Cell>)
      ensures this.cells == cells && phyCells == []
    {
      this.cells := cells;
      phyCells := [];
    }

    /** The loop over all cells: it succeeds exactly when each cell has or gets both frequencies and lists
        no scell with its own identity; then each list is its original one without unknown cells, and
        the PHY has all cells in order. */
    method SetDerivedArgs(bands: Bands) returns (ok: bool)
      modifies this
      ensures ok <==> forall i :: 0 <= i < |old(cells)| ==> Acceptable(old(cells)[i], bands)
      ensures ok ==> |cells| == |old(cells)| && forall i :: 0 <= i < |cells| ==>
                cells[i] == Derived(old(cells)[i], old(cells), bands)
      ensures ok ==> |phyCells| == |old(phyCells)| + |cells| && old(phyCells) <= phyCells
                     && forall i :: 0 <= i < |cells| ==>
                          phyCells[|old(phyCells)| + i] == PhyCellOf(old(cells)[i], bands)
    {
      ghost var start := cells;
      hide Acceptable, Derived, PhyCellOf, Known;
      var it := 0;
      while it < |cells|
        invariant 0 <= it <= |cells| == |start|
        invariant forall i :: 0 <= i < it ==> Acceptable(start[i], bands)
        invariant forall i :: 0 <= i < |cells| ==> cells[i].cellId == start[i].cellId
        invariant forall i :: 0 <= i < it ==> cells[i] == Derived(start[i], start, bands)
        invariant forall i :: it <= i < |cells| ==> cells[i] == start[i]
        invariant |phyCells| == |old(phyCells)| + it && old(phyCells) <= phyCells
        invariant forall i :: 0 <= i < it ==> phyCells[|old(phyCells)| + i] == PhyCellOf(start[i], bands)
      {
        SameDerived(start[it], start, cells, bands);
        var derived, c, phyCell := DeriveCell(cells[it], cells, bands);
        if !derived {
          return false;
        }
        cells := cells[it := c];
        phyCells := phyCells + [phyCell];
        it := it + 1;
      }
      return true;
    }
  }

  /** One turn of the loop: the frequencies, then the scell list. */
  method DeriveCell(c: Cell, cells: seq<Cell>, bands: Bands) returns (ok: bool, derived: Cell, phyCell: PhyCell)
    requires Configured(cells, c.cellId)
    ensures ok <==> Acceptable(c, bands)
    ensures ok ==> derived == Derived(c, cells, bands) && phyCell == PhyCellOf(c, bands) && derived.cellId == c.cellId
  {
    hide PhyCellOf, UlEarfcn, Known;
    derived := c;
    var found, ulEarfcn;
    found, ulEarfcn, phyCell := DeriveFrequencies(c, bands);
    if !found {
      return false, derived, phyCell;
    }
    derived := derived.(ulEarfcn := ulEarfcn);
    var pruned, scells := PruneScells(c.cellId, c.scells, cells);
    derived := derived.(scells := scells);
    return pruned, derived, phyCell;
  }

  lemma SameDerived(c: Cell, a: seq<Cell>, b: seq<Cell>, bands: Bands)
    requires |a| == |b| && forall i :: 0 <= i < |a| ==> a[i].cellId == b[i].cellId
    ensures Derived(c, a, bands) == Derived(c, b, bands)
  {
    SameKnown(a, b, c.scells);
    hide Known;
  }

  lemma SameIdentities(a: seq<Cell>, b: seq<Cell>, id: nat)
    requires |a| == |b| && forall i :: 0 <= i < |a| ==> a[i].cellId == b[i].cellId
    ensures Configured(a, id) == Configured(b, id)
  {
    if i :| 0 <= i < |a| && a[i].cellId == id {
      assert b[i].cellId == id;
    }
    if i :| 0 <= i < |b| && b[i].cellId == id {
      assert a[i].cellId == id;
    }
  }

  lemma {:induction false} SameKnown(a: seq<Cell>, b: seq<Cell>, scells: seq<nat>)
    requires |a| == |b| && forall i :: 0 <= i < |a| ==> a[i].cellId == b[i].cellId
    ensures Known(scells, a) == Known(scells, b)
  {
    if scells != [] {
      SameIdentities(a, b, scells[0]);
      SameKnown(a, b, scells[1..]);
    }
  }
}

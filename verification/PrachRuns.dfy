/** Both threads of PRACH capture together: how many buffers are free at any point of any interleaving,
    and so which opportunities are taken. */
module PrachRuns {
  import opened Prach

  datatype Config = Config(opportunity: Opportunity, sfLen: nat, nofSf: nat, bufferSize: nat, nofBuffers: nat)

  predicate Fits(c: Config) {
    c.nofSf * c.sfLen < c.bufferSize
  }

  /** What one of the threads does next: the receive thread brings a subframe, or the detector thread
      takes, looks at or gives back a buffer. A turn the detector cannot take leaves it waiting. */
  datatype Turn = Receive(tti: nat, samples: Samples) | Take | Look | GiveBack

  /** The subframes among the turns. */
  function Received(turns: seq<Turn>): seq<(nat, Samples)>
    decreases |turns|
  {
    if turns == [] then []
    else
      var last := turns[|turns| - 1];
      Received(turns[..|turns| - 1]) + if last.Receive? then [(last.tti, last.samples)] else []
  }

  // ---------- the sizes of the source ----------

  const SF_BUFFER_SZ: nat := 128 * 1024
  const SYMBOL_SZ_MAX: nat := 2048

  /** Cyclic prefix and sequence of the five preamble formats, in units of 1/30720 ms. */
  const TCP: seq<nat> := [3168, 21024, 6240, 21024, 448]
  const TSEQ: seq<nat> := [24576, 24576, 49152, 49152, 4096]

  /** The subframes a preamble begins: its duration in milliseconds, rounded up. */
  function NofSf(format: nat): nat
    requires format < 5
  {
    (TCP[format] + TSEQ[format] + 30719) / 30720
  }

  /** So every preamble fits the buffers at every bandwidth. */
  lemma SourceSizesFit(opportunity: Opportunity, symbolSz: nat, format: nat, nofBuffers: nat)
    requires symbolSz <= SYMBOL_SZ_MAX && format < 5
    ensures 1 <= NofSf(format) <= 3
    ensures Fits(Config(opportunity, 15 * symbolSz, NofSf(format), SF_BUFFER_SZ, nofBuffers))
  {
    var n := NofSf(format);
    assert n == 1 || n == 2 || n == 3;
  }

  // ---------- the specification of a run ----------

  /** The stream: each subframe finds a free buffer exactly if not all are outstanding. */
  function StreamOf(c: Config, turns: seq<Turn>): seq<Subframe>
    requires c.nofSf >= 1
    decreases |turns|, 0
  {
    if turns == [] then []
    else
      var front, last := turns[..|turns| - 1], turns[|turns| - 1];
      StreamOf(c, front)
      + if last.Receive? then [Subframe(last.tti, last.samples, Outstanding(c, front) < c.nofBuffers)] else []
  }

  function HandedBy(c: Config, turns: seq<Turn>): seq<Window>
    requires c.nofSf >= 1
    decreases |turns|, 1
  {
    if Fits(c) then Windows(c.opportunity, StreamOf(c, turns), c.nofSf, 0) else []
  }

  /** How many windows the detector has taken, looked at and given back. */
  datatype Progress = Progress(taken: nat, seen: nat, returned: nat)

  function ProgressOf(c: Config, turns: seq<Turn>): (p: Progress)
    requires c.nofSf >= 1
    ensures p.returned <= p.seen <= p.taken <= p.returned + 1
    decreases |turns|, 2
  {
    if turns == [] then Progress(0, 0, 0)
    else
      var front := turns[..|turns| - 1];
      var p := ProgressOf(c, front);
      match turns[|turns| - 1]
      case Receive(_, _) => p
      case Take => if p.taken == p.returned && p.taken < |HandedBy(c, front)| then p.(taken := p.taken + 1) else p
      case Look => if p.seen < p.taken then p.(seen := p.seen + 1) else p
      case GiveBack => if p.returned < p.seen then p.(returned := p.returned + 1) else p
  }

  /** Buffers that windows too long for them have used up: one, stuck half full, if at least a subframe
      fits, otherwise one for each opportunity. */
  function UsedUp(c: Config, stream: seq<Subframe>): nat
    decreases |stream|
  {
    if stream == [] then 0
    else
      var n := UsedUp(c, stream[..|stream| - 1]);
      if Starts(c.opportunity, stream[|stream| - 1]) && (c.sfLen >= c.bufferSize || n == 0) then n + 1 else n
  }

  predicate Idle(c: Config, stream: seq<Subframe>)
    requires c.nofSf >= 1
  {
    Unfinished(c.opportunity, stream, c.nofSf, 0) == |stream|
  }

  /** Buffers not free: the window being collected and the windows completed and not given back. */
  function Outstanding(c: Config, turns: seq<Turn>): int
    requires c.nofSf >= 1
    decreases |turns|, 3
  {
    if Fits(c) then
      |HandedBy(c, turns)| - ProgressOf(c, turns).returned + if Idle(c, StreamOf(c, turns)) then 0 else 1
    else UsedUp(c, StreamOf(c, turns))
  }

  // ---------- which opportunities are taken ----------

  /** An opportunity met while idle opens a window exactly if fewer than all buffers are outstanding. */
  lemma OpportunityTakenIff(c: Config, turns: seq<Turn>, tti: nat, samples: Samples)
    requires c.nofSf >= 1 && Fits(c) && c.opportunity(tti) && Idle(c, StreamOf(c, turns))
    ensures var before, after := StreamOf(c, turns), StreamOf(c, turns + [Receive(tti, samples)]);
            && |after| == |before| + 1
            && (Outstanding(c, turns) < c.nofBuffers ==>
                  if c.nofSf == 1 then HandedBy(c, turns + [Receive(tti, samples)])
                                       == HandedBy(c, turns) + [Window(tti, samples)]
                  else Unfinished(c.opportunity, after, c.nofSf, 0) == |before|)
            && (Outstanding(c, turns) >= c.nofBuffers ==>
                  Idle(c, after) && HandedBy(c, turns + [Receive(tti, samples)]) == HandedBy(c, turns))
  {
    var all := turns + [Receive(tti, samples)];
    var before := StreamOf(c, turns);
    var sf := Subframe(tti, samples, Outstanding(c, turns) < c.nofBuffers);
    assert all[..|turns|] == turns;
    assert StreamOf(c, all) == before + [sf];
    OneMore(c.opportunity, before, sf, c.nofSf, 0);
    SingleWindow(before, sf);
    hide StreamOf, Outstanding, Windows, Unfinished, WindowAt;
  }

  lemma SingleWindow(before: seq<Subframe>, sf: Subframe)
    ensures WindowAt(before + [sf], |before|, 1) == Window(sf.tti, sf.samples)
  {
    var all := before + [sf];
    assert all[|before|..|before| + 1] == [sf];
    assert [sf][..0] == [];
    assert Join([sf]) == Join([]) + sf.samples;
  }

  /** The subframes received, as they would be if buffers never ran out. */
  function AllFree(received: seq<(nat, Samples)>): (r: seq<Subframe>)
    ensures |r| == |received|
  {
    seq(|received|, i requires 0 <= i < |received| => Subframe(received[i].0, received[i].1, true))
  }

  predicate MeetsOpportunity(c: Config, before: seq<Turn>, turn: Turn)
    requires c.nofSf >= 1
  {
    turn.Receive? && c.opportunity(turn.tti) && Idle(c, StreamOf(c, before))
  }

  /** At every opportunity met while idle some buffer was free. */
  ghost predicate NeverShort(c: Config, turns: seq<Turn>)
    requires c.nofSf >= 1
  {
    forall k :: 0 <= k < |turns| && MeetsOpportunity(c, turns[..k], turns[k]) ==>
      Outstanding(c, turns[..k]) < c.nofBuffers
  }

  /** Two streams of the same subframes, whatever the pool was like. */
  ghost predicate SameSubframes(a: seq<Subframe>, b: seq<Subframe>) {
    |a| == |b| && forall i :: 0 <= i < |a| ==> a[i].tti == b[i].tti && a[i].samples == b[i].samples
  }

  lemma {:induction false} SameJoin(a: seq<Subframe>, b: seq<Subframe>)
    requires SameSubframes(a, b)
    ensures Join(a) == Join(b)
    decreases |a|
  {
    if a != [] {
      SameJoin(a[..|a| - 1], b[..|b| - 1]);
    }
  }

  lemma SameWindow(a: seq<Subframe>, b: seq<Subframe>, from: nat, n: nat)
    requires SameSubframes(a, b) && n >= 1 && from + n <= |a|
    ensures WindowAt(a, from, n) == WindowAt(b, from, n)
  {
    SameJoin(a[from..from + n], b[from..from + n]);
  }

  /** The windows of two streams, and where they stand, agree. */
  ghost predicate SameCapture(c: Config, a: seq<Subframe>, b: seq<Subframe>)
    requires c.nofSf >= 1
  {
    && SameSubframes(a, b)
    && Windows(c.opportunity, a, c.nofSf, 0) == Windows(c.opportunity, b, c.nofSf, 0)
    && Unfinished(c.opportunity, a, c.nofSf, 0) == Unfinished(c.opportunity, b, c.nofSf, 0)
  }

  /** They go on agreeing if the next subframe opens a window in both or in neither. */
  lemma SameNext(c: Config, a: seq<Subframe>, b: seq<Subframe>, x: Subframe, y: Subframe)
    requires c.nofSf >= 1 && SameCapture(c, a, b) && x.tti == y.tti && x.samples == y.samples
    requires Idle(c, a) ==> Starts(c.opportunity, x) == Starts(c.opportunity, y)
    ensures SameCapture(c, a + [x], b + [y])
  {
    OneMore(c.opportunity, a, x, c.nofSf, 0);
    OneMore(c.opportunity, b, y, c.nofSf, 0);
    var p := Unfinished(c.opportunity, a, c.nofSf, 0);
    assert SameSubframes(a + [x], b + [y]);
    if |a| + 1 - p == c.nofSf {
      SameWindow(a + [x], b + [y], p, c.nofSf);
    }
    hide Windows, Unfinished, WindowAt, Starts, SameSubframes;
  }

  /** If buffers never ran out at an opportunity, nothing is missed: the windows are the greedy ones of the
      subframes received. */
  lemma {:induction false} NothingMissed(c: Config, turns: seq<Turn>)
    requires c.nofSf >= 1 && NeverShort(c, turns)
    ensures SameCapture(c, StreamOf(c, turns), AllFree(Received(turns)))
    decreases |turns|
  {
    if turns != [] {
      var n := |turns| - 1;
      var front, last := turns[..n], turns[n];
      assert forall k :: 0 <= k < n ==> turns[..k] == front[..k];
      assert NeverShort(c, front) by {
        hide StreamOf, Outstanding, MeetsOpportunity;
      }
      assert NeverShort(c, turns) && MeetsOpportunity(c, front, last) ==> Outstanding(c, front) < c.nofBuffers;
      NothingMissed(c, front);
      if last.Receive? {
        var a, b := StreamOf(c, front), AllFree(Received(front));
        var x := Subframe(last.tti, last.samples, Outstanding(c, front) < c.nofBuffers);
        var y := Subframe(last.tti, last.samples, true);
        assert StreamOf(c, turns) == a + [x];
        assert AllFree(Received(turns)) == b + [y];
        assert Idle(c, a) && c.opportunity(last.tti) ==> x.bufferFree;
        hide StreamOf, Outstanding, AllFree, Received, NeverShort, SameCapture;
        SameNext(c, a, b, x, y);
      } else {
        assert StreamOf(c, turns) == StreamOf(c, front) && Received(turns) == Received(front);
      }
    }
  }

  // ---------- the worker refines it ----------

  ghost predicate ConfiguredAs(w: PrachWorker, c: Config) {
    && w.opportunity == c.opportunity && w.sfLen == c.sfLen && w.nofSf == c.nofSf
    && w.bufferSize == c.bufferSize && |w.pool| == c.nofBuffers && w.threaded
  }

  /** What the buffers do not show of a window that does not fit. */
  ghost predicate UsedUpAs(w: PrachWorker, c: Config)
    reads w`stream, w`sfCnt, w`lost
  {
    !Fits(c) ==>
      if c.sfLen < c.bufferSize then w.sfCnt > 0 <==> UsedUp(c, w.stream) == 1
      else w.sfCnt == 0 && |w.lost| == UsedUp(c, w.stream)
  }

  /** The worker is where the specification says. */
  ghost predicate At(w: PrachWorker, c: Config, turns: seq<Turn>)
    requires c.nofSf >= 1
    reads w, w.pool, w.Arrays()
  {
    && ConfiguredAs(w, c) && w.Valid() && UsedUpAs(w, c)
    && w.stream == StreamOf(c, turns)
    && w.popped == ProgressOf(c, turns).taken
    && ProgressOf(c, turns).returned == w.popped - (if w.busy != null then 1 else 0)
    && ProgressOf(c, turns).seen == w.popped - (if w.busy != null && !w.examined then 1 else 0)
  }

  /** How many buffers are free follows from the stream and what the detector has done. */
  lemma FreeCount(w: PrachWorker, c: Config, turns: seq<Turn>)
    requires c.nofSf >= 1 && At(w, c, turns)
    ensures |w.free| == c.nofBuffers - Outstanding(c, turns)
  {
    hide PrachWorker.Valid, Windows, Unfinished, StreamOf, UsedUp, ProgressOf;
    w.Standing();
    w.PoolCount();
    if c.sfLen < c.bufferSize {
      UsedUpOnce(c, w.stream);
    }
  }

  lemma {:induction false} UsedUpOnce(c: Config, stream: seq<Subframe>)
    requires c.sfLen < c.bufferSize
    ensures UsedUp(c, stream) <= 1
    decreases |stream|
  {
    if stream != [] {
      UsedUpOnce(c, stream[..|stream| - 1]);
    }
  }

  // ---------- one turn ----------

  lemma UsedUpSnoc(c: Config, stream: seq<Subframe>, sf: Subframe)
    ensures UsedUp(c, stream + [sf])
         == UsedUp(c, stream) + if Starts(c.opportunity, sf) && (c.sfLen >= c.bufferSize || UsedUp(c, stream) == 0)
                                then 1 else 0
  {
    assert (stream + [sf])[..|stream|] == stream;
  }

  /** One more turn in the specification. */
  lemma SpecTurn(c: Config, before: seq<Turn>, turn: Turn)
    requires c.nofSf >= 1
    ensures var all, p := before + [turn], ProgressOf(c, before);
            && StreamOf(c, all) == StreamOf(c, before)
               + (if turn.Receive? then [Subframe(turn.tti, turn.samples, Outstanding(c, before) < c.nofBuffers)] else [])
            && ProgressOf(c, all) == match turn
               case Receive(_, _) => p
               case Take => if p.taken == p.returned && p.taken < |HandedBy(c, before)| then p.(taken := p.taken + 1) else p
               case Look => if p.seen < p.taken then p.(seen := p.seen + 1) else p
               case GiveBack => if p.returned < p.seen then p.(returned := p.returned + 1) else p
  {
    assert (before + [turn])[..|before|] == before;
    hide Outstanding, HandedBy;
  }

  method TakeReceive(w: PrachWorker, tti: nat, samples: Samples, c: Config, ghost before: seq<Turn>)
    requires c.nofSf >= 1 && At(w, c, before) && |samples| == c.sfLen
    modifies w, w.pool, w.Arrays()
    ensures At(w, c, before + [Receive(tti, samples)])
  {
    hide PrachWorker.Valid, Windows, Unfinished, UsedUp, StreamOf, ProgressOf, Outstanding;
    SpecTurn(c, before, Receive(tti, samples));
    FreeCount(w, c, before);
    w.Standing();
    w.FreeIsNotLost();
    UsedUpSnoc(c, w.stream, Subframe(tti, samples, |w.free| > 0));
    if c.sfLen < c.bufferSize {
      UsedUpOnce(c, w.stream);
    }
    var _ := w.NewTti(tti, samples);
    assert UsedUpAs(w, c);
  }

  method TakeDetector(w: PrachWorker, turn: Turn, c: Config, ghost before: seq<Turn>)
    requires c.nofSf >= 1 && At(w, c, before) && !turn.Receive?
    modifies w, w.pool
    ensures At(w, c, before + [turn])
  {
    hide PrachWorker.Valid, Windows, Unfinished, UsedUp, StreamOf, ProgressOf, Outstanding;
    SpecTurn(c, before, turn);
    w.Standing();
    match turn {
      case Take =>
        if w.busy == null && w.pending != [] {
          w.Pop();
        }
      case Look =>
        if w.busy != null && !w.examined {
          w.Examine();
        }
      case GiveBack =>
        if w.busy != null && w.examined {
          w.BusyIsSeparate();
          w.GiveBack();
        }
    }
  }

  /** A turn of either thread. */
  method TakeTurn(w: PrachWorker, turn: Turn, c: Config, ghost before: seq<Turn>)
    requires c.nofSf >= 1 && At(w, c, before) && (turn.Receive? ==> |turn.samples| == c.sfLen)
    modifies w, w.pool, w.Arrays()
    ensures At(w, c, before + [turn])
  {
    hide At;
    match turn {
      case Receive(tti, samples) => TakeReceive(w, tti, samples, c, before);
      case _ => TakeDetector(w, turn, c, before);
    }
  }

  /** Every interleaving of the two threads, from the start: the stream with its free buffers, the number
      of buffers free, and the detector's progress are those of the specification; so the windows of it
      are captured, and the pool is kept. */
  method Interleave(c: Config, turns: seq<Turn>) returns (w: PrachWorker)
    requires c.nofSf >= 1
    requires forall i :: 0 <= i < |turns| && turns[i].Receive? ==> |turns[i].samples| == c.sfLen
    ensures fresh(w) && ConfiguredAs(w, c)
    ensures w.stream == StreamOf(c, turns) && |w.free| == c.nofBuffers - Outstanding(c, turns)
    ensures ProgressOf(c, turns).seen <= |HandedBy(c, turns)|
    ensures w.detected == HandedBy(c, turns)[..ProgressOf(c, turns).seen]
    ensures w.Captured() && w.PoolKept()
  {
    hide PrachWorker.Valid, Windows, Unfinished, PrachWorker.Captured, PrachWorker.PoolKept;
    w := new PrachWorker(c.opportunity, c.sfLen, c.nofSf, c.bufferSize, true, c.nofBuffers);
    var i := 0;
    assert turns[..0] == [] && At(w, c, []);
    hide At;
    while i < |turns|
      invariant i <= |turns| && fresh(w) && fresh(w.pool) && fresh(w.Arrays())
      invariant At(w, c, turns[..i])
    {
      TakeTurn(w, turns[i], c, turns[..i]);
      assert turns[..i + 1] == turns[..i] + [turns[i]];
      i := i + 1;
    }
    assert turns[..i] == turns;
    Reached(w, c, turns);
  }

  lemma Reached(w: PrachWorker, c: Config, turns: seq<Turn>)
    requires c.nofSf >= 1 && At(w, c, turns)
    ensures ConfiguredAs(w, c) && w.stream == StreamOf(c, turns)
    ensures |w.free| == c.nofBuffers - Outstanding(c, turns)
    ensures ProgressOf(c, turns).seen <= |HandedBy(c, turns)|
    ensures w.detected == HandedBy(c, turns)[..ProgressOf(c, turns).seen]
    ensures w.Captured() && w.PoolKept()
  {
    hide PrachWorker.Valid, Windows, Unfinished, UsedUp, StreamOf, ProgressOf, Outstanding;
    FreeCount(w, c, turns);
    w.ValidMeans();
    w.Standing();
    hide PrachWorker.PoolKept;
  }
}

/** PRACH capture: subframes are collected into pooled buffers, window by window, and handed to a
    detector thread through a queue. */
module Prach {

  type Samples = seq<int>

  /** One call of new_tti: the TTI, its samples, and whether the pool had a free buffer then. */
  datatype Subframe = Subframe(tti: nat, samples: Samples, bufferFree: bool)

  /** What the detector gets. */
  datatype Window = Window(tti: nat, samples: Samples)

  type Opportunity = nat -> bool

  // ---------- specification: the windows of a stream ----------

  /** A window may start here. */
  predicate Starts(opportunity: Opportunity, sf: Subframe) {
    opportunity(sf.tti) && sf.bufferFree
  }

  function Join(sfs: seq<Subframe>): Samples {
    if sfs == [] then [] else Join(sfs[..|sfs| - 1]) + sfs[|sfs| - 1].samples
  }

  function WindowAt(stream: seq<Subframe>, from: nat, n: nat): Window
    requires n >= 1 && from + n <= |stream|
  {
    Window(stream[from].tti, Join(stream[from..from + n]))
  }

  /** From position `from` on, while idle: skip to the first possible start, take n subframes, repeat. */
  function Windows(opportunity: Opportunity, stream: seq<Subframe>, n: nat, from: nat): seq<Window>
    requires n >= 1
    decreases |stream| - from
  {
    if from >= |stream| then []
    else if !Starts(opportunity, stream[from]) then Windows(opportunity, stream, n, from + 1)
    else if from + n > |stream| then []
    else [WindowAt(stream, from, n)] + Windows(opportunity, stream, n, from + n)
  }

  /** Where the unfinished window starts; the stream's length if there is none. */
  function Unfinished(opportunity: Opportunity, stream: seq<Subframe>, n: nat, from: nat): (p: nat)
    requires n >= 1 && from <= |stream|
    ensures from <= p <= |stream| && |stream| - p < n
    ensures p < |stream| ==> Starts(opportunity, stream[p])
    decreases |stream| - from
  {
    if from == |stream| then from
    else if !Starts(opportunity, stream[from]) then Unfinished(opportunity, stream, n, from + 1)
    else if from + n > |stream| then from
    else Unfinished(opportunity, stream, n, from + n)
  }

  /** Greedy positions, said outright: each is a possible start, at least n after the one before it (so
      windows never overlap), with no possible start passed over in between; and after the last one's
      window there is no possible start with a whole window left. */
  ghost predicate Greedy(opportunity: Opportunity, stream: seq<Subframe>, n: nat, from: nat, at: seq<nat>)
    requires n >= 1
    decreases |at|
  {
    if at == [] then
      || (forall i :: from <= i < |stream| ==> !Starts(opportunity, stream[i]))
      || (exists j: nat :: NoRoomFrom(opportunity, stream, n, from, j))
    else
      && from <= at[0] && at[0] + n <= |stream|
      && Starts(opportunity, stream[at[0]])
      && (forall i :: from <= i < at[0] ==> !Starts(opportunity, stream[i]))
      && Greedy(opportunity, stream, n, at[0] + n, at[1..])
  }

  /** The first possible start comes too late for a whole window. */
  ghost predicate NoRoomFrom(opportunity: Opportunity, stream: seq<Subframe>, n: nat, from: nat, j: nat) {
    && from <= j < |stream| < j + n
    && Starts(opportunity, stream[j])
    && forall i :: from <= i < j ==> !Starts(opportunity, stream[i])
  }

  /** The windows are those at the greedy positions. */
  lemma {:induction false} WindowsAreGreedy(opportunity: Opportunity, stream: seq<Subframe>, n: nat, from: nat)
    returns (at: seq<nat>)
    requires n >= 1
    ensures Greedy(opportunity, stream, n, from, at)
    ensures |at| == |Windows(opportunity, stream, n, from)|
    ensures forall k :: 0 <= k < |at| ==>
              at[k] + n <= |stream| && Windows(opportunity, stream, n, from)[k] == WindowAt(stream, at[k], n)
    decreases |stream| - from
  {
    hide WindowAt, Starts;
    if from >= |stream| {
      at := [];
    } else if !Starts(opportunity, stream[from]) {
      at := WindowsAreGreedy(opportunity, stream, n, from + 1);
      GreedySkips(opportunity, stream, n, from, at);
    } else if from + n > |stream| {
      at := [];
      assert NoRoomFrom(opportunity, stream, n, from, from);
    } else {
      var rest := WindowsAreGreedy(opportunity, stream, n, from + n);
      at := [from] + rest;
      GreedyTakes(opportunity, stream, n, from, rest);
      TakeWindow(opportunity, stream, n, from);
      hide Windows, Greedy;
    }
  }

  lemma GreedyTakes(opportunity: Opportunity, stream: seq<Subframe>, n: nat, from: nat, rest: seq<nat>)
    requires n >= 1 && from + n <= |stream| && Starts(opportunity, stream[from])
    requires Greedy(opportunity, stream, n, from + n, rest)
    ensures Greedy(opportunity, stream, n, from, [from] + rest)
  {
    assert ([from] + rest)[1..] == rest;
  }

  lemma GreedySkips(opportunity: Opportunity, stream: seq<Subframe>, n: nat, from: nat, at: seq<nat>)
    requires n >= 1 && from < |stream| && !Starts(opportunity, stream[from])
    requires Greedy(opportunity, stream, n, from + 1, at)
    ensures Greedy(opportunity, stream, n, from, at)
  {
    hide Starts;
    var next := from + 1;
    if j: nat :| at == [] && NoRoomFrom(opportunity, stream, n, next, j) {
      assert NoRoomFrom(opportunity, stream, n, from, j);
    }
  }

  /** One more subframe: it is skipped, opens a window, continues one, or completes it. */
  ghost predicate GrowsBy(opportunity: Opportunity, stream: seq<Subframe>, sf: Subframe, n: nat, from: nat)
    requires n >= 1 && from <= |stream|
  {
    var all := stream + [sf];
    var p := Unfinished(opportunity, stream, n, from);
    var collecting := p < |stream| || Starts(opportunity, sf);
    if collecting && |all| - p == n then
      && Windows(opportunity, all, n, from) == Windows(opportunity, stream, n, from) + [WindowAt(all, p, n)]
      && Unfinished(opportunity, all, n, from) == |all|
    else
      && Windows(opportunity, all, n, from) == Windows(opportunity, stream, n, from)
      && Unfinished(opportunity, all, n, from) == if collecting then p else |all|
  }

  lemma {:induction false} OneMore(opportunity: Opportunity, stream: seq<Subframe>, sf: Subframe, n: nat, from: nat)
    requires n >= 1 && from <= |stream|
    ensures GrowsBy(opportunity, stream, sf, n, from)
    decreases |stream| - from
  {
    hide WindowAt, Starts;
    if from == |stream| {
      GrowsAtEnd(opportunity, stream, sf, n);
    } else if !Starts(opportunity, stream[from]) {
      OneMore(opportunity, stream, sf, n, from + 1);
      assert (stream + [sf])[from] == stream[from];
    } else if from + n <= |stream| {
      OneMore(opportunity, stream, sf, n, from + n);
      GrowsPastWindow(opportunity, stream, sf, n, from);
    } else {
      GrowsInWindow(opportunity, stream, sf, n, from);
    }
  }

  lemma GrowsAtEnd(opportunity: Opportunity, stream: seq<Subframe>, sf: Subframe, n: nat)
    requires n >= 1
    ensures GrowsBy(opportunity, stream, sf, n, |stream|)
  {
    var all := stream + [sf];
    assert all[|stream|] == sf;
    assert Windows(opportunity, all, n, |all|) == [];
    assert Windows(opportunity, all, n, |all| + n - 1) == [];
    hide WindowAt;
  }

  lemma GrowsPastWindow(opportunity: Opportunity, stream: seq<Subframe>, sf: Subframe, n: nat, from: nat)
    requires n >= 1 && from + n <= |stream| && Starts(opportunity, stream[from])
    requires GrowsBy(opportunity, stream, sf, n, from + n)
    ensures GrowsBy(opportunity, stream, sf, n, from)
  {
    var all := stream + [sf];
    assert all[from] == stream[from];
    assert all[from..from + n] == stream[from..from + n];
    assert WindowAt(all, from, n) == WindowAt(stream, from, n);
    TakeWindow(opportunity, stream, n, from);
    TakeWindow(opportunity, all, n, from);
    hide WindowAt, Starts, Windows, Unfinished;
  }

  lemma TakeWindow(opportunity: Opportunity, stream: seq<Subframe>, n: nat, from: nat)
    requires n >= 1 && from + n <= |stream| && Starts(opportunity, stream[from])
    ensures Windows(opportunity, stream, n, from)
         == [WindowAt(stream, from, n)] + Windows(opportunity, stream, n, from + n)
    ensures Unfinished(opportunity, stream, n, from) == Unfinished(opportunity, stream, n, from + n)
  {
  }

  lemma GrowsInWindow(opportunity: Opportunity, stream: seq<Subframe>, sf: Subframe, n: nat, from: nat)
    requires n >= 1 && from < |stream| < from + n && Starts(opportunity, stream[from])
    ensures GrowsBy(opportunity, stream, sf, n, from)
  {
    var all := stream + [sf];
    assert all[from] == stream[from];
    hide WindowAt, Starts;
    if from + n == |all| {
      assert Windows(opportunity, all, n, |all|) == [];
    }
  }

  lemma StillOpen(opportunity: Opportunity, stream: seq<Subframe>, sf: Subframe, n: nat)
    requires n >= 1
    requires var p := Unfinished(opportunity, stream, n, 0);
             (p < |stream| || Starts(opportunity, sf)) && |stream| + 1 - p < n
    ensures Windows(opportunity, stream + [sf], n, 0) == Windows(opportunity, stream, n, 0)
    ensures Unfinished(opportunity, stream + [sf], n, 0) == Unfinished(opportunity, stream, n, 0)
  {
    OneMore(opportunity, stream, sf, n, 0);
    hide Windows, Unfinished, Starts, WindowAt;
  }

  lemma Closes(opportunity: Opportunity, stream: seq<Subframe>, sf: Subframe, n: nat)
    requires n >= 1
    requires var p := Unfinished(opportunity, stream, n, 0);
             (p < |stream| || Starts(opportunity, sf)) && |stream| + 1 - p == n
    ensures Windows(opportunity, stream + [sf], n, 0)
         == Windows(opportunity, stream, n, 0) + [WindowAt(stream + [sf], Unfinished(opportunity, stream, n, 0), n)]
    ensures Unfinished(opportunity, stream + [sf], n, 0) == |stream| + 1
  {
    OneMore(opportunity, stream, sf, n, 0);
    hide Windows, Unfinished, Starts, WindowAt;
  }

  /** Every window starts at an opportunity, so the detector's own test of that never fails. */
  lemma {:induction false} WindowsStartAtOpportunities(opportunity: Opportunity, stream: seq<Subframe>, n: nat, from: nat)
    requires n >= 1
    ensures forall w :: w in Windows(opportunity, stream, n, from) ==> opportunity(w.tti)
    decreases |stream| - from
  {
    if from < |stream| {
      if !Starts(opportunity, stream[from]) {
        WindowsStartAtOpportunities(opportunity, stream, n, from + 1);
      } else if from + n <= |stream| {
        WindowsStartAtOpportunities(opportunity, stream, n, from + n);
      }
    }
  }

  lemma {:induction false} JoinLength(sfs: seq<Subframe>, len: nat)
    requires forall i :: 0 <= i < |sfs| ==> |sfs[i].samples| == len
    ensures |Join(sfs)| == |sfs| * len
    decreases |sfs|
  {
    if sfs != [] {
      JoinLength(sfs[..|sfs| - 1], len);
      assert |sfs| * len == (|sfs| - 1) * len + len;
    }
  }

  /** The samples of a window, subframe by subframe. */
  lemma {:induction false} JoinAt(sfs: seq<Subframe>, len: nat, i: nat, j: nat)
    requires forall k :: 0 <= k < |sfs| ==> |sfs[k].samples| == len
    requires i < |sfs| && j < len
    ensures |Join(sfs)| == |sfs| * len && i * len + j < |Join(sfs)|
    ensures Join(sfs)[i * len + j] == sfs[i].samples[j]
    decreases |sfs|
  {
    var front := sfs[..|sfs| - 1];
    JoinLength(sfs, len);
    JoinLength(front, len);
    if i < |front| {
      JoinAt(front, len, i, j);
    }
  }

  /** A window has the TTI of its first subframe and the samples of all n subframes in order. */
  lemma WindowSamples(stream: seq<Subframe>, from: nat, n: nat, len: nat, i: nat, j: nat)
    requires from + n <= |stream| && i < n && j < len
    requires forall k :: from <= k < from + n ==> |stream[k].samples| == len
    ensures var w := WindowAt(stream, from, n);
            && w.tti == stream[from].tti && |w.samples| == n * len && i * len + j < n * len
            && w.samples[i * len + j] == stream[from + i].samples[j]
  {
    JoinAt(stream[from..from + n], len, i, j);
  }

  lemma JoinSnoc(stream: seq<Subframe>, sf: Subframe, p: nat)
    requires p <= |stream|
    ensures Join((stream + [sf])[p..]) == Join(stream[p..]) + sf.samples
    ensures p < |stream| ==> (stream + [sf])[p] == stream[p]
    ensures p == |stream| ==> (stream + [sf])[p] == sf
  {
    assert (stream + [sf])[p..] == stream[p..] + [sf];
    assert (stream[p..] + [sf])[..|stream[p..]|] == stream[p..];
  }

  lemma OneLonger(n: nat, len: nat)
    ensures (n + 1) * len == n * len + len
  {
  }

  // ---------- the buffers ----------

  class SfBuffer {
    const samples: array<int>
    var nofSamples: nat
    var tti: nat

    constructor (size: nat)
      ensures samples.Length == size && nofSamples == 0 && fresh(samples)
    {
      samples := new int[size];
      nofSamples, tti := 0, 0;
    }

    method Reset()
      modifies this
      ensures nofSamples == 0
    {
      nofSamples := 0;
      tti := 0;
    }

    /** memcpy of one subframe behind the samples already there. */
    method Append(at: nat, src: Samples)
      requires at + |src| <= samples.Length
      modifies samples
      ensures samples[..at] == old(samples[..at])
      ensures samples[at..at + |src|] == src
    {
      var i := 0;
      while i < |src|
        invariant 0 <= i <= |src|
        invariant samples[..at] == old(samples[..at])
        invariant forall k :: at <= k < at + i ==> samples[k] == src[k - at]
      {
        samples[at + i] := src[i];
        i := i + 1;
      }
    }

    /** Stores a subframe at the given place, which is where the samples so far end. */
    method AddSubframe(at: nat, src: Samples, first: bool, ttiRx: nat)
      requires at == nofSamples && at + |src| <= samples.Length
      modifies this, samples
      ensures nofSamples == at + |src|
      ensures samples[..nofSamples] == old(samples[..nofSamples]) + src
      ensures tti == if first then ttiRx else old(tti)
    {
      Append(at, src);
      nofSamples := nofSamples + |src|;
      if first {
        tti := ttiRx;
      }
      assert samples[..at + |src|] == samples[..at] + samples[at..at + |src|];
    }
  }

  ghost predicate NoDuplicates<T>(s: seq<T>) {
    forall i, j :: 0 <= i < j < |s| ==> s[i] != s[j]
  }

  /** Every buffer of the pool is in exactly one place: free, queued, being filled, or being processed. */
  ghost predicate Split(pool: seq<SfBuffer>, free: seq<SfBuffer>, queued: seq<SfBuffer>,
                        filling: set<SfBuffer>, taken: set<SfBuffer>)
  {
    && NoDuplicates(free) && NoDuplicates(queued)
    && (forall b :: b in free ==> b !in queued && b !in filling && b !in taken)
    && (forall b :: b in queued ==> b !in filling && b !in taken)
    && filling !! taken
    && (forall b :: b in pool ==> b in free || b in queued || b in filling || b in taken)
    && (forall b :: b in free ==> b in pool) && (forall b :: b in queued ==> b in pool)
    && (forall b :: b in filling ==> b in pool) && (forall b :: b in taken ==> b in pool)
  }

  lemma SplitAllocate(pool: seq<SfBuffer>, free: seq<SfBuffer>, queued: seq<SfBuffer>, taken: set<SfBuffer>)
    requires Split(pool, free, queued, {}, taken) && free != []
    ensures Split(pool, free[..|free| - 1], queued, {free[|free| - 1]}, taken)
    ensures free[|free| - 1] in pool
  {
    assert free == free[..|free| - 1] + [free[|free| - 1]];
  }

  lemma SplitFilling(pool: seq<SfBuffer>, free: seq<SfBuffer>, queued: seq<SfBuffer>, b: SfBuffer, taken: set<SfBuffer>)
    requires Split(pool, free, queued, {b}, taken)
    ensures b in pool && b !in free && b !in queued && b !in taken
  {
  }

  lemma SplitPush(pool: seq<SfBuffer>, free: seq<SfBuffer>, queued: seq<SfBuffer>, b: SfBuffer, taken: set<SfBuffer>)
    requires Split(pool, free, queued, {b}, taken)
    ensures Split(pool, free, queued + [b], {}, taken)
  {
  }

  lemma SplitFree(pool: seq<SfBuffer>, free: seq<SfBuffer>, queued: seq<SfBuffer>, b: SfBuffer, taken: set<SfBuffer>)
    requires Split(pool, free, queued, {b}, taken)
    ensures Split(pool, free + [b], queued, {}, taken)
  {
  }

  lemma SplitLose(pool: seq<SfBuffer>, free: seq<SfBuffer>, queued: seq<SfBuffer>, b: SfBuffer, taken: set<SfBuffer>)
    requires Split(pool, free, queued, {b}, taken)
    ensures Split(pool, free, queued, {}, taken + {b})
  {
  }

  lemma SplitPop(pool: seq<SfBuffer>, free: seq<SfBuffer>, queued: seq<SfBuffer>, filling: set<SfBuffer>)
    requires Split(pool, free, queued, filling, {}) && queued != []
    ensures Split(pool, free, queued[1..], filling, {queued[0]})
  {
    assert queued == [queued[0]] + queued[1..];
  }

  lemma SplitReturn(pool: seq<SfBuffer>, free: seq<SfBuffer>, queued: seq<SfBuffer>, filling: set<SfBuffer>, b: SfBuffer)
    requires Split(pool, free, queued, filling, {b})
    ensures Split(pool, free + [b], queued, filling, {})
  {
  }

  lemma {:induction false} SetOf(s: seq<SfBuffer>)
    requires NoDuplicates(s)
    ensures |set b | b in s| == |s|
    decreases |s|
  {
    if s == [] {
      assert (set b | b in s) == {};
    } else {
      var front, b := s[..|s| - 1], s[|s| - 1];
      SetOf(front);
      assert (set x | x in s) == (set x | x in front) + {b};
    }
  }

  lemma SplitCounts(
    pool: seq<SfBuffer>, free: seq<SfBuffer>, queued: seq<SfBuffer>, filling: set<SfBuffer>, taken: set<SfBuffer>)
    requires NoDuplicates(pool) && Split(pool, free, queued, filling, taken)
    ensures |pool| == |free| + |queued| + |filling| + |taken|
  {
    SetOf(pool);
    SetOf(free);
    SetOf(queued);
    var all, f, q := set b | b in pool, set b | b in free, set b | b in queued;
    forall b
      ensures b in all <==> b in f || b in q || b in filling || b in taken
    {
    }
    assert f !! q && f !! filling && f !! taken && q !! filling && q !! taken;
    hide Split, NoDuplicates;
    FourParts(all, f, q, filling, taken);
  }

  lemma FourParts<T>(all: set<T>, a: set<T>, b: set<T>, c: set<T>, d: set<T>)
    requires forall x :: x in all <==> x in a || x in b || x in c || x in d
    requires a !! b && a !! c && a !! d && b !! c && b !! d && c !! d
    ensures |all| == |a| + |b| + |c| + |d|
  {
    assert all == a + b + (c + d);
    assert (a + b) !! (c + d);
  }

  lemma TakeOne<T>(s: seq<T>, n: nat)
    requires n < |s|
    ensures s[..n] + [s[n]] == s[..n + 1]
  {
  }

  lemma WindowCoversSubframe(n: nat, len: nat)
    requires n >= 1
    ensures len <= n * len
  {
  }

  // ---------- the worker ----------

  class PrachWorker {
    const opportunity: Opportunity
    /** Samples of a subframe, subframes of a window, samples a buffer has room for. */
    const sfLen: nat
    const nofSf: nat
    const bufferSize: nat
    /** Without worker threads the window is processed by new_tti itself. */
    const threaded: bool
    const pool: seq<SfBuffer>

    var free: seq<SfBuffer>
    var pending: seq<SfBuffer>
    var current: SfBuffer?
    var sfCnt: nat
    /** The buffer the detector thread holds, and whether it has been looked at. */
    var busy: SfBuffer?
    var examined: bool

    /** Buffers that a subframe too long for any buffer has cost the pool. */
    ghost var lost: set<SfBuffer>
    ghost var stream: seq<Subframe>
    ghost var popped: nat
    ghost var detected: seq<Window>

    /** The windows handed over so far: all of the stream's if a window fits a buffer, otherwise none. */
    ghost function Handed(): seq<Window>
      reads `stream
      requires nofSf >= 1
    {
      if nofSf * sfLen < bufferSize then Windows(opportunity, stream, nofSf, 0) else []
    }

    ghost function Filling(): set<SfBuffer>
      reads `sfCnt, `current
    {
      if sfCnt > 0 && current != null then {current} else {}
    }

    ghost function Taken(): set<SfBuffer>
      reads `lost, `busy
    {
      lost + if busy != null then {busy} else {}
    }

    ghost function Arrays(): set<array<int>> {
      set b | b in pool :: b.samples
    }

    ghost predicate Configured() {
      && nofSf >= 1
      && (forall b :: b in pool ==> b.samples.Length == bufferSize)
      && NoDuplicates(pool)
      && (forall b, c :: b in pool && c in pool && b != c ==> b.samples != c.samples)
    }

    function WindowOf(b: SfBuffer): Window
      requires b.nofSamples <= b.samples.Length
      reads b, b.samples
    {
      Window(b.tti, b.samples[..b.nofSamples])
    }

    ghost predicate Holds(b: SfBuffer, w: Window)
      reads b, b.samples
    {
      b.nofSamples <= b.samples.Length && WindowOf(b) == w
    }

    /** The current buffer holds exactly the subframes counted so far. */
    ghost predicate Collecting()
      reads `stream, `sfCnt, `current, pool, Arrays()
      requires Configured()
    {
      && (forall i :: 0 <= i < |stream| ==> |stream[i].samples| == sfLen)
      && (sfCnt > 0 ==> current != null && current in pool && sfCnt < nofSf
                        && current.nofSamples == sfCnt * sfLen <= bufferSize)
      && (nofSf * sfLen < bufferSize ==>
            var p := Unfinished(opportunity, stream, nofSf, 0);
            && sfCnt == |stream| - p
            && (sfCnt > 0 ==> current.tti == stream[p].tti && current.samples[..current.nofSamples] == Join(stream[p..])))
    }

    /** The queue holds the windows handed over and not yet taken. */
    ghost predicate QueueHolds()
      reads `stream, `pending, `popped, pool, Arrays()
      requires nofSf >= 1
    {
      && |Handed()| >= popped + |pending|
      && forall i :: 0 <= i < |pending| ==> pending[i] in pool && Holds(pending[i], Handed()[popped + i])
    }

    /** The buffer taken still holds its window until it has been looked at. */
    ghost predicate HandHolds()
      reads `stream, `busy, `examined, `popped, pool, Arrays()
      requires nofSf >= 1
    {
      busy != null ==> busy in pool && 1 <= popped <= |Handed()| && (!examined ==> Holds(busy, Handed()[popped - 1]))
    }

    /** Those taken were detected in order. */
    ghost predicate Detected()
      reads `stream, `busy, `examined, `popped, `detected
      requires nofSf >= 1
    {
      var n := if busy != null && !examined then popped - 1 else popped;
      0 <= n <= |Handed()| && detected == Handed()[..n]
    }

    ghost predicate HandedOver()
      reads this, pool, Arrays()
      requires Configured()
    {
      && |Handed()| == popped + |pending|
      && QueueHolds() && HandHolds() && Detected()
      && (!threaded ==> pending == [] && busy == null)
    }

    ghost predicate Valid()
      reads this, pool, Arrays()
    {
      && Configured()
      && Split(pool, free, pending, Filling(), Taken())
      && (forall b :: b in free ==> b.nofSamples == 0)
      && (lost != {} ==> sfLen >= bufferSize)
      && Collecting()
      && HandedOver()
    }

    /** Changing one buffer does not disturb the windows in others. */
    twostate lemma WindowsKept(b: SfBuffer)
      requires Configured() && old(QueueHolds()) && old(HandHolds())
      requires unchanged(`stream) && unchanged(`pending) && unchanged(`popped)
      requires b !in pending
      requires forall c :: c in pool && c != b ==> unchanged(c) && unchanged(c.samples)
      ensures QueueHolds()
      ensures unchanged(`busy) && unchanged(`examined) && b != busy ==> HandHolds()
    {
      hide Handed;
    }

    constructor (opportunity: Opportunity, sfLen: nat, nofSf: nat, bufferSize: nat, threaded: bool, nofBuffers: nat)
      requires nofSf >= 1
      ensures Valid() && stream == [] && lost == {} && sfCnt == 0 && popped == 0 && busy == null
      ensures |pool| == nofBuffers && |free| == nofBuffers
      ensures fresh(pool) && fresh(Arrays())
      ensures this.opportunity == opportunity && this.sfLen == sfLen && this.nofSf == nofSf
      ensures this.bufferSize == bufferSize && this.threaded == threaded
    {
      this.opportunity, this.sfLen, this.nofSf, this.bufferSize := opportunity, sfLen, nofSf, bufferSize;
      this.threaded := threaded;
      var buffers: seq<SfBuffer> := [];
      var i := 0;
      while i < nofBuffers
        invariant 0 <= i == |buffers| <= nofBuffers
        invariant fresh(buffers) && NoDuplicates(buffers)
        invariant forall b :: b in buffers ==> b.samples.Length == bufferSize && b.nofSamples == 0 && fresh(b.samples)
        invariant forall b, c :: b in buffers && c in buffers && b != c ==> b.samples != c.samples
      {
        var b := new SfBuffer(bufferSize);
        buffers := buffers + [b];
        i := i + 1;
      }
      pool, free := buffers, buffers;
      pending, current, sfCnt, busy, examined := [], null, 0, null, false;
      stream, popped, detected, lost := [], 0, [], {};
    }

    // ---------- producer: the receive thread ----------

    /** A subframe that opens no window and belongs to none. */
    ghost method Skip(sf: Subframe)
      requires Valid() && sfCnt == 0 && !Starts(opportunity, sf) && |sf.samples| == sfLen
      modifies this`stream
      ensures Valid() && stream == old(stream) + [sf]
    {
      hide Windows, Unfinished, Starts, Split, WindowAt, Join, NoDuplicates, Holds, WindowOf;
      OneMore(opportunity, stream, sf, nofSf, 0);
      stream := stream + [sf];
    }

    /** The pool had no buffer for it. */
    method SkipWithoutBuffer(ghost sf: Subframe)
      requires Valid() && sfCnt == 0 && !Starts(opportunity, sf) && |sf.samples| == sfLen
      modifies this`stream, this`current
      ensures Valid() && stream == old(stream) + [sf] && current == null
    {
      hide Windows, Unfinished, Starts, Split, Join, NoDuplicates, Holds, WindowOf;
      Skip(sf);
      current := null;
    }

    /** Buffer b is out of the pool for the subframes counted so far, possibly none yet. */
    ghost predicate Opened(b: SfBuffer)
      reads this, pool, Arrays()
    {
      && Configured() && b in pool && current == b
      && Split(pool, free, pending, {b}, Taken())
      && (forall c :: c in free ==> c.nofSamples == 0)
      && (lost != {} ==> sfLen >= bufferSize)
      && sfCnt < nofSf && b.nofSamples == sfCnt * sfLen <= bufferSize
      && (forall i :: 0 <= i < |stream| ==> |stream[i].samples| == sfLen)
      && (nofSf * sfLen < bufferSize ==>
            var p := Unfinished(opportunity, stream, nofSf, 0);
            && sfCnt == |stream| - p
            && (sfCnt > 0 ==> b.tti == stream[p].tti)
            && b.samples[..sfCnt * sfLen] == Join(stream[p..]))
      && HandedOver()
    }

    /** Takes the most recently freed buffer from the pool. */
    method Allocate()
      requires Valid() && sfCnt == 0 && free != []
      modifies this`free, this`current
      ensures current != null && Opened(current) && current == old(free[|free| - 1])
    {
      hide Windows, Split, NoDuplicates;
      SplitAllocate(pool, free, pending, Taken());
      current := free[|free| - 1];
      free := free[..|free| - 1];
      assert stream[|stream|..] == [] && current.samples[..0] == [];
    }

    lemma OpenWhileCollecting()
      requires Valid() && sfCnt > 0
      ensures current != null && Opened(current)
    {
      hide Windows, Split, NoDuplicates;
    }

    /** A buffer without room for another subframe: nothing is stored, now or later. If it was meant for
        the first subframe it is lost to the pool, for the next opportunity takes another one. */
    ghost method Stuck(sf: Subframe)
      requires current != null && Opened(current) && |sf.samples| == sfLen
      requires sfCnt * sfLen + sfLen >= bufferSize
      modifies this`stream, this`lost
      ensures Valid() && stream == old(stream) + [sf] && nofSf * sfLen >= bufferSize
      ensures lost == old(lost) + if sfCnt == 0 then {current} else {}
    {
      hide Windows, Unfinished, Split, Join, NoDuplicates;
      NoRoomForWindow();
      if sfCnt == 0 {
        SplitLose(pool, free, pending, current, Taken());
        lost := lost + {current};
        assert Taken() == old(Taken()) + {current};
      }
      stream := stream + [sf];
    }

    lemma NoRoomForWindow()
      requires sfCnt < nofSf && sfCnt * sfLen + sfLen >= bufferSize
      ensures nofSf * sfLen >= bufferSize
    {
      assert (sfCnt + 1) * sfLen <= nofSf * sfLen;
    }

    /** Buffer b now also holds the samples of sf, which is not counted yet. */
    ghost predicate Stored(b: SfBuffer, sf: Subframe)
      reads this, pool, Arrays()
    {
      && Configured() && b in pool && current == b
      && Split(pool, free, pending, {b}, Taken())
      && (forall c :: c in free ==> c.nofSamples == 0)
      && (lost != {} ==> sfLen >= bufferSize)
      && sfCnt < nofSf && b.nofSamples == (sfCnt + 1) * sfLen < bufferSize
      && (forall i :: 0 <= i < |stream| ==> |stream[i].samples| == sfLen) && |sf.samples| == sfLen
      && (sfCnt == 0 ==> Starts(opportunity, sf))
      && (nofSf * sfLen < bufferSize ==>
            var p := Unfinished(opportunity, stream, nofSf, 0);
            && sfCnt == |stream| - p
            && b.tti == (stream + [sf])[p].tti
            && b.samples[..b.nofSamples] == Join((stream + [sf])[p..]))
      && HandedOver()
    }

    method StoreSubframe(b: SfBuffer, ttiRx: nat, bufferRx: Samples, ghost sf: Subframe)
      requires Opened(b) && |bufferRx| == sfLen && b.nofSamples + sfLen < bufferSize
      requires sf.tti == ttiRx && sf.samples == bufferRx && (sfCnt == 0 ==> Starts(opportunity, sf))
      modifies b, b.samples
      ensures Stored(b, sf)
    {
      hide Windows, Unfinished, NoDuplicates, Starts, Split, QueueHolds, HandHolds, Detected, Join;
      ghost var p := Unfinished(opportunity, stream, nofSf, 0);
      JoinSnoc(stream, sf, p);
      OneLonger(sfCnt, sfLen);
      SplitFilling(pool, free, pending, b, Taken());
      assert b != busy;
      b.AddSubframe(sfCnt * sfLen, bufferRx, sfCnt == 0, ttiRx);
      WindowsKept(b);
    }

    method Collect(b: SfBuffer, ttiRx: nat, bufferRx: Samples, ghost sf: Subframe) returns (ret: int)
      requires Opened(b) && sf.tti == ttiRx && sf.samples == bufferRx && |bufferRx| == sfLen
      requires sfCnt == 0 ==> Starts(opportunity, sf)
      modifies this, pool, Arrays()
      ensures Valid() && stream == old(stream) + [sf]
      ensures ret == 0 || (ret == -1 && nofSf * sfLen >= bufferSize)
      ensures sfLen < bufferSize ==> lost == {}
      ensures sfLen >= bufferSize && old(sfCnt) == 0 ==> sfCnt == 0 && lost == old(lost) + {b}
      ensures sfLen < bufferSize <= nofSf * sfLen ==> sfCnt > 0
      ensures threaded ==> popped == old(popped) && detected == old(detected) && old(pending) <= pending
      ensures threaded ==> busy == old(busy) && examined == old(examined)
    {
      if b.nofSamples + sfLen >= bufferSize {
        Stuck(sf);
        return -1;
      }
      StoreSubframe(b, ttiRx, bufferRx, sf);
      if sfCnt + 1 < nofSf {
        KeepCollecting(b, sf);
      } else {
        Complete(b, sf);
      }
      return 0;
    }

    /** The subframe just stored does not complete a window. */
    method KeepCollecting(b: SfBuffer, ghost sf: Subframe)
      requires Stored(b, sf) && sfCnt + 1 < nofSf
      modifies this`sfCnt, this`stream
      ensures Valid() && stream == old(stream) + [sf]
    {
      hide Windows, Unfinished, Starts, Split, WindowAt, Join, Holds, NoDuplicates, WindowOf;
      OneLonger(sfCnt, sfLen);
      if nofSf * sfLen < bufferSize {
        StillOpen(opportunity, stream, sf, nofSf);
      }
      sfCnt := sfCnt + 1;
      stream := stream + [sf];
    }

    /** A buffer whose window is complete but not handed over yet. */
    ghost predicate Full(b: SfBuffer)
      reads this, pool, Arrays()
    {
      && Configured() && b in pool && sfCnt == 0
      && Split(pool, free, pending, {b}, Taken())
      && (forall c :: c in free ==> c.nofSamples == 0)
      && (lost != {} ==> sfLen >= bufferSize)
      && Collecting()
      && |Handed()| == popped + |pending| + 1
      && Holds(b, Handed()[popped + |pending|])
      && QueueHolds() && HandHolds() && Detected()
      && (!threaded ==> pending == [] && busy == null)
    }

    /** The subframe just stored is the last of its window. */
    method CloseWindow(b: SfBuffer, ghost sf: Subframe)
      requires Stored(b, sf) && sfCnt + 1 == nofSf
      modifies this`sfCnt, this`stream
      ensures Full(b) && stream == old(stream) + [sf]
    {
      hide Windows, Unfinished, Starts, Split, Join, NoDuplicates;
      ghost var p := Unfinished(opportunity, stream, nofSf, 0);
      Closes(opportunity, stream, sf, nofSf);
      assert (stream + [sf])[p..p + nofSf] == (stream + [sf])[p..];
      sfCnt := 0;
      stream := stream + [sf];
    }

    method Complete(b: SfBuffer, ghost sf: Subframe)
      requires Stored(b, sf) && sfCnt + 1 == nofSf
      modifies this, pool, Arrays()
      ensures Valid() && stream == old(stream) + [sf]
      ensures threaded ==> popped == old(popped) && detected == old(detected) && old(pending) <= pending
      ensures threaded ==> busy == old(busy) && examined == old(examined)
    {
      hide Valid, Windows, Unfinished, Join, NoDuplicates, Starts, Split, Collecting, QueueHolds, HandHolds, Detected;
      CloseWindow(b, sf);
      if threaded {
        Push(b);
      } else {
        ProcessInline(b);
      }
    }

    method Push(b: SfBuffer)
      requires Full(b) && threaded
      modifies this`pending
      ensures Valid() && pending == old(pending) + [b]
    {
      hide Windows, Unfinished, Split;
      SplitPush(pool, free, pending, b, Taken());
      pending := pending + [b];
    }

    /** The detector: it looks at the window only if it starts at an opportunity. */
    method RunTti(b: SfBuffer) returns (ghost seen: seq<Window>)
      requires b.nofSamples <= b.samples.Length
      ensures seen == if opportunity(b.tti) then [WindowOf(b)] else []
    {
      seen := [];
      if opportunity(b.tti) {
        seen := [WindowOf(b)];
      }
    }

    method ProcessInline(b: SfBuffer)
      requires Full(b) && !threaded
      modifies this`free, this`popped, this`detected, b
      ensures Valid() && stream == old(stream)
    {
      hide Windows, Unfinished, Split;
      AlwaysAtOpportunity(popped + |pending|);
      SplitFree(pool, free, pending, b, Taken());
      ghost var seen := RunTti(b);
      detected := detected + seen;
      b.Reset();
      free := free + [b];
      popped := popped + 1;
    }

    lemma AlwaysAtOpportunity(i: nat)
      requires nofSf >= 1 && i < |Handed()|
      ensures opportunity(Handed()[i].tti)
    {
      WindowsStartAtOpportunities(opportunity, stream, nofSf, 0);
    }

    method NewTti(ttiRx: nat, bufferRx: Samples) returns (ret: int)
      requires Valid() && |bufferRx| == sfLen
      modifies this, pool, Arrays()
      ensures Valid() && stream == old(stream) + [Subframe(ttiRx, bufferRx, |old(free)| > 0)]
      ensures ret == 0 || (ret == -1 && nofSf * sfLen >= bufferSize)
      ensures sfLen < bufferSize ==> lost == {}
      ensures sfLen >= bufferSize && old(sfCnt) == 0 ==>
                && sfCnt == 0
                && lost == old(lost) + if opportunity(ttiRx) && old(free) != [] then {old(free)[|old(free)| - 1]} else {}
      ensures sfLen < bufferSize <= nofSf * sfLen ==>
                (sfCnt > 0 <==> old(sfCnt) > 0 || (opportunity(ttiRx) && old(free) != []))
      ensures threaded ==> popped == old(popped) && detected == old(detected) && old(pending) <= pending
      ensures threaded ==> busy == old(busy) && examined == old(examined)
    {
      hide Collecting, HandedOver, Opened, Split, Configured;
      ghost var sf := Subframe(ttiRx, bufferRx, |free| > 0);
      if !(opportunity(ttiRx) || sfCnt > 0) {
        Skip(sf);
        return 0;
      }
      if sfCnt == 0 {
        if free == [] {
          SkipWithoutBuffer(sf);
          return 0;
        }
        Allocate();
      } else {
        OpenWhileCollecting();
      }
      ret := Collect(current, ttiRx, bufferRx, sf);
    }

    // ---------- consumer: the detector thread ----------

    lemma BusyIsSeparate()
      requires Valid() && busy != null
      ensures busy in pool && busy !in pending && busy !in free && (sfCnt > 0 ==> busy != current)
    {
    }

    /** Where windows do get through no buffer is ever lost. */
    lemma NothingLost()
      requires Valid() && (pending != [] || busy != null)
      ensures lost == {}
    {
      hide Windows, Unfinished, Split, Join, Collecting;
      assert nofSf * sfLen < bufferSize;
      WindowCoversSubframe(nofSf, sfLen);
    }

    method Pop()
      requires Valid() && threaded && busy == null && pending != []
      modifies this`pending, this`busy, this`examined, this`popped
      ensures Valid() && busy == old(pending)[0] && pending == old(pending)[1..] && !examined
      ensures popped == old(popped) + 1
    {
      hide Windows, Unfinished, Split, Join, NoDuplicates, Starts, Holds, WindowOf;
      NothingLost();
      assert Taken() == {};
      SplitPop(pool, free, pending, Filling());
      busy, examined := pending[0], false;
      pending := pending[1..];
      popped := popped + 1;
      assert Taken() == {busy};
    }

    lemma WindowInHand()
      requires Valid() && busy != null && !examined
      ensures nofSf >= 1 && 1 <= popped <= |Handed()| && detected == Handed()[..popped - 1]
      ensures busy.nofSamples <= busy.samples.Length && WindowOf(busy) == Handed()[popped - 1]
      ensures opportunity(busy.tti)
    {
      hide Windows, Unfinished, Split, Join, NoDuplicates, Starts, Collecting, QueueHolds, Handed;
      AlwaysAtOpportunity(popped - 1);
    }

    /** The window is looked at exactly as it was handed over, whatever was received meanwhile. */
    method Examine()
      requires Valid() && busy != null && !examined
      modifies this`detected, this`examined
      ensures Valid() && examined && popped == old(popped)
      ensures popped >= 1 && |Handed()| >= popped && Handed() == old(Handed())
      ensures detected == old(detected) + [Handed()[popped - 1]]
    {
      hide Configured, Windows, Unfinished, Split, Join, NoDuplicates, Starts, Holds, WindowOf, Taken, Filling, Handed;
      WindowInHand();
      TakeOne(Handed(), popped - 1);
      ghost var seen := RunTti(busy);
      detected := detected + seen;
      examined := true;
    }

    /** The buffer is reset and goes back to the pool. */
    method GiveBack()
      requires Valid() && busy != null && examined
      modifies this`free, this`busy, this`examined, busy
      ensures Valid() && busy == null && free == old(free) + [old(busy)]
    {
      hide Windows, Unfinished, Split, Join, NoDuplicates, Starts;
      BusyIsSeparate();
      NothingLost();
      assert Taken() == {busy};
      SplitReturn(pool, free, pending, Filling(), busy);
      busy.Reset();
      free := free + [busy];
      busy, examined := null, false;
      assert Taken() == {};
    }

    // ---------- what the invariant means for a reader ----------

    /** The window taken from the queue but not looked at yet. */
    ghost function InHand(): nat
      reads this
    {
      if busy != null && !examined then 1 else 0
    }

    /** Where the windows stand, in numbers. */
    lemma Standing()
      requires Valid()
      ensures nofSf >= 1 && |Handed()| == popped + |pending|
      ensures nofSf * sfLen < bufferSize ==>
                && lost == {}
                && (sfCnt > 0 <==> Unfinished(opportunity, stream, nofSf, 0) < |stream|)
      ensures nofSf * sfLen >= bufferSize ==> pending == [] && busy == null
      ensures sfLen < bufferSize ==> lost == {}
    {
      hide Windows, Unfinished, Split, Join, NoDuplicates, Starts, QueueHolds, Detected;
      if nofSf * sfLen < bufferSize {
        WindowCoversSubframe(nofSf, sfLen);
      }
    }

    lemma FreeIsNotLost()
      requires Valid()
      ensures forall b :: b in free ==> b !in lost
    {
      hide Windows, Unfinished, Join, Starts, QueueHolds, HandHolds, Detected, Collecting;
    }

    /** The places of the pool add up. */
    lemma PoolCount()
      requires Valid()
      ensures |pool| == |free| + |pending| + |lost| + (if sfCnt > 0 then 1 else 0) + (if busy != null then 1 else 0)
    {
      hide Windows, Unfinished, Split, Join, Starts, QueueHolds, Detected;
      SplitCounts(pool, free, pending, Filling(), Taken());
      if busy != null {
        NothingLost();
        assert Taken() == {busy};
      } else {
        assert Taken() == lost;
      }
    }

    /** Windows that fit a buffer are looked at in order, none skipped and none twice; those not looked at
        yet are in hand or queued, in order and unharmed. Of windows that do not fit there are none. */
    ghost predicate Captured()
      requires nofSf >= 1
      reads this, pool, Arrays()
    {
      var windows := if nofSf * sfLen < bufferSize then Windows(opportunity, stream, nofSf, 0) else [];
      && detected <= windows && |windows| == |detected| + InHand() + |pending|
      && (InHand() == 1 ==> busy in pool && Holds(busy, windows[|detected|]))
      && (forall i :: 0 <= i < |pending| ==>
            pending[i] in pool && Holds(pending[i], windows[|detected| + InHand() + i]))
    }

    /** Every buffer is in exactly one place, free ones are empty, and none is lost unless a subframe is
        too long for any. */
    ghost predicate PoolKept()
      reads this, pool
    {
      && Split(pool, free, pending, Filling(), Taken())
      && (forall b :: b in free ==> b.nofSamples == 0)
      && (sfCnt > 0 ==> current != null && current in pool && current.nofSamples == sfCnt * sfLen)
      && (lost != {} ==> sfLen >= bufferSize)
    }

    lemma ValidMeans()
      requires Valid()
      ensures Captured() && PoolKept()
    {
      hide Windows, Unfinished, Split, Join, NoDuplicates, Starts, Holds, WindowOf;
    }
  }
}

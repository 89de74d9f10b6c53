/** The ordered transmission of the PHY workers. Every TTI pushes one or more workers into a FIFO
    semaphore; each combines its buffers into the one transmit buffer when its turn comes, and the last
    one of the TTI transmits. The transmit buffer only points into the workers' own memory. */
module TxOrder {
  import opened Basics

  /** The samples of one channel; only that they can be added matters. */
  type Signal = seq<int>

  /** The channels a buffer has samples for. */
  type Buffers = map<nat, Signal>

  /** One call of worker_end: the worker, whether it is the last of its TTI, whether it has something to
      send, the buffers it will have computed by then, their length, and its transmission time. */
  datatype Job = Job(worker: nat, last: bool, enable: bool, bufs: Buffers, nof: nat, time: int)

  datatype Tx = Tx(bufs: Buffers, nof: nat, time: int)

  // ---------- specification: the jobs served one after the other ----------

  /** Adds the first n samples of x into y. */
  function Sum(x: Signal, y: Signal, n: nat): Signal {
    seq(|y|, i requires 0 <= i < |y| => if i < n && i < |x| then x[i] + y[i] else y[i])
  }

  function Combine(acc: Buffers, more: Buffers, n: nat): Buffers {
    map ch | ch in acc.Keys + more.Keys ::
      if ch !in acc then more[ch] else if ch !in more then acc[ch] else Sum(more[ch], acc[ch], n)
  }

  /** Sample by sample: a channel that only one side has keeps its samples; where both have it the first n are
      added up, as far as they go, and the rest of what was there stays. */
  lemma CombinedSample(acc: Buffers, more: Buffers, n: nat, ch: nat, i: nat)
    requires ch in acc || ch in more
    ensures ch in Combine(acc, more, n)
    ensures var r := Combine(acc, more, n)[ch];
            && (ch !in acc ==> r == more[ch]) && (ch !in more ==> r == acc[ch])
            && (ch in acc && ch in more ==> |r| == |acc[ch]|)
            && (ch in acc && ch in more && i < |r| ==>
                  r[i] == acc[ch][i] + if i < n && i < |more[ch]| then more[ch][i] else 0)
  {
  }

  /** The transmit buffer, the sample count kept in it, and what the radio has sent. */
  datatype Line = Line(acc: Buffers, nof: nat, sent: seq<Tx>)

  function Merged(l: Line, j: Job): Line {
    if j.enable then l.(acc := Combine(l.acc, j.bufs, j.nof), nof := j.nof) else l
  }

  /** Transmission empties the buffer but leaves the sample count in it. */
  function Serve(l: Line, j: Job): Line {
    var m := Merged(l, j);
    if j.last then Line(map[], m.nof, m.sent + [Tx(m.acc, m.nof, j.time)]) else m
  }

  function InOrder(jobs: seq<Job>): Line
    decreases |jobs|
  {
    if jobs == [] then Line(map[], 0, []) else Serve(InOrder(jobs[..|jobs| - 1]), jobs[|jobs| - 1])
  }

  lemma InOrderSnoc(jobs: seq<Job>, r: nat)
    requires r < |jobs|
    ensures InOrder(jobs[..r + 1]) == Serve(InOrder(jobs[..r]), jobs[r])
  {
    assert jobs[..r + 1][..r] == jobs[..r];
  }

  function NofLast(jobs: seq<Job>): nat
    decreases |jobs|
  {
    if jobs == [] then 0 else NofLast(jobs[..|jobs| - 1]) + if jobs[|jobs| - 1].last then 1 else 0
  }

  lemma NofLastSnoc(jobs: seq<Job>, r: nat)
    requires r < |jobs|
    ensures NofLast(jobs[..r + 1]) == NofLast(jobs[..r]) + if jobs[r].last then 1 else 0
  {
    assert jobs[..r + 1][..r] == jobs[..r];
  }

  lemma {:induction false} NofLastGrows(jobs: seq<Job>, i: nat, r: nat)
    requires i <= r <= |jobs|
    ensures NofLast(jobs[..i]) <= NofLast(jobs[..r])
    ensures (exists k :: i <= k < r && jobs[k].last) ==> NofLast(jobs[..i]) < NofLast(jobs[..r])
    decreases r
  {
    if i < r {
      NofLastGrows(jobs, i, r - 1);
      NofLastSnoc(jobs, r - 1);
    }
  }

  // ---------- the system of interleaved workers ----------

  /** Where a job is in worker_end. */
  datatype Pc =
    | Working      // computing its buffers
    | Ready        // waiting for its turn
    | Entered      // has the turn
    | Combined     // its buffers are in the transmit buffer
    | Held         // not last: the hold flag is raised
    | Released     // not last: gave up the turn, waits for the transmission
    | Transmitted  // last: the radio has the samples
    | Cleared      // last: the transmit buffer is reset
    | Notified     // last: the hold flag is lowered
    | Done

  /** The workers' sample memories, by worker and channel. */
  type Memory = (nat, nat) -> Signal

  /** `tx` points, per channel, to the worker whose memory holds the samples. */
  datatype State = State(
    jobs: seq<Job>, pcs: seq<Pc>, fifo: seq<nat>,
    tx: map<nat, nat>, nof: nat, mem: Memory, hold: bool, log: seq<Tx>)

  function Init(): State {
    State([], [], [], map[], 0, (w: nat, ch: nat) => [], false, [])
  }

  datatype Action =
    | Push(job: Job)
    | Scribble(j: nat, ch: nat, samples: Signal)
    | Finish(j: nat)
    | Enter(j: nat)
    | Merge(j: nat)
    | RaiseHold(j: nat)
    | Release(j: nat)
    | Return(j: nat)
    | Transmit(j: nat)
    | Clear(j: nat)
    | Notify(j: nat)

  predicate Sized(s: State) {
    |s.pcs| == |s.jobs| && |s.fifo| <= |s.jobs|
  }

  predicate AtPc(s: State, j: nat, pc: Pc) {
    j < |s.pcs| && s.pcs[j] == pc
  }

  /** A worker is taken from the pool only when its previous job is done. */
  predicate Idle(s: State, worker: nat)
    requires Sized(s)
  {
    forall i :: 0 <= i < |s.jobs| && s.pcs[i] != Done ==> s.jobs[i].worker != worker
  }

  predicate CanRelease(s: State, j: nat)
    requires Sized(s)
  {
    AtPc(s, j, Held) || AtPc(s, j, Notified) || (AtPc(s, j, Combined) && !s.jobs[j].last && !s.jobs[j].enable)
  }

  predicate Enabled(s: State, a: Action)
    requires Sized(s)
  {
    match a
    case Push(job) => Idle(s, job.worker)
    case Scribble(j, _, _) => AtPc(s, j, Working)
    case Finish(j) => AtPc(s, j, Working)
    case Enter(j) => AtPc(s, j, Ready) && (s.fifo == [] || s.fifo[0] == s.jobs[j].worker)
    case Merge(j) => AtPc(s, j, Entered)
    case RaiseHold(j) => AtPc(s, j, Combined) && !s.jobs[j].last && s.jobs[j].enable
    case Release(j) => CanRelease(s, j)
    case Return(j) => AtPc(s, j, Released) && !s.hold
    case Transmit(j) => AtPc(s, j, Combined) && s.jobs[j].last
    case Clear(j) => AtPc(s, j, Transmitted)
    case Notify(j) => AtPc(s, j, Cleared)
  }

  /** What the transmit buffer points to. */
  function Contents(s: State): Buffers {
    map ch | ch in s.tx :: s.mem(s.tx[ch], ch)
  }

  function Written(mem: Memory, worker: nat, bufs: Buffers): Memory {
    (w: nat, ch: nat) => if w == worker && ch in bufs then bufs[ch] else mem(w, ch)
  }

  /** Channels not in use yet get a pointer; the others are added up where they point to. */
  function MergeInto(s: State, job: Job): State {
    if !job.enable then s
    else
      s.(nof := job.nof,
         tx := map ch | ch in s.tx.Keys + job.bufs.Keys :: if ch in s.tx then s.tx[ch] else job.worker,
         mem := (w: nat, ch: nat) => if ch in s.tx && ch in job.bufs && s.tx[ch] == w
                           then Sum(s.mem(job.worker, ch), s.mem(w, ch), job.nof) else s.mem(w, ch))
  }

  function Goto(s: State, j: nat, pc: Pc): State
    requires j < |s.pcs|
  {
    s.(pcs := s.pcs[j := pc])
  }

  function Do(s: State, a: Action): State
    requires Sized(s) && Enabled(s, a)
  {
    match a
    case Push(job) => s.(jobs := s.jobs + [job], pcs := s.pcs + [Working], fifo := s.fifo + [job.worker])
    case Scribble(j, ch, samples) => s.(mem := Written(s.mem, s.jobs[j].worker, map[ch := samples]))
    case Finish(j) => Goto(s, j, Ready).(mem := Written(s.mem, s.jobs[j].worker, s.jobs[j].bufs))
    case Enter(j) => Goto(s, j, Entered)
    case Merge(j) => Goto(MergeInto(s, s.jobs[j]), j, Combined)
    case RaiseHold(j) => Goto(s, j, Held).(hold := true)
    case Release(j) =>
      Goto(s, j, if s.jobs[j].last || !s.jobs[j].enable then Done else Released)
        .(fifo := if s.fifo == [] then [] else s.fifo[1..])
    case Return(j) => Goto(s, j, Done)
    case Transmit(j) => Goto(s, j, Transmitted).(log := s.log + [Tx(Contents(s), s.nof, s.jobs[j].time)])
    case Clear(j) => Goto(s, j, Cleared).(tx := map[])
    case Notify(j) => Goto(s, j, Notified).(hold := false)
  }

  // ---------- the invariant ----------

  /** How many jobs have given up their turn. */
  function Turn(s: State): nat
    requires Sized(s)
  {
    |s.jobs| - |s.fifo|
  }

  predicate PcFits(job: Job, pc: Pc) {
    match pc
    case Held => !job.last && job.enable
    case Released => !job.last && job.enable
    case Transmitted => job.last
    case Cleared => job.last
    case Notified => job.last
    case _ => true
  }

  /** The queue holds the jobs from the turn on. */
  ghost predicate Queued(s: State)
    requires Sized(s)
  {
    forall i :: 0 <= i < |s.fifo| ==> s.fifo[i] == s.jobs[Turn(s) + i].worker
  }

  /** The place a job can be at, before, on and after its turn. */
  predicate Placed(pc: Pc, i: int, turn: int) {
    if i < turn then pc == Released || pc == Done
    else if i == turn then pc != Released && pc != Done
    else pc == Working || pc == Ready
  }

  ghost predicate AllPlaced(s: State)
    requires Sized(s)
  {
    forall i :: 0 <= i < |s.jobs| ==> Placed(s.pcs[i], i, Turn(s)) && PcFits(s.jobs[i], s.pcs[i])
  }

  /** A worker has one job at a time. */
  ghost predicate OneJobEach(s: State)
    requires Sized(s)
  {
    forall i, j :: 0 <= i < j < |s.jobs| && s.pcs[i] != Done && s.pcs[j] != Done ==>
      s.jobs[i].worker != s.jobs[j].worker
  }

  ghost predicate Shape(s: State) {
    Sized(s) && Queued(s) && AllPlaced(s) && OneJobEach(s)
  }

  /** No job from i on, among those released, ended its TTI. */
  ghost predicate SameTti(s: State, i: nat)
    requires Sized(s)
  {
    forall k :: i <= k < Turn(s) ==> !s.jobs[k].last
  }

  /** An enabled worker of the current TTI has given up its turn. */
  ghost predicate SomeoneWaits(s: State)
    requires Sized(s)
  {
    exists i :: 0 <= i < Turn(s) && s.jobs[i].enable && SameTti(s, i)
  }

  /** The hold flag is up exactly while some enabled worker of the current TTI is past raising it and
      the last one has not lowered it. */
  ghost predicate HoldFits(s: State)
    requires Sized(s)
  {
    s.hold <==> !AtPc(s, Turn(s), Notified)
                && (AtPc(s, Turn(s), Held) || SomeoneWaits(s))
  }

  /** Job i may be pointed to by the transmit buffer. */
  ghost predicate Holder(s: State, i: nat)
    requires Sized(s)
  {
    && i < |s.jobs| && s.jobs[i].enable
    && ((i < Turn(s) && s.pcs[i] == Released && SameTti(s, i))
        || (i == Turn(s) && (s.pcs[i] == Combined || s.pcs[i] == Held || s.pcs[i] == Transmitted)))
  }

  ghost predicate Pointers(s: State)
    requires Sized(s)
  {
    && (forall ch :: ch in s.tx ==> exists i: nat :: Holder(s, i) && s.jobs[i].worker == s.tx[ch])
    && (AtPc(s, Turn(s), Cleared) || AtPc(s, Turn(s), Notified) ==> s.tx == map[])
  }

  /** A worker that finished computing still has its buffers in memory until it combines them. */
  ghost predicate Intact(s: State)
    requires Sized(s)
  {
    forall i, ch :: 0 <= i < |s.jobs| && (s.pcs[i] == Ready || s.pcs[i] == Entered) && ch in s.jobs[i].bufs ==>
      s.mem(s.jobs[i].worker, ch) == s.jobs[i].bufs[ch]
  }

  /** The line as the specification has it at this point of the current job. */
  ghost function Expected(s: State): Line
    requires Sized(s)
  {
    var l := InOrder(s.jobs[..Turn(s)]);
    if Turn(s) == |s.jobs| then l
    else
      var j, pc := s.jobs[Turn(s)], s.pcs[Turn(s)];
      match pc
      case Combined => Merged(l, j)
      case Held => Merged(l, j)
      case Transmitted => Serve(l, j).(acc := Merged(l, j).acc)
      case Cleared => Serve(l, j)
      case Notified => Serve(l, j)
      case _ => l
  }

  ghost predicate OnLine(s: State)
    requires Sized(s)
  {
    Line(Contents(s), s.nof, s.log) == Expected(s)
  }

  /** A returned worker that had something to send has seen its TTI transmitted. */
  ghost predicate ReturnedAfterTx(s: State)
    requires Sized(s)
  {
    forall i :: 0 <= i < |s.jobs| && !s.jobs[i].last && s.jobs[i].enable && s.pcs[i] == Done ==>
      NofLast(s.jobs[..i]) < |s.log|
  }

  ghost predicate Inv(s: State) {
    Shape(s) && HoldFits(s) && Pointers(s) && Intact(s) && OnLine(s) && ReturnedAfterTx(s)
  }

  // ---------- each part is kept by every action ----------

  lemma Place(s: State, i: nat)
    requires Shape(s) && i < |s.jobs|
    ensures Placed(s.pcs[i], i, Turn(s)) && PcFits(s.jobs[i], s.pcs[i])
  {
  }

  lemma Distinct(s: State, i: nat, j: nat)
    requires Shape(s) && i < |s.jobs| && j < |s.jobs| && s.pcs[i] != Done && s.pcs[j] != Done
    requires s.jobs[i].worker == s.jobs[j].worker
    ensures i == j
  {
  }

  predicate InTurn(a: Action) {
    a.Enter? || a.Merge? || a.RaiseHold? || a.Release? || a.Transmit? || a.Clear? || a.Notify?
  }

  /** These actions belong to the job whose turn it is; in particular the semaphore, which would also
      let a worker in when its queue is empty, never does so. */
  lemma ActsInTurn(s: State, a: Action)
    requires Shape(s) && Enabled(s, a) && InTurn(a)
    ensures a.j == Turn(s) < |s.jobs| && s.fifo != []
  {
    Place(s, a.j);
    if a.Enter? {
      assert s.fifo != [];
      assert s.fifo[0] == s.jobs[Turn(s)].worker;
    }
  }

  /** A job moving on in place: same jobs, same queue. */
  predicate Moves(s: State, t: State, j: nat, pc: Pc) {
    t.jobs == s.jobs && t.fifo == s.fifo && j < |s.pcs| && t.pcs == s.pcs[j := pc]
  }

  function NextPc(a: Action): Pc {
    match a
    case Push(_) => Working
    case Scribble(_, _, _) => Working
    case Finish(_) => Ready
    case Enter(_) => Entered
    case Merge(_) => Combined
    case RaiseHold(_) => Held
    case Release(_) => Released
    case Return(_) => Done
    case Transmit(_) => Transmitted
    case Clear(_) => Cleared
    case Notify(_) => Notified
  }

  lemma DoMoves(s: State, a: Action)
    requires Sized(s) && Enabled(s, a) && !a.Push? && !a.Release?
    ensures Moves(s, Do(s, a), a.j, NextPc(a))
  {
  }

  lemma MoveKeepsShape(s: State, t: State, j: nat, pc: Pc)
    requires Shape(s) && Moves(s, t, j, pc) && s.pcs[j] != Done
    requires Placed(pc, j, Turn(s)) && PcFits(s.jobs[j], pc)
    ensures Shape(t) && Turn(t) == Turn(s)
  {
    hide Placed, PcFits;
  }

  lemma PushKeepsShape(s: State, job: Job)
    requires Shape(s) && Enabled(s, Push(job))
    ensures Shape(Do(s, Push(job))) && Turn(Do(s, Push(job))) == Turn(s)
  {
    var t := Do(s, Push(job));
    assert AllPlaced(t);
    hide Placed, PcFits, AllPlaced;
    assert Queued(t);
    assert OneJobEach(t);
  }

  lemma ReleaseKeepsShape(s: State, j: nat)
    requires Shape(s) && Enabled(s, Release(j))
    ensures Shape(Do(s, Release(j))) && Turn(Do(s, Release(j))) == Turn(s) + 1
  {
    ActsInTurn(s, Release(j));
    var t := Do(s, Release(j));
    ReleasePlaces(s, j);
    hide Placed, PcFits, AllPlaced;
    assert Queued(t) by {
      forall i | 0 <= i < |t.fifo|
        ensures t.fifo[i] == t.jobs[Turn(t) + i].worker
      {
        assert t.fifo[i] == s.fifo[i + 1];
      }
    }
  }

  lemma ReleasePlaces(s: State, j: nat)
    requires Shape(s) && Enabled(s, Release(j)) && j == Turn(s) && s.fifo != []
    ensures AllPlaced(Do(s, Release(j)))
  {
    hide OneJobEach, Queued;
  }

  lemma ShapeKept(s: State, a: Action)
    requires Shape(s) && Enabled(s, a)
    ensures Shape(Do(s, a))
    ensures Turn(Do(s, a)) == if a.Release? then Turn(s) + 1 else Turn(s)
  {
    if a.Push? {
      PushKeepsShape(s, a.job);
    } else if a.Release? {
      ReleaseKeepsShape(s, a.j);
    } else {
      if InTurn(a) {
        ActsInTurn(s, a);
      }
      Place(s, a.j);
      DoMoves(s, a);
      MoveKeepsShape(s, Do(s, a), a.j, NextPc(a));
      hide Shape, Do;
    }
  }

  // ---------- the hold flag ----------

  lemma SameWaiting(s: State, t: State)
    requires Sized(s) && Sized(t) && Turn(t) == Turn(s) && t.jobs[..Turn(s)] == s.jobs[..Turn(s)]
    ensures SomeoneWaits(t) == SomeoneWaits(s)
  {
    forall i | 0 <= i < Turn(s)
      ensures t.jobs[i] == s.jobs[i]
    {
      assert t.jobs[..Turn(s)][i] == s.jobs[..Turn(s)][i];
    }
    assert forall i :: 0 <= i < Turn(s) ==> SameTti(t, i) == SameTti(s, i);
  }

  lemma WaitingAfterRelease(s: State, t: State)
    requires Sized(s) && Sized(t) && t.jobs == s.jobs && Turn(t) == Turn(s) + 1
    ensures SomeoneWaits(t) <==> !s.jobs[Turn(s)].last && (s.jobs[Turn(s)].enable || SomeoneWaits(s))
  {
    var r := Turn(s);
    assert forall i :: 0 <= i < r ==> (SameTti(t, i) <==> SameTti(s, i) && !s.jobs[r].last);
    assert SameTti(t, r) <==> !s.jobs[r].last;
    if !s.jobs[r].last && s.jobs[r].enable {
      assert SameTti(t, r) && t.jobs[r].enable;
    }
    if !s.jobs[r].last && SomeoneWaits(s) {
      var i :| 0 <= i < r && s.jobs[i].enable && SameTti(s, i);
      assert SameTti(t, i);
    }
  }

  lemma HoldKept(s: State, a: Action)
    requires Shape(s) && HoldFits(s) && Enabled(s, a)
    ensures Shape(Do(s, a)) && HoldFits(Do(s, a))
  {
    ShapeKept(s, a);
    var t := Do(s, a);
    if InTurn(a) {
      ActsInTurn(s, a);
      Place(s, a.j);
    }
    if Turn(s) < |s.jobs| {
      Place(s, Turn(s));
    }
    if Turn(t) < |t.jobs| {
      Place(t, Turn(t));
    }
    hide Shape, SomeoneWaits, SameTti;
    if a.Release? {
      WaitingAfterRelease(s, t);
    } else {
      assert t.jobs[..Turn(s)] == s.jobs[..Turn(s)];
      SameWaiting(s, t);
    }
  }

  // ---------- the pointers of the transmit buffer ----------

  /** While the buffer has pointers, the flag keeps those it points to from returning. */
  lemma HoldersDoNotReturn(s: State, j: nat)
    requires Shape(s) && HoldFits(s) && Pointers(s) && Enabled(s, Return(j)) && s.tx != map[]
    ensures !Holder(s, j)
  {
    Place(s, j);
    if Turn(s) < |s.jobs| {
      Place(s, Turn(s));
    }
    hide Shape;
  }

  /** A job the transmit buffer points to stays such until the buffer is reset. */
  lemma HolderKept(s: State, a: Action, i: nat)
    requires Shape(s) && HoldFits(s) && Pointers(s) && Enabled(s, a)
    requires Holder(s, i) && s.tx != map[] && !a.Clear?
    requires Shape(Do(s, a)) && Turn(Do(s, a)) == if a.Release? then Turn(s) + 1 else Turn(s)
    ensures Holder(Do(s, a), i)
  {
    assert Sized(s) && Sized(Do(s, a));
    hide Shape, HoldFits, Pointers;
    if a.Release? {
      hide Do, Holder;
      HolderReleased(s, a.j, i);
    } else if a.Push? {
    } else {
      hide Do;
      if a.Return? {
        HoldersDoNotReturn(s, a.j);
      }
      if InTurn(a) {
        ActsInTurn(s, a);
      }
      DoMoves(s, a);
      HolderMoves(s, Do(s, a), a.j, NextPc(a), i);
    }
  }

  lemma HolderMoves(s: State, t: State, j: nat, pc: Pc, i: nat)
    requires Sized(s) && Sized(t) && Moves(s, t, j, pc) && Turn(t) == Turn(s) && Holder(s, i)
    requires j == i ==> i == Turn(s) && (pc == Combined || pc == Held || pc == Transmitted)
    ensures Holder(t, i)
  {
    hide Turn;
  }

  lemma HolderReleased(s: State, j: nat, i: nat)
    requires Shape(s) && Pointers(s) && Enabled(s, Release(j))
    requires Holder(s, i) && s.tx != map[]
    requires Sized(Do(s, Release(j))) && Turn(Do(s, Release(j))) == Turn(s) + 1
    ensures Holder(Do(s, Release(j)), i)
  {
    ActsInTurn(s, Release(j));
    Place(s, j);
    assert s.pcs[j] != Notified;
    hide Shape, Pointers;
  }

  lemma PointersKept(s: State, a: Action)
    requires Shape(s) && HoldFits(s) && Pointers(s) && Enabled(s, a)
    ensures Shape(Do(s, a)) && Pointers(Do(s, a))
  {
    ShapeKept(s, a);
    var t := Do(s, a);
    forall ch | ch in t.tx
      ensures exists i: nat :: Holder(t, i) && t.jobs[i].worker == t.tx[ch]
    {
      PointerKept(s, a, ch);
    }
    ClearStaysEmpty(s, a);
    hide Do, Shape, Holder;
  }

  lemma PointerKept(s: State, a: Action, ch: nat)
    requires Shape(s) && HoldFits(s) && Pointers(s) && Enabled(s, a)
    requires Shape(Do(s, a)) && Turn(Do(s, a)) == if a.Release? then Turn(s) + 1 else Turn(s)
    requires ch in Do(s, a).tx
    ensures exists i: nat :: Holder(Do(s, a), i) && Do(s, a).jobs[i].worker == Do(s, a).tx[ch]
  {
    var t := Do(s, a);
    hide Shape, HoldFits;
    if ch in s.tx {
      var i: nat :| Holder(s, i) && s.jobs[i].worker == s.tx[ch];
      HolderKept(s, a, i);
      assert t.jobs[i] == s.jobs[i];
      assert Holder(t, i) && t.jobs[i].worker == t.tx[ch];
    } else {
      ActsInTurn(s, a);
      assert a.Merge? && Holder(t, a.j) && t.jobs[a.j].worker == t.tx[ch];
    }
  }

  lemma ClearStaysEmpty(s: State, a: Action)
    requires Shape(s) && Pointers(s) && Enabled(s, a)
    requires Shape(Do(s, a)) && Turn(Do(s, a)) == if a.Release? then Turn(s) + 1 else Turn(s)
    ensures var t := Do(s, a);
            AtPc(t, Turn(t), Cleared) || AtPc(t, Turn(t), Notified) ==> t.tx == map[]
  {
    var t := Do(s, a);
    if InTurn(a) {
      ActsInTurn(s, a);
    }
    if Turn(t) < |t.jobs| {
      Place(t, Turn(t));
    }
    if a.Release? && Turn(t) < |t.jobs| {
      Place(s, Turn(t));
    }
    hide Shape;
  }

  /** No pointer leads to a worker that has not combined its buffers yet. */
  lemma NotPointedTo(s: State, i: nat, ch: nat)
    requires Shape(s) && Pointers(s) && i < |s.jobs| && ch in s.tx
    requires s.pcs[i] == Working || s.pcs[i] == Ready || s.pcs[i] == Entered
    ensures s.tx[ch] != s.jobs[i].worker
  {
    var k: nat :| Holder(s, k) && s.jobs[k].worker == s.tx[ch];
    if s.tx[ch] == s.jobs[i].worker {
      Distinct(s, i, k);
    }
  }

  // ---------- the workers' memory ----------

  /** Combining writes only where the transmit buffer points to. */
  lemma MergeSpares(s: State, job: Job, w: nat, ch: nat)
    requires ch in s.tx ==> s.tx[ch] != w
    ensures MergeInto(s, job).mem(w, ch) == s.mem(w, ch) && MergeInto(s, job).pcs == s.pcs
  {
    hide Sum;
  }

  lemma PcsMerged(s: State, job: Job)
    ensures MergeInto(s, job).pcs == s.pcs
  {
  }

  lemma ShapeIsSized(s: State)
    requires Shape(s)
    ensures Sized(s)
  {
  }

  /** Job i's samples, once computed, are not disturbed before it combines them. */
  lemma SamplesKept(s: State, a: Action, i: nat, ch: nat)
    requires Shape(s) && Pointers(s) && Intact(s) && Enabled(s, a)
    requires i < |s.jobs| && ch in s.jobs[i].bufs
    requires Do(s, a).pcs[i] == Ready || Do(s, a).pcs[i] == Entered
    ensures Do(s, a).mem(s.jobs[i].worker, ch) == s.jobs[i].bufs[ch]
  {
    hide Pointers, Shape, Intact, Idle, CanRelease, MergeInto, Contents;
    ShapeIsSized(s);
    if a.Merge? {
      if s.pcs[i] == Ready || s.pcs[i] == Entered {
        if ch in s.tx {
          NotPointedTo(s, i, ch);
        }
        MergeSpares(s, s.jobs[a.j], s.jobs[i].worker, ch);
        IntactAt(s, i, ch);
      } else {
        PcsMerged(s, s.jobs[a.j]);
      }
    } else if a.Finish? || a.Scribble? {
      if s.jobs[a.j].worker == s.jobs[i].worker {
        Distinct(s, a.j, i);
      } else {
        IntactAt(s, i, ch);
      }
    } else {
      IntactAt(s, i, ch);
    }
  }

  lemma IntactAt(s: State, i: nat, ch: nat)
    requires Sized(s) && Intact(s)
    requires i < |s.jobs| && ch in s.jobs[i].bufs && (s.pcs[i] == Ready || s.pcs[i] == Entered)
    ensures s.mem(s.jobs[i].worker, ch) == s.jobs[i].bufs[ch]
  {
  }

  lemma IntactKept(s: State, a: Action)
    requires Shape(s) && Pointers(s) && Intact(s) && Enabled(s, a)
    ensures Shape(Do(s, a)) && Intact(Do(s, a))
  {
    ShapeKept(s, a);
    var t := Do(s, a);
    forall i, ch | 0 <= i < |t.jobs| && (t.pcs[i] == Ready || t.pcs[i] == Entered) && ch in t.jobs[i].bufs
      ensures t.mem(t.jobs[i].worker, ch) == t.jobs[i].bufs[ch]
    {
      JobsOnlyGrow(s, a, i);
      SamplesKept(s, a, i, ch);
    }
    hide Do, Shape;
  }

  lemma JobsOnlyGrow(s: State, a: Action, i: nat)
    requires Sized(s) && Enabled(s, a) && i < |Do(s, a).jobs| && i < |Do(s, a).pcs|
    ensures i < |s.jobs| ==> Do(s, a).jobs[i] == s.jobs[i]
    ensures i >= |s.jobs| ==> Do(s, a).pcs[i] == Working
  {
  }

  /** What the buffer points to is not disturbed by workers still computing. */
  lemma ContentsKept(s: State, a: Action)
    requires Shape(s) && Pointers(s) && Enabled(s, a) && (a.Scribble? || a.Finish?)
    ensures Contents(Do(s, a)) == Contents(s)
  {
    forall ch | ch in s.tx
      ensures Contents(Do(s, a))[ch] == Contents(s)[ch]
    {
      NotPointedTo(s, a.j, ch);
    }
    hide Shape, Pointers;
  }

  lemma MergeCombines(s: State, j: nat)
    requires Shape(s) && Intact(s) && AtPc(s, j, Entered) && s.jobs[j].enable
    ensures Contents(Do(s, Merge(j))) == Combine(Contents(s), s.jobs[j].bufs, s.jobs[j].nof)
  {
    var t, job := Do(s, Merge(j)), s.jobs[j];
    assert forall ch :: ch in job.bufs ==> s.mem(job.worker, ch) == job.bufs[ch];
    hide Shape, Intact, Sum;
    assert t.tx.Keys == s.tx.Keys + job.bufs.Keys;
  }

  // ---------- the line ----------

  lemma OnLineKept(s: State, a: Action)
    requires Shape(s) && Pointers(s) && Intact(s) && OnLine(s) && Enabled(s, a)
    ensures Shape(Do(s, a)) && OnLine(Do(s, a))
  {
    ShapeKept(s, a);
    hide Do, Shape, Pointers, Intact, OnLine;
    if !InTurn(a) {
      OutOfTurnOnLine(s, a);
    } else if a.Merge? {
      MergeOnLine(s, a.j);
    } else if a.Release? {
      ReleaseOnLine(s, a.j);
    } else {
      OwnTurnOnLine(s, a);
    }
  }

  lemma OutOfTurnOnLine(s: State, a: Action)
    requires Shape(s) && Pointers(s) && OnLine(s) && Enabled(s, a) && !InTurn(a)
    requires Sized(Do(s, a)) && Turn(Do(s, a)) == Turn(s)
    ensures OnLine(Do(s, a))
  {
    var t := Do(s, a);
    assert t.jobs[..Turn(t)] == s.jobs[..Turn(s)];
    if a.Scribble? || a.Finish? {
      ContentsKept(s, a);
    } else {
      assert Contents(t) == Contents(s);
    }
    if !a.Push? {
      Place(s, a.j);
    }
    hide Shape, Contents, InOrder, Pointers, Serve, Merged;
  }

  lemma MergeOnLine(s: State, j: nat)
    requires Shape(s) && Intact(s) && OnLine(s) && Enabled(s, Merge(j))
    requires Sized(Do(s, Merge(j))) && Turn(Do(s, Merge(j))) == Turn(s)
    ensures OnLine(Do(s, Merge(j)))
  {
    ActsInTurn(s, Merge(j));
    if s.jobs[j].enable {
      MergeCombines(s, j);
    } else {
      assert Contents(Do(s, Merge(j))) == Contents(s);
    }
    hide Shape, Contents, Combine, InOrder, Intact, Serve;
  }

  lemma ReleaseOnLine(s: State, j: nat)
    requires Shape(s) && OnLine(s) && Enabled(s, Release(j))
    requires Shape(Do(s, Release(j))) && Turn(Do(s, Release(j))) == Turn(s) + 1
    ensures OnLine(Do(s, Release(j)))
  {
    var t := Do(s, Release(j));
    ActsInTurn(s, Release(j));
    Place(s, j);
    InOrderSnoc(s.jobs, j);
    if j + 1 < |s.jobs| {
      Place(t, j + 1);
      assert t.pcs[j + 1] == s.pcs[j + 1];
      Place(s, j + 1);
    }
    assert Contents(t) == Contents(s);
    hide Shape, Contents, Combine, InOrder;
  }

  /** Enter, RaiseHold, Transmit, Clear and Notify. */
  lemma OwnTurnOnLine(s: State, a: Action)
    requires Shape(s) && OnLine(s) && Enabled(s, a) && InTurn(a) && !a.Merge? && !a.Release?
    requires Sized(Do(s, a)) && Turn(Do(s, a)) == Turn(s)
    ensures OnLine(Do(s, a))
  {
    ActsInTurn(s, a);
    Place(s, a.j);
    if a.Clear? {
      assert Contents(Do(s, a)) == map[];
    } else {
      assert Contents(Do(s, a)) == Contents(s);
    }
    hide Shape, Contents, Combine, InOrder;
  }

  // ---------- returning ----------

  lemma {:induction false} OneTxPerLast(jobs: seq<Job>)
    ensures |InOrder(jobs).sent| == NofLast(jobs)
    decreases |jobs|
  {
    if jobs != [] {
      OneTxPerLast(jobs[..|jobs| - 1]);
    }
  }

  /** The transmissions so far: one for each last job before the turn, and the current one's if it is
      past transmitting. */
  lemma LogLength(s: State)
    requires Sized(s) && OnLine(s)
    ensures |s.log| >= NofLast(s.jobs[..Turn(s)])
    ensures AtPc(s, Turn(s), Notified) && s.jobs[Turn(s)].last ==> |s.log| == NofLast(s.jobs[..Turn(s)]) + 1
  {
    OneTxPerLast(s.jobs[..Turn(s)]);
    hide InOrder, Contents;
  }

  lemma LogGrows(s: State, a: Action)
    requires Sized(s) && Enabled(s, a)
    ensures |Do(s, a).log| >= |s.log|
  {
  }

  /** A job may return only once its TTI has been transmitted. */
  lemma ReturnsAfterTx(s: State, i: nat)
    requires Shape(s) && HoldFits(s) && OnLine(s) && Enabled(s, Return(i))
    ensures NofLast(s.jobs[..i]) < |s.log|
  {
    var r := Turn(s);
    Place(s, i);
    LogLength(s);
    NofLastGrows(s.jobs, i, r);
    if r < |s.jobs| {
      Place(s, r);
    }
    hide Shape, OnLine, NofLast;
  }

  lemma ReturnedKept(s: State, a: Action)
    requires Shape(s) && HoldFits(s) && OnLine(s) && ReturnedAfterTx(s) && Enabled(s, a)
    ensures Shape(Do(s, a)) && ReturnedAfterTx(Do(s, a))
  {
    ShapeKept(s, a);
    LogGrows(s, a);
    var t := Do(s, a);
    forall i | 0 <= i < |t.jobs| && !t.jobs[i].last && t.jobs[i].enable && t.pcs[i] == Done
      ensures NofLast(t.jobs[..i]) < |t.log|
    {
      DoneBefore(s, a, i);
      assert t.jobs[..i] == s.jobs[..i];
      if a == Return(i) {
        ReturnsAfterTx(s, i);
      }
      hide Shape, HoldFits, OnLine, NofLast;
    }
  }

  /** An enabled job that is not last gets done only by returning. */
  lemma DoneBefore(s: State, a: Action, i: nat)
    requires Sized(s) && Enabled(s, a) && Sized(Do(s, a)) && i < |Do(s, a).jobs|
    requires Do(s, a).pcs[i] == Done && !Do(s, a).jobs[i].last && Do(s, a).jobs[i].enable
    ensures i < |s.jobs| && s.jobs[i] == Do(s, a).jobs[i] && s.jobs <= Do(s, a).jobs
    ensures a == Return(i) || s.pcs[i] == Done
  {
  }

  lemma InvKept(s: State, a: Action)
    requires Inv(s) && Enabled(s, a)
    ensures Inv(Do(s, a))
  {
    HoldKept(s, a);
    PointersKept(s, a);
    IntactKept(s, a);
    OnLineKept(s, a);
    ReturnedKept(s, a);
    hide Do, Shape, HoldFits, Pointers, Intact, OnLine, ReturnedAfterTx;
  }

  // ---------- whole runs ----------

  /** The state after a run, if every action of it is possible where it stands. */
  function Run(actions: seq<Action>): Option<State>
    decreases |actions|
  {
    if actions == [] then Some(Init())
    else
      match Run(actions[..|actions| - 1])
      case None => None
      case Some(s) =>
        if Sized(s) && Enabled(s, actions[|actions| - 1]) then Some(Do(s, actions[|actions| - 1])) else None
  }

  lemma {:induction false} InvInEveryRun(actions: seq<Action>)
    requires Run(actions).Some?
    ensures Inv(Run(actions).value)
    decreases |actions|
  {
    if actions == [] {
      InitInv();
    } else {
      var front, a := actions[..|actions| - 1], actions[|actions| - 1];
      InvInEveryRun(front);
      InvKept(Run(front).value, a);
      hide Inv, Do;
    }
  }

  lemma InitInv()
    ensures Inv(Init())
  {
    assert Contents(Init()) == map[];
  }

  lemma {:induction false} SentGrows(jobs: seq<Job>, i: nat)
    requires i <= |jobs|
    ensures InOrder(jobs[..i]).sent <= InOrder(jobs).sent
    decreases |jobs|
  {
    if i == |jobs| {
      assert jobs[..i] == jobs;
    } else {
      var front := jobs[..|jobs| - 1];
      SentGrows(front, i);
      assert front[..i] == jobs[..i];
    }
  }

  /** The jobs handed to the workers, in the order they were pushed. */
  function Pushed(actions: seq<Action>): seq<Job>
    decreases |actions|
  {
    if actions == [] then []
    else
      var last := actions[|actions| - 1];
      Pushed(actions[..|actions| - 1]) + if last.Push? then [last.job] else []
  }

  /** The system serves those jobs and no others. */
  lemma {:induction false} JobsArePushed(actions: seq<Action>)
    requires Run(actions).Some?
    ensures Run(actions).value.jobs == Pushed(actions)
    decreases |actions|
  {
    if actions != [] {
      JobsArePushed(actions[..|actions| - 1]);
    }
  }

  /** In every interleaving, what the radio has sent is a prefix of what serving the workers one after
      the other in the order they were pushed would send, and all of that once every worker is done; and a
      worker that is not last and had something to send returns only when the transmission of its own TTI
      is among it. */
  lemma OrderedTransmission(actions: seq<Action>)
    requires Run(actions).Some?
    ensures var s, pushed := Run(actions).value, Pushed(actions);
            && |s.pcs| == |pushed|
            && s.log <= InOrder(pushed).sent
            && ((forall i :: 0 <= i < |pushed| ==> s.pcs[i] == Done) ==> s.log == InOrder(pushed).sent)
            && forall i :: 0 <= i < |pushed| && !pushed[i].last && pushed[i].enable && s.pcs[i] == Done ==>
                 NofLast(pushed[..i]) < |s.log|
  {
    var s := Run(actions).value;
    JobsArePushed(actions);
    InvInEveryRun(actions);
    var r := Turn(s);
    SentGrows(s.jobs, r);
    if r == |s.jobs| {
      assert s.jobs[..r] == s.jobs;
    }
    if r < |s.jobs| {
      InOrderSnoc(s.jobs, r);
      SentGrows(s.jobs, r + 1);
      Place(s, r);
    }
    hide InOrder, Shape, Contents, Run, Pushed;
  }

  // ---------- what is sent for one TTI ----------

  /** The combination of the enabled buffers of some jobs, starting from nothing. */
  function CombineAll(jobs: seq<Job>): Buffers
    decreases |jobs|
  {
    if jobs == [] then map[]
    else
      var acc, j := CombineAll(jobs[..|jobs| - 1]), jobs[|jobs| - 1];
      if j.enable then Combine(acc, j.bufs, j.nof) else acc
  }

  /** The sample count of the last enabled job, or the one left from before if there is none. */
  function CountAll(jobs: seq<Job>, left: nat): nat
    decreases |jobs|
  {
    if jobs == [] then left
    else if jobs[|jobs| - 1].enable then jobs[|jobs| - 1].nof
    else CountAll(jobs[..|jobs| - 1], left)
  }

  predicate EndsTti(jobs: seq<Job>) {
    jobs == [] || jobs[|jobs| - 1].last
  }

  lemma {:induction false} WithinTti(before: seq<Job>, tti: seq<Job>)
    requires EndsTti(before) && forall i :: 0 <= i < |tti| ==> !tti[i].last
    ensures InOrder(before + tti)
         == Line(CombineAll(tti), CountAll(tti, InOrder(before).nof), InOrder(before).sent)
    decreases |tti|
  {
    if tti == [] {
      assert before + tti == before;
    } else {
      var front := tti[..|tti| - 1];
      WithinTti(before, front);
      assert (before + tti)[..|before + tti| - 1] == before + front;
    }
  }

  /** The transmission of a TTI carries exactly the combination of its own enabled buffers at its last
      worker's time, nothing of any other TTI. */
  lemma TtiTransmission(before: seq<Job>, tti: seq<Job>, last: Job, after: seq<Job>)
    requires EndsTti(before) && last.last && forall i :: 0 <= i < |tti| ==> !tti[i].last
    ensures var sent := InOrder(before + tti + [last] + after).sent;
            && NofLast(before) < |sent|
            && sent[NofLast(before)]
               == Tx(CombineAll(tti + [last]), CountAll(tti + [last], InOrder(before).nof), last.time)
  {
    var jobs := before + tti + [last] + after;
    var n := |before| + |tti|;
    WithinTti(before, tti);
    OneTxPerLast(before);
    assert jobs[..n] == before + tti;
    InOrderSnoc(jobs, n);
    assert (tti + [last])[..|tti|] == tti;
    SentGrows(jobs, n + 1);
  }

  /** The count comes from the jobs themselves exactly if one of them is enabled. */
  lemma {:induction false} CountOwnOrLeft(jobs: seq<Job>, left: nat)
    ensures (forall k :: 0 <= k < |jobs| ==> !jobs[k].enable) ==> CountAll(jobs, left) == left
    ensures forall k :: 0 <= k < |jobs| && jobs[k].enable && (forall m :: k < m < |jobs| ==> !jobs[m].enable) ==>
              CountAll(jobs, left) == jobs[k].nof
    decreases |jobs|
  {
    if jobs != [] && !jobs[|jobs| - 1].enable {
      CountOwnOrLeft(jobs[..|jobs| - 1], left);
    }
  }

  /** Between TTIs the count left over is that of the transmission before. */
  lemma CountLeftOver(before: seq<Job>)
    requires EndsTti(before)
    ensures var l := InOrder(before);
            if before == [] then l.nof == 0 else l.sent != [] && l.nof == l.sent[|l.sent| - 1].nof
  {
  }

  /** So a transmission carries the sample count of the last enabled worker of its TTI; if there is none
      the count of the transmission before it is sent again, or 0 if it is the first. */
  lemma SampleCount(before: seq<Job>, tti: seq<Job>, last: Job, after: seq<Job>)
    requires EndsTti(before) && last.last && forall i :: 0 <= i < |tti| ==> !tti[i].last
    ensures var sent, n, own := InOrder(before + tti + [last] + after).sent, NofLast(before), tti + [last];
            && n < |sent|
            && (forall k :: 0 <= k < |own| && own[k].enable && (forall m :: k < m < |own| ==> !own[m].enable) ==>
                  sent[n].nof == own[k].nof)
            && ((forall k :: 0 <= k < |own| ==> !own[k].enable) ==>
                  sent[n].nof == if n == 0 then 0 else sent[n - 1].nof)
  {
    var jobs := before + tti + [last] + after;
    TtiTransmission(before, tti, last, after);
    CountOwnOrLeft(tti + [last], InOrder(before).nof);
    CountLeftOver(before);
    OneTxPerLast(before);
    assert jobs[..|before|] == before;
    SentGrows(jobs, |before|);
    assert before == [] ==> NofLast(before) == 0;
    hide InOrder, CountAll, CombineAll;
  }

  // ---------- a run of two workers in one TTI ----------

  /** Two workers at their places, the queue and the hold flag. */
  ghost predicate Pair(s: State, a: Job, b: Job, pa: Pc, pb: Pc, fifo: seq<nat>, hold: bool) {
    s.jobs == [a, b] && s.pcs == [pa, pb] && s.fifo == fifo && s.hold == hold
  }

  lemma PairMoves(actions: seq<Action>, x: Action, a: Job, b: Job, pa: Pc, pb: Pc, fifo: seq<nat>, hold: bool)
    requires Run(actions).Some? && Pair(Run(actions).value, a, b, pa, pb, fifo, hold) && |fifo| <= 2
    requires Enabled(Run(actions).value, x) && !x.Push? && !x.Scribble? && !x.Release?
    ensures var r := Run(actions + [x]);
            r.Some? && Pair(r.value, a, b, if x.j == 0 then NextPc(x) else pa, if x.j == 1 then NextPc(x) else pb, fifo,
                            if x.RaiseHold? then true else if x.Notify? then false else hold)
  {
    hide Run, Do, Enabled;
    var s := Run(actions).value;
    RunSnoc(actions, x);
    DoMoves(s, x);
    DoHolds(s, x);
    JobInRange(s, x);
  }

  lemma DoHolds(s: State, x: Action)
    requires Sized(s) && Enabled(s, x) && !x.Push?
    ensures Do(s, x).hold == if x.RaiseHold? then true else if x.Notify? then false else s.hold
  {
  }

  lemma JobInRange(s: State, x: Action)
    requires Sized(s) && Enabled(s, x) && !x.Push?
    ensures x.j < |s.jobs|
  {
  }

  lemma PairReleases(actions: seq<Action>, j: nat, a: Job, b: Job, pa: Pc, pb: Pc, fifo: seq<nat>, hold: bool)
    requires Run(actions).Some? && Pair(Run(actions).value, a, b, pa, pb, fifo, hold) && 1 <= |fifo| <= 2
    requires Enabled(Run(actions).value, Release(j))
    ensures var pc := if [a, b][j].last || ![a, b][j].enable then Done else Released;
            var r := Run(actions + [Release(j)]);
            r.Some? && Pair(r.value, a, b, if j == 0 then pc else pa, if j == 1 then pc else pb, fifo[1..], hold)
  {
    RunSnoc(actions, Release(j));
    hide Run;
  }

  lemma PairPushed(a: Job, b: Job)
    requires a.worker != b.worker
    ensures var r := Run([Push(a), Push(b)]);
            r.Some? && Pair(r.value, a, b, Working, Working, [a.worker, b.worker], false)
  {
    StartsBack();
    RunSnoc([], Push(a));
    RunSnoc([Push(a)], Push(b));
    assert [] + [Push(a)] == [Push(a)] && [Push(a)] + [Push(b)] == [Push(a), Push(b)];
    hide Run;
  }

  /** The last worker is ready first and has to wait for its turn; the other waits for the transmission. */
  function PairRun(a: Job, b: Job): seq<Action> {
    [Push(a), Push(b)] + [Finish(1)] + [Finish(0)] + [Enter(0)] + [Merge(0)] + [RaiseHold(0)] + [Release(0)]
    + [Enter(1)] + [Merge(1)] + [Transmit(1)] + [Clear(1)] + [Notify(1)] + [Release(1)] + [Return(0)]
  }

  lemma PairFirstHalf(a: Job, b: Job) returns (acts: seq<Action>)
    requires a.worker != b.worker && !a.last && b.last && a.enable
    ensures acts == [Push(a), Push(b)] + [Finish(1)] + [Finish(0)] + [Enter(0)] + [Merge(0)] + [RaiseHold(0)] + [Release(0)]
    ensures Run(acts).Some? && Pair(Run(acts).value, a, b, Released, Ready, [b.worker], true)
  {
    acts := [Push(a), Push(b)];
    hide Run, Do;
    var f := [a.worker, b.worker];
    PairPushed(a, b);
    PairMoves(acts, Finish(1), a, b, Working, Working, f, false);
    acts := acts + [Finish(1)];
    PairMoves(acts, Finish(0), a, b, Working, Ready, f, false);
    acts := acts + [Finish(0)];
    PairMoves(acts, Enter(0), a, b, Ready, Ready, f, false);
    acts := acts + [Enter(0)];
    PairMoves(acts, Merge(0), a, b, Entered, Ready, f, false);
    acts := acts + [Merge(0)];
    PairMoves(acts, RaiseHold(0), a, b, Combined, Ready, f, false);
    acts := acts + [RaiseHold(0)];
    PairReleases(acts, 0, a, b, Held, Ready, f, true);
    acts := acts + [Release(0)];
  }

  lemma PairSecondHalf(start: seq<Action>, a: Job, b: Job) returns (acts: seq<Action>)
    requires !a.last && b.last && a.enable
    requires Run(start).Some? && Pair(Run(start).value, a, b, Released, Ready, [b.worker], true)
    ensures acts == start + [Enter(1)] + [Merge(1)] + [Transmit(1)] + [Clear(1)] + [Notify(1)] + [Release(1)] + [Return(0)]
    ensures Run(acts).Some? && Pair(Run(acts).value, a, b, Done, Done, [], false)
  {
    acts := start;
    hide Run, Do;
    var f := [b.worker];
    PairMoves(acts, Enter(1), a, b, Released, Ready, f, true);
    acts := acts + [Enter(1)];
    PairMoves(acts, Merge(1), a, b, Released, Entered, f, true);
    acts := acts + [Merge(1)];
    PairMoves(acts, Transmit(1), a, b, Released, Combined, f, true);
    acts := acts + [Transmit(1)];
    PairMoves(acts, Clear(1), a, b, Released, Transmitted, f, true);
    acts := acts + [Clear(1)];
    PairMoves(acts, Notify(1), a, b, Released, Cleared, f, true);
    acts := acts + [Notify(1)];
    PairReleases(acts, 1, a, b, Released, Notified, f, false);
    acts := acts + [Release(1)];
    PairMoves(acts, Return(0), a, b, Released, Done, [], false);
    acts := acts + [Return(0)];
  }

  /** Both workers of a TTI return, and the one transmission is the combination of both. */
  lemma PairSends(a: Job, b: Job)
    requires a.worker != b.worker && !a.last && b.last && a.enable && b.enable
    ensures var r := Run(PairRun(a, b));
            && r.Some? && r.value.pcs == [Done, Done] && Pushed(PairRun(a, b)) == [a, b]
            && r.value.log == [Tx(Combine(a.bufs, b.bufs, b.nof), b.nof, b.time)]
  {
    var half := PairFirstHalf(a, b);
    var acts := PairSecondHalf(half, a, b);
    assert acts == PairRun(a, b);
    JobsArePushed(acts);
    OrderedTransmission(acts);
    PairInOrder(a, b);
    hide Run, Inv, InOrder, PairRun;
  }

  lemma PairInOrder(a: Job, b: Job)
    requires !a.last && b.last && a.enable && b.enable
    ensures InOrder([a, b]).sent == [Tx(Combine(a.bufs, b.bufs, b.nof), b.nof, b.time)]
  {
    assert [a, b][..1] == [a] && [a][..0] == [];
    assert InOrder([]) == Line(map[], 0, []);
    assert Combine(map[], a.bufs, a.nof) == a.bufs;
    assert InOrder([a]) == Line(a.bufs, a.nof, []);
    hide Combine;
  }

  /** For example, samples 1 and 10 of two workers on channel 0 are sent as 11. */
  lemma PairSendsSum()
    ensures var a, b := Job(0, false, true, map[0 := [1]], 1, 5), Job(1, true, true, map[0 := [10]], 1, 6);
            var r := Run(PairRun(a, b));
            && r.Some? && Pushed(PairRun(a, b)) == [a, b] && r.value.log == [Tx(map[0 := [11]], 1, 6)]
  {
    var a, b := Job(0, false, true, map[0 := [1]], 1, 5), Job(1, true, true, map[0 := [10]], 1, 6);
    PairSends(a, b);
    assert Sum([10], [1], 1) == [11];
    assert Combine(a.bufs, b.bufs, 1) == map[0 := [11]];
    hide Run, PairRun, Pushed, Combine;
  }

  // ---------- a run that sends a stale count ----------

  lemma RunSnoc(actions: seq<Action>, a: Action)
    requires Run(actions).Some? && Sized(Run(actions).value) && Enabled(Run(actions).value, a)
    ensures Run(actions + [a]) == Some(Do(Run(actions).value, a))
  {
    assert (actions + [a])[..|actions|] == actions;
    hide Do, Enabled, Sized;
  }

  /** Every worker is back and the transmit buffer is empty. */
  ghost predicate AllBack(s: State) {
    && Sized(s) && s.fifo == [] && s.tx == map[]
    && forall i :: 0 <= i < |s.pcs| ==> s.pcs[i] == Done
  }

  function Sent(job: Job, left: nat): Tx {
    Tx(if job.enable then job.bufs else map[], if job.enable then job.nof else left, job.time)
  }

  /** The only worker of the TTI has combined its buffers. */
  ghost predicate Alone(s: State, job: Job, sent: Tx) {
    SoloAt(s, job, Combined) && Contents(s) == sent.bufs && s.nof == sent.nof && job.time == sent.time
  }

  /** The only worker of the TTI, at a place in worker_end. */
  ghost predicate SoloAt(s: State, job: Job, pc: Pc) {
    && Sized(s) && |s.jobs| >= 1 && s.jobs[|s.jobs| - 1] == job && job.last && s.fifo == [job.worker]
    && s.pcs[|s.jobs| - 1] == pc && (forall i :: 0 <= i < |s.jobs| - 1 ==> s.pcs[i] == Done)
  }

  lemma Two(actions: seq<Action>, a: Action, b: Action)
    requires Run(actions).Some? && Sized(Run(actions).value) && Enabled(Run(actions).value, a)
    requires Sized(Do(Run(actions).value, a)) && Enabled(Do(Run(actions).value, a), b)
    ensures Run(actions + [a, b]) == Some(Do(Do(Run(actions).value, a), b))
  {
    RunSnoc(actions, a);
    RunSnoc(actions + [a], b);
    assert actions + [a] + [b] == actions + [a, b];
    hide *;
  }

  lemma SoloMoves(s: State, job: Job, pc: Pc, a: Action)
    requires SoloAt(s, job, pc) && Enabled(s, a) && !a.Push? && !a.Scribble? && !a.Release? && a.j == |s.jobs| - 1
    ensures SoloAt(Do(s, a), job, NextPc(a)) && Do(s, a).jobs == s.jobs
  {
    DoMoves(s, a);
    hide Do;
  }

  lemma PushFinish(actions: seq<Action>, job: Job)
    requires Run(actions).Some? && AllBack(Run(actions).value) && job.last
    ensures var s := Run(actions).value;
            var r := Run(actions + [Push(job), Finish(|s.jobs|)]);
            && r.Some? && SoloAt(r.value, job, Ready) && r.value.jobs == s.jobs + [job]
            && r.value.tx == map[] && r.value.nof == s.nof && r.value.log == s.log
            && forall ch :: ch in job.bufs ==> r.value.mem(job.worker, ch) == job.bufs[ch]
  {
    Two(actions, Push(job), Finish(|Run(actions).value.jobs|));
    hide Run;
  }

  lemma EnterMerge(actions: seq<Action>, job: Job)
    requires Run(actions).Some? && SoloAt(Run(actions).value, job, Ready) && Run(actions).value.tx == map[]
    requires forall ch :: ch in job.bufs ==> Run(actions).value.mem(job.worker, ch) == job.bufs[ch]
    ensures var s := Run(actions).value;
            var r := Run(actions + [Enter(|s.jobs| - 1), Merge(|s.jobs| - 1)]);
            && r.Some? && Alone(r.value, job, Sent(job, s.nof)) && r.value.jobs == s.jobs && r.value.log == s.log
  {
    var s, n := Run(actions).value, |Run(actions).value.jobs| - 1;
    hide Run;
    EnteringAlone(s, job);
    var t := Do(s, Enter(n));
    hide Do, Contents, Enabled;
    SoloMoves(t, job, Entered, Merge(n));
    MergingAlone(t, job);
    Two(actions, Enter(n), Merge(n));
  }

  lemma EnteringAlone(s: State, job: Job)
    requires SoloAt(s, job, Ready)
    ensures Enabled(s, Enter(|s.jobs| - 1))
    ensures var t := Do(s, Enter(|s.jobs| - 1));
            && SoloAt(t, job, Entered) && t.jobs == s.jobs && Enabled(t, Merge(|s.jobs| - 1))
            && t.tx == s.tx && t.mem == s.mem && t.nof == s.nof && t.log == s.log
  {
    SoloMoves(s, job, Ready, Enter(|s.jobs| - 1));
  }

  lemma MergingAlone(s: State, job: Job)
    requires SoloAt(s, job, Entered) && s.tx == map[]
    requires forall ch :: ch in job.bufs ==> s.mem(job.worker, ch) == job.bufs[ch]
    ensures var r := Do(s, Merge(|s.jobs| - 1));
            Contents(r) == Sent(job, s.nof).bufs && r.nof == Sent(job, s.nof).nof && r.log == s.log
  {
    assert Contents(Do(s, Merge(|s.jobs| - 1))) == Sent(job, s.nof).bufs;
  }

  lemma TransmitClear(actions: seq<Action>, job: Job, sent: Tx)
    requires Run(actions).Some? && Alone(Run(actions).value, job, sent)
    ensures var s := Run(actions).value;
            var r := Run(actions + [Transmit(|s.jobs| - 1), Clear(|s.jobs| - 1)]);
            && r.Some? && SoloAt(r.value, job, Cleared) && r.value.jobs == s.jobs
            && r.value.tx == map[] && r.value.nof == sent.nof && r.value.log == s.log + [sent]
  {
    hide Run, Do, Contents, Enabled;
    var s, n := Run(actions).value, |Run(actions).value.jobs| - 1;
    TransmittingAlone(s, job, sent);
    var t := Do(s, Transmit(n));
    ClearingAlone(t, job);
    Two(actions, Transmit(n), Clear(n));
  }

  lemma TransmittingAlone(s: State, job: Job, sent: Tx)
    requires Alone(s, job, sent)
    ensures Enabled(s, Transmit(|s.jobs| - 1))
    ensures var t := Do(s, Transmit(|s.jobs| - 1));
            && SoloAt(t, job, Transmitted) && t.jobs == s.jobs && t.nof == sent.nof && t.log == s.log + [sent]
  {
    SoloMoves(s, job, Combined, Transmit(|s.jobs| - 1));
  }

  lemma ClearingAlone(s: State, job: Job)
    requires SoloAt(s, job, Transmitted)
    ensures Enabled(s, Clear(|s.jobs| - 1))
    ensures var t := Do(s, Clear(|s.jobs| - 1));
            && SoloAt(t, job, Cleared) && t.jobs == s.jobs && t.nof == s.nof && t.log == s.log && t.tx == map[]
  {
    SoloMoves(s, job, Transmitted, Clear(|s.jobs| - 1));
  }

  lemma NotifyRelease(actions: seq<Action>, job: Job)
    requires Run(actions).Some? && SoloAt(Run(actions).value, job, Cleared) && Run(actions).value.tx == map[]
    ensures var s := Run(actions).value;
            var r := Run(actions + [Notify(|s.jobs| - 1), Release(|s.jobs| - 1)]);
            && r.Some? && AllBack(r.value) && r.value.jobs == s.jobs && r.value.nof == s.nof && r.value.log == s.log
  {
    var s, n := Run(actions).value, |Run(actions).value.jobs| - 1;
    SoloMoves(s, job, Cleared, Notify(n));
    var t := Do(s, Notify(n));
    assert t.tx == s.tx && t.nof == s.nof && t.log == s.log && Enabled(t, Release(n));
    ReleasingAlone(t, job);
    Two(actions, Notify(n), Release(n));
    hide Run, Do, Enabled;
  }

  lemma ReleasingAlone(s: State, job: Job)
    requires SoloAt(s, job, Notified) && s.tx == map[]
    ensures var r := Do(s, Release(|s.jobs| - 1));
            AllBack(r) && r.jobs == s.jobs && r.nof == s.nof && r.log == s.log
  {
  }

  /** A TTI with one worker, from being pushed to being done. */
  function Solo(n: nat, job: Job): seq<Action> {
    [Push(job), Finish(n)] + [Enter(n), Merge(n)] + [Transmit(n), Clear(n)] + [Notify(n), Release(n)]
  }

  lemma SoloSends(actions: seq<Action>, job: Job)
    requires Run(actions).Some? && AllBack(Run(actions).value) && job.last
    ensures var s := Run(actions).value;
            var r := Run(actions + Solo(|s.jobs|, job));
            && r.Some? && AllBack(r.value) && r.value.log == s.log + [Sent(job, s.nof)]
            && r.value.nof == Sent(job, s.nof).nof && |r.value.jobs| == |s.jobs| + 1
  {
    var n := |Run(actions).value.jobs|;
    var a2 := actions + [Push(job), Finish(n)];
    var a4 := a2 + [Enter(n), Merge(n)];
    var a6 := a4 + [Transmit(n), Clear(n)];
    assert a6 + [Notify(n), Release(n)] == actions + Solo(n, job);
    PushFinish(actions, job);
    EnterMerge(a2, job);
    TransmitClear(a4, job, Sent(job, Run(actions).value.nof));
    NotifyRelease(a6, job);
    hide *;
  }

  /** A TTI whose only worker has nothing to send, after one that had: it is transmitted with the sample
      count of the one before, from an empty buffer. */
  lemma StaleCountIsReachable(first: Job, second: Job)
    requires first.last && second.last && first.enable && !second.enable
    ensures var r := Run(Solo(0, first) + Solo(1, second));
            r.Some? && r.value.log == [Tx(first.bufs, first.nof, first.time), Tx(map[], first.nof, second.time)]
  {
    StartsBack();
    hide Run, Solo, AllBack, Init;
    assert [] + Solo(0, first) == Solo(0, first);
    SoloSends([], first);
    SoloSends(Solo(0, first), second);
  }

  lemma StartsBack()
    ensures Run([]).Some? && AllBack(Run([]).value)
    ensures Run([]).value.jobs == [] && Run([]).value.log == []
  {
  }

  /** All enabled jobs have n samples on each of their channels. */
  predicate Uniform(jobs: seq<Job>, n: nat) {
    forall i, ch :: 0 <= i < |jobs| && jobs[i].enable && ch in jobs[i].bufs ==>
      jobs[i].nof == n && |jobs[i].bufs[ch]| == n
  }

  function SampleSum(jobs: seq<Job>, ch: nat, i: nat): int
    decreases |jobs|
  {
    if jobs == [] then 0
    else
      var j := jobs[|jobs| - 1];
      SampleSum(jobs[..|jobs| - 1], ch, i) + if j.enable && ch in j.bufs && i < |j.bufs[ch]| then j.bufs[ch][i] else 0
  }

  /** With equal lengths, the combination is the sample by sample sum, channel by channel. */
  lemma {:induction false} CombinationIsSum(jobs: seq<Job>, n: nat, ch: nat)
    requires Uniform(jobs, n)
    ensures ch in CombineAll(jobs) <==> exists k :: 0 <= k < |jobs| && jobs[k].enable && ch in jobs[k].bufs
    ensures ch !in CombineAll(jobs) ==> forall i: nat :: i < n ==> SampleSum(jobs, ch, i) == 0
    ensures ch in CombineAll(jobs) ==> |CombineAll(jobs)[ch]| == n
    ensures ch in CombineAll(jobs) ==> forall i :: 0 <= i < n ==> CombineAll(jobs)[ch][i] == SampleSum(jobs, ch, i)
    decreases |jobs|
  {
    if jobs != [] {
      var front, j := jobs[..|jobs| - 1], jobs[|jobs| - 1];
      assert Uniform(front, n) by {
        forall i, ch | 0 <= i < |front| && front[i].enable && ch in front[i].bufs
          ensures front[i].nof == n && |front[i].bufs[ch]| == n
        {
          assert jobs[i] == front[i];
        }
      }
      CombinationIsSum(front, n, ch);
      if k :| 0 <= k < |jobs| && jobs[k].enable && ch in jobs[k].bufs {
        assert k < |front| ==> front[k].enable && ch in front[k].bufs;
      }
      if k :| 0 <= k < |front| && front[k].enable && ch in front[k].bufs {
        assert jobs[k].enable && ch in jobs[k].bufs;
      }
    }
  }

  // ---------- progress ----------

  /** The job whose turn it is can always go on. */
  lemma FrontCanAct(s: State)
    requires Shape(s) && Turn(s) < |s.jobs|
    ensures exists a: Action :: !a.Push? && !a.Scribble? && Enabled(s, a)
  {
    var r := Turn(s);
    Place(s, r);
    match s.pcs[r] {
      case Working => assert Enabled(s, Finish(r));
      case Ready =>
        assert s.fifo[0] == s.jobs[r].worker;
        assert Enabled(s, Enter(r));
      case Entered => assert Enabled(s, Merge(r));
      case Combined =>
        assert Enabled(s, Transmit(r)) || Enabled(s, RaiseHold(r)) || Enabled(s, Release(r));
      case Held => assert Enabled(s, Release(r));
      case Transmitted => assert Enabled(s, Clear(r));
      case Cleared => assert Enabled(s, Notify(r));
      case Notified => assert Enabled(s, Release(r));
    }
  }

  lemma NobodyWaitsAfterTti(s: State)
    requires Sized(s) && EndsTti(s.jobs) && Turn(s) == |s.jobs|
    ensures !SomeoneWaits(s)
  {
    forall k | 0 <= k < Turn(s)
      ensures !SameTti(s, k)
    {
      assert s.jobs[|s.jobs| - 1].last;
    }
  }

  /** Unless a TTI is only half pushed, as long as some worker is not done one of them can go on. */
  lemma NoDeadlock(s: State, i: nat)
    requires Inv(s) && EndsTti(s.jobs) && i < |s.jobs| && s.pcs[i] != Done
    ensures exists a: Action :: !a.Push? && !a.Scribble? && Enabled(s, a)
  {
    if Turn(s) < |s.jobs| {
      FrontCanAct(s);
    } else {
      Place(s, i);
      NobodyWaitsAfterTti(s);
      hide Shape, Pointers, Intact, OnLine, SomeoneWaits;
      assert Enabled(s, Return(i));
    }
  }

  function Rank(pc: Pc): nat {
    match pc
    case Working => 9
    case Ready => 8
    case Entered => 7
    case Combined => 6
    case Held => 5
    case Transmitted => 4
    case Cleared => 3
    case Notified => 2
    case Released => 1
    case Done => 0
  }

  function Weight(pcs: seq<Pc>): nat {
    if pcs == [] then 0 else Rank(pcs[0]) + Weight(pcs[1..])
  }

  lemma {:induction false} WeightUpdate(pcs: seq<Pc>, j: nat, pc: Pc)
    requires j < |pcs|
    ensures Weight(pcs[j := pc]) == Weight(pcs) - Rank(pcs[j]) + Rank(pc)
  {
    if j > 0 {
      WeightUpdate(pcs[1..], j - 1, pc);
      assert pcs[j := pc][1..] == pcs[1..][j - 1 := pc];
    } else {
      assert pcs[j := pc][1..] == pcs[1..];
    }
  }

  /** Every step of a worker other than writing to its own memory brings all of them nearer to being
      done; with NoDeadlock, all return once no more is pushed. */
  lemma EveryStepCounts(s: State, a: Action)
    requires Sized(s) && Enabled(s, a) && !a.Push? && !a.Scribble?
    ensures Weight(Do(s, a).pcs) < Weight(s.pcs)
  {
    WeightUpdate(s.pcs, a.j, Do(s, a).pcs[a.j]);
    hide Weight;
  }

  lemma {:induction false} AllDoneWeighsNothing(pcs: seq<Pc>)
    ensures Weight(pcs) == 0 <==> forall i :: 0 <= i < |pcs| ==> pcs[i] == Done
  {
    if pcs != [] {
      AllDoneWeighsNothing(pcs[1..]);
      if forall i :: 0 <= i < |pcs[1..]| ==> pcs[1..][i] == Done {
        assert forall i :: 1 <= i < |pcs| ==> pcs[i] == pcs[1..][i - 1];
      }
    }
  }
}

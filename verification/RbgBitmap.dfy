/** Resource block group selection of the PDSCH example: the 32-bit word reversal, the loop
    that builds the type 0 allocation bitmap, and the arrow keys that move the selection. */
module RbgBitmap {

  function Reverse(word: bv32): bv32 {
    var x := ((word & 0xaaaaaaaa) >> 1) | ((word & 0x55555555) << 1);
    var x := ((x & 0xcccccccc) >> 2) | ((x & 0x33333333) << 2);
    var x := ((x & 0xf0f0f0f0) >> 4) | ((x & 0x0f0f0f0f) << 4);
    var x := ((x & 0xff00ff00) >> 8) | ((x & 0x00ff00ff) << 8);
    (x >> 16) | (x << 16)
  }

  // ---------- single bits, over machine shift amounts ----------

  predicate RawBit(x: bv32, i: bv5) {
    (x >> i) & 1 == 1
  }

  lemma RawReverse(x: bv32, i: bv5)
    ensures RawBit(Reverse(x), i) == RawBit(x, 31 - i)
  {
  }

  function RawWithBit(mask: bv32, i: bv5): bv32 {
    mask | (1 << i)
  }

  function RawShifted(x: bv32, s: bv5): bv32 {
    x >> s
  }

  lemma RawSet(mask: bv32, i: bv5, j: bv5)
    ensures RawBit(RawWithBit(mask, i), j) == (RawBit(mask, j) || i == j)
  {
  }

  lemma RawShift(mask: bv32, s: bv5, j: bv5)
    ensures RawBit(mask >> s, j) == (j <= 31 - s && RawBit(mask, j + s))
  {
  }

  lemma RawShiftedBit(mask: bv32, s: bv5, j: bv5)
    ensures RawBit(RawShifted(mask, s), j) == (j <= 31 - s && RawBit(mask, j + s))
  {
    RawShift(mask, s, j);
    hide RawBit;
  }

  lemma RawZero(j: bv5)
    ensures !RawBit(0, j)
  {
  }

  // ---------- single bits, over integers ----------

  /** A loop index as a machine shift amount. */
  function Idx(i: int): bv5
    requires 0 <= i < 32
  {
    i as bv5
  }

  lemma IdxValue(i: int)
    requires 0 <= i < 32
    ensures Idx(i) as int == i
  {
  }

  lemma SameAmount(a: bv5, b: bv5)
    requires a as int == b as int
    ensures a == b
  {
  }

  lemma AddAmounts(a: bv5, b: bv5)
    requires a as int + b as int < 32
    ensures (a + b) as int == a as int + b as int
  {
  }

  lemma SubAmount(a: bv5)
    ensures (31 - a) as int == 31 - a as int
  {
  }

  lemma Order(a: bv5, b: bv5)
    ensures a <= b <==> a as int <= b as int
  {
  }

  lemma IdxSame(i: int, j: int)
    requires 0 <= i < 32 && 0 <= j < 32
    ensures Idx(i) == Idx(j) <==> i == j
  {
    IdxValue(i);
    IdxValue(j);
    hide Idx;
  }

  lemma IdxSum(i: int, j: int)
    requires 0 <= i && 0 <= j && i + j < 32
    ensures Idx(i) + Idx(j) == Idx(i + j)
  {
    hide Idx;
    IdxValue(i);
    IdxValue(j);
    IdxValue(i + j);
    AddAmounts(Idx(i), Idx(j));
    SameAmount(Idx(i) + Idx(j), Idx(i + j));
  }

  lemma IdxComplement(i: int)
    requires 0 <= i < 32
    ensures 31 - Idx(i) == Idx(31 - i)
  {
    hide Idx;
    IdxValue(i);
    IdxValue(31 - i);
    SubAmount(Idx(i));
    SameAmount(31 - Idx(i), Idx(31 - i));
  }

  lemma IdxFits(s: int, j: int)
    requires 0 <= s < 32 && 0 <= j < 32
    ensures Idx(j) <= 31 - Idx(s) <==> j + s < 32
  {
    hide Idx;
    IdxComplement(s);
    IdxValue(j);
    IdxValue(31 - s);
    Order(Idx(j), Idx(31 - s));
  }

  /** Bit i of a word, bit 0 being the least significant one. */
  predicate Bit(x: bv32, i: int)
    requires 0 <= i < 32
  {
    RawBit(x, Idx(i))
  }

  lemma ReverseMovesBit(x: bv32, i: int)
    requires 0 <= i < 32
    ensures Bit(Reverse(x), i) == Bit(x, 31 - i)
  {
    hide RawBit, Reverse, Idx;
    RawReverse(x, Idx(i));
    IdxComplement(i);
  }

  lemma ReverseTwice(x: bv32)
    ensures Reverse(Reverse(x)) == x
  {
  }

  function WithBit(mask: bv32, i: int): bv32
    requires 0 <= i < 32
  {
    RawWithBit(mask, Idx(i))
  }

  function ShiftRight(x: bv32, s: int): bv32
    requires 0 <= s < 32
  {
    RawShifted(x, Idx(s))
  }

  lemma SetBit(mask: bv32, i: int, j: int)
    requires 0 <= i < 32 && 0 <= j < 32
    ensures Bit(WithBit(mask, i), j) == (Bit(mask, j) || i == j)
  {
    hide RawBit, RawWithBit, Idx;
    RawSet(mask, Idx(i), Idx(j));
    IdxSame(i, j);
  }

  lemma ShiftBit(mask: bv32, s: int, j: int)
    requires 0 <= s < 32 && 0 <= j < 32
    ensures Bit(ShiftRight(mask, s), j) == (j + s < 32 && Bit(mask, j + s))
  {
    hide *;
    ShiftBitRaw(mask, s, j);
    if j + s < 32 {
      IdxSum(j, s);
      BitIsRaw(mask, j + s);
    }
    BitIsRaw(ShiftRight(mask, s), j);
  }

  lemma BitIsRaw(x: bv32, i: int)
    requires 0 <= i < 32
    ensures Bit(x, i) == RawBit(x, Idx(i))
  {
  }

  lemma ShiftBitRaw(mask: bv32, s: int, j: int)
    requires 0 <= s < 32 && 0 <= j < 32
    ensures RawBit(ShiftRight(mask, s), Idx(j)) == (j + s < 32 && RawBit(mask, Idx(j) + Idx(s)))
  {
    hide RawBit, RawShifted, Idx;
    RawShiftedBit(mask, Idx(s), Idx(j));
    IdxFits(s, j);
  }

  /** Reversal and a right shift by 32-nb together move bit nb-1-j to bit j. */
  lemma AlignedBit(mask: bv32, nb: int, j: int)
    requires 1 <= nb <= 32 && 0 <= j < 32
    ensures Bit(ShiftRight(Reverse(mask), 32 - nb), j) == (j < nb && Bit(mask, nb - 1 - j))
  {
    hide *;
    ShiftBit(Reverse(mask), 32 - nb, j);
    if j < nb {
      ReverseMovesBit(mask, j + 32 - nb);
    }
  }

  // ---------- the selection and its keys ----------

  /** The selected groups: `num` of them from `orig` on, and the size to fall back to. */
  datatype Selection = Selection(orig: int, num: int, last: int)

  datatype Key = Right | Left | Up | Down | Other

  /** Group i of nb is allocated. */
  predicate Selected(sel: Selection, nb: int, i: int) {
    0 <= i < nb && sel.orig <= i < sel.orig + sel.num
  }

  /** What one key does to a selection among nb groups. */
  function Press(sel: Selection, nb: int, key: Key): Selection {
    match key
    case Right => if sel.orig + sel.num < nb then sel.(orig := sel.orig + 1) else sel
    case Left => if sel.orig > 0 then sel.(orig := sel.orig - 1) else sel
    case Up => if sel.num < nb then sel.(num := sel.num + 1) else sel
    case Down => sel.(last := sel.num, num := if sel.num > 0 then sel.num - 1 else sel.num)
    case Other => sel
  }

  /** A key held for k turns. */
  function Held(sel: Selection, nb: int, key: Key, k: nat): Selection {
    if k == 0 then sel else Press(Held(sel, nb, key, k - 1), nb, key)
  }

  function Max(a: int, b: int): int {
    if a > b then a else b
  }

  /** Where holding a key ends: Right at the last place where the selection still fits, Left at the first
      group, Up at all groups, Down at none, remembering the size before the last press. */
  lemma {:induction false} HeldKey(sel: Selection, nb: int, key: Key, k: nat)
    requires 0 <= sel.orig && 0 <= sel.num
    ensures Held(sel, nb, key, k)
         == match key
            case Right => sel.(orig := Max(sel.orig, Min(sel.orig + k, nb - sel.num)))
            case Left => sel.(orig := Max(sel.orig - k, 0))
            case Up => sel.(num := Max(sel.num, Min(sel.num + k, nb)))
            case Down => sel.(num := Max(sel.num - k, 0), last := if k == 0 then sel.last else Max(sel.num - k + 1, 0))
            case Other => sel
  {
    if k > 0 {
      HeldKey(sel, nb, key, k - 1);
    }
  }

  /** Keys that undo one another: Left undoes a Right that moved, Right a Left that moved a selection that
      fits, Down an Up that grew, and a refused turn falls back to the size before a Down. */
  lemma KeysUndo(sel: Selection, nb: int)
    requires 0 <= sel.orig && 0 <= sel.num
    ensures sel.orig + sel.num < nb ==> Press(Press(sel, nb, Right), nb, Left) == sel
    ensures sel.orig > 0 && sel.orig + sel.num <= nb ==> Press(Press(sel, nb, Left), nb, Right) == sel
    ensures sel.num < nb ==> Press(Press(sel, nb, Up), nb, Down) == sel.(last := sel.num + 1)
    ensures Take(Press(sel, nb, Down), nb, Turn(Other, true)) == sel.(last := sel.num)
  {
  }

  /** One turn of the control loop: the key, then the fall-back size if the allocation was refused. */
  datatype Turn = Turn(key: Key, refused: bool)

  function Take(sel: Selection, nb: int, turn: Turn): Selection {
    var moved := Press(sel, nb, turn.key);
    if turn.refused then moved.(num := moved.last) else moved
  }

  /** From start-up, where all groups are selected, through a run of turns. */
  function Run(nb: int, turns: seq<Turn>): Selection
    decreases |turns|
  {
    if turns == [] then Selection(0, nb, nb)
    else Take(Run(nb, turns[..|turns| - 1]), nb, turns[|turns| - 1])
  }

  /** Origin and size each stay within nb; their sum need not. */
  lemma {:induction false} RunStaysInRange(nb: int, turns: seq<Turn>)
    requires 1 <= nb
    ensures var sel := Run(nb, turns);
            0 <= sel.orig <= nb && 0 <= sel.num <= nb && 0 <= sel.last <= nb
    decreases |turns|
  {
    if turns != [] {
      RunStaysInRange(nb, turns[..|turns| - 1]);
    }
  }

  /** The selection ends with the last group or before. */
  predicate Fits(sel: Selection, nb: int) {
    0 <= sel.orig && 0 <= sel.num && sel.orig + sel.num <= nb
  }

  /** A turn that a selection can take without growing past the last group: growing ignores the origin,
      and so does falling back to the last size. */
  predicate Safe(sel: Selection, nb: int, turn: Turn) {
    if turn.refused then var moved := Press(sel, nb, turn.key); moved.orig + moved.last <= nb
    else !(turn.key == Up && sel.orig + sel.num == nb && sel.orig > 0)
  }

  lemma TurnFitsIffSafe(sel: Selection, nb: int, turn: Turn)
    requires 1 <= nb && Fits(sel, nb) && 0 <= sel.last
    ensures Fits(Take(sel, nb, turn), nb) <==> Safe(sel, nb, turn)
  {
  }

  ghost predicate FitsThroughout(nb: int, turns: seq<Turn>) {
    forall k :: 0 <= k <= |turns| ==> Fits(Run(nb, turns[..k]), nb)
  }

  ghost predicate SafeThroughout(nb: int, turns: seq<Turn>) {
    forall k :: 0 <= k < |turns| ==> Safe(Run(nb, turns[..k]), nb, turns[k])
  }

  lemma ThroughoutSnoc(nb: int, front: seq<Turn>, turn: Turn)
    ensures FitsThroughout(nb, front + [turn]) <==> FitsThroughout(nb, front) && Fits(Run(nb, front + [turn]), nb)
    ensures SafeThroughout(nb, front + [turn]) <==> SafeThroughout(nb, front) && Safe(Run(nb, front), nb, turn)
  {
    var turns := front + [turn];
    assert turns[..|turns|] == turns;
    assert forall k :: 0 <= k <= |front| ==> turns[..k] == front[..k];
    assert front[..|front|] == front;
    hide Run, Fits, Safe;
  }

  /** A run stays inside all the way exactly when each of its turns is safe where it is taken. */
  lemma {:induction false} RunFitsIffSafe(nb: int, turns: seq<Turn>)
    requires 1 <= nb
    ensures FitsThroughout(nb, turns) <==> SafeThroughout(nb, turns)
    decreases |turns|
  {
    if turns == [] {
      assert turns[..0] == turns;
    } else {
      var front, turn := turns[..|turns| - 1], turns[|turns| - 1];
      assert turns == front + [turn] && front[..|front|] == front;
      RunFitsIffSafe(nb, front);
      RunStaysInRange(nb, front);
      ThroughoutSnoc(nb, front, turn);
      assert Run(nb, turns) == Take(Run(nb, front), nb, turn);
      assert FitsThroughout(nb, front) ==> Fits(Run(nb, front[..|front|]), nb);
      hide Run, Take, Safe, Fits, FitsThroughout, SafeThroughout;
      if Fits(Run(nb, front), nb) {
        TurnFitsIffSafe(Run(nb, front), nb, turn);
      }
    }
  }

  /** Both ways out exist: growing a selection that was moved, */
  lemma GrowingReachesPast()
    ensures Run(4, [Turn(Down, false), Turn(Right, false), Turn(Up, false)]) == Selection(1, 4, 4)
  {
    ThreeTurns(4, Turn(Down, false), Turn(Right, false), Turn(Up, false));
  }

  /** and falling back to a size from before it was moved. */
  lemma RefusalReachesPast()
    ensures Run(4, [Turn(Down, false), Turn(Right, false), Turn(Other, true)]) == Selection(1, 4, 4)
  {
    ThreeTurns(4, Turn(Down, false), Turn(Right, false), Turn(Other, true));
  }

  lemma ThreeTurns(nb: int, a: Turn, b: Turn, c: Turn)
    ensures Run(nb, [a, b, c]) == Take(Take(Take(Selection(0, nb, nb), nb, a), nb, b), nb, c)
  {
    assert [a, b, c][..2] == [a, b] && [a, b][..1] == [a] && [a][..0] == [];
    assert Run(nb, [a]) == Take(Run(nb, []), nb, a);
    assert Run(nb, [a, b]) == Take(Run(nb, [a]), nb, b);
    hide Take;
  }

  // ---------- what a bitmap means ----------

  /** The bitmap means the selection: group 0 is the most significant of the nb bits. */
  ghost predicate Encodes(mask: bv32, sel: Selection, nb: int) {
    forall j :: 0 <= j < 32 ==> Bit(mask, j) == Selected(sel, nb, nb - 1 - j)
  }

  /** How many of the lowest n bits are set. */
  function Ones(mask: bv32, n: nat): nat
    requires n <= 32
  {
    if n == 0 then 0
    else Ones(mask, n - 1) + if Bit(mask, n - 1) then 1 else 0
  }

  function Min(a: int, b: int): int {
    if a < b then a else b
  }

  /** A word whose set bits are lo..hi-1 has, below n, as many ones as that interval has members. */
  lemma {:induction false} IntervalOnes(mask: bv32, lo: int, hi: int, n: nat)
    requires 0 <= lo <= hi <= 32 && n <= 32
    requires forall j :: 0 <= j < 32 ==> Bit(mask, j) == (lo <= j < hi)
    ensures Ones(mask, n) == if n <= lo then 0 else Min(n, hi) - lo
  {
    hide Bit;
    if n > 0 {
      IntervalOnes(mask, lo, hi, n - 1);
    }
  }

  /** After any keys the bitmap has one bit for each selected group that exists. */
  lemma OnesCount(mask: bv32, nb: int, turns: seq<Turn>)
    requires 1 <= nb <= 32
    requires Encodes(mask, Run(nb, turns), nb)
    ensures var sel := Run(nb, turns); Ones(mask, 32) == Min(sel.num, nb - sel.orig)
  {
    hide Bit;
    var sel := Run(nb, turns);
    RunStaysInRange(nb, turns);
    var n := Min(sel.num, nb - sel.orig);
    IntervalOnes(mask, nb - sel.orig - n, nb - sel.orig, 32);
  }

  /** The control state of the example program. */
  class PrbControl {
    const nb: int
    var prbsetOrig: int
    var prbsetNum: int
    var lastPrbsetNum: int
    ghost var turns: seq<Turn>

    ghost predicate Valid()
      reads this
    {
      1 <= nb <= 32 && State() == Run(nb, turns)
    }

    function State(): Selection
      reads this
    {
      Selection(prbsetOrig, prbsetNum, lastPrbsetNum)
    }

    constructor (groups: int)
      requires 1 <= groups <= 32
      ensures Valid() && nb == groups && turns == []
    {
      nb, prbsetOrig, prbsetNum, lastPrbsetNum := groups, 0, groups, groups;
      turns := [];
    }

    method UpdateControl(key: Key, refused: bool)
      requires Valid()
      modifies this
      ensures Valid() && turns == old(turns) + [Turn(key, refused)]
    {
      match key {
        case Right =>
          if prbsetOrig + prbsetNum < nb {
            prbsetOrig := prbsetOrig + 1;
          }
        case Left =>
          if prbsetOrig > 0 {
            prbsetOrig := prbsetOrig - 1;
          }
        case Up =>
          if prbsetNum < nb {
            prbsetNum := prbsetNum + 1;
          }
        case Down =>
          lastPrbsetNum := prbsetNum;
          if prbsetNum > 0 {
            prbsetNum := prbsetNum - 1;
          }
        case Other =>
      }
      if refused {
        prbsetNum := lastPrbsetNum;
      }
      turns := turns + [Turn(key, refused)];
      assert turns[..|turns| - 1] == old(turns);
    }

    method PrbsetToBitmask() returns (mask: bv32)
      requires Valid()
      ensures Encodes(mask, Run(nb, turns), nb)
      ensures Ones(mask, 32) == Min(prbsetNum, nb - prbsetOrig)
    {
      hide Bit, Reverse, WithBit, ShiftRight;
      mask := 0;
      forall k | 0 <= k < 32
        ensures !Bit(mask, k)
      {
        ZeroHasNoBit(k);
      }
      var i := 0;
      while i < nb
        invariant 0 <= i <= nb
        invariant forall k :: 0 <= k < 32 ==> Bit(mask, k) == (Selected(State(), nb, k) && k < i)
      {
        if i >= prbsetOrig && i < prbsetOrig + prbsetNum {
          ghost var before := mask;
          mask := WithBit(mask, i);
          forall k | 0 <= k < 32
            ensures Bit(mask, k) == (Bit(before, k) || k == i)
          {
            SetBit(before, i, k);
          }
        }
        i := i + 1;
      }
      ghost var collected := mask;
      mask := ShiftRight(Reverse(mask), 32 - nb);
      forall j | 0 <= j < 32
        ensures Bit(mask, j) == Selected(State(), nb, nb - 1 - j)
      {
        AlignedBit(collected, nb, j);
      }
      OnesCount(mask, nb, turns);
    }
  }

  lemma ZeroHasNoBit(i: int)
    requires 0 <= i < 32
    ensures !Bit(0, i)
  {
    RawZero(Idx(i));
  }
}

/** Chunk identifiers: a `(cycle, position)` pair over a ring of `size` positions.
  *
  * The C++ class is copied by value everywhere, so the value is a datatype; the class below
  * is the mutable counter (a field of the client) that holds one.
  */
module ChunkIds {
  import opened Arith

  /** The position of chunk `x` of the stream after one `++`; the 32-bit cycle finally wraps. */
  function Succ(x: nat, size: nat): (y: nat)
    requires size > 0
  {
    if x + 1 == 0x1_0000_0000 * size then 0 else x + 1
  }

  /** The cycle `MinusInt` lands on from cycle `q` when it goes back `c` cycles: the count to
    * subtract is held in 16 bits and the cycle saturates at zero. */
  function BackCycle(q: nat, c: nat): nat {
    if q > c % 0x1_0000 then q - c % 0x1_0000 else 0
  }

  /** The position it lands on: `p` positions back from `r` around the ring. */
  function BackPosition(r: nat, p: nat, size: nat): (pos: nat)
    requires r < size && p < size
    ensures pos < size
  {
    if r < p then r + size - p else r - p
  }

  datatype ChunkId = ChunkId(cycle: nat, position: nat, size: nat) {
    ghost predicate Valid() {
      0 < size < 0x1_0000 && position < size && cycle < 0x1_0000_0000
    }

    /** The index in the stream: `cycle * size + position`. */
    function Linear(): nat {
      Laps(cycle, size) + position
    }

    lemma LinearParts()
      requires position < size
      ensures Linear() / size == cycle && Linear() % size == position
    {
      LapsSplit(Linear(), cycle, position, size);
    }

    lemma LinearBound()
      requires Valid()
      ensures Linear() < 0x1_0000_0000 * size
    {
      LapsGrow(cycle, 0x1_0000_0000, size);
      LapsU32(size);
    }

    /** Comparing cycles first and positions second compares linear indices. */
    lemma LinearOrder(other: ChunkId)
      requires position < size && other.position < other.size && size == other.size
      ensures Linear() < other.Linear() <==>
                cycle < other.cycle || (cycle == other.cycle && position < other.position)
      ensures Linear() == other.Linear() <==> this == other
    {
      if cycle < other.cycle {
        LapsGrow(cycle, other.cycle, size);
      } else if other.cycle < cycle {
        LapsGrow(other.cycle, cycle, size);
      }
    }

    /** `k` chunks back: where `a - k` lands. */
    function Back(k: nat): (r: ChunkId)
      requires position < size
      ensures r.position < r.size == size && r.cycle <= cycle
    {
      var p := k % size;
      var c := k / size + if position < p then 1 else 0;
      ChunkId(BackCycle(cycle, c), BackPosition(position, p, size), size)
    }

    /** `this - b`, with the cycles subtracted in uint32. */
    function Minus(b: ChunkId): (r: ChunkId)
      requires position < size && b.position < b.size == size
      ensures r.position < r.size == size
    {
      ChunkId((cycle - b.cycle) % 0x1_0000_0000, position, size).Back(b.position)
    }

    predicate Equals(param: ChunkId) {
      cycle == param.cycle && position == param.position
    }

    predicate Less(param: ChunkId) {
      if cycle < param.cycle then true
      else cycle == param.cycle && position < param.position
    }

    predicate LessEq(param: ChunkId) {
      if cycle < param.cycle then true
      else if cycle == param.cycle && position < param.position then true
      else cycle == param.cycle && position == param.position
    }

    predicate Greater(param: ChunkId) {
      if cycle > param.cycle then true
      else cycle == param.cycle && position > param.position
    }

    predicate GreaterEq(param: ChunkId) {
      if cycle > param.cycle then true
      else if cycle == param.cycle && position > param.position then true
      else cycle == param.cycle && position == param.position
    }
  }

  /** The six comparisons are the order of the linear indices. */
  lemma ComparisonsAreLinear(a: ChunkId, b: ChunkId)
    requires a.Valid() && b.Valid() && a.size == b.size
    ensures a.Equals(b) <==> a.Linear() == b.Linear()
    ensures a.Less(b) <==> a.Linear() < b.Linear()
    ensures a.LessEq(b) <==> a.Linear() <= b.Linear()
    ensures a.Greater(b) <==> a.Linear() > b.Linear()
    ensures a.GreaterEq(b) <==> a.Linear() >= b.Linear()
  {
    a.LinearOrder(b);
    b.LinearOrder(a);
  }

  /** `a - k` on the value: 16-bit locals, as in the source. */
  method MinusInt(a: ChunkId, param: nat) returns (ret: ChunkId)
    requires a.Valid()
    ensures ret.Valid() && ret == a.Back(param)
  {
    var cycleToSub, posToSub, kq := CyclesAndPosition(param, a.size);
    ret := BorrowAndSubtract(a, cycleToSub, posToSub, kq);
  }

  method CyclesAndPosition(param: nat, size: nat) returns (cycleToSub: nat, posToSub: nat, ghost kq: nat)
    requires 0 < size < 0x1_0000
    ensures kq == param / size && cycleToSub == kq % 0x1_0000 && posToSub == param % size < size
  {
    kq := param / size;
    cycleToSub := (param / size) % 0x1_0000;
    posToSub := (param % size) % 0x1_0000;
  }

  method BorrowAndSubtract(a: ChunkId, cycles: nat, posToSub: nat, ghost kq: nat) returns (ret: ChunkId)
    requires a.Valid() && posToSub < a.size && cycles == kq % 0x1_0000
    ensures ret.Valid() && ret.size == a.size
    ensures ret.position == BackPosition(a.position, posToSub, a.size)
    ensures ret.cycle == BackCycle(a.cycle, kq + if a.position < posToSub then 1 else 0)
  {
    ret := a;
    var cycleToSub := cycles;
    var newPos := ret.position;
    if newPos < posToSub {
      cycleToSub := (cycleToSub + 1) % 0x1_0000;
      newPos := (newPos + ret.size) % 0x1_0000;
    }
    newPos := (newPos - posToSub) % 0x1_0000;
    WrapTwice(kq);
    if ret.cycle > cycleToSub {
      ret := ret.(cycle := ret.cycle - cycleToSub);
    } else {
      ret := ret.(cycle := 0);
    }
    ret := ret.(position := newPos);
  }

  lemma WrapTwice(c: nat)
    ensures (c % 0x1_0000 + 1) % 0x1_0000 == (c + 1) % 0x1_0000
  {}

  /** `a - k` is exact precisely while the number of cycles to subtract fits in 16 bits. */
  lemma BackExact(a: ChunkId, k: nat)
    requires a.Valid() && k <= a.Linear()
    ensures a.Back(k).Linear() == a.Linear() - k <==>
              k / a.size + (if a.position < k % a.size then 1 else 0) < 0x1_0000
  {
    LapsOf(k, a.size);
    BackExactParts(a, k, k / a.size, k % a.size);
  }

  lemma BackExactParts(a: ChunkId, k: nat, kq: nat, kr: nat)
    requires a.Valid() && kr < a.size && k == Laps(kq, a.size) + kr <= a.Linear()
    ensures var c := kq + if a.position < kr then 1 else 0;
            Laps(BackCycle(a.cycle, c), a.size) + BackPosition(a.position, kr, a.size) == a.Linear() - k
            <==> c < 0x1_0000
  {
    var c := kq + if a.position < kr then 1 else 0;
    if a.cycle < c {
      LapsGrow(a.cycle, c, a.size);
      assert false;
    }
    LapsAdd(a.cycle - c, c, a.size);
    if c >= 0x1_0000 {
      LapsGrow(a.cycle - c, BackCycle(a.cycle, c), a.size);
    }
  }

  /** Going back further than the start of the stream lands in cycle 0, at the position counted
    * backwards around the ring. */
  lemma BackPastStart(a: ChunkId, k: nat)
    requires a.Valid() && k > a.Linear() && k / a.size + 1 < 0x1_0000
    ensures a.Back(k).cycle == 0 && (a.Back(k).position + k) % a.size == a.position
  {
    LapsOf(k, a.size);
    BackPastStartParts(a, k, k / a.size, k % a.size);
    var borrow := if a.position < k % a.size then 1 else 0;
    LapsSplit(a.Back(k).position + k, k / a.size + borrow, a.position, a.size);
  }

  lemma BackPastStartParts(a: ChunkId, k: nat, kq: nat, kr: nat)
    requires a.Valid() && kr < a.size && k == Laps(kq, a.size) + kr > a.Linear() && kq + 1 < 0x1_0000
    ensures var borrow := if a.position < kr then 1 else 0;
            && BackCycle(a.cycle, kq + borrow) == 0
            && BackPosition(a.position, kr, a.size) + k == Laps(kq + borrow, a.size) + a.position
  {
    var borrow := if a.position < kr then 1 else 0;
    if a.cycle > kq + borrow {
      LapsGrow(kq + borrow, a.cycle, a.size);
      assert false;
    }
  }

  /** `a - b` on the values: the cycles are subtracted in uint32, so the branch for a negative
    * difference is never taken. */
  method Minus(a: ChunkId, param: ChunkId) returns (ret: ChunkId)
    requires a.Valid() && param.Valid() && a.size == param.size
    ensures ret.Valid() && ret == a.Minus(param)
  {
    var newCycle := (a.cycle - param.cycle) % 0x1_0000_0000;
    if newCycle < 0 {
      newCycle := 0;
    }
    ret := ChunkId(newCycle, a.position, a.size);
    ret := MinusInt(ret, param.position);
  }

  /** A difference is exact precisely when it is not negative. A negative one gets cycle 0 -- the
    * saturation the code aims at -- only within one cycle (or at the far end of the 32-bit range),
    * and then it is the distance around the ring. */
  lemma MinusExact(a: ChunkId, b: ChunkId)
    requires a.Valid() && b.Valid() && a.size == b.size
    ensures a.Minus(b).Linear() == a.Linear() - b.Linear() <==> a.Linear() >= b.Linear()
    ensures a.Linear() < b.Linear() ==>
              (a.Minus(b).cycle == 0 <==> a.cycle == b.cycle
                                          || (a.position < b.position && b.cycle - a.cycle == 0x1_0000_0000 - 1))
    ensures a.Linear() < b.Linear() && a.cycle == b.cycle ==>
              a.Minus(b).Linear() == a.size - (b.Linear() - a.Linear())
  {
    a.LinearOrder(b);
    MinusParts(a, b);
    var borrow := if a.position < b.position then 1 else 0;
    if a.Linear() >= b.Linear() {
      LapsAdd(a.cycle - b.cycle - borrow, b.cycle + borrow, a.size);
    }
  }

  lemma MinusParts(a: ChunkId, b: ChunkId)
    requires a.Valid() && b.Valid() && a.size == b.size
    ensures var borrow := if a.position < b.position then 1 else 0;
            a.Minus(b) == ChunkId(BackCycle((a.cycle - b.cycle) % 0x1_0000_0000, borrow),
                                  BackPosition(a.position, b.position, a.size), a.size)
  {
    DivModUnique(b.position, a.size, 0, b.position);
  }

  /** `a >= b && (a - b).GetCycle() == 0`, the window test used by every holder of a chunk map. */
  predicate WithinOneCycle(a: ChunkId, b: ChunkId)
    requires a.position < a.size && b.position < b.size == a.size
  {
    a.GreaterEq(b) && a.Minus(b).cycle == 0
  }

  lemma WindowIsOneLap(a: ChunkId, b: ChunkId)
    requires a.Valid() && b.Valid() && a.size == b.size
    ensures WithinOneCycle(a, b) <==> b.Linear() <= a.Linear() < b.Linear() + a.size
  {
    ComparisonsAreLinear(a, b);
    MinusExact(a, b);
    if a.Minus(b).cycle > 0 {
      LapsGrow(0, a.Minus(b).cycle, a.size);
    }
  }

  /** The counter object: `requestPosition`, `latestReceivedPosition`, `playerDeliveryPosition`. */
  class ChunkUniqueID {
    var position: nat
    var cycle: nat
    var bufferSize: nat

    function Value(): ChunkId
      reads this
    {
      ChunkId(cycle, position, bufferSize)
    }

    ghost predicate Valid()
      reads this
    {
      Value().Valid()
    }

    function Linear(): nat
      reads this
    {
      Value().Linear()
    }

    constructor (cycle: nat, pos: nat, size: nat)
      ensures Value() == ChunkId(cycle, pos, size)
    {
      this.position := pos;
      this.cycle := cycle;
      this.bufferSize := size;
    }

    method Set(cycle: nat, pos: nat)
      modifies this`cycle, this`position
      ensures Value() == ChunkId(cycle, pos, old(bufferSize))
    {
      this.position := pos;
      this.cycle := cycle;
    }

    method Assign(value: ChunkId)
      modifies this
      ensures Value() == value
    {
      cycle, position, bufferSize := value.cycle, value.position, value.size;
    }

    /** One step along the ring is one step along the stream. */
    method IncID()
      requires Valid()
      modifies this`cycle, this`position
      ensures Valid() && bufferSize == old(bufferSize)
      ensures Linear() == Succ(old(Linear()), bufferSize)
    {
      Value().LinearBound();
      LapsU32(bufferSize);
      position := (position + 1) % 0x1_0000;
      if position >= bufferSize {
        position := 0;
        cycle := (cycle + 1) % 0x1_0000_0000;
        if cycle != 0 {
          LapsGrow(cycle, 0x1_0000_0000, bufferSize);
        }
      } else {
        LapsGrow(cycle, 0x1_0000_0000, bufferSize);
      }
    }
  }

  /** A chunk one cycle behind the tip looks almost 2^32 cycles ahead of it, not zero chunks ahead
    * as the unreachable branch for negative differences intends. */
  lemma NegativeDifferenceNotSaturated()
    ensures ChunkId(0, 3, 1600).Linear() < ChunkId(1, 2, 1600).Linear()
    ensures ChunkId(0, 3, 1600).Minus(ChunkId(1, 2, 1600)) == ChunkId(0x1_0000_0000 - 1, 1, 1600)
  {}
}

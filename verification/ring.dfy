/** Counting around a ring: positions are counts modulo the capacity. */
module Ring {
  lemma ModIs(n: int, capacity: nat, q: int, r: nat)
    requires r < capacity && n == q * capacity + r
    ensures n % capacity == r
  {
    var q', r' := n / capacity, n % capacity;
    assert (q - q') * capacity == r' - r;
    if q > q' {
      Times(q - q', 1, capacity);
    } else if q < q' {
      Times(q - q', -1, capacity);
    }
  }

  lemma Times(a: int, b: int, c: nat)
    requires a >= b
    ensures a * c >= b * c
  {
  }

  /** The position `gap` places further on, without and with wrap-around. */
  lemma ModGap(n: nat, gap: nat, capacity: nat)
    requires gap < capacity
    ensures (n + gap) % capacity
      == if n % capacity + gap < capacity then n % capacity + gap else n % capacity + gap - capacity
  {
    var q, r := n / capacity, n % capacity;
    if r + gap < capacity {
      ModIs(n + gap, capacity, q, r + gap);
    } else {
      assert (q + 1) * capacity == q * capacity + capacity;
      ModIs(n + gap, capacity, q + 1, r + gap - capacity);
    }
  }

  /** The position of the n-th message. */
  function Pos(n: nat, capacity: nat): (p: nat)
    requires capacity > 0
    ensures p < capacity
  {
    n % capacity
  }

  lemma PosZero(capacity: nat)
    requires capacity > 0
    ensures Pos(0, capacity) == 0
  {
    ModIs(0, capacity, 0, 0);
  }

  lemma PosSucc(n: nat, capacity: nat)
    requires capacity >= 2
    ensures (Pos(n, capacity) + 1) % capacity == Pos(n + 1, capacity)
  {
    var r := n % capacity;
    ModGap(n, 1, capacity);
    if r + 1 < capacity {
      ModIs(r + 1, capacity, 0, r + 1);
    } else {
      ModIs(capacity, capacity, 1, 0);
    }
  }

  /** Counts less than a capacity apart share a position only when equal. */
  lemma PosInjective(a: nat, b: nat, capacity: nat)
    requires a <= b < a + capacity
    ensures Pos(a, capacity) == Pos(b, capacity) <==> a == b
  {
    ModGap(a, b - a, capacity);
  }

  /** Counts a full capacity apart share a position. */
  lemma PosLap(a: nat, capacity: nat)
    requires capacity > 0
    ensures Pos(a + capacity, capacity) == Pos(a, capacity)
  {
    var q, r := a / capacity, a % capacity;
    assert (q + 1) * capacity == q * capacity + capacity;
    ModIs(a + capacity, capacity, q + 1, r);
  }

  /** How many places apart two positions are, as `size` computes it. */
  function Used(head: nat, tail: nat, capacity: nat): int {
    if head >= tail then head - tail else capacity - tail + head
  }

  /** It is the difference of the counts, modulo the capacity, whichever is ahead and by however much. */
  lemma UsedIsMod(headCount: nat, tailCount: nat, capacity: nat)
    requires capacity > 0
    ensures var n := Used(Pos(headCount, capacity), Pos(tailCount, capacity), capacity);
      0 <= n < capacity && n == (headCount - tailCount) % capacity
  {
    var head, tail := Pos(headCount, capacity), Pos(tailCount, capacity);
    var laps := headCount / capacity - tailCount / capacity;
    assert headCount - tailCount == laps * capacity + head - tail;
    if head >= tail {
      ModIs(headCount - tailCount, capacity, laps, head - tail);
    } else {
      assert (laps - 1) * capacity == laps * capacity - capacity;
      ModIs(headCount - tailCount, capacity, laps - 1, capacity - tail + head);
    }
  }
}

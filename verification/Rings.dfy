/** The physical ring behind every channel: a fixed block of slots, and a read
    and a write index that each run modulo twice the capacity, so that an empty
    ring (indices equal) and a full one (indices a capacity apart) differ.
    Everything here is about values; `RingBuffer` is the mutable form and the
    two protocol modules let a producer and a consumer interleave over it. */
module Rings {

  datatype Option<+T> = None | Some(value: T)

  function Min(a: nat, b: nat): nat {
    if a < b then a else b
  }

  /** How many slots lie between the indices: the formula of the availability query. */
  function Occupied(cap: nat, rd: nat, wr: nat): nat
    requires 0 < cap && rd < 2 * cap && wr < 2 * cap
  {
    (2 * cap + wr - rd) % (2 * cap)
  }

  function Advance(cap: nat, index: nat, n: nat): nat
    requires 0 < cap
  {
    (index + n) % (2 * cap)
  }

  /** The slot that holds position `at + i`. */
  function Slot(cap: nat, at: nat, i: nat): (p: nat)
    requires 0 < cap
    ensures p < cap
  {
    (at + i) % cap
  }

  /** The `n` slots from position `at` on, wrapping around the end of the block. */
  function Window<T>(slots: seq<T>, at: nat, n: nat): (w: seq<T>)
    requires 0 < |slots|
    ensures |w| == n
  {
    seq(n, i requires 0 <= i < n => slots[Slot(|slots|, at, i)])
  }

  /** The block after storing `xs` in the slots from position `at` on. */
  function WriteAt<T>(slots: seq<T>, at: nat, xs: seq<T>): (r: seq<T>)
    requires 0 < |slots|
    ensures |r| == |slots|
    decreases xs
  {
    if xs == [] then slots
    else WriteAt(slots[Slot(|slots|, at, 0) := xs[0]], at + 1, xs[1..])
  }

  datatype Ring<T> = Ring(slots: seq<T>, rd: nat, wr: nat) {
    function Cap(): nat {
      |slots|
    }

    predicate Ok() {
      0 < Cap() && rd < 2 * Cap() && wr < 2 * Cap() && Occupied(Cap(), rd, wr) <= Cap()
    }

    function Avail(): nat
      requires Ok()
    {
      Occupied(Cap(), rd, wr)
    }

    function Vacant(): nat
      requires Ok()
    {
      Cap() - Avail()
    }

    /** The abstract FIFO: what a consumer can see, oldest first. */
    function Queue(): (q: seq<T>)
      requires Ok()
      ensures |q| == Avail()
    {
      Window(slots, rd, Avail())
    }

    /** The two contiguous pieces `as_slices` returns: up to the end of the block, and the wrapped rest. */
    function Front(): seq<T>
      requires Ok()
    {
      var at := rd % Cap();
      slots[at..at + Min(Avail(), Cap() - at)]
    }

    function Back(): seq<T>
      requires Ok()
    {
      var at := rd % Cap();
      slots[..Avail() - Min(Avail(), Cap() - at)]
    }

    function StoreRead(n: nat): Ring<T>
      requires Ok()
    {
      this.(rd := Advance(Cap(), rd, n))
    }

    function StoreWrite(n: nat): Ring<T>
      requires Ok()
    {
      this.(wr := Advance(Cap(), wr, n))
    }

    function WriteSlots(xs: seq<T>): Ring<T>
      requires Ok()
    {
      this.(slots := WriteAt(slots, wr, xs))
    }
  }

  // ---- modular arithmetic ----

  lemma ModOnce(x: nat, m: nat)
    requires 0 < m && x < 2 * m
    ensures x % m == if x < m then x else x - m
  {
    if x < m {
      ModUnique(x, m, 0, x);
    } else {
      ModUnique(x, m, 1, x - m);
    }
  }

  lemma ModShift(x: nat, m: nat)
    requires 0 < m
    ensures (x + 2 * m) % m == x % m
  {
    var q, r := x / m, x % m;
    assert x + 2 * m == m * (q + 2) + r;
    ModUnique(x + 2 * m, m, q + 2, r);
  }

  /** The only multiple of `m` strictly between `-m` and `m` is zero. */
  lemma SmallMultiple(m: int, d: int)
    requires 0 < m
    ensures -m < m * d < m ==> d == 0
  {
    if 1 <= d {
      assert m <= m * d;
    } else if d <= -1 {
      assert m * d <= -m;
    }
  }

  lemma ModUnique(x: nat, m: nat, q: nat, r: nat)
    requires 0 < m && r < m && x == m * q + r
    ensures x / m == q && x % m == r
  {
    var d := q - x / m;
    assert x == m * (x / m) + x % m;
    assert m * d == m * q - m * (x / m);
    SmallMultiple(m, d);
  }

  lemma SlotOnce(cap: nat, at: nat)
    requires 0 < cap && at < 2 * cap
    ensures Slot(cap, at, 0) == if at < cap then at else at - cap
  {
    ModOnce(at, cap);
  }

  lemma OneWritten<T>(slots: seq<T>, at: nat, z: T)
    requires 0 < |slots|
    ensures WriteAt(slots, at, [z]) == slots[Slot(|slots|, at, 0) := z]
  {
    assert [z][1..] == [];
  }

  /** A slot number does not depend on whether the index has wrapped at twice the capacity. */
  lemma AdvanceSlot(cap: nat, index: nat, n: nat, i: nat)
    requires 0 < cap && index < 2 * cap && n <= cap
    ensures Slot(cap, Advance(cap, index, n), i) == Slot(cap, index, n + i)
  {
    ModOnce(index + n, 2 * cap);
    if 2 * cap <= index + n {
      ModShift(Advance(cap, index, n) + i, cap);
    }
  }

  lemma SlotsDistinct(cap: nat, at: nat, i: nat, j: nat)
    requires 0 < cap && i < j && j - i < cap
    ensures Slot(cap, at, i) != Slot(cap, at, j)
  {
    var qi, qj := (at + i) / cap, (at + j) / cap;
    assert at + i == cap * qi + Slot(cap, at, i);
    assert at + j == cap * qj + Slot(cap, at, j);
    assert cap * (qj - qi) == cap * qj - cap * qi;
    SmallMultiple(cap, qj - qi);
  }

  /** The occupied count without the modulus. */
  lemma OccupiedCases(cap: nat, rd: nat, wr: nat)
    requires 0 < cap && rd < 2 * cap && wr < 2 * cap
    ensures Occupied(cap, rd, wr) == if rd <= wr then wr - rd else 2 * cap + wr - rd
  {
    ModOnce(2 * cap + wr - rd, 2 * cap);
  }

  lemma AdvanceCases(cap: nat, index: nat, n: nat)
    requires 0 < cap && index < 2 * cap && n <= cap
    ensures Advance(cap, index, n) == if index + n < 2 * cap then index + n else index + n - 2 * cap
    ensures Advance(cap, index, n) < 2 * cap
  {
    ModOnce(index + n, 2 * cap);
  }

  // ---- what the three primitive ring steps do to the queue ----

  /** Storing the read index drops exactly the `n` oldest entries. */
  lemma StoreReadDrops<T>(r: Ring<T>, n: nat)
    requires r.Ok() && n <= r.Avail()
    ensures r.StoreRead(n).Ok()
    ensures r.StoreRead(n).Queue() == r.Queue()[n..]
    ensures r.StoreRead(n).Vacant() == r.Vacant() + n
  {
    var cap, s := r.Cap(), r.StoreRead(n);
    OccupiedCases(cap, r.rd, r.wr);
    AdvanceCases(cap, r.rd, n);
    OccupiedCases(cap, s.rd, s.wr);
    forall i | 0 <= i < s.Avail()
      ensures s.Queue()[i] == r.Queue()[n + i]
    {
      AdvanceSlot(cap, r.rd, n, i);
    }
  }

  /** Storing the write index makes exactly the next `n` slots visible, behind what was queued. */
  lemma StoreWriteAppends<T>(r: Ring<T>, n: nat)
    requires r.Ok() && n <= r.Vacant()
    ensures r.StoreWrite(n).Ok()
    ensures r.StoreWrite(n).Queue() == r.Queue() + Window(r.slots, r.wr, n)
    ensures r.StoreWrite(n).Vacant() == r.Vacant() - n
  {
    var cap, s := r.Cap(), r.StoreWrite(n);
    OccupiedCases(cap, r.rd, r.wr);
    AdvanceCases(cap, r.wr, n);
    OccupiedCases(cap, s.rd, s.wr);
    forall i | 0 <= i < s.Avail()
      ensures s.Queue()[i] == (r.Queue() + Window(r.slots, r.wr, n))[i]
    {
      if r.Avail() <= i {
        WriteSlot(r, i - r.Avail());
      }
    }
  }

  /** The write position is the slot right behind the queued ones. */
  lemma WriteSlot<T>(r: Ring<T>, i: nat)
    requires r.Ok()
    ensures Slot(r.Cap(), r.wr, i) == Slot(r.Cap(), r.rd, r.Avail() + i)
  {
    OccupiedCases(r.Cap(), r.rd, r.wr);
    if r.wr < r.rd {
      ModShift(r.wr + i, r.Cap());
    }
  }

  /** Storing into the slots beyond the queue is invisible to the consumer. */
  lemma WriteSlotsInvisible<T>(r: Ring<T>, xs: seq<T>)
    requires r.Ok() && |xs| <= r.Vacant()
    ensures r.WriteSlots(xs).Ok()
    ensures r.WriteSlots(xs).Queue() == r.Queue()
    ensures Window(r.WriteSlots(xs).slots, r.wr, |xs|) == xs
    ensures r.WriteSlots(xs).Vacant() == r.Vacant()
  {
    var s := r.WriteSlots(xs);
    forall i | 0 <= i < r.Avail()
      ensures s.Queue()[i] == r.Queue()[i]
    {
      forall j | 0 <= j < |xs|
        ensures Slot(r.Cap(), r.wr, j) != Slot(r.Cap(), r.rd, i)
      {
        WriteSlot(r, j);
        SlotsDistinct(r.Cap(), r.rd, i, r.Avail() + j);
      }
      WriteAtKeeps(r.slots, r.wr, xs, Slot(r.Cap(), r.rd, i));
    }
    WriteAtStores(r.slots, r.wr, xs);
  }

  lemma {:induction false} WriteAtKeeps<T>(slots: seq<T>, at: nat, xs: seq<T>, p: nat)
    requires p < |slots|
    requires forall j :: 0 <= j < |xs| ==> Slot(|slots|, at, j) != p
    ensures WriteAt(slots, at, xs)[p] == slots[p]
    decreases xs
  {
    if xs == [] {
    } else {
      var next, at' := slots[Slot(|slots|, at, 0) := xs[0]], at + 1;
      forall j | 0 <= j < |xs[1..]|
        ensures Slot(|next|, at', j) != p
      {
        assert Slot(|slots|, at, j + 1) != p;
      }
      WriteAtKeeps(next, at', xs[1..], p);
    }
  }

  lemma {:induction false} WriteAtStores<T>(slots: seq<T>, at: nat, xs: seq<T>)
    requires 0 < |slots| && |xs| <= |slots|
    ensures Window(WriteAt(slots, at, xs), at, |xs|) == xs
    decreases xs
  {
    if xs == [] {
    } else {
      var p := Slot(|slots|, at, 0);
      var rest, next, at' := xs[1..], slots[p := xs[0]], at + 1;
      WriteAtStores(next, at', rest);
      forall j | 0 <= j < |rest|
        ensures Slot(|next|, at', j) != p
      {
        SlotsDistinct(|slots|, at, 0, j + 1);
      }
      WriteAtKeeps(next, at', rest, p);
      var w := WriteAt(slots, at, xs);
      forall i | 0 <= i < |xs|
        ensures Window(w, at, |xs|)[i] == xs[i]
      {
        if 0 < i {
          assert Window(w, at', |rest|)[i - 1] == rest[i - 1];
          assert Slot(|slots|, at, i) == Slot(|slots|, at', i - 1);
        }
      }
    }
  }

  /** The two pieces of `as_slices`, put together, are the queue. */
  lemma SlicesAreQueue<T>(r: Ring<T>)
    requires r.Ok()
    ensures r.Front() + r.Back() == r.Queue()
  {
    var cap, at := r.Cap(), r.rd % r.Cap();
    var n := Min(r.Avail(), cap - at);
    ModOnce(r.rd, cap);
    forall i | 0 <= i < r.Avail()
      ensures (r.Front() + r.Back())[i] == r.Queue()[i]
    {
      ModOnce(at + i, cap);
      if r.rd != at {
        ModPlus(at + i, cap);
      }
    }
  }

  lemma ModPlus(x: nat, m: nat)
    requires 0 < m
    ensures (x + m) % m == x % m
  {
    var q, r := x / m, x % m;
    assert x + m == m * (q + 1) + r;
    ModUnique(x + m, m, q + 1, r);
  }

  /** An empty ring of the given block. */
  lemma FreshRing<T>(slots: seq<T>)
    requires 0 < |slots|
    ensures Ring(slots, 0, 0).Ok() && Ring(slots, 0, 0).Queue() == []
    ensures Ring(slots, 0, 0).Vacant() == |slots|
  {
    OccupiedCases(|slots|, 0, 0);
  }
}

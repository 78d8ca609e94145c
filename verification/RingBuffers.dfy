/** The mutable ring of a plain channel, with the calls of `Tx` and `Rx` on it.
    `View()` is the physical state as a value, so that each method is proved
    against what `Rings` says about the queue. One thread at a time here: the
    interleavings are the subject of `ChannelProtocol`. */
module RingBuffers {
  import opened Rings

  function Overwrite<T>(was: seq<T>, to: nat, xs: seq<T>): seq<T>
    requires to + |xs| <= |was|
  {
    was[..to] + xs + was[to + |xs|..]
  }

  lemma OverwriteTwice<T>(was: seq<T>, to: nat, xs: seq<T>, ys: seq<T>)
    requires to + |xs + ys| <= |was|
    ensures Overwrite(Overwrite(was, to, xs), to + |xs|, ys) == Overwrite(was, to, xs + ys)
    ensures Overwrite(was, to, []) == was
  {
  }

  lemma OverwriteNext<T>(was: seq<T>, to: nat, xs: seq<T>, x: T)
    requires to + |xs| < |was|
    ensures Overwrite(was, to, xs)[to + |xs| := x] == Overwrite(was, to, xs + [x])
  {
  }

  /** `copy_from_slice` into part of a target. */
  method Fill<T>(target: array<T>, start: nat, xs: seq<T>)
    requires start + |xs| <= target.Length
    modifies target
    ensures target[..] == Overwrite(old(target[..]), start, xs)
  {
    for i := 0 to |xs|
      invariant target[..start] == old(target[..start])
      invariant target[start..start + i] == xs[..i]
      invariant target[start + i..] == old(target[start + i..])
    {
      target[start + i] := xs[i];
    }
  }

  /** The first `want` entries of two pieces into a target: `copy_into_slice` with the whole target,
      and the payload half of the stream's slice take. Copies the longest prefix there is room for. */
  method CopyBoth<T>(c: seq<T>, d: seq<T>, want: nat, target: array<T>) returns (copied: nat)
    requires want <= target.Length
    modifies target
    ensures copied == Min(|c + d|, want)
    ensures target[..] == Overwrite(old(target[..]), 0, (c + d)[..copied])
  {
    hide Overwrite;
    var n := Min(|c|, want);
    var m := Min(|d|, want - n);
    OverwriteTwice(target[..], 0, c[..n], d[..m]);
    assert (c + d)[..n + m] == c[..n] + d[..m];
    OverwriteTwice(target[..], 0, [], []);
    copied := 0;
    if n > 0 {
      Fill(target, 0, c[..n]);
      copied := copied + n;
    }
    OverwriteTwice(target[..], n, [], []);
    if copied < want {
      if m > 0 {
        Fill(target, copied, d[..m]);
        copied := copied + m;
      }
    }
  }

  class RingBuffer<T(0)> {
    const slots: array<T>
    var readIndex: nat
    var writeIndex: nat

    ghost function View(): Ring<T>
      reads this, slots
    {
      Ring(slots[..], readIndex, writeIndex)
    }

    ghost predicate Valid()
      reads this, slots
    {
      View().Ok()
    }

    ghost function Queue(): seq<T>
      requires Valid()
      reads this, slots
    {
      View().Queue()
    }

    constructor (capacity: nat)
      requires 0 < capacity
      ensures Valid() && fresh(slots)
      ensures Queue() == [] && slots.Length == capacity
    {
      slots := new T[capacity];
      readIndex, writeIndex := 0, 0;
      new;
      FreshRing(slots[..]);
    }

    /** `shared_vacant_units`: the modulus formula counts exactly the free slots. */
    method VacantUnits() returns (n: nat)
      requires Valid()
      ensures n == slots.Length - |Queue()|
    {
      OccupiedCases(slots.Length, readIndex, writeIndex);
      ModOnce(slots.Length + readIndex - writeIndex, 2 * slots.Length);
      n := (slots.Length + readIndex - writeIndex) % (2 * slots.Length);
    }

    /** `shared_avail_units`. */
    method AvailUnits() returns (n: nat)
      requires Valid()
      ensures n == |Queue()|
    {
      n := (2 * slots.Length + writeIndex - readIndex) % (2 * slots.Length);
    }

    /** The advance of the write index after filling slots by hand, cut to the vacancy. */
    method AdvanceWrite(request: nat) returns (done: nat)
      requires Valid()
      modifies this`writeIndex
      ensures Valid() && done == Min(request, slots.Length - old(|Queue()|))
      ensures Queue() == old(Queue() + Window(slots[..], writeIndex, done))
    {
      var vacant := VacantUnits();
      done := if request > vacant then vacant else request;
      StoreWriteAppends(View(), done);
      writeIndex := Advance(slots.Length, writeIndex, done);
    }

    /** `shared_advance_index` of the receiver: drops the oldest, cut to what is there. */
    method AdvanceRead(request: nat) returns (done: nat)
      requires Valid()
      modifies this`readIndex
      ensures Valid() && done == Min(request, old(|Queue()|))
      ensures Queue() == old(Queue())[done..]
    {
      var avail := AvailUnits();
      done := if request > avail then avail else request;
      StoreReadDrops(View(), done);
      readIndex := Advance(slots.Length, readIndex, done);
    }

    /** Stores `xs` in the slots behind the queue, which no reader can see yet. */
    method FillSlots(xs: seq<T>)
      requires 0 < slots.Length
      modifies slots
      ensures slots[..] == WriteAt(old(slots[..]), writeIndex, xs)
    {
      ghost var before := slots[..];
      for i := 0 to |xs|
        invariant WriteAt(slots[..], writeIndex + i, xs[i..]) == WriteAt(before, writeIndex, xs)
      {
        assert xs[i..][1..] == xs[i + 1..];
        slots[Slot(slots.Length, writeIndex, i)] := xs[i];
      }
    }

    /** `push_slice`, also `shared_send_slice`: queues the longest prefix that fits. */
    method PushSlice(xs: seq<T>) returns (pushed: nat)
      requires Valid()
      modifies this`writeIndex, slots
      ensures Valid() && pushed == Min(|xs|, slots.Length - old(|Queue()|))
      ensures Queue() == old(Queue()) + xs[..pushed]
    {
      var vacant := VacantUnits();
      pushed := if |xs| < vacant then |xs| else vacant;
      ghost var before := View();
      WriteSlotsInvisible(before, xs[..pushed]);
      FillSlots(xs[..pushed]);
      assert View() == before.WriteSlots(xs[..pushed]);
      var done := AdvanceWrite(pushed);
    }

    /** `shared_try_send`: queued, or handed back with the ring untouched. */
    method TrySend(msg: T) returns (returned: Option<T>)
      requires Valid()
      modifies this`writeIndex, slots
      ensures Valid()
      ensures returned == if old(|Queue()|) < slots.Length then None else Some(msg)
      ensures Queue() == old(Queue()) + if returned == None then [msg] else []
    {
      var n := PushSlice([msg]);
      returned := if n == 1 then None else Some(msg);
    }

    /** `try_peek`. */
    method TryPeek() returns (msg: Option<T>)
      requires Valid()
      ensures msg == if Queue() == [] then None else Some(Queue()[0])
    {
      var avail := AvailUnits();
      if avail == 0 {
        msg := None;
      } else {
        assert Queue()[0] == slots[Slot(slots.Length, readIndex, 0)];
        msg := Some(slots[Slot(slots.Length, readIndex, 0)]);
      }
    }

    /** `shared_try_take`. */
    method TryTake() returns (msg: Option<T>)
      requires Valid()
      modifies this`readIndex
      ensures Valid()
      ensures if old(Queue()) == [] then msg == None && Queue() == []
              else msg == Some(old(Queue())[0]) && Queue() == old(Queue())[1..]
    {
      msg := TryPeek();
      if msg.Some? {
        var done := AdvanceRead(1);
      }
    }

    /** `as_slices`, as bounds into the block: the first piece is `[at, at + a)`, the second `[0, b)`. */
    method Pieces() returns (at: nat, a: nat, b: nat)
      requires Valid()
      ensures at + a <= slots.Length && b <= slots.Length && a + b == |Queue()|
      ensures View().Front() == slots[at..at + a] && View().Back() == slots[..b]
      ensures slots[at..at + a] + slots[..b] == Queue()
    {
      var avail := AvailUnits();
      at := readIndex % slots.Length;
      a := if avail < slots.Length - at then avail else slots.Length - at;
      b := avail - a;
      SlicesAreQueue(View());
    }

    /** Copies the longest prefix of the queue that the target range holds, and nothing else. */
    method CopyOut(target: array<T>, want: nat) returns (copied: nat)
      requires Valid() && target != slots && want <= target.Length
      modifies target
      ensures copied == Min(want, |Queue()|)
      ensures target[..] == Overwrite(old(target[..]), 0, Queue()[..copied])
    {
      var at, a, b := Pieces();
      copied := CopyBoth(slots[at..at + a], slots[..b], want, target);
    }

    /** `shared_take_slice`: the longest prefix of the queue that fits the target is copied and removed. */
    method TakeSlice(target: array<T>) returns (copied: nat)
      requires Valid() && target != slots
      modifies this`readIndex, target
      ensures Valid() && copied == Min(target.Length, old(|Queue()|))
      ensures target[..] == Overwrite(old(target[..]), 0, old(Queue())[..copied])
      ensures Queue() == old(Queue())[copied..]
    {
      copied := CopyOut(target, target.Length);
      var done := AdvanceRead(copied);
    }
  }
}

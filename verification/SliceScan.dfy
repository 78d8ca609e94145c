/** The stream `shared_take_slice` scans the two pieces of the control ring with
    two separate loops; `copy_items_and_payloads` scans them as one chain. This
    module says exactly when the two agree and what happens when they do not. */
module SliceScan {
  import opened Rings
  import opened Framing

  /** Items taken from the first piece, then items taken from the second with the room left over. */
  function FirstCount(a: seq<ControlItem>, itemRoom: nat, byteRoom: nat): nat {
    FitCount(a, itemRoom, byteRoom)
  }

  function RoomLeft(a: seq<ControlItem>, itemRoom: nat, byteRoom: nat): (left: nat)
    ensures left == byteRoom - SumLen(a[..FirstCount(a, itemRoom, byteRoom)])
  {
    FitCountIsLargest(a, itemRoom, byteRoom, FirstCount(a, itemRoom, byteRoom));
    byteRoom - SumLen(a[..FirstCount(a, itemRoom, byteRoom)])
  }

  function SecondCount(a: seq<ControlItem>, b: seq<ControlItem>, itemRoom: nat, byteRoom: nat): nat {
    FitCount(b, itemRoom - FirstCount(a, itemRoom, byteRoom), RoomLeft(a, itemRoom, byteRoom))
  }

  /** What the two loops copy out, and the number of bytes they ask for. */
  function Copied(a: seq<ControlItem>, b: seq<ControlItem>, itemRoom: nat, byteRoom: nat): seq<ControlItem> {
    a[..FirstCount(a, itemRoom, byteRoom)] + b[..SecondCount(a, b, itemRoom, byteRoom)]
  }

  /** The second loop cannot jump over an item the first loop stopped at. */
  predicate NoSkip(a: seq<ControlItem>, b: seq<ControlItem>, itemRoom: nat, byteRoom: nat) {
    var k := FirstCount(a, itemRoom, byteRoom);
    k == |a| || k == itemRoom || b == [] || RoomLeft(a, itemRoom, byteRoom) < b[0].length
  }

  lemma {:induction false} FitCountConcat(a: seq<ControlItem>, b: seq<ControlItem>, itemRoom: nat, byteRoom: nat)
    ensures FitCount(a + b, itemRoom, byteRoom)
            == if FirstCount(a, itemRoom, byteRoom) == |a| then |a| + SecondCount(a, b, itemRoom, byteRoom)
               else FirstCount(a, itemRoom, byteRoom)
  {
    if a == [] {
      assert a + b == b;
    } else if itemRoom != 0 && a[0].length <= byteRoom {
      var k := FirstCount(a, itemRoom, byteRoom);
      assert (a + b)[1..] == a[1..] + b;
      assert a[..k][1..] == a[1..][..k - 1];
      FitCountConcat(a[1..], b, itemRoom - 1, byteRoom - a[0].length);
    }
  }

  /** The bytes the two loops ask for never exceed the target's room. */
  lemma CopiedFits(a: seq<ControlItem>, b: seq<ControlItem>, itemRoom: nat, byteRoom: nat)
    ensures SumLen(Copied(a, b, itemRoom, byteRoom)) <= byteRoom
    ensures SumLen(Copied(a, b, itemRoom, byteRoom)) <= SumLen(a + b)
    ensures |Copied(a, b, itemRoom, byteRoom)| <= itemRoom
  {
    var k, m := FirstCount(a, itemRoom, byteRoom), SecondCount(a, b, itemRoom, byteRoom);
    FitCountIsLargest(b, itemRoom - k, RoomLeft(a, itemRoom, byteRoom), m);
    SumLenAppend(a[..k], b[..m]);
    SumLenAppend(a, b);
    SumLenSplit(a, k);
    SumLenSplit(b, m);
  }

  /** The two loops take as many items as the one chained scan exactly under `NoSkip`,
      and that is also exactly when what they copy is what they later drop from the ring. */
  lemma TwoLoopsMatchOneScan(a: seq<ControlItem>, b: seq<ControlItem>, itemRoom: nat, byteRoom: nat)
    ensures NoSkip(a, b, itemRoom, byteRoom)
            <==> |Copied(a, b, itemRoom, byteRoom)| == FitCount(a + b, itemRoom, byteRoom)
    ensures NoSkip(a, b, itemRoom, byteRoom)
            <==> Copied(a, b, itemRoom, byteRoom) == (a + b)[..|Copied(a, b, itemRoom, byteRoom)|]
  {
    FitCountConcat(a, b, itemRoom, byteRoom);
    var k, c := FirstCount(a, itemRoom, byteRoom), Copied(a, b, itemRoom, byteRoom);
    FitCountStep(a, itemRoom, byteRoom, k) by {
      FitCountIsLargest(a, itemRoom, byteRoom, k);
    }
    if !NoSkip(a, b, itemRoom, byteRoom) {
      assert c[k] == b[0] && (a + b)[..|c|][k] == a[k];
    }
  }

  /** The items dropped announce at least the bytes that are asked for, and exactly those only under
      `NoSkip`, whatever else is in the rings. */
  lemma SkipIffSurplus(a: seq<ControlItem>, b: seq<ControlItem>, itemRoom: nat, byteRoom: nat)
    ensures var c := Copied(a, b, itemRoom, byteRoom);
            |c| <= |a + b| && SumLen(c) <= SumLen((a + b)[..|c|])
            && (SumLen(c) == SumLen((a + b)[..|c|]) <==> NoSkip(a, b, itemRoom, byteRoom))
  {
    hide SumLen, FitCount;
    var k, c := FirstCount(a, itemRoom, byteRoom), Copied(a, b, itemRoom, byteRoom);
    CopiedFits(a, b, itemRoom, byteRoom);
    TwoLoopsMatchOneScan(a, b, itemRoom, byteRoom);
    if !NoSkip(a, b, itemRoom, byteRoom) {
      // The dropped items include the one that did not fit, so they announce more than the target holds.
      FitCountIsLargest(a, itemRoom, byteRoom, k + 1);
      assert (a + b)[..k + 1] == a[..k + 1];
      SumLenMonotone(a + b, k + 1, |c|);
    }
  }

  /** A caller whose payload target holds everything announced is always safe. */
  lemma RoomForAllNeverSkips(a: seq<ControlItem>, b: seq<ControlItem>, itemRoom: nat, byteRoom: nat)
    requires SumLen(a + b) <= byteRoom
    ensures NoSkip(a, b, itemRoom, byteRoom)
  {
    var c := Copied(a, b, itemRoom, byteRoom);
    SkipIffSurplus(a, b, itemRoom, byteRoom);
    TwoLoopsMatchOneScan(a, b, itemRoom, byteRoom);
    var k := FirstCount(a, itemRoom, byteRoom);
    SumLenAppend(a, b);
    FitCountStep(a, itemRoom, byteRoom, k) by {
      FitCountIsLargest(a, itemRoom, byteRoom, k);
    }
    if k < |a| {
      SumLenNext(a, k);
      SumLenMonotone(a, k + 1, |a|);
      assert a[..|a|] == a;
    }
  }

  /** The call keeps the two rings in step exactly under `NoSkip`, whatever is published ahead of its
      item: otherwise it drops more items than it drops bytes for, whatever the lengths are. */
  lemma TwoLoopsKeepFramingIff(a: seq<ControlItem>, b: seq<ControlItem>, bytes: seq<byte>, ahead: nat,
                               itemRoom: nat, byteRoom: nat)
    requires SumLen(a + b) + ahead == |bytes|
    ensures SumLen(Copied(a, b, itemRoom, byteRoom)) <= |bytes|
    ensures var c := Copied(a, b, itemRoom, byteRoom);
            |c| <= |a + b|
            && (SumLen((a + b)[|c|..]) + ahead == |bytes[SumLen(c)..]| <==> NoSkip(a, b, itemRoom, byteRoom))
  {
    CopiedFits(a, b, itemRoom, byteRoom);
    SkipIffSurplus(a, b, itemRoom, byteRoom);
    SumLenSplit(a + b, |Copied(a, b, itemRoom, byteRoom)|);
  }

  /** A ring of two items after one was pushed and taken and a five-byte and a one-byte item were
      pushed: the second lies behind the wrap. */
  function Wrapped(): Ring<ControlItem> {
    var empty := Ring([Egress(0), Egress(0)], 0, 0);
    var taken := empty.WriteSlots([Egress(1)]).StoreWrite(1).StoreRead(1);
    taken.WriteSlots([Egress(5), Egress(1)]).StoreWrite(2)
  }

  /** The skip is real: with room for two items and three bytes the first item stays undelivered and
      is dropped all the same. */
  lemma SecondLoopCanSkip()
    ensures var r := Wrapped();
            r.Ok() && r.Queue() == [Egress(5), Egress(1)] && !NoSkip(r.Front(), r.Back(), 2, 3)
            && Copied(r.Front(), r.Back(), 2, 3) == [Egress(1)] && FitCount(r.Queue(), 2, 3) == 0
  {
    hide FitCount, Copied, NoSkip, Wrapped;
    WrappedLayout();
    SkipOfPieces();
  }

  lemma WrappedLayout()
    ensures var r := Wrapped();
            r.Ok() && r.Front() == [Egress(5)] && r.Back() == [Egress(1)] && r.Queue() == [Egress(5)] + [Egress(1)]
  {
    hide Wrapped, Window;
    WrappedRing();
    LayoutOf(Egress(1), Egress(5));
  }

  /** Pushes and a take on a block of two items, slot by slot. */
  lemma Layout(x: ControlItem, y: ControlItem, z: ControlItem)
    ensures Ring([x, y], 0, 0).Ok() && Ring([x, y], 0, 1).Ok() && Ring([x, y], 1, 1).Ok() && Ring([x, y], 1, 2).Ok()
    ensures Ring([x, y], 0, 0).WriteSlots([z]) == Ring([z, y], 0, 0)
    ensures Ring([x, y], 0, 0).StoreWrite(1) == Ring([x, y], 0, 1)
    ensures Ring([x, y], 0, 1).StoreRead(1) == Ring([x, y], 1, 1)
    ensures Ring([x, y], 1, 1).WriteSlots([z]) == Ring([x, z], 1, 1)
    ensures Ring([x, y], 1, 1).StoreWrite(1) == Ring([x, y], 1, 2)
    ensures Ring([x, y], 1, 2).WriteSlots([z]) == Ring([z, y], 1, 2)
    ensures Ring([x, y], 1, 2).StoreWrite(1) == Ring([x, y], 1, 3)
  {
    hide Window, WriteAt, Occupied, Advance, Slot;
    OccupiedCases(2, 0, 0);
    OccupiedCases(2, 0, 1);
    OccupiedCases(2, 1, 1);
    OccupiedCases(2, 1, 2);
    AdvanceCases(2, 0, 1);
    AdvanceCases(2, 1, 1);
    AdvanceCases(2, 2, 1);
    SlotOnce(2, 0);
    SlotOnce(2, 1);
    SlotOnce(2, 2);
    OneWritten([x, y], 0, z);
    OneWritten([x, y], 1, z);
    OneWritten([x, y], 2, z);
  }

  lemma WrappedRing()
    ensures Wrapped() == Ring([Egress(1), Egress(5)], 1, 3)
  {
    hide Window, WriteAt, Occupied, Advance, Slot;
    Layout(Egress(0), Egress(0), Egress(1));
    Layout(Egress(1), Egress(0), Egress(0));
    TwoWritten(Egress(1), Egress(0), Egress(5), Egress(1));
    AdvanceCases(2, 1, 2);
  }

  lemma TwoWritten(x: ControlItem, y: ControlItem, z: ControlItem, w: ControlItem)
    ensures WriteAt([x, y], 1, [z, w]) == [w, z]
  {
    hide Slot;
    SlotOnce(2, 1);
    SlotOnce(2, 2);
    assert [z, w][1..] == [w] && [x, y][1 := z] == [x, z];
    assert WriteAt([x, y], 1, [z, w]) == WriteAt([x, z], 2, [w]);
    OneWritten([x, z], 2, w);
  }

  lemma LayoutOf(x: ControlItem, y: ControlItem)
    ensures var r := Ring([x, y], 1, 3);
            r.Ok() && r.Front() == [y] && r.Back() == [x] && r.Queue() == [y] + [x]
  {
    hide Window, Occupied;
    OccupiedCases(2, 1, 3);
    ModOnce(1, 2);
    assert [x, y][1..2] == [y] && [x, y][..1] == [x];
    SlicesAreQueue(Ring([x, y], 1, 3));
  }

  lemma SkipOfPieces()
    ensures var a, b := [Egress(5)], [Egress(1)];
            !NoSkip(a, b, 2, 3) && Copied(a, b, 2, 3) == [Egress(1)] && FitCount(a + b, 2, 3) == 0
  {
    var a, b := [Egress(5)], [Egress(1)];
    assert FirstCount(a, 2, 3) == 0;
    assert FitCount(b[1..], 1, 2) == 0;
    assert SecondCount(a, b, 2, 3) == 1;
    assert (a + b)[0] == Egress(5);
  }
}

/** The calls of `StreamTx` and `StreamRx` on the two mutable rings, one thread
    at a time. `StreamProtocol` interleaves the same calls; here each is proved
    against the frames it queues or delivers. */
module StreamChannel {
  import opened Rings
  import opened Framing
  import opened SliceScan
  import opened RingBuffers

  /** The loop of `shared_take_slice` over one piece of the control ring: copies items into the
      target from `start` on while another one fits, and adds up the bytes they announce. */
  method CopyFitting(items: seq<ControlItem>, target: array<ControlItem>, start: nat, byteRoom: nat)
    returns (copied: nat, needed: nat)
    requires start <= target.Length
    modifies target
    ensures copied == FitCount(items, target.Length - start, byteRoom) && needed == SumLen(items[..copied])
    ensures target[..] == Overwrite(old(target[..]), start, items[..copied])
  {
    hide FitCount, SumLen, Overwrite;
    copied, needed := 0, 0;
    ghost var was := target[..];
    OverwriteTwice(was, start, items[..0], []);
    SumLenNone(items);
    var room := target.Length - start;
    while copied < |items|
      invariant copied <= |items| && copied <= room && needed == SumLen(items[..copied]) <= byteRoom
      invariant target[..] == Overwrite(old(target[..]), start, items[..copied])
    {
      var itemLen := items[copied].length;
      FitCountStep(items, room, byteRoom, copied);
      if copied < room && needed + itemLen <= byteRoom {
        OverwriteNext(was, start, items[..copied], items[copied]);
        target[start + copied] := items[copied];
        SumLenNext(items, copied);
        assert items[..copied + 1] == items[..copied] + [items[copied]];
        copied := copied + 1;
        needed := needed + itemLen;
      } else {
        return;
      }
    }
    FitCountStep(items, room, byteRoom, copied);
  }

  /** The two scans of `shared_take_slice`, one over each piece of the control ring. */
  method ScanPieces(front: seq<ControlItem>, back: seq<ControlItem>, itemTarget: array<ControlItem>, byteRoom: nat)
    returns (items: nat, needed: nat)
    modifies itemTarget
    ensures var c := Copied(front, back, itemTarget.Length, byteRoom);
            items == |c| <= |front + back| && items <= itemTarget.Length && needed == SumLen(c) <= byteRoom
            && itemTarget[..] == Overwrite(old(itemTarget[..]), 0, c)
  {
    hide Overwrite, FitCount, SumLen;
    CopiedFits(front, back, itemTarget.Length, byteRoom);
    ghost var was := itemTarget[..];
    var first, firstBytes := CopyFitting(front, itemTarget, 0, byteRoom);
    FitCountIsLargest(front, itemTarget.Length, byteRoom, first);
    var second, secondBytes := CopyFitting(back, itemTarget, first, byteRoom - firstBytes);
    items, needed := first + second, firstBytes + secondBytes;
    SumLenAppend(front[..first], back[..second]);
    OverwriteTwice(was, 0, front[..first], back[..second]);
  }

  /** The counting scan of `copy_items_and_payloads` over the two pieces as one chain. */
  method ScanChain(all: seq<ControlItem>, itemRoom: nat, byteRoom: nat) returns (items: nat, needed: nat)
    ensures items <= |all| && items <= itemRoom && needed == SumLen(all[..items]) <= byteRoom
    ensures forall k :: 0 <= k <= |all| ==> (Fits(all, k, itemRoom, byteRoom) <==> k <= items)
    ensures items == FitCount(all, itemRoom, byteRoom)
  {
    items, needed := 0, 0;
    while items < |all|
      invariant items <= |all| && items <= itemRoom && needed == SumLen(all[..items]) <= byteRoom
    {
      var itemLen := all[items].length;
      FitCountStep(all, itemRoom, byteRoom, items);
      if items < itemRoom && needed + itemLen <= byteRoom {
        SumLenNext(all, items);
        items := items + 1;
        needed := needed + itemLen;
      } else {
        break;
      }
    }
    FitCountStep(all, itemRoom, byteRoom, items);
    forall k | 0 <= k <= |all|
      ensures Fits(all, k, itemRoom, byteRoom) <==> k <= items
    {
      FitCountIsLargest(all, itemRoom, byteRoom, k);
    }
  }

  /** `copy_items_and_payloads`: one chained scan decides the count, then items and bytes are copied.
      Moves the largest number of leading items that fits both targets, and exactly their bytes
      (fewer only if the sources hold fewer). */
  method CopyItemsAndPayloads(a: seq<ControlItem>, b: seq<ControlItem>, c: seq<byte>, d: seq<byte>,
                              itemTarget: array<ControlItem>, payloadTarget: array<byte>)
    returns (items: nat, bytes: nat)
    requires (itemTarget as object) != payloadTarget
    modifies itemTarget, payloadTarget
    ensures items == FitCount(a + b, itemTarget.Length, payloadTarget.Length)
    ensures itemTarget[..] == Overwrite(old(itemTarget[..]), 0, (a + b)[..items])
    ensures bytes == Min(|c + d|, SumLen((a + b)[..items])) && bytes <= payloadTarget.Length
    ensures payloadTarget[..] == Overwrite(old(payloadTarget[..]), 0, (c + d)[..bytes])
  {
    var all := a + b;
    var needed;
    items, needed := ScanChain(all, itemTarget.Length, payloadTarget.Length);
    Fill(itemTarget, 0, all[..items]);
    bytes := CopyBoth(c, d, needed, payloadTarget);
  }

  /** Rings in step hold the whole payload of the front item, and stay in step without it. */
  lemma TakenFrame(queue: seq<ControlItem>, data: seq<byte>)
    requires queue != []
    ensures var n := queue[0].length;
            Framed(queue, data) ==>
              n <= |data| && Framed(queue[1..], data[n..])
              && Split(queue, data) == [Frame(queue[0], data[..n])] + Split(queue[1..], data[n..])
  {
  }

  lemma SentFrame(queue: seq<ControlItem>, data: seq<byte>, f: Frame)
    requires Framed(queue, data) && f.Valid()
    ensures Framed(queue + [f.item], data + f.payload)
    ensures Split(queue + [f.item], data + f.payload) == Split(queue, data) + [f]
  {
    assert [f.item][1..] == [] && f.payload[..f.item.length] == f.payload;
    assert SumLen([f.item]) == f.item.length;
    assert Split([f.item], f.payload) == [f];
    SentSliceAppendsFrames(queue, data, [f.item], f.payload);
  }

  /** What a slice take of items `c` and their bytes leaves behind. */
  lemma TakenSlice(a: seq<ControlItem>, b: seq<ControlItem>, data: seq<byte>, itemRoom: nat, byteRoom: nat)
    ensures var c := Copied(a, b, itemRoom, byteRoom);
            |c| <= |a + b|
            && (Framed(a + b, data) ==>
                  SumLen(c) <= |data|
                  && (Framed((a + b)[|c|..], data[SumLen(c)..]) <==> NoSkip(a, b, itemRoom, byteRoom))
                  && (NoSkip(a, b, itemRoom, byteRoom) ==>
                        Split(a + b, data) == Split(c, data[..SumLen(c)]) + Split((a + b)[|c|..], data[SumLen(c)..])))
  {
    hide SumLen, Split, Copied, NoSkip;
    SkipIffSurplus(a, b, itemRoom, byteRoom);
    if Framed(a + b, data) {
      TwoLoopsKeepFramingIff(a, b, data, 0, itemRoom, byteRoom);
      if NoSkip(a, b, itemRoom, byteRoom) {
        TakeSliceDeliversFrames(a, b, data, itemRoom, byteRoom);
      }
    }
  }

  lemma OverwriteFront<T>(was: seq<T>, xs: seq<T>)
    requires |xs| <= |was|
    ensures Overwrite(was, 0, xs)[..|xs|] == xs
  {
  }

  class StreamChannel {
    const control: RingBuffer<ControlItem>
    const payload: RingBuffer<byte>

    ghost const Repr: set<object> := {control, control.slots, payload, payload.slots}

    /** Two proper rings that share no memory. */
    ghost predicate Valid()
      reads Repr
    {
      control.Valid() && payload.Valid() && (control as object) != payload && (control.slots as object) != payload.slots
    }

    ghost predicate InStep()
      requires Valid()
      reads Repr
    {
      Framed(control.Queue(), payload.Queue())
    }

    ghost function Frames(): seq<Frame>
      requires Valid() && InStep()
      reads Repr
    {
      Split(control.Queue(), payload.Queue())
    }

    constructor (items: nat, bytes: nat)
      requires 0 < items && 0 < bytes
      ensures Valid() && InStep() && Frames() == []
      ensures control.slots.Length == items && payload.slots.Length == bytes
    {
      control := new RingBuffer(items);
      payload := new RingBuffer(bytes);
    }

    /** `shared_try_send`, ingress and egress alike: queues the whole frame, or touches neither ring. */
    method TrySend(item: ControlItem, data: seq<byte>) returns (ok: bool)
      requires Valid() && item.length == |data|
      modifies payload, payload.slots, control, control.slots
      ensures Valid()
      ensures ok <==> item.length <= payload.slots.Length - |old(payload.Queue())|
                      && 1 <= control.slots.Length - |old(control.Queue())|
      ensures control.Queue() == old(control.Queue()) + if ok then [item] else []
      ensures payload.Queue() == old(payload.Queue()) + if ok then data else []
      ensures old(InStep()) ==> InStep() && Frames() == old(Frames()) + if ok then [Frame(item, data)] else []
    {
      hide Window, Rings.Ring.Ok, Split, SumLen;
      if InStep() {
        SentFrame(control.Queue(), payload.Queue(), Frame(item, data));
      }
      var bytesVacant := payload.VacantUnits();
      var itemsVacant := control.VacantUnits();
      ok := bytesVacant >= item.length && itemsVacant >= 1;
      if ok {
        var ignored := payload.PushSlice(data);
        var refused := control.TrySend(item);
      }
    }

    /** One iteration's pushes: payload first, then its control item. */
    method PushFrame(item: ControlItem, data: seq<byte>) returns (sent: bool)
      requires Valid()
      requires |data| <= payload.slots.Length - |payload.Queue()| && 1 <= control.slots.Length - |control.Queue()|
      modifies payload, payload.slots, control, control.slots
      ensures Valid() && sent
      ensures control.Queue() == old(control.Queue()) + [item] && payload.Queue() == old(payload.Queue()) + data
    {
      var pushed := payload.PushSlice(data);
      if pushed != |data| {
        return false;
      }
      var refused := control.TrySend(item);
      sent := refused.None?;
    }

    /** `shared_send_slice`: the vacancies are read once; then items go out one by one while the
        source bytes and the payload vacancy last. The largest count that fits all limits goes out,
        and exactly its bytes. */
    method SendSlice(items: seq<ControlItem>, bytes: seq<byte>) returns (itemsSent: nat, bytesSent: nat)
      requires Valid()
      modifies payload, payload.slots, control, control.slots
      ensures Valid()
      ensures itemsSent == FitCount(items, control.slots.Length - |old(control.Queue())|,
                                    Min(|bytes|, payload.slots.Length - |old(payload.Queue())|))
      ensures bytesSent == SumLen(items[..itemsSent]) <= |bytes|
      ensures control.Queue() == old(control.Queue()) + items[..itemsSent]
      ensures payload.Queue() == old(payload.Queue()) + bytes[..bytesSent]
      ensures old(InStep()) ==> InStep() && Frames() == old(Frames()) + Split(items[..itemsSent], bytes[..bytesSent])
    {
      hide Window, Occupied, Rings.Ring.Ok, FitCount, SumLen, Split;
      itemsSent, bytesSent := 0, 0;
      SumLenNone(items);
      var itemVacant := control.VacantUnits();
      var payloadVacant := payload.VacantUnits();
      ghost var room := Min(|bytes|, payloadVacant);
      while itemsSent < |items| && itemsSent < itemVacant
        invariant Valid() && itemsSent <= |items| && itemsSent <= itemVacant
        invariant bytesSent == SumLen(items[..itemsSent]) <= room
        invariant control.Queue() == old(control.Queue()) + items[..itemsSent]
        invariant payload.Queue() == old(payload.Queue()) + bytes[..bytesSent]
      {
        var len := items[itemsSent].length;
        FitCountStep(items, itemVacant, room, itemsSent);
        if bytesSent + len > |bytes| || bytesSent + len > payloadVacant {
          break;
        }
        SumLenNext(items, itemsSent);
        var sent := PushFrame(items[itemsSent], bytes[bytesSent..bytesSent + len]);
        if !sent {
          break;
        }
        assert bytes[..bytesSent + len] == bytes[..bytesSent] + bytes[bytesSent..bytesSent + len];
        assert items[..itemsSent + 1] == items[..itemsSent] + [items[itemsSent]];
        itemsSent := itemsSent + 1;
        bytesSent := bytesSent + len;
      }
      FitCountStep(items, itemVacant, room, itemsSent);
      if old(InStep()) {
        SentSliceAppendsFrames(old(control.Queue()), old(payload.Queue()), items[..itemsSent], bytes[..bytesSent]);
      }
    }

    /** `shared_advance_index` of the sender, after the caller filled the vacant slots: both or neither. */
    method AdvanceWrite(items: nat, bytes: nat) returns (done: bool)
      requires Valid()
      modifies payload, control
      ensures Valid()
      ensures done <==> items <= control.slots.Length - |old(control.Queue())|
                        && bytes <= payload.slots.Length - |old(payload.Queue())|
      ensures !done ==> control.Queue() == old(control.Queue()) && payload.Queue() == old(payload.Queue())
      ensures done ==> control.Queue() == old(control.Queue() + Window(control.slots[..], control.writeIndex, items))
                       && payload.Queue() == old(payload.Queue() + Window(payload.slots[..], payload.writeIndex, bytes))
    {
      var itemsVacant := control.VacantUnits();
      var bytesVacant := payload.VacantUnits();
      done := items <= itemsVacant && bytes <= bytesVacant;
      if done {
        var b := payload.AdvanceWrite(bytes);
        var i := control.AdvanceWrite(items);
      }
    }

    /** `shared_advance_index` of the receiver: both counts or neither. */
    method AdvanceRead(items: nat, bytes: nat) returns (done: bool)
      requires Valid()
      modifies payload, control
      ensures Valid() && (done <==> items <= old(|control.Queue()|) && bytes <= old(|payload.Queue()|))
      ensures control.Queue() == old(control.Queue())[if done then items else 0..]
      ensures payload.Queue() == old(payload.Queue())[if done then bytes else 0..]
    {
      var itemsAvail := control.AvailUnits();
      var bytesAvail := payload.AvailUnits();
      done := items <= itemsAvail && bytes <= bytesAvail;
      if done {
        var b := payload.AdvanceRead(bytes);
        var i := control.AdvanceRead(items);
      }
    }

    /** `shared_try_take`: delivers and removes exactly the oldest frame; only a payload that is not
        there yet, which never happens while the rings are in step, makes it decline. */
    method TryTake() returns (taken: Option<Frame>)
      requires Valid()
      modifies payload, control
      ensures Valid()
      ensures taken.None? <==> old(control.Queue() == [] || |payload.Queue()| < control.Queue()[0].length)
      ensures taken.None? ==> control.Queue() == old(control.Queue()) && payload.Queue() == old(payload.Queue())
      ensures taken.Some? ==>
                var item := old(control.Queue()[0]);
                taken.value == Frame(item, old(payload.Queue())[..item.length])
                && control.Queue() == old(control.Queue())[1..]
                && payload.Queue() == old(payload.Queue())[item.length..]
      ensures old(InStep()) ==> InStep()
      ensures old(InStep()) ==> old(Frames()) == (if taken.Some? then [taken.value] else []) + Frames()
    {
      hide Window, Rings.Ring.Ok, SumLen, Split;
      var peeked := control.TryPeek();
      if peeked.None? {
        return None;
      }
      var item := peeked.value;
      var bytesAvail := payload.AvailUnits();
      TakenFrame(control.Queue(), payload.Queue());
      if item.length > bytesAvail {
        return None;
      }
      var data := new byte[item.length](_ => 0);
      var copied := payload.CopyOut(data, item.length);
      var popped := control.TryTake();
      var freed := payload.AdvanceRead(data.Length);
      taken := Some(Frame(item, data[..]));
    }

    /** `shared_take_slice`: two scans over the two pieces, then the bytes they ask for. The rings stay in
        step exactly when the second scan cannot jump over an item the first one stopped at; then the
        targets hold the frames that left. */
    method TakeSlice(itemTarget: array<ControlItem>, payloadTarget: array<byte>)
      returns (items: nat, bytes: nat)
      requires Valid() && (itemTarget as object) != payloadTarget
      requires (itemTarget as object) !in Repr && (payloadTarget as object) !in Repr
      modifies payload, control, itemTarget, payloadTarget
      ensures Valid()
      ensures var c := Copied(old(control.View().Front()), old(control.View().Back()),
                              itemTarget.Length, payloadTarget.Length);
              items == |c| <= itemTarget.Length && itemTarget[..] == Overwrite(old(itemTarget[..]), 0, c)
              && items <= old(|control.Queue()|) && control.Queue() == old(control.Queue())[items..]
              && bytes == Min(SumLen(c), |old(payload.Queue())|) <= payloadTarget.Length
              && payloadTarget[..] == Overwrite(old(payloadTarget[..]), 0, old(payload.Queue())[..bytes])
              && payload.Queue() == old(payload.Queue())[bytes..]
      ensures old(InStep()) ==>
                (InStep() <==> NoSkip(old(control.View().Front()), old(control.View().Back()),
                                      itemTarget.Length, payloadTarget.Length))
      ensures old(InStep()) && InStep() ==>
                SumLen(itemTarget[..items]) <= bytes
                && old(Frames()) == Split(itemTarget[..items], payloadTarget[..bytes]) + Frames()
    {
      hide Window, Occupied, Rings.Ring.Ok, Copied, SumLen, NoSkip, Split;
      ghost var front, back, data := control.View().Front(), control.View().Back(), payload.Queue();
      SlicesAreQueue(control.View());
      TakenSlice(front, back, data, itemTarget.Length, payloadTarget.Length);
      var at, a, b := control.Pieces();
      var needed;
      items, needed := ScanPieces(control.slots[at..at + a], control.slots[..b], itemTarget, payloadTarget.Length);
      bytes := payload.CopyOut(payloadTarget, needed);
      var freed := payload.AdvanceRead(bytes);
      var dropped := control.AdvanceRead(items);
      ghost var c := Copied(front, back, itemTarget.Length, payloadTarget.Length);
      OverwriteFront(old(itemTarget[..]), c);
      OverwriteFront(old(payloadTarget[..]), data[..bytes]);
    }
  }

  // ---- what the calls mean for frames ----

  /** Sending a prefix of items with their bytes appends those frames. */
  lemma SentSliceAppendsFrames(queue: seq<ControlItem>, data: seq<byte>, items: seq<ControlItem>, bytes: seq<byte>)
    requires Framed(queue, data) && Framed(items, bytes)
    ensures Framed(queue + items, data + bytes)
    ensures Split(queue + items, data + bytes) == Split(queue, data) + Split(items, bytes)
  {
    hide SumLen, Bytes;
    SumLenAppend(queue, items);
    var fs, gs := Split(queue, data), Split(items, bytes);
    JoinSplit(queue, data);
    JoinSplit(items, bytes);
    BytesAppend(fs, gs);
    assert data[..SumLen(queue)] == data && bytes[..SumLen(items)] == bytes;
    assert Items(fs + gs) == queue + items;
    SplitJoined(fs + gs, []);
    assert Bytes(fs + gs) + [] == data + bytes;
  }

  /** Dropping counts from both rings keeps them in step exactly when the byte count is what the
      dropped items announce; then exactly that many frames are gone. */
  lemma AdvanceKeepsStepIff(queue: seq<ControlItem>, data: seq<byte>, items: nat, bytes: nat)
    requires Framed(queue, data) && items <= |queue| && bytes <= |data|
    ensures Framed(queue[items..], data[bytes..]) <==> bytes == SumLen(queue[..items])
    ensures bytes == SumLen(queue[..items]) ==>
              Framed(queue[items..], data[bytes..])
              && Split(queue, data) == Split(queue[..items], data[..bytes]) + Split(queue[items..], data[bytes..])
  {
    hide Split, SumLen;
    SumLenSplit(queue, items);
    if bytes == SumLen(queue[..items]) {
      assert queue == queue[..items] + queue[items..] && data == data[..bytes] + data[bytes..];
      SentSliceAppendsFrames(queue[..items], data[..bytes], queue[items..], data[bytes..]);
    }
  }

  /** A slice take whose second scan cannot skip delivers the maximal prefix of whole frames:
      the number the single greedy scan finds, with exactly their payloads. */
  lemma TakeSliceDeliversFrames(a: seq<ControlItem>, b: seq<ControlItem>, data: seq<byte>, itemRoom: nat, byteRoom: nat)
    requires Framed(a + b, data) && NoSkip(a, b, itemRoom, byteRoom)
    ensures var c := Copied(a, b, itemRoom, byteRoom);
            SumLen(c) <= |data| && |c| == FitCount(a + b, itemRoom, byteRoom)
            && Framed((a + b)[|c|..], data[SumLen(c)..])
            && Split(a + b, data) == Split(c, data[..SumLen(c)]) + Split((a + b)[|c|..], data[SumLen(c)..])
  {
    var c := Copied(a, b, itemRoom, byteRoom);
    CopiedFits(a, b, itemRoom, byteRoom);
    TwoLoopsMatchOneScan(a, b, itemRoom, byteRoom);
    AdvanceKeepsStepIff(a + b, data, |c|, SumLen(c));
  }
}

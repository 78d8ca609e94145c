/** A run of `StreamProtocol` in which a slice take skips: one frame goes through
    the stream, a five-byte and a one-byte frame follow, and the second of them
    lies behind the wrap when the receiver asks for three bytes. */
module StreamSkips {
  import opened Rings
  import opened Framing
  import opened SliceScan
  import opened StreamProtocol

  /** Some run without a skip ends here. */
  ghost predicate Reached(s: State) {
    exists trace :: Run(trace) && InOrder(trace, |trace| - 1) && trace[|trace| - 1] == s
  }

  lemma Extended(trace: seq<State>, s': State)
    requires Run(trace) && Next(trace[|trace| - 1], s')
    ensures Run(trace + [s'])
    ensures InOrder(trace, |trace| - 1) ==>
              InOrder(trace + [s'], |trace| - 1)
              && (InOrder(trace + [s'], |trace|) <==> !Skips(trace[|trace| - 1], s'))
  {
    hide Next, Init, Skips;
    var longer := trace + [s'];
    forall k | 0 < k < |longer|
      ensures Next(longer[k - 1], longer[k])
    {
      assert k < |trace| ==> Next(trace[k - 1], trace[k]);
    }
    assert longer[|trace| - 1] == trace[|trace| - 1] && longer[|trace|] == s';
  }

  lemma ReachNext(s: State, s': State)
    requires Reached(s) && Next(s, s') && !s.consumer.SliceStart?
    ensures Reached(s')
  {
    hide ProducerStep, ConsumerStep, Init, InOrder;
    assert !Skips(s, s');
    var trace :| Run(trace) && InOrder(trace, |trace| - 1) && trace[|trace| - 1] == s;
    Extended(trace, s');
    var longer := trace + [s'];
    assert longer[|longer| - 1] == s';
  }

  lemma ReachByProducer(s: State, s': State)
    requires Reached(s) && RingsOk(s) && ProducerStep(s, s') && s.consumer == Resting(None)
    ensures Reached(s')
  {
    hide ProducerStep, ConsumerStep, Reached;
    ReachNext(s, s');
  }

  lemma ReachByConsumer(s: State, s': State)
    requires Reached(s) && RingsOk(s) && ConsumerStep(s, s') && !s.consumer.SliceStart?
    ensures Reached(s')
  {
    hide ProducerStep, ConsumerStep, Reached;
    ReachNext(s, s');
  }

  /** The state after a whole `shared_try_send`. */
  function Sent(s: State, f: Frame): State
    requires RingsOk(s) && |f.payload| <= s.payload.Vacant() && 1 <= s.control.Vacant()
  {
    WriteSlotsInvisible(s.payload, f.payload);
    WriteSlotsInvisible(s.control, [f.item]);
    s.(control := s.control.WriteSlots([f.item]).StoreWrite(1),
       payload := s.payload.WriteSlots(f.payload).StoreWrite(|f.payload|),
       sent := s.sent + [f], acked := s.acked + [f])
  }

  /** Nobody is inside a call. */
  predicate Quiet(s: State) {
    RingsOk(s) && s.producer == Idle(0, 0) && s.consumer == Resting(None)
  }

  predicate Sendable(s: State, f: Frame) {
    RingsOk(s) && f.Valid() && |f.payload| <= s.payload.Vacant() && 1 <= s.control.Vacant()
  }

  lemma ChecksReach(s: State, f: Frame)
    requires Reached(s) && Sendable(s, f) && s.producer == Idle(0, 0) && s.consumer == Resting(None)
    ensures Reached(At(s, PushLoad(Call(Once, [f], 0, 0))))
  {
    hide Reached, Window, Occupied, SumLen, Bytes, Items, WaitStep, PokeStep;
    ReachByProducer(s, At(s, CheckPayload(f, false)));
    ReachByProducer(At(s, CheckPayload(f, false)), At(s, CheckControl(f, false)));
    ReachByProducer(At(s, CheckControl(f, false)), At(s, PushLoad(Call(Once, [f], 0, 0))));
  }

  lemma PushReaches(s: State, f: Frame)
    requires var call := Call(Once, [f], 0, 0);
             Sendable(s, f) && s.producer == PushLoad(call) && s.consumer == Resting(None) && Reached(s)
    ensures var filled := s.payload.WriteSlots(f.payload);
            filled.Ok()
            && Reached(At(s, ItemLoad(Call(Once, [f], 0, 0))).(payload := filled.StoreWrite(|f.payload|)))
  {
    hide Reached, Window, Occupied, WriteAt, Advance, SumLen, Bytes, Items, WaitStep, PokeStep;
    var call, n := Call(Once, [f], 0, 0), |f.payload|;
    assert f.payload[..n] == f.payload;
    WriteSlotsInvisible(s.payload, f.payload);
    var filled := s.payload.WriteSlots(f.payload);
    var s1 := At(s, PushWrite(call, n));
    var s2 := At(s, PushStore(call, n)).(payload := filled);
    ReachByProducer(s, s1);
    ReachByProducer(s1, s2);
    ReachByProducer(s2, At(s2, ItemLoad(call)).(payload := filled.StoreWrite(n)));
  }

  lemma ItemReaches(s: State, f: Frame)
    requires RingsOk(s) && 1 <= s.control.Vacant() && Reached(s)
    requires s.producer == ItemLoad(Call(Once, [f], 0, 0)) && s.consumer == Resting(None)
    ensures var filled := s.control.WriteSlots([f.item]);
            filled.Ok()
            && Reached(s.(control := filled.StoreWrite(1), producer := Idle(0, 0),
                          sent := s.sent + [f], acked := s.acked + [f]))
  {
    hide Reached, Window, Occupied, WriteAt, Advance, SumLen, Bytes, Items, WaitStep, PokeStep;
    var call := Call(Once, [f], 0, 0);
    WriteSlotsInvisible(s.control, [f.item]);
    var filled := s.control.WriteSlots([f.item]);
    var s1 := At(s, ItemWrite(call));
    var s2 := At(s, ItemStore(call)).(control := filled);
    ReachByProducer(s, s1);
    ReachByProducer(s1, s2);
    ItemOut(s2, f);
  }

  lemma ItemOut(s: State, f: Frame)
    requires RingsOk(s) && Reached(s) && s.producer == ItemStore(Call(Once, [f], 0, 0)) && s.consumer == Resting(None)
    ensures Reached(s.(control := s.control.StoreWrite(1), producer := Idle(0, 0),
                       sent := s.sent + [f], acked := s.acked + [f]))
  {
    hide Reached, Window, Occupied, WriteAt, Advance, SumLen, Bytes, Items, WaitStep, PokeStep;
    assert [f][..1] == [f];
    ReachByProducer(s, s.(control := s.control.StoreWrite(1), producer := Idle(0, 0),
                          sent := s.sent + [f], acked := s.acked + [f]));
  }

  lemma SendReaches(s: State, f: Frame)
    requires Reached(s) && Quiet(s) && Sendable(s, f)
    ensures var t := Sent(s, f);
            Reached(t) && Quiet(t) && t.control.Queue() == s.control.Queue() + [f.item]
            && t.payload.Queue() == s.payload.Queue() + f.payload
            && t.control.Vacant() == s.control.Vacant() - 1 && t.payload.Vacant() == s.payload.Vacant() - |f.payload|
  {
    hide Reached, Window, Occupied, WriteAt, Advance;
    WriteSlotsInvisible(s.payload, f.payload);
    WriteSlotsInvisible(s.control, [f.item]);
    StoreWriteAppends(s.payload.WriteSlots(f.payload), |f.payload|);
    StoreWriteAppends(s.control.WriteSlots([f.item]), 1);
    ChecksReach(s, f);
    PushReaches(At(s, PushLoad(Call(Once, [f], 0, 0))), f);
    ItemReaches(At(s, ItemLoad(Call(Once, [f], 0, 0))).(
                payload := s.payload.WriteSlots(f.payload).StoreWrite(|f.payload|)), f);
  }

  /** The state after a whole `shared_try_take`. */
  function Taken(s: State): State
    requires Quiet(s) && s.control.Queue() != [] && s.control.Queue()[0].length <= s.payload.Avail()
  {
    var item := s.control.Queue()[0];
    DropBytes(DropItems(s, 1), item.length).(got := s.got + [Frame(item, s.payload.Queue()[..item.length])])
  }

  lemma TakeReaches(s: State)
    requires Reached(s) && Quiet(s) && s.control.Queue() != [] && s.control.Queue()[0].length <= s.payload.Avail()
    ensures var t, n := Taken(s), s.control.Queue()[0].length;
            Reached(t) && Quiet(t) && t.control.Queue() == s.control.Queue()[1..]
            && t.payload.Queue() == s.payload.Queue()[n..]
            && t.control.Vacant() == s.control.Vacant() + 1 && t.payload.Vacant() == s.payload.Vacant() + n
  {
    hide Reached, Window, Occupied, WriteAt, Advance, SumLen, Bytes, Items, ProducerStep;
    var item := s.control.Queue()[0];
    var data := PeekInto(s.payload.Queue(), item.length);
    assert data == s.payload.Queue()[..item.length];
    StoreReadDrops(s.control, 1);
    StoreReadDrops(s.payload, item.length);
    var popped := On(DropItems(s, 1), Popped(item, data));
    ReachByConsumer(s, On(s, TakeStart));
    ReachByConsumer(On(s, TakeStart), On(s, Peeked(item)));
    ReachByConsumer(On(s, Peeked(item)), On(s, Checked(item)));
    ReachByConsumer(On(s, Checked(item)), On(s, CopiedOut(item, data)));
    ReachByConsumer(On(s, CopiedOut(item, data)), On(s, PopSeen(item, data)));
    ReachByConsumer(On(s, PopSeen(item, data)), popped);
    ReachByConsumer(popped, Taken(s));
  }

  function Start(): State {
    State(Ring([Egress(0), Egress(0)], 0, 0), Ring(seq(8, _ => 0), 0, 0), Idle(0, 0), Resting(None), [], [], [], 0, 0)
  }

  lemma StartReached()
    ensures Reached(Start()) && Quiet(Start()) && Start().control.Queue() == [] && Start().payload.Queue() == []
    ensures Start().control.Vacant() == 2 && Start().payload.Vacant() == 8
  {
    hide Next, Window, Occupied, Skips;
    FreshRing(Start().control.slots);
    FreshRing(Start().payload.slots);
    var trace := [Start()];
    assert Init(Start()) && Run(trace) && InOrder(trace, |trace| - 1);
  }

  function OfLength(n: nat): Frame {
    Frame(Egress(n), seq(n, _ => 0))
  }

  /** One byte through and out again, then five and one. */
  lemma WrappedStateReached() returns (s: State)
    ensures Reached(s) && Quiet(s) && s.control == Wrapped()
  {
    hide Reached, Sent, Taken, Wrapped, Window, Occupied, WriteAt, Advance;
    var s0 := Start();
    StartReached();
    SendReaches(s0, OfLength(1));
    var s1 := Sent(s0, OfLength(1));
    TakeReaches(s1);
    var s2 := Taken(s1);
    SendReaches(s2, OfLength(5));
    var s3 := Sent(s2, OfLength(5));
    SendReaches(s3, OfLength(1));
    s := Sent(s3, OfLength(1));
    SentControl(s0, OfLength(1));
    TakenControl(s1);
    SentControl(s2, OfLength(5));
    SentControl(s3, OfLength(1));
    WrappedRing();
    Layout(Egress(0), Egress(0), Egress(1));
    Layout(Egress(1), Egress(0), Egress(5));
    Layout(Egress(1), Egress(5), Egress(1));
  }

  lemma SentControl(s: State, f: Frame)
    requires RingsOk(s) && |f.payload| <= s.payload.Vacant() && 1 <= s.control.Vacant()
    ensures s.control.WriteSlots([f.item]).Ok()
    ensures Sent(s, f).control == s.control.WriteSlots([f.item]).StoreWrite(1)
  {
    hide Window, Occupied, WriteAt, Advance;
    WriteSlotsInvisible(s.control, [f.item]);
  }

  lemma TakenControl(s: State)
    requires Quiet(s) && s.control.Queue() != [] && s.control.Queue()[0].length <= s.payload.Avail()
    ensures Taken(s).control == s.control.StoreRead(1)
  {
    hide Window, Occupied, WriteAt, Advance;
  }

  lemma SkipEnds(s: State, s': State)
    requires Reached(s) && Next(s, s') && Skips(s, s')
    ensures SkipsAtLast()
  {
    hide Next, Init, InOrder, Inv, Skips;
    var trace :| Run(trace) && InOrder(trace, |trace| - 1) && trace[|trace| - 1] == s;
    Extended(trace, s');
    var longer := trace + [s'];
    assert longer[|longer| - 2] == s && longer[|longer| - 1] == s';
    FramingIff(longer, |longer| - 2);
    FramingIff(longer, |longer| - 1);
  }

  /** There is a run whose last step is a skip, up to which the framing invariant holds and at which it
      is lost. */
  ghost predicate SkipsAtLast() {
    exists trace ::
      Run(trace) && 2 <= |trace| && Next(trace[|trace| - 2], trace[|trace| - 1])
      && Skips(trace[|trace| - 2], trace[|trace| - 1])
      && Inv(trace[|trace| - 2]) && !Inv(trace[|trace| - 1])
  }

  lemma SomeRunSkips()
    ensures SkipsAtLast()
  {
    hide Reached, Wrapped, NoSkip, Copied, ProducerStep, SkipsAtLast;
    var s := WrappedStateReached();
    var s1 := On(s, SliceStart(2, 3));
    ReachNext(s, s1);
    SecondLoopCanSkip();
    SkipEnds(s1, On(s1, SliceItems(Copied(s.control.Front(), s.control.Back(), 2, 3))));
  }
}

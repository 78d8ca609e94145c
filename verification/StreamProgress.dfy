/** Calls on a stream come to an end. Each side counts down with every step of
    its own, and has a next step in every state unless it waits for room that is
    not there. With `StreamOutcomes` this says that the calls return, and what. */
module StreamProgress {
  import opened Rings
  import opened Framing
  import opened SliceScan
  import opened StreamProtocol
  import opened StreamOutcomes

  function Left(call: Call): nat {
    if call.sent <= |call.frames| then |call.frames| - call.sent else 0
  }

  function StageRank(stage: Stage): nat {
    match stage
    case EmptyControl => 6
    case VacantControl => 5
    case EmptyPayload => 4
    case VacantPayload => 3
    case AwaitControlRoom => 2
    case AwaitPayloadRoom => 1
  }

  function PokeRank(at: PokeStage): nat {
    match at
    case SeeItems => 7
    case SeeBytes => 6
    case Fill => 5
    case CheckItems => 4
    case CheckBytes => 3
    case StoreBytes => 2
    case StoreItems => 1
  }

  /** A bound on the steps the producer still takes in its call. */
  function Rank(p: Producer): nat {
    match p
    case Idle(_, _) => 0
    case CheckPayload(_, _) => 24
    case CheckControl(_, _) => 23
    case AwaitPayload(_) => 22
    case AwaitControl(_) => 21
    case IterLimit(frames) => 10 * |frames| + 10
    case SliceControl(frames) => 10 * |frames| + 11
    case SlicePayload(frames) => 10 * |frames| + 10
    case IterCheck(call) => 10 * Left(call) + 9
    case SliceNext(call) => 10 * Left(call) + 9
    case IterWait(call) => 10 * Left(call) + 8
    case PushLoad(call) => 10 * Left(call) + 7
    case PushWrite(call, _) => 10 * Left(call) + 6
    case PushStore(call, _) => 10 * Left(call) + 5
    case ItemLoad(call) => 10 * Left(call) + 4
    case ItemWrite(call) => 10 * Left(call) + 3
    case ItemStore(call) => 10 * Left(call) + 2
    case Waiting(stage, _, _, _) => StageRank(stage)
    case Poke(at, _) => PokeRank(at)
  }

  lemma PushDescends(s: State, s': State)
    requires Sound(s) && ProducerStep(s, s')
    requires var p := s.producer;
             p.PushLoad? || p.PushWrite? || p.PushStore? || p.ItemLoad? || p.ItemWrite? || p.ItemStore?
    ensures Rank(s'.producer) < Rank(s.producer)
  {
    hide Window, WriteAt, Occupied, Items, Bytes, Stored, Told, Holding, Surplus, StageRank, PokeRank;
  }

  lemma WaitDescends(s: State, s': State)
    requires RingsOk(s) && s.producer.Waiting? && ProducerStep(s, s')
    ensures Rank(s'.producer) < Rank(s.producer)
  {
    hide Window, WriteAt, Occupied, Items, Bytes, Rings.Ring.Ok, Rings.Ring.Vacant, Rings.Ring.Avail, PokeStep;
  }

  lemma PokeDescends(s: State, s': State)
    requires RingsOk(s) && s.producer.Poke? && ProducerStep(s, s')
    ensures Rank(s'.producer) < Rank(s.producer)
  {
    hide Window, WriteAt, Occupied, Items, Bytes, Rings.Ring.Ok, Rings.Ring.Vacant, WaitStep;
  }

  lemma CheckDescends(s: State, s': State)
    requires RingsOk(s) && ProducerStep(s, s')
    requires var p := s.producer;
             p.CheckPayload? || p.CheckControl? || p.AwaitPayload? || p.AwaitControl?
             || p.IterLimit? || p.SliceControl? || p.SlicePayload?
    ensures Rank(s'.producer) < Rank(s.producer)
  {
    hide Window, WriteAt, Occupied, Items, Bytes, Rings.Ring.Ok, Rings.Ring.Vacant, StageRank, PokeRank;
  }

  lemma LoopDescends(s: State, s': State)
    requires RingsOk(s) && ProducerStep(s, s')
    requires s.producer.IterCheck? || s.producer.IterWait? || s.producer.SliceNext?
    ensures Rank(s'.producer) < Rank(s.producer)
  {
    hide Window, WriteAt, Occupied, Items, Bytes, Rings.Ring.Ok, Rings.Ring.Vacant, StageRank, PokeRank;
  }

  /** Every step of a call counts down, those of the waits included. */
  lemma ProducerDescends(s: State, s': State)
    requires Sound(s) && !s.producer.Idle? && ProducerStep(s, s')
    ensures Rank(s'.producer) < Rank(s.producer)
  {
    hide Rank, ProducerStep, Stored, Told, Holding, Surplus, ProducerOk;
    var p := s.producer;
    if p.Waiting? {
      WaitDescends(s, s');
    } else if p.Poke? {
      PokeDescends(s, s');
    } else if p.IterCheck? || p.IterWait? || p.SliceNext? {
      LoopDescends(s, s');
    } else if p.PushLoad? || p.PushWrite? || p.PushStore? || p.ItemLoad? || p.ItemWrite? || p.ItemStore? {
      PushDescends(s, s');
    } else {
      CheckDescends(s, s');
    }
  }

  /** Only these waits cannot go on by themselves: for payload room of an iterator send, and, without a
      shutdown to end it, for the room asked for. */
  predicate Blocked(s: State)
    requires RingsOk(s)
  {
    match s.producer
    case IterWait(call) => call.sent < |call.frames| && s.payload.Vacant() < |call.Current().payload|
    case Waiting(stage, shutdown, items, payload) =>
      !shutdown && ((stage.AwaitControlRoom? && s.control.Vacant() < Min(items, s.control.Cap()))
                    || (stage.AwaitPayloadRoom? && s.payload.Vacant() < Min(payload, s.payload.Cap())))
    case _ => false
  }

  ghost predicate CanStep(s: State)
    requires RingsOk(s)
  {
    exists s' :: ProducerStep(s, s')
  }

  lemma SendNotStuck(s: State)
    requires Sound(s) && (s.producer.PushLoad? || s.producer.PushWrite? || s.producer.PushStore?
                          || s.producer.ItemLoad? || s.producer.ItemWrite? || s.producer.ItemStore?)
    ensures CanStep(s)
  {
    hide Window, WriteAt, Occupied, Items, Bytes, Stored, Told, Holding, Surplus;
    var call := s.producer.call;
    match s.producer
    case PushLoad(_) =>
      assert ProducerStep(s, At(s, PushWrite(call, Min(|call.Current().payload|, s.payload.Vacant()))));
    case PushWrite(_, n) =>
      assert ProducerStep(s, At(s, PushStore(call, n)).(payload := s.payload.WriteSlots(call.Current().payload[..n])));
    case PushStore(_, n) => assert ProducerStep(s, At(s.(payload := s.payload.StoreWrite(n)), ItemLoad(call)));
    case ItemLoad(_) => assert ProducerStep(s, At(s, ItemWrite(call)));
    case ItemWrite(_) =>
      assert ProducerStep(s, At(s, ItemStore(call)).(control := s.control.WriteSlots([call.Current().item])));
    case ItemStore(_) =>
      assert ProducerStep(
          s, AfterFrame(s.(control := s.control.StoreWrite(1), sent := s.sent + [call.Current()]), call));
  }

  lemma CheckNotStuck(s: State)
    requires Sound(s)
    requires var p := s.producer;
             p.Idle? || p.CheckPayload? || p.CheckControl? || p.AwaitPayload? || p.AwaitControl? || p.IterLimit?
             || p.SliceControl? || p.SlicePayload?
    ensures CanStep(s)
  {
    hide Window, WriteAt, Occupied, Items, Bytes, Stored, Told, Holding, Surplus;
    match s.producer
    case Idle(_, _) => assert ProducerStep(s, At(s, IterLimit([])));
    case CheckPayload(f, async) =>
      var on := At(s, CheckControl(f, async));
      assert ProducerStep(s, if f.item.length <= s.payload.Vacant() then on else At(s, Idle(0, 0)));
    case CheckControl(f, async) =>
      var on := At(s, PushLoad(Call(Once, [f], 0, 0)));
      assert ProducerStep(s, if 1 <= s.control.Vacant() then on else At(s, Idle(0, 0)));
    case AwaitPayload(f) => assert ProducerStep(s, At(s, Idle(0, 0)));
    case AwaitControl(f) => assert ProducerStep(s, At(s, Idle(0, 0)));
    case IterLimit(frames) =>
      assert ProducerStep(s, At(s, IterCheck(Call(Iter, frames[..Min(|frames|, s.control.Vacant())], 0, 0))));
    case SliceControl(frames) =>
      var on := At(s, SlicePayload(frames[..Min(|frames|, s.control.Vacant())]));
      assert ProducerStep(s, if frames == [] then Return(s, [], 0) else on);
    case SlicePayload(frames) =>
      assert ProducerStep(s, At(s, SliceNext(Call(Slice(s.payload.Vacant()), frames, 0, 0))));
  }

  lemma LoopNotStuck(s: State)
    requires Sound(s) && !Blocked(s) && (s.producer.IterCheck? || s.producer.IterWait? || s.producer.SliceNext?)
    ensures CanStep(s)
  {
    hide Window, WriteAt, Occupied, Items, Bytes, Stored, Told, Holding, Surplus;
    var call := s.producer.call;
    var done := Return(s, call.frames, call.sent);
    match s.producer
    case IterCheck(_) =>
      assert ProducerStep(
          s, if |call.frames| <= call.sent then done
          else if s.payload.Vacant() < |call.Current().payload| then At(s, IterWait(call))
          else At(s, PushLoad(call)));
    case IterWait(_) => assert ProducerStep(s, At(s, PushLoad(call)));
    case SliceNext(_) =>
      assert ProducerStep(
          s, if |call.frames| <= call.sent || call.kind.payVacant < call.bytes + |call.Current().payload| then done
          else At(s, PushLoad(call)));
  }

  lemma ByPoke(s: State, s': State)
    requires RingsOk(s) && s.producer.Poke? && PokeStep(s, s')
    ensures CanStep(s)
  {
    assert ProducerStep(s, s');
  }

  lemma ByWait(s: State, s': State)
    requires RingsOk(s) && s.producer.Waiting? && WaitStep(s, s')
    ensures CanStep(s)
  {
    assert ProducerStep(s, s');
  }

  lemma PokeNotStuck(s: State)
    requires Sound(s) && s.producer.Poke?
    ensures CanStep(s)
  {
    hide Window, WriteAt, Occupied, Items, Bytes, Stored, Told, Holding, Surplus;
    var fs := s.producer.poked;
    var items, bytes := |fs| <= s.control.Vacant(), |Bytes(fs)| <= s.payload.Vacant();
    match s.producer.at
    case SeeItems => ByPoke(s, At(s, if items then Poke(SeeBytes, fs) else Idle(0, 0)));
    case SeeBytes => ByPoke(s, At(s, if bytes then Poke(Fill, fs) else Idle(0, 0)));
    case Fill =>
      ByPoke(s, At(s, Poke(CheckItems, fs)).(control := s.control.WriteSlots(Items(fs)),
                                                      payload := s.payload.WriteSlots(Bytes(fs))));
    case CheckItems => ByPoke(s, At(s, if items then Poke(CheckBytes, fs) else Idle(0, 0)));
    case CheckBytes => ByPoke(s, At(s, if bytes then Poke(StoreBytes, fs) else Idle(0, 0)));
    case StoreBytes =>
      ByPoke(s, At(s, Poke(StoreItems, fs)).(payload := s.payload.StoreWrite(|Bytes(fs)|)));
    case StoreItems =>
      ByPoke(s, Return(s.(control := s.control.StoreWrite(|fs|), sent := s.sent + fs), fs, |fs|));
  }

  lemma WaitNotStuck(s: State)
    requires Sound(s) && !Blocked(s) && s.producer.Waiting?
    ensures CanStep(s)
  {
    hide Window, WriteAt, Occupied, Items, Bytes, Stored, Told, Holding, Surplus;
    var w := s.producer;
    var done := At(s, Idle(Min(w.items, s.control.Cap()), Min(w.payload, s.payload.Cap())));
    match w.stage
    case EmptyControl =>
      ByWait(s, At(s, w.(stage := if s.control.Avail() == 0 then EmptyPayload else VacantControl)));
    case VacantControl =>
      var on := if w.shutdown then EmptyPayload else VacantPayload;
      ByWait(s, At(s, w.(stage := if w.items <= s.control.Vacant() then on else AwaitControlRoom)));
    case EmptyPayload =>
      ByWait(s, if s.payload.Avail() == 0 then done else At(s, w.(stage := VacantPayload)));
    case VacantPayload =>
      ByWait(s, if w.payload <= s.payload.Vacant() then done else At(s, w.(stage := AwaitControlRoom)));
    case AwaitControlRoom =>
      ByWait(s, if Min(w.items, s.control.Cap()) <= s.control.Vacant()
                         then At(s, w.(stage := AwaitPayloadRoom)) else At(s, Idle(0, 0)));
    case AwaitPayloadRoom =>
      ByWait(s, if Min(w.payload, s.payload.Cap()) <= s.payload.Vacant() then done else At(s, Idle(0, 0)));
  }

  /** In every state the producer has a next step, unless it waits for room that is not there. */
  lemma ProducerNotStuck(s: State)
    requires Sound(s) && !Blocked(s)
    ensures CanStep(s)
  {
    hide Sound, Blocked, CanStep;
    var p := s.producer;
    if p.Waiting? {
      WaitNotStuck(s);
    } else if p.Poke? {
      PokeNotStuck(s);
    } else if p.IterCheck? || p.IterWait? || p.SliceNext? {
      LoopNotStuck(s);
    } else if p.PushLoad? || p.PushWrite? || p.PushStore? || p.ItemLoad? || p.ItemWrite? || p.ItemStore? {
      SendNotStuck(s);
    } else {
      CheckNotStuck(s);
    }
  }

  // ---- the consumer ----

  function ConsumerRank(c: Consumer): nat {
    match c
    case TakeStart => 6
    case Peeked(_) => 5
    case Checked(_) => 4
    case CopiedOut(_, _) => 3
    case PopSeen(_, _) => 2
    case Popped(_, _) => 1
    case PeekStart => 2
    case PeekLoad(_) => 1
    case SliceStart(_, _) => 4
    case AdvanceStart(_) => 4
    case SliceItems(_) => 3
    case AdvanceBytes(_) => 3
    case SliceBytes(_, _) => 2
    case SliceFreed(_, _) => 1
    case Resting(_) => 0
    case Panicked => 0
  }

  lemma ConsumerDescends(s: State, s': State)
    requires RingsOk(s) && !s.consumer.Resting? && ConsumerStep(s, s')
    ensures ConsumerRank(s'.consumer) < ConsumerRank(s.consumer)
  {
    hide Window, Occupied, Split, Items, Bytes, SumLen, Copied, Rings.Ring.Ok, Rings.Ring.Queue, Rings.Ring.Front,
      Rings.Ring.Back, Cut;
  }

  /** The consumer always has a next step: nothing it does waits for the producer. */
  lemma ConsumerNotStuck(s: State)
    requires Sound(s)
    ensures exists s' :: ConsumerStep(s, s')
  {
    hide Window, Occupied, Split, Items, Bytes, SumLen, Copied, Stored, Told, ProducerOk, Surplus;
    var q, c := s.control.Queue(), s.consumer;
    match c
    case Resting(_) => assert ConsumerStep(s, On(s, TakeStart));
    case TakeStart => assert ConsumerStep(s, On(s, if q == [] then Resting(None) else Peeked(q[0])));
    case PeekStart => assert ConsumerStep(s, On(s, if q == [] then Resting(None) else PeekLoad(q[0])));
    case AdvanceStart(n) =>
      assert ConsumerStep(s, On(s, if n <= s.control.Avail() then AdvanceBytes(q[..n]) else Resting(None)));
    case Peeked(item) =>
      assert ConsumerStep(s, On(s, if item.length <= s.payload.Avail() then Checked(item) else Resting(None)));
    case Checked(item) =>
      assert ConsumerStep(s, On(s, CopiedOut(item, PeekInto(s.payload.Queue(), item.length))));
    case CopiedOut(item, data) => assert ConsumerStep(s, On(s, PopSeen(item, data)));
    case PopSeen(item, data) => assert ConsumerStep(s, On(DropItems(s, 1), Popped(q[0], data)));
    case Popped(item, data) =>
      assert ConsumerStep(s, On(DropBytes(s, |data|), Resting(None)).(got := s.got + [Frame(item, data)]));
    case PeekLoad(item) => PeekNotStuck(s);
    case SliceStart(m, n) =>
      assert ConsumerStep(s, On(s, SliceItems(Copied(s.control.Front(), s.control.Back(), m, n))));
    case SliceItems(items) =>
      var p := s.payload.Queue();
      assert ConsumerStep(s, On(s, SliceBytes(items, p[..Min(|p|, SumLen(items))])));
    case SliceBytes(items, data) => assert ConsumerStep(s, On(DropBytes(s, |data|), SliceFreed(items, data)));
    case SliceFreed(items, data) =>
      assert ConsumerStep(s, On(DropItems(s, |items|), Resting(None)).(got := s.got + Cut(items, data)));
    case AdvanceBytes(items) =>
      var n := SumLen(items);
      assert ConsumerStep(
          s, On(s, if n <= s.payload.Avail() then SliceBytes(items, s.payload.Queue()[..n]) else Resting(None)));
  }

  lemma PeekNotStuck(s: State)
    requires Sound(s) && s.consumer.PeekLoad?
    ensures exists s' :: ConsumerStep(s, s')
  {
    hide Window, Occupied, Items, Bytes, SumLen;
    var a, b, item := s.payload.Front(), s.payload.Back(), s.consumer.item;
    var countA := Min(|a|, item.length);
    var countB := item.length - countA;
    assert ConsumerStep(
        s, On(s, if countB <= |b| then Resting(Some(Frame(item, a[..countA] + b[..countB]))) else Panicked));
  }

  // ---- over runs ----

  /** Steps the two sides took between two states. */
  function ProducerSteps(trace: seq<State>, i: nat, k: nat): nat
    requires i <= k < |trace|
  {
    if i == k then 0 else ProducerSteps(trace, i, k - 1) + if trace[k].producer != trace[k - 1].producer then 1 else 0
  }

  function ConsumerSteps(trace: seq<State>, i: nat, k: nat): nat
    requires i <= k < |trace|
  {
    if i == k then 0 else ConsumerSteps(trace, i, k - 1) + if trace[k].consumer != trace[k - 1].consumer then 1 else 0
  }

  /** A call of the producer takes no more steps than its rank at the start, however the consumer moves. */
  lemma {:induction false} ProducerCallBounded(trace: seq<State>, i: nat, k: nat)
    requires Run(trace) && i <= k < |trace| && forall m :: i <= m < k ==> !trace[m].producer.Idle?
    ensures ProducerSteps(trace, i, k) + Rank(trace[k].producer) <= Rank(trace[i].producer)
  {
    hide Sound, Next, Init, ProducerStep, ConsumerStep, Rank;
    if i == k {
    } else {
      ProducerCallBounded(trace, i, k - 1);
      EveryStateSound(trace, k - 1);
      StepSides(trace, k);
      if ProducerStep(trace[k - 1], trace[k]) {
        ProducerDescends(trace[k - 1], trace[k]);
      } else {
        ConsumerFrame(trace[k - 1], trace[k]);
      }
    }
  }

  lemma {:induction false} ConsumerCallBounded(trace: seq<State>, i: nat, k: nat)
    requires Run(trace) && i <= k < |trace| && forall m :: i <= m < k ==> !trace[m].consumer.Resting?
    ensures ConsumerSteps(trace, i, k) + ConsumerRank(trace[k].consumer) <= ConsumerRank(trace[i].consumer)
  {
    hide Sound, Next, Init, ProducerStep, ConsumerStep, ConsumerRank;
    if i == k {
    } else {
      ConsumerCallBounded(trace, i, k - 1);
      EveryStateSound(trace, k - 1);
      StepSides(trace, k);
      if ProducerStep(trace[k - 1], trace[k]) {
        ProducerStepKeepsSound(trace[k - 1], trace[k]);
      } else {
        ConsumerDescends(trace[k - 1], trace[k]);
      }
    }
  }

  // ---- what waiting calls can still do ----

  /** The producer alone can get from `s` to `t` in `n` steps. */
  ghost predicate Reaches(s: State, t: State, n: nat)
    decreases n
  {
    if n == 0 then s == t else RingsOk(s) && exists u :: ProducerStep(s, u) && Reaches(u, t, n - 1)
  }

  /** The frame is out and reported, and the call has returned. */
  predicate SentOne(s: State, t: State, f: Frame) {
    t.producer.Idle? && t.sent == s.sent + [f] && t.acked == s.acked + [f]
  }

  lemma PushingStep(s: State, s': State, f: Frame)
    requires Sound(s) && CallOf(s.producer).Some? && OneFrame(CallOf(s.producer).value, f) && ProducerStep(s, s')
    ensures if s'.producer.Idle? then s'.acked == s.acked + [f]
            else s'.acked == s.acked && CallOf(s'.producer).Some? && OneFrame(CallOf(s'.producer).value, f)
  {
    hide Window, WriteAt, Occupied, Items, Bytes, Stored, Holding, Surplus;
  }

  /** A push that has begun can be carried through. */
  lemma {:induction false} PushCanFinish(s: State, f: Frame) returns (t: State, n: nat)
    requires Sound(s) && CallOf(s.producer).Some? && OneFrame(CallOf(s.producer).value, f)
    ensures Reaches(s, t, n) && t.producer.Idle? && t.acked == s.acked + [f] && t.sent == t.acked
    decreases Rank(s.producer)
  {
    hide ProducerStep, Rank, Stored, Told, Holding, Surplus, ProducerOk;
    PushNotLoop(s, f);
    SendNotStuck(s);
    var u :| ProducerStep(s, u);
    ProducerStepKeepsSound(s, u);
    ProducerDescends(s, u);
    PushingStep(s, u, f);
    if u.producer.Idle? {
      NothingUnderWay(u);
      t, n := u, 1;
      assert Reaches(u, t, 0);
    } else {
      var m;
      t, m := PushCanFinish(u, f);
      n := m + 1;
    }
  }

  lemma PushNotLoop(s: State, f: Frame)
    requires Sound(s) && CallOf(s.producer).Some? && OneFrame(CallOf(s.producer).value, f)
    ensures var p := s.producer;
            p.PushLoad? || p.PushWrite? || p.PushStore? || p.ItemLoad? || p.ItemWrite? || p.ItemStore?
  {
    hide Stored, Holding, Surplus;
  }

  /** With room in both rings an async send that waits can publish and report its frame. */
  lemma AwaitedSendCanFinish(s: State, f: Frame)
    requires Sound(s) && (s.producer == AwaitPayload(f) || s.producer == AwaitControl(f)) && !Tight(s, f)
    ensures exists t, n :: Reaches(s, t, n) && SentOne(s, t, f)
  {
    hide Window, WriteAt, Occupied, Items, Bytes, Stored, Holding, Surplus, Reaches;
    var call := Call(Awaited, [f], 0, 0);
    var s1, s2 := At(s, AwaitControl(f)), At(s, PushLoad(call));
    NothingUnderWay(s);
    RoomForAwaited(s, f);
    assert ProducerStep(s1, s2);
    ProducerStepKeepsSound(s1, s2);
    var t, n := PushCanFinish(s2, f);
    OneMore(s1, s2, t, n);
    if s.producer == AwaitPayload(f) {
      OneMore(s, s1, t, n + 1);
      assert Reaches(s, t, n + 2) && SentOne(s, t, f);
    } else {
      assert s1 == s && Reaches(s, t, n + 1) && SentOne(s, t, f);
    }
  }

  lemma RoomForAwaited(s: State, f: Frame)
    requires Sound(s) && (s.producer == AwaitPayload(f) || s.producer == AwaitControl(f)) && !Tight(s, f)
    ensures var s1 := At(s, AwaitControl(f)); Sound(s1) && (s.producer == AwaitPayload(f) ==> ProducerStep(s, s1))
    ensures 1 <= s.control.Vacant() && |f.payload| <= s.payload.Vacant()
  {
    hide Window, WriteAt, Occupied, Items, Bytes, Holding;
    if s.producer == AwaitPayload(f) {
      assert ProducerStep(s, At(s, AwaitControl(f)));
      ProducerStepKeepsSound(s, At(s, AwaitControl(f)));
    }
  }

  lemma OneMore(s: State, u: State, t: State, n: nat)
    requires RingsOk(s) && ProducerStep(s, u) && Reaches(u, t, n)
    ensures Reaches(s, t, n + 1)
  {
  }

  /** An async send that lacks room can wait for it. */
  lemma AsyncCanWait(s: State, f: Frame)
    requires Sound(s) && (s.producer == CheckPayload(f, true) || s.producer == CheckControl(f, true)) && Tight(s, f)
    ensures s.producer.CheckPayload? && s.payload.Vacant() < f.item.length ==> ProducerStep(s, At(s, AwaitPayload(f)))
    ensures s.producer.CheckControl? && s.control.Vacant() < 1 ==> ProducerStep(s, At(s, AwaitPayload(f)))
  {
  }

  /** With the room there a wait can return true. */
  lemma WaitCanFinish(s: State)
    requires Sound(s) && s.producer.Waiting? && Awaiting(s.producer)
    requires Min(s.producer.items, s.control.Cap()) <= s.control.Vacant()
    requires Min(s.producer.payload, s.payload.Cap()) <= s.payload.Vacant()
    ensures exists t, n :: Reaches(s, t, n) && t.producer == Promise(s)
  {
    hide Window, WriteAt, Occupied, Stored, Holding, Surplus, Told;
    var s1 := At(s, s.producer.(stage := AwaitPayloadRoom));
    var t := At(s, Promise(s));
    assert WaitStep(s1, t) && ProducerStep(s1, t);
    assert Reaches(t, t, 0);
    OneMore(s1, t, t, 0);
    if s.producer.stage.AwaitControlRoom? {
      assert WaitStep(s, s1) && ProducerStep(s, s1);
      OneMore(s, s1, t, 1);
      assert Reaches(s, t, 2);
    } else {
      assert s1 == s && Reaches(s, t, 1);
    }
  }

  /** Every call can be made whenever its side is between calls. */
  lemma CallsCanStart(s: State, f: Frame, frames: seq<Frame>, async: bool, shutdown: bool, items: nat, payload: nat)
    requires Sound(s) && s.producer.Idle? && f.Valid() && AllValid(frames)
    ensures ProducerStep(s, At(s, CheckPayload(f, async)))
    ensures ProducerStep(s, At(s, IterLimit(frames))) && ProducerStep(s, At(s, SliceControl(frames)))
    ensures ProducerStep(s, At(s, Poke(SeeItems, frames)))
    ensures ProducerStep(s, At(s, Waiting(if shutdown then EmptyControl else VacantControl, shutdown, items, payload)))
  {
  }
}

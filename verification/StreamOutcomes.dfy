/** What one call on a stream comes to, from the step it starts at to the step it
    returns at, with the other side moving freely in between. `StreamProtocol`
    shows that nothing wrong happens; this module shows that the right thing does. */
module StreamOutcomes {
  import opened Rings
  import opened Framing
  import opened SliceScan
  import opened StreamProtocol

  /** The producer is inside one call throughout, and returns at `j`. */
  predicate SendSpan(trace: seq<State>, i: nat, j: nat) {
    Run(trace) && i < j < |trace| && trace[j].producer.Idle?
    && forall k :: i <= k < j ==> !trace[k].producer.Idle?
  }

  // ---- one frame: try and async ----

  predicate OneFrame(call: Call, f: Frame) {
    call.frames == [f] && call.sent == 0 && (call.kind.Once? || call.kind.Awaited?)
  }

  /** The call is still trying to send `f`; `base` is what was reported before it. */
  predicate Trying(s: State, base: seq<Frame>, f: Frame) {
    s.acked == base
    && match s.producer
       case CheckPayload(g, _) => g == f
       case CheckControl(g, _) => g == f
       case AwaitPayload(g) => g == f
       case AwaitControl(g) => g == f
       case p => CallOf(p).Some? && OneFrame(CallOf(p).value, f)
  }

  /** One of the rings had no room for the frame. */
  predicate Tight(s: State, f: Frame) {
    RingsOk(s) && (s.payload.Vacant() < f.item.length || s.control.Vacant() < 1)
  }

  predicate WasTight(trace: seq<State>, i: nat, k: nat, f: Frame)
    requires k <= |trace|
  {
    exists m :: i <= m < k && Tight(trace[m], f)
  }

  /** A step of the attempt goes on, succeeds, or gives up; it waits or gives up only for lack of room. */
  lemma TryingStep(s: State, s': State, f: Frame)
    requires Sound(s) && Trying(s, s.acked, f) && ProducerStep(s, s')
    ensures s'.producer.Idle? || Trying(s', s.acked, f)
    ensures s'.producer.Idle? ==>
              s'.acked == s.acked + [f]
              || (s'.acked == s.acked && (Tight(s, f) || s.producer.AwaitPayload? || s.producer.AwaitControl?))
    ensures s'.producer.AwaitPayload? || s'.producer.AwaitControl? ==>
              Tight(s, f) || s.producer.AwaitPayload? || s.producer.AwaitControl?
  {
    hide Window, WriteAt, Occupied, Items, Bytes, Stored, Holding, Surplus;
  }

  /** A call that was not asked to wait does not. */
  predicate Patient(p: Producer) {
    p.AwaitPayload? || p.AwaitControl? || (p.CheckPayload? && p.async) || (p.CheckControl? && p.async)
  }

  lemma PatienceStep(s: State, s': State, f: Frame)
    requires RingsOk(s) && Trying(s, s.acked, f) && ProducerStep(s, s') && !Patient(s.producer)
    ensures !Patient(s'.producer)
  {
    hide Window, WriteAt, Occupied, Items, Bytes, Rings.Ring.Ok, Rings.Ring.Vacant;
  }

  lemma {:induction false} TryNeverWaits(trace: seq<State>, i: nat, j: nat, k: nat, f: Frame)
    requires SendSpan(trace, i, j) && i <= k < j && trace[i].producer == CheckPayload(f, false)
    ensures !Patient(trace[k].producer)
  {
    hide Sound, Next, ProducerStep, ConsumerStep;
    if i == k {
    } else {
      TryNeverWaits(trace, i, j, k - 1, f);
      TryingUpTo(trace, i, j, k - 1, f);
      StepSides(trace, k);
      if ProducerStep(trace[k - 1], trace[k]) {
        PatienceStep(trace[k - 1], trace[k], f);
      } else {
        ConsumerFrame(trace[k - 1], trace[k]);
      }
    }
  }

  lemma {:induction false} TryingUpTo(trace: seq<State>, i: nat, j: nat, k: nat, f: Frame)
    requires SendSpan(trace, i, j) && i <= k < j
    requires trace[i].producer == CheckPayload(f, true) || trace[i].producer == CheckPayload(f, false)
    ensures Trying(trace[k], trace[i].acked, f)
    ensures trace[k].producer.AwaitPayload? || trace[k].producer.AwaitControl? ==> WasTight(trace, i, k, f)
  {
    hide Sound, Next, ProducerStep, ConsumerStep, Tight;
    if i == k {
    } else {
      TryingUpTo(trace, i, j, k - 1, f);
      EveryStateSound(trace, k - 1);
      var s, s' := trace[k - 1], trace[k];
      StepSides(trace, k);
      if ProducerStep(s, s') {
        TryingStep(s, s', f);
      } else {
        ConsumerFrame(s, s');
      }
    }
  }

  /** With no send under way, what was reported is what was published. */
  lemma NothingUnderWay(s: State)
    requires Sound(s) && CallOf(s.producer).None?
    ensures s.sent == s.acked
  {
    hide Stored, Holding, Surplus, ProducerOk;
  }

  /** A try or an async send that returns has published and reported exactly its frame, or it has
      published and reported nothing and at some step of the call one of the rings really had no room. */
  lemma SendOutcome(trace: seq<State>, i: nat, j: nat, f: Frame)
    requires SendSpan(trace, i, j)
    requires trace[i].producer == CheckPayload(f, true) || trace[i].producer == CheckPayload(f, false)
    ensures trace[i].sent == trace[i].acked && trace[j].sent == trace[j].acked
    ensures trace[j].sent == trace[i].sent + [f]
            || (trace[j].sent == trace[i].sent && WasTight(trace, i, j, f))
  {
    hide Sound, Next, ProducerStep, ConsumerStep, Tight;
    TryingUpTo(trace, i, j, j - 1, f);
    EveryStateSound(trace, i);
    EveryStateSound(trace, j - 1);
    EveryStateSound(trace, j);
    NothingUnderWay(trace[i]);
    NothingUnderWay(trace[j]);
    StepSides(trace, j);
    var s, s' := trace[j - 1], trace[j];
    if ProducerStep(s, s') {
      TryingStep(s, s', f);
    } else {
      ConsumerFrame(s, s');
    }
  }

  // ---- many frames: iterator and slice ----

  /** `fs` is what the item room seen at some step of the call leaves of `frames`. */
  predicate ItemCut(trace: seq<State>, i: nat, k: nat, frames: seq<Frame>, fs: seq<Frame>)
    requires k <= |trace|
  {
    exists m :: i <= m < k && RingsOk(trace[m]) && fs == frames[..Min(|frames|, trace[m].control.Vacant())]
  }

  predicate BytesSeen(trace: seq<State>, i: nat, k: nat, room: nat)
    requires k <= |trace|
  {
    exists m :: i <= m < k && RingsOk(trace[m]) && room == trace[m].payload.Vacant()
  }

  lemma SeenLater(trace: seq<State>, i: nat, k: nat, frames: seq<Frame>, fs: seq<Frame>, room: nat)
    requires k < |trace|
    ensures ItemCut(trace, i, k, frames, fs) ==> ItemCut(trace, i, k + 1, frames, fs)
    ensures BytesSeen(trace, i, k, room) ==> BytesSeen(trace, i, k + 1, room)
  {
  }

  predicate Iterating(trace: seq<State>, i: nat, k: nat, frames: seq<Frame>)
    requires k < |trace|
  {
    var s := trace[k];
    match s.producer
    case IterLimit(fs) => fs == frames
    case p => CallOf(p).Some? && CallOf(p).value.kind.Iter? && ItemCut(trace, i, k, frames, CallOf(p).value.frames)
  }

  lemma IteratingStep(s: State, s': State)
    requires Sound(s) && ProducerStep(s, s')
    requires s.producer.IterLimit? || (CallOf(s.producer).Some? && CallOf(s.producer).value.kind.Iter?)
    ensures s.producer.IterLimit? ==>
              s'.acked == s.acked && CallOf(s'.producer).Some? && CallOf(s'.producer).value.kind.Iter?
              && CallOf(s'.producer).value.frames
                 == s.producer.frames[..Min(|s.producer.frames|, s.control.Vacant())]
    ensures !s.producer.IterLimit? ==>
              if s'.producer.Idle? then s'.acked == s.acked + CallOf(s.producer).value.frames
              else s'.acked == s.acked && CallOf(s'.producer).Some? && CallOf(s'.producer).value.kind.Iter?
                   && CallOf(s'.producer).value.frames == CallOf(s.producer).value.frames
  {
    hide Window, WriteAt, Occupied, Items, Bytes, Stored, Holding, Surplus;
  }

  lemma {:induction false} IteratingUpTo(trace: seq<State>, i: nat, j: nat, k: nat, frames: seq<Frame>)
    requires SendSpan(trace, i, j) && i <= k < j && trace[i].producer == IterLimit(frames)
    ensures trace[k].acked == trace[i].acked && Iterating(trace, i, k, frames)
  {
    hide Sound, Next, ProducerStep, ConsumerStep;
    if i == k {
    } else {
      IteratingUpTo(trace, i, j, k - 1, frames);
      EveryStateSound(trace, k - 1);
      StepSides(trace, k);
      if ProducerStep(trace[k - 1], trace[k]) {
        IteratingStep(trace[k - 1], trace[k]);
      } else {
        ConsumerFrame(trace[k - 1], trace[k]);
      }
    }
  }

  /** An iterator send publishes and reports exactly the frames the item room seen in the call lets through: payload
      room only ever makes it wait. */
  lemma IterOutcome(trace: seq<State>, i: nat, j: nat, frames: seq<Frame>)
    requires SendSpan(trace, i, j) && trace[i].producer == IterLimit(frames)
    ensures trace[i].sent == trace[i].acked && trace[j].sent == trace[j].acked
    ensures exists fs :: ItemCut(trace, i, j, frames, fs) && trace[j].sent == trace[i].sent + fs
  {
    hide Sound, Next, ProducerStep, ConsumerStep;
    IteratingUpTo(trace, i, j, j - 1, frames);
    EveryStateSound(trace, i);
    EveryStateSound(trace, j - 1);
    EveryStateSound(trace, j);
    NothingUnderWay(trace[i]);
    NothingUnderWay(trace[j]);
    StepSides(trace, j);
    if ProducerStep(trace[j - 1], trace[j]) {
      IteratingStep(trace[j - 1], trace[j]);
      assert ItemCut(trace, i, j, frames, CallOf(trace[j - 1].producer).value.frames);
    } else {
      ConsumerFrame(trace[j - 1], trace[j]);
    }
  }

  /** The number of frames a slice sends, given the room in items and bytes. */
  function SliceCount(frames: seq<Frame>, byteRoom: nat): (n: nat)
    ensures n <= |frames|
  {
    FitCount(Items(frames), |frames|, byteRoom)
  }

  predicate InSlice(call: Call) {
    call.kind.Slice? && call.sent <= |call.frames| && call.bytes == SumLen(Items(call.frames[..call.sent]))
  }

  lemma SliceStep(s: State, s': State)
    requires Sound(s) && ProducerStep(s, s') && CallOf(s.producer).Some? && InSlice(CallOf(s.producer).value)
    ensures var call := CallOf(s.producer).value;
            if s'.producer.Idle? then s'.acked == s.acked + call.frames[..SliceCount(call.frames, call.kind.payVacant)]
            else s'.acked == s.acked && CallOf(s'.producer).Some? && InSlice(CallOf(s'.producer).value)
                 && CallOf(s'.producer).value.frames == call.frames && CallOf(s'.producer).value.kind == call.kind
  {
    hide Window, WriteAt, Occupied, Bytes, Stored, Holding, Surplus, SumLen, FitCount;
    var call := CallOf(s.producer).value;
    var items := Items(call.frames);
    assert items[..call.sent] == Items(call.frames[..call.sent]);
    if call.sent < |call.frames| {
      SumLenNext(items, call.sent);
      assert items[..call.sent + 1] == Items(call.frames[..call.sent + 1]);
    }
    if s.producer.SliceNext? {
      FitCountStep(items, |call.frames|, call.kind.payVacant, call.sent);
    }
  }

  lemma SliceOpens(s: State, s': State)
    requires Sound(s) && ProducerStep(s, s') && (s.producer.SliceControl? || s.producer.SlicePayload?)
    ensures s.producer.SliceControl? ==>
              if s.producer.frames == [] then s'.producer.Idle? && s'.acked == s.acked
              else s'.acked == s.acked
                   && s'.producer == SlicePayload(s.producer.frames[..Min(|s.producer.frames|, s.control.Vacant())])
    ensures s.producer.SlicePayload? ==>
              s'.acked == s.acked && CallOf(s'.producer).Some? && InSlice(CallOf(s'.producer).value)
              && CallOf(s'.producer).value.frames == s.producer.frames
              && CallOf(s'.producer).value.kind == Slice(s.payload.Vacant())
  {
    hide Window, WriteAt, Occupied, Bytes, Stored, Holding, Surplus;
  }

  predicate Slicing(trace: seq<State>, i: nat, k: nat, frames: seq<Frame>)
    requires k < |trace|
  {
    match trace[k].producer
    case SliceControl(fs) => fs == frames
    case SlicePayload(fs) => ItemCut(trace, i, k, frames, fs)
    case p =>
      CallOf(p).Some? && InSlice(CallOf(p).value) && ItemCut(trace, i, k, frames, CallOf(p).value.frames)
      && BytesSeen(trace, i, k, CallOf(p).value.kind.payVacant)
  }

  lemma {:induction false} SlicingUpTo(trace: seq<State>, i: nat, j: nat, k: nat, frames: seq<Frame>)
    requires SendSpan(trace, i, j) && i <= k < j && trace[i].producer == SliceControl(frames)
    ensures trace[k].acked == trace[i].acked && Slicing(trace, i, k, frames)
  {
    hide Sound, Next, ProducerStep, ConsumerStep, InSlice, SliceCount;
    if i == k {
    } else {
      SlicingUpTo(trace, i, j, k - 1, frames);
      EveryStateSound(trace, k - 1);
      StepSides(trace, k);
      var s, s' := trace[k - 1], trace[k];
      if !ProducerStep(s, s') {
        ConsumerFrame(s, s');
      } else if s.producer.SliceControl? || s.producer.SlicePayload? {
        SliceOpens(s, s');
      } else {
        SliceStep(s, s');
      }
    }
  }

  /** A slice send publishes and reports exactly the largest number of leading frames that fits the item room it saw
      and the payload room it saw, whatever the consumer frees afterwards. */
  lemma SliceOutcome(trace: seq<State>, i: nat, j: nat, frames: seq<Frame>)
    requires SendSpan(trace, i, j) && trace[i].producer == SliceControl(frames)
    ensures trace[i].sent == trace[i].acked && trace[j].sent == trace[j].acked
    ensures exists fs, room ::
              ItemCut(trace, i, j, frames, fs) && BytesSeen(trace, i, j, room)
              && trace[j].sent == trace[i].sent + fs[..SliceCount(fs, room)]
  {
    hide Sound, Next, ProducerStep, ConsumerStep, SliceCount, ItemCut, BytesSeen, Run, SumLen;
    SlicingUpTo(trace, i, j, j - 1, frames);
    EveryStateSound(trace, i);
    EveryStateSound(trace, j - 1);
    EveryStateSound(trace, j);
    NothingUnderWay(trace[i]);
    NothingUnderWay(trace[j]);
    StepSides(trace, i + 1);
    StepSides(trace, j);
    var s, s' := trace[j - 1], trace[j];
    if !ProducerStep(s, s') {
      ConsumerFrame(s, s');
    } else if s.producer.SliceControl? || s.producer.SlicePayload? {
      SliceOpens(s, s');
      NothingToSend(trace, i, j, frames);
    } else {
      SliceStep(s, s');
      var call := CallOf(s.producer).value;
      SeenLater(trace, i, j - 1, frames, call.frames, call.kind.payVacant);
    }
  }

  lemma NothingToSend(trace: seq<State>, i: nat, j: nat, frames: seq<Frame>)
    requires i < j <= |trace| && RingsOk(trace[i])
    ensures BytesSeen(trace, i, j, trace[i].payload.Vacant())
    ensures frames == [] ==> ItemCut(trace, i, j, frames, []) && SliceCount([], trace[i].payload.Vacant()) == 0
  {
    if frames == [] {
      assert frames[..Min(|frames|, trace[i].control.Vacant())] == [];
    }
  }

  // ---- filling slots in place ----

  predicate Poking(s: State, base: seq<Frame>, fs: seq<Frame>) {
    s.acked == base && s.producer.Poke? && s.producer.poked == fs
  }

  /** One of the rings had no room for all the frames. */
  predicate Short(s: State, fs: seq<Frame>) {
    RingsOk(s) && (s.control.Vacant() < |fs| || s.payload.Vacant() < |Bytes(fs)|)
  }

  predicate WasShort(trace: seq<State>, i: nat, k: nat, fs: seq<Frame>)
    requires k <= |trace|
  {
    exists m :: i <= m < k && Short(trace[m], fs)
  }

  /** The call gives up only where the caller finds too little room to fill: once the slots are filled
      the checks of the advance pass. */
  lemma PokingStep(s: State, s': State)
    requires Sound(s) && s.producer.Poke? && ProducerStep(s, s')
    ensures if s'.producer.Idle?
            then s'.acked == s.acked + s.producer.poked
                 || (s'.acked == s.acked && (s.producer.at.SeeItems? || s.producer.at.SeeBytes?)
                     && Short(s, s.producer.poked))
            else Poking(s', s.acked, s.producer.poked)
  {
    hide Window, WriteAt, Occupied, Items, Bytes, Stored, Holding, Surplus;
  }

  lemma {:induction false} PokingUpTo(trace: seq<State>, i: nat, j: nat, k: nat, fs: seq<Frame>)
    requires SendSpan(trace, i, j) && i <= k < j && trace[i].producer == Poke(SeeItems, fs)
    ensures Poking(trace[k], trace[i].acked, fs)
  {
    hide Sound, Next, ProducerStep, ConsumerStep, Short;
    if i == k {
    } else {
      PokingUpTo(trace, i, j, k - 1, fs);
      EveryStateSound(trace, k - 1);
      StepSides(trace, k);
      if ProducerStep(trace[k - 1], trace[k]) {
        PokingStep(trace[k - 1], trace[k]);
      } else {
        ConsumerFrame(trace[k - 1], trace[k]);
      }
    }
  }

  /** Frames filled in place and advanced over are published and reported all together, or none is and
      a ring really had too little room for them. */
  lemma PokeOutcome(trace: seq<State>, i: nat, j: nat, fs: seq<Frame>)
    requires SendSpan(trace, i, j) && trace[i].producer == Poke(SeeItems, fs)
    ensures trace[i].sent == trace[i].acked && trace[j].sent == trace[j].acked
    ensures trace[j].sent == trace[i].sent + fs
            || (trace[j].sent == trace[i].sent && WasShort(trace, i, j, fs))
  {
    hide Sound, Next, ProducerStep, ConsumerStep, Short;
    PokingUpTo(trace, i, j, j - 1, fs);
    EveryStateSound(trace, i);
    EveryStateSound(trace, j - 1);
    EveryStateSound(trace, j);
    NothingUnderWay(trace[i]);
    NothingUnderWay(trace[j]);
    StepSides(trace, j);
    if ProducerStep(trace[j - 1], trace[j]) {
      PokingStep(trace[j - 1], trace[j]);
    } else {
      ConsumerFrame(trace[j - 1], trace[j]);
    }
  }

  // ---- waits ----

  /** The call is still waiting, for the same thing. */
  predicate StillWaiting(p: Producer, q: Producer)
    requires q.Waiting?
  {
    p.Waiting? && p.shutdown == q.shutdown && p.items == q.items && p.payload == q.payload
  }

  lemma WaitingStep(s: State, s': State)
    requires RingsOk(s) && s.producer.Waiting? && ProducerStep(s, s')
    ensures StillWaiting(s'.producer, s.producer) || s'.producer == Promise(s)
            || (s.producer.shutdown && s'.producer == Idle(0, 0))
    ensures SameCapacities(s, s')
  {
    hide Window, Occupied, Rings.Ring.Ok, Rings.Ring.Vacant;
  }

  lemma {:induction false} WaitingUpTo(trace: seq<State>, i: nat, j: nat, k: nat)
    requires SendSpan(trace, i, j) && i <= k < j && trace[i].producer.Waiting?
    ensures StillWaiting(trace[k].producer, trace[i].producer) && SameCapacities(trace[i], trace[k])
  {
    hide Sound, Next, ProducerStep, ConsumerStep;
    if i == k {
    } else {
      WaitingUpTo(trace, i, j, k - 1);
      StepSides(trace, k);
      if ProducerStep(trace[k - 1], trace[k]) {
        WaitingStep(trace[k - 1], trace[k]);
      } else {
        ConsumerFrame(trace[k - 1], trace[k]);
      }
    }
  }

  /** As the two waits begin. */
  predicate Begun(w: Producer) {
    w.Waiting? && w.stage == if w.shutdown then EmptyControl else VacantControl
  }

  ghost predicate SeenFilled(trace: seq<State>, i: nat, k: nat, payload: bool)
    requires k <= |trace|
  {
    exists m :: i <= m < k && RingsOk(trace[m])
                && 0 < if payload then trace[m].payload.Avail() else trace[m].control.Avail()
  }

  ghost predicate SeenShort(trace: seq<State>, i: nat, k: nat, w: Producer)
    requires k <= |trace| && w.Waiting?
  {
    exists m :: i <= m < k && RingsOk(trace[m]) && trace[m].control.Vacant() < w.items
  }

  ghost predicate SeenPayloadShort(trace: seq<State>, i: nat, k: nat, w: Producer)
    requires k <= |trace| && w.Waiting?
  {
    exists m :: i <= m < k && RingsOk(trace[m]) && trace[m].payload.Vacant() < w.payload
  }

  /** In the course of the call one of the rings was found too full for the request, and was also found not
      to be empty, which would have been enough. */
  ghost predicate WasLacking(trace: seq<State>, i: nat, k: nat, w: Producer)
    requires k <= |trace| && w.Waiting?
  {
    (SeenFilled(trace, i, k, false) && SeenShort(trace, i, k, w))
    || (SeenFilled(trace, i, k, true) && SeenPayloadShort(trace, i, k, w))
  }

  predicate Awaiting(p: Producer) {
    p.Waiting? && (p.stage.AwaitControlRoom? || p.stage.AwaitPayloadRoom?)
  }

  /** What a wait that a shutdown may end has seen, by how far it has come. */
  ghost predicate WaitSaw(trace: seq<State>, i: nat, k: nat, w: Producer)
    requires k < |trace| && w.Waiting?
  {
    var p := trace[k].producer;
    p.Waiting? && w.shutdown ==>
      (p.stage.VacantControl? ==> SeenFilled(trace, i, k, false))
      && (p.stage.VacantPayload? ==> SeenFilled(trace, i, k, true))
      && (Awaiting(p) ==> WasLacking(trace, i, k, w))
  }

  /** A wait moves on, begins to wait, or gives up only for what it finds. */
  lemma LackingStep(s: State, s': State)
    requires RingsOk(s) && s.producer.Waiting? && s.producer.shutdown && ProducerStep(s, s')
    ensures var p, q := s.producer, s'.producer;
            (q.Waiting? && q.stage.VacantControl? ==> 0 < s.control.Avail() && p.stage.EmptyControl?)
            && (q.Waiting? && q.stage.VacantPayload? ==> 0 < s.payload.Avail() && p.stage.EmptyPayload?)
            && (Awaiting(q) || (q == Idle(0, 0) && q != Promise(s)) ==>
                  Awaiting(p) || (p.stage.VacantControl? && s.control.Vacant() < p.items)
                  || (p.stage.VacantPayload? && s.payload.Vacant() < p.payload))
  {
    hide Window, Occupied, Rings.Ring.Ok, Rings.Ring.Vacant, Rings.Ring.Avail;
  }

  lemma {:induction false} LackingUpTo(trace: seq<State>, i: nat, j: nat, k: nat)
    requires SendSpan(trace, i, j) && i <= k < j && Begun(trace[i].producer)
    ensures StillWaiting(trace[k].producer, trace[i].producer) && WaitSaw(trace, i, k, trace[i].producer)
  {
    hide Sound, Next, ProducerStep, ConsumerStep, SeenFilled, SeenShort, SeenPayloadShort;
    WaitingUpTo(trace, i, j, k);
    if i == k {
    } else {
      LackingUpTo(trace, i, j, k - 1);
      WaitingUpTo(trace, i, j, k - 1);
      StepSides(trace, k);
      SeenOn(trace, i, k - 1, trace[i].producer);
      if ProducerStep(trace[k - 1], trace[k]) {
        if trace[i].producer.shutdown {
          LackingStep(trace[k - 1], trace[k]);
        }
      } else {
        ConsumerFrame(trace[k - 1], trace[k]);
      }
    }
  }

  lemma SeenOn(trace: seq<State>, i: nat, k: nat, w: Producer)
    requires i <= k < |trace| && w.Waiting? && RingsOk(trace[k])
    ensures SeenFilled(trace, i, k, false) || 0 < trace[k].control.Avail() ==> SeenFilled(trace, i, k + 1, false)
    ensures SeenFilled(trace, i, k, true) || 0 < trace[k].payload.Avail() ==> SeenFilled(trace, i, k + 1, true)
    ensures SeenShort(trace, i, k, w) || trace[k].control.Vacant() < w.items ==> SeenShort(trace, i, k + 1, w)
    ensures SeenPayloadShort(trace, i, k, w) || trace[k].payload.Vacant() < w.payload ==>
              SeenPayloadShort(trace, i, k + 1, w)
  {
    hide Rings.Ring.Ok, Rings.Ring.Vacant, Rings.Ring.Avail;
  }

  /** A wait that returns has found the clamped room in both rings at once; it gives up only through
      shutdown, and only after it found one of the rings too full and not empty. */
  lemma WaitOutcome(trace: seq<State>, i: nat, j: nat)
    requires SendSpan(trace, i, j) && Begun(trace[i].producer)
    ensures var s, w := trace[j], trace[i].producer;
            RingsOk(s) && SameCapacities(trace[i], s)
            && ((s.producer == Promise(trace[i])
                 && Min(w.items, s.control.Cap()) <= s.control.Vacant()
                 && Min(w.payload, s.payload.Cap()) <= s.payload.Vacant())
                || (w.shutdown && s.producer == Idle(0, 0) && WasLacking(trace, i, j, w)))
  {
    hide Sound, Next, ProducerStep, ConsumerStep, SeenFilled, SeenShort, SeenPayloadShort;
    WaitingUpTo(trace, i, j, j - 1);
    LackingUpTo(trace, i, j, j - 1);
    StepSides(trace, j);
    SeenOn(trace, i, j - 1, trace[i].producer);
    var s := trace[j - 1];
    if ProducerStep(s, trace[j]) {
      WaitingStep(s, trace[j]);
      if trace[i].producer.shutdown {
        LackingStep(s, trace[j]);
      }
    } else {
      ConsumerFrame(s, trace[j]);
    }
    EveryStateSound(trace, j);
    RoomPromised(trace[j]);
  }

  lemma RoomPromised(s: State)
    requires Sound(s) && s.producer.Idle?
    ensures RingsOk(s) && s.producer.controlRoom <= s.control.Vacant() && s.producer.payloadRoom <= s.payload.Vacant()
  {
    hide Stored, Holding, Surplus;
  }

  // ---- takes ----

  /** The consumer is inside one call throughout, and returns at `j`. */
  predicate TakeSpan(trace: seq<State>, i: nat, j: nat) {
    Run(trace) && i < j < |trace| && trace[j].consumer.Resting?
    && forall k :: i <= k < j ==> !trace[k].consumer.Resting?
  }

  predicate WasEmpty(trace: seq<State>, i: nat, k: nat)
    requires k <= |trace|
  {
    exists m :: i <= m < k && RingsOk(trace[m]) && trace[m].control.Queue() == []
  }

  predicate InTake(c: Consumer) {
    c.TakeStart? || c.Peeked? || c.Checked? || c.CopiedOut? || c.PopSeen? || c.Popped?
  }

  /** A take goes on until it delivers one frame, or ends at once on an empty control ring. */
  lemma TakingStep(s: State, s': State)
    requires Sound(s) && InTake(s.consumer) && ConsumerStep(s, s')
    ensures if s'.consumer.Resting?
            then s'.consumer.peeked == None
                 && ((s'.got == s.got && s.control.Queue() == []) || |s'.got| == |s.got| + 1)
            else InTake(s'.consumer) && s'.got == s.got
  {
    hide Window, WriteAt, Occupied, Bytes, Items, ProducerOk, Told, Stored;
    if s.consumer.Peeked? {
      HeadCovered(s, s.consumer.item);
    }
  }

  lemma {:induction false} TakingUpTo(trace: seq<State>, i: nat, j: nat, k: nat)
    requires TakeSpan(trace, i, j) && i <= k < j && trace[i].consumer.TakeStart?
    ensures InTake(trace[k].consumer) && trace[k].got == trace[i].got
  {
    hide Sound, Next, ProducerStep, ConsumerStep;
    if i == k {
    } else {
      TakingUpTo(trace, i, j, k - 1);
      EveryStateSound(trace, k - 1);
      StepSides(trace, k);
      if ConsumerStep(trace[k - 1], trace[k]) {
        TakingStep(trace[k - 1], trace[k]);
      } else {
        ProducerStepKeepsSound(trace[k - 1], trace[k]);
      }
    }
  }

  /** The frames delivered between two states, while nothing is skipped: the next ones sent. */
  predicate Delivered(s: State, s': State, n: nat) {
    |s.got| + n <= |s'.sent| && s'.got == s.got + s'.sent[|s.got|..][..n]
  }

  lemma DeliveredInOrder(trace: seq<State>, i: nat, j: nat)
    requires Run(trace) && i <= j < |trace| && InOrder(trace, j)
    ensures |trace[i].got| <= |trace[j].got| && Delivered(trace[i], trace[j], |trace[j].got| - |trace[i].got|)
  {
    hide Run, InOrder, Sound;
    GotGrows(trace, i, j);
    EveryStateInv(trace, j);
  }

  /** A take delivers one frame, the oldest undelivered one while nothing is skipped, whatever is sent
      meanwhile; it comes back empty-handed only if it found the control ring empty. */
  lemma TakeOutcome(trace: seq<State>, i: nat, j: nat)
    requires TakeSpan(trace, i, j) && trace[i].consumer.TakeStart?
    ensures (trace[j].got == trace[i].got && WasEmpty(trace, i, j)) || |trace[j].got| == |trace[i].got| + 1
    ensures InOrder(trace, j) && trace[j].got != trace[i].got ==> Delivered(trace[i], trace[j], 1)
  {
    hide Sound, Next, ProducerStep, ConsumerStep, InOrder;
    TakingUpTo(trace, i, j, j - 1);
    EveryStateSound(trace, j - 1);
    StepSides(trace, j);
    if ConsumerStep(trace[j - 1], trace[j]) {
      TakingStep(trace[j - 1], trace[j]);
    } else {
      ProducerStepKeepsSound(trace[j - 1], trace[j]);
    }
    if InOrder(trace, j) {
      DeliveredInOrder(trace, i, j);
    }
  }

  // ---- peeks ----

  lemma PeekingStep(s: State, s': State)
    requires Sound(s) && (s.consumer.PeekStart? || s.consumer.PeekLoad?) && ConsumerStep(s, s')
    ensures s'.got == s.got
    ensures if s'.consumer.Resting?
            then s'.consumer.peeked.Some? || (s.consumer.PeekStart? && s.control.Queue() == [])
            else s'.consumer.PeekLoad?
  {
    hide Window, WriteAt, Occupied, Bytes, Items, ProducerOk, Told, Stored, Rings.Ring.Front, Rings.Ring.Back;
    if s.consumer.PeekLoad? {
      PeekMoves(s, s');
    }
  }

  lemma {:induction false} PeekingUpTo(trace: seq<State>, i: nat, j: nat, k: nat)
    requires TakeSpan(trace, i, j) && i <= k < j && trace[i].consumer.PeekStart?
    ensures (trace[k].consumer.PeekStart? || trace[k].consumer.PeekLoad?) && trace[k].got == trace[i].got
  {
    hide Sound, Next, ProducerStep, ConsumerStep;
    if i == k {
    } else {
      PeekingUpTo(trace, i, j, k - 1);
      EveryStateSound(trace, k - 1);
      StepSides(trace, k);
      if ConsumerStep(trace[k - 1], trace[k]) {
        PeekingStep(trace[k - 1], trace[k]);
      } else {
        ProducerStepKeepsSound(trace[k - 1], trace[k]);
      }
    }
  }

  /** A peek removes nothing and answers with a frame, the oldest undelivered one while nothing is
      skipped; it answers with none only if it found the control ring empty. */
  lemma PeekOutcome(trace: seq<State>, i: nat, j: nat)
    requires TakeSpan(trace, i, j) && trace[i].consumer.PeekStart?
    ensures trace[j].got == trace[i].got
    ensures trace[j].consumer.peeked.Some? || WasEmpty(trace, i, j)
    ensures InOrder(trace, j) && trace[j].consumer.peeked.Some? ==>
              |trace[j].got| < |trace[j].sent| && trace[j].consumer.peeked.value == trace[j].sent[|trace[j].got|]
  {
    hide Sound, Next, ProducerStep, ConsumerStep, InOrder;
    PeekingUpTo(trace, i, j, j - 1);
    EveryStateSound(trace, j - 1);
    StepSides(trace, j);
    if ConsumerStep(trace[j - 1], trace[j]) {
      PeekingStep(trace[j - 1], trace[j]);
    } else {
      ProducerStepKeepsSound(trace[j - 1], trace[j]);
    }
    if InOrder(trace, j) && trace[j].consumer.peeked.Some? {
      PeekIsNextFrame(trace, j);
    }
  }

  // ---- slice takes ----

  /** The items a slice take is about to deliver, once it has chosen them. */
  function Chosen(c: Consumer): Option<seq<ControlItem>> {
    match c
    case SliceItems(items) => Some(items)
    case SliceBytes(items, _) => Some(items)
    case SliceFreed(items, _) => Some(items)
    case _ => None
  }

  /** At some step of the call the two loops chose `n` of the items then queued. */
  predicate ScanSeen(trace: seq<State>, i: nat, k: nat, itemRoom: nat, byteRoom: nat, n: nat)
    requires k <= |trace|
  {
    exists m :: i <= m < k && RingsOk(trace[m])
                && n == |Copied(trace[m].control.Front(), trace[m].control.Back(), itemRoom, byteRoom)|
  }

  /** At some step of the call `n` was the largest number of queued items that fits. */
  predicate MostSeen(trace: seq<State>, i: nat, k: nat, itemRoom: nat, byteRoom: nat, n: nat)
    requires k <= |trace|
  {
    exists m :: i <= m < k && RingsOk(trace[m]) && n == FitCount(trace[m].control.Queue(), itemRoom, byteRoom)
  }

  lemma ChoosingStep(s: State, s': State)
    requires Sound(s) && ConsumerStep(s, s') && s.consumer.SliceStart?
    ensures s'.got == s.got && Chosen(s'.consumer).Some?
    ensures |Chosen(s'.consumer).value|
            == |Copied(s.control.Front(), s.control.Back(), s.consumer.itemRoom, s.consumer.byteRoom)|
    ensures !Skips(s, s') ==>
              |Chosen(s'.consumer).value|
              == FitCount(s.control.Queue(), s.consumer.itemRoom, s.consumer.byteRoom)
  {
    hide Window, WriteAt, Occupied, Stored, ProducerOk, Told, Holding, Surplus, Copied, NoSkip;
    SlicesAreQueue(s.control);
    TwoLoopsMatchOneScan(s.control.Front(), s.control.Back(), s.consumer.itemRoom, s.consumer.byteRoom);
  }

  lemma DeliveringStep(s: State, s': State)
    requires Sound(s) && ConsumerStep(s, s') && Chosen(s.consumer).Some?
    ensures if s.consumer.SliceFreed?
            then s'.consumer.Resting? && |s'.got| == |s.got| + |Chosen(s.consumer).value|
            else s'.got == s.got && Chosen(s'.consumer) == Chosen(s.consumer)
  {
    hide Window, WriteAt, Occupied, Stored, ProducerOk, Told, Surplus, NoSkip, Copied, SumLen;
  }

  predicate Choosing(trace: seq<State>, i: nat, k: nat, itemRoom: nat, byteRoom: nat)
    requires Run(trace) && k < |trace|
  {
    trace[k].consumer == SliceStart(itemRoom, byteRoom)
    || (Chosen(trace[k].consumer).Some?
        && ScanSeen(trace, i, k, itemRoom, byteRoom, |Chosen(trace[k].consumer).value|)
        && (InOrder(trace, k) ==> MostSeen(trace, i, k, itemRoom, byteRoom, |Chosen(trace[k].consumer).value|)))
  }

  lemma {:induction false} ChoosingUpTo(trace: seq<State>, i: nat, j: nat, k: nat, itemRoom: nat, byteRoom: nat)
    requires TakeSpan(trace, i, j) && i <= k < j && trace[i].consumer == SliceStart(itemRoom, byteRoom)
    ensures trace[k].got == trace[i].got && Choosing(trace, i, k, itemRoom, byteRoom)
  {
    hide Sound, Next, ProducerStep, ConsumerStep, Skips;
    if i == k {
    } else {
      ChoosingUpTo(trace, i, j, k - 1, itemRoom, byteRoom);
      EveryStateSound(trace, k - 1);
      StepSides(trace, k);
      assert Next(trace[k - 1], trace[k]);
      var s, s' := trace[k - 1], trace[k];
      if !ConsumerStep(s, s') {
        ProducerStepKeepsSound(s, s');
      } else if s.consumer.SliceStart? {
        ChoosingStep(s, s');
      } else {
        DeliveringStep(s, s');
      }
    }
  }

  lemma InOrderBefore(trace: seq<State>, i: nat, j: nat)
    requires Run(trace) && i <= j < |trace| && InOrder(trace, j)
    ensures InOrder(trace, i)
  {
    hide Next, Skips;
  }

  lemma ScansLater(trace: seq<State>, i: nat, k: nat, itemRoom: nat, byteRoom: nat, n: nat)
    requires k < |trace|
    ensures ScanSeen(trace, i, k, itemRoom, byteRoom, n) ==> ScanSeen(trace, i, k + 1, itemRoom, byteRoom, n)
    ensures MostSeen(trace, i, k, itemRoom, byteRoom, n) ==> MostSeen(trace, i, k + 1, itemRoom, byteRoom, n)
  {
    hide RingsOk, Copied, FitCount;
  }

  lemma DeliveredCount(trace: seq<State>, i: nat, j: nat)
    requires TakeSpan(trace, i, j) && trace[i].consumer.SliceStart?
    ensures var c, n := trace[i].consumer, |trace[j].got| - |trace[i].got|;
            0 <= n && ScanSeen(trace, i, j, c.itemRoom, c.byteRoom, n)
            && (InOrder(trace, j) ==> MostSeen(trace, i, j, c.itemRoom, c.byteRoom, n))
  {
    hide Sound, Next, ProducerStep, ConsumerStep, Skips, InOrder, ScanSeen, MostSeen;
    var itemRoom, byteRoom := trace[i].consumer.itemRoom, trace[i].consumer.byteRoom;
    ChoosingUpTo(trace, i, j, j - 1, itemRoom, byteRoom);
    EveryStateSound(trace, j - 1);
    StepSides(trace, j);
    var s, s' := trace[j - 1], trace[j];
    if !ConsumerStep(s, s') {
      ProducerStepKeepsSound(s, s');
    } else if s.consumer.SliceStart? {
      ChoosingStep(s, s');
    } else {
      DeliveringStep(s, s');
      ScansLater(trace, i, j - 1, itemRoom, byteRoom, |Chosen(s.consumer).value|);
      if InOrder(trace, j) {
        InOrderBefore(trace, j - 1, j);
      }
    }
  }

  /** A slice take delivers as many frames as its two loops chose of the items it saw. As long as nothing
      is skipped these are exactly the maximal prefix, frame for frame, that fits both targets. */
  lemma TakeSliceOutcome(trace: seq<State>, i: nat, j: nat)
    requires TakeSpan(trace, i, j) && trace[i].consumer.SliceStart?
    ensures var c, n := trace[i].consumer, |trace[j].got| - |trace[i].got|;
            trace[i].got <= trace[j].got && ScanSeen(trace, i, j, c.itemRoom, c.byteRoom, n)
            && (InOrder(trace, j) ==>
                  MostSeen(trace, i, j, c.itemRoom, c.byteRoom, n) && Delivered(trace[i], trace[j], n))
  {
    hide Sound, Run, InOrder, ScanSeen, MostSeen;
    DeliveredCount(trace, i, j);
    GotGrows(trace, i, j);
    if InOrder(trace, j) {
      DeliveredInOrder(trace, i, j);
    }
  }

  // ---- reading in place and advancing ----

  predicate WasFewer(trace: seq<State>, i: nat, k: nat, count: nat)
    requires k <= |trace|
  {
    exists m :: i <= m < k && RingsOk(trace[m]) && trace[m].control.Avail() < count
  }

  predicate Advancing(c: Consumer, count: nat) {
    c == AdvanceStart(count) || (c.AdvanceBytes? && |c.items| == count)
    || (Chosen(c).Some? && |Chosen(c).value| == count)
  }

  lemma AdvancingStep(s: State, s': State)
    requires Sound(s) && ConsumerStep(s, s') && (s.consumer.AdvanceStart? || s.consumer.AdvanceBytes?)
    ensures s'.got == s.got
    ensures s.consumer.AdvanceStart? ==>
              if s'.consumer.Resting? then s.control.Avail() < s.consumer.count
              else s'.consumer.AdvanceBytes? && |s'.consumer.items| == s.consumer.count
    ensures s.consumer.AdvanceBytes? ==> Chosen(s'.consumer) == Some(s.consumer.items)
  {
    hide Sound;
    if s.consumer.AdvanceBytes? {
      AdvanceMoves(s, s');
    }
  }

  lemma {:induction false} AdvancingUpTo(trace: seq<State>, i: nat, j: nat, k: nat)
    requires TakeSpan(trace, i, j) && i <= k < j && trace[i].consumer.AdvanceStart?
    ensures trace[k].got == trace[i].got && Advancing(trace[k].consumer, trace[i].consumer.count)
  {
    hide Sound, Next, ProducerStep, ConsumerStep;
    if i == k {
    } else {
      AdvancingUpTo(trace, i, j, k - 1);
      EveryStateSound(trace, k - 1);
      StepSides(trace, k);
      var s, s' := trace[k - 1], trace[k];
      if !ConsumerStep(s, s') {
        ProducerStepKeepsSound(s, s');
      } else if s.consumer.AdvanceStart? || s.consumer.AdvanceBytes? {
        AdvancingStep(s, s');
      } else {
        DeliveringStep(s, s');
      }
    }
  }

  /** An advance past a count of items and the bytes they announce removes exactly that many frames, the
      next ones while nothing is skipped; it is declined only if fewer items were there. */
  lemma AdvanceOutcome(trace: seq<State>, i: nat, j: nat)
    requires TakeSpan(trace, i, j) && trace[i].consumer.AdvanceStart?
    ensures var n := trace[i].consumer.count;
            (trace[j].got == trace[i].got && WasFewer(trace, i, j, n))
            || (|trace[j].got| == |trace[i].got| + n && (InOrder(trace, j) ==> Delivered(trace[i], trace[j], n)))
  {
    hide Sound, Next, Init, ProducerStep, ConsumerStep, InOrder;
    AdvancingUpTo(trace, i, j, j - 1);
    EveryStateSound(trace, j - 1);
    StepSides(trace, j);
    var s, s' := trace[j - 1], trace[j];
    if !ConsumerStep(s, s') {
      ProducerStepKeepsSound(s, s');
    } else if s.consumer.AdvanceStart? || s.consumer.AdvanceBytes? {
      AdvancingStep(s, s');
    } else {
      DeliveringStep(s, s');
    }
    if InOrder(trace, j) {
      DeliveredInOrder(trace, i, j);
    }
  }
}

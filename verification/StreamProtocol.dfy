/** A stream under every interleaving of one producer and one consumer.

    The state is the two physical rings and a program counter for each side.
    One step is one load or store of an index shared with the other side (an
    index the thread owns cannot move under it, so reading it is not a step).
    Results the source throws away are computed and thrown away here too: that
    nothing is ever lost by that is a theorem, not a rule of the model.

    Histories ride along: `sent`, the frames whose control item has been
    published; `acked`, the frames the producer's callers were told about;
    `got`, the frames the consumer's callers were handed; and how many entries
    have left each ring.

    The slice take may skip an item (see `SliceScan`). Everything about the
    producer, and that no check or index of the consumer fails, holds in every
    run. That the rings stay in step holds exactly in the runs without a skip. */
module StreamProtocol {
  import opened Rings
  import opened Framing
  import opened SliceScan

  // ---- producer ----

  /** Why a push is under way, which decides what happens to its results.
      `Slice` carries the payload vacancy read once at the start of the call. */
  datatype Kind = Once | Awaited | Iter | Slice(payVacant: nat)

  /** A send in progress: `sent` of `frames` are out, holding `bytes` payload bytes. */
  datatype Call = Call(kind: Kind, frames: seq<Frame>, sent: nat, bytes: nat) {
    predicate Going() {
      AllValid(frames) && sent < |frames|
      && (kind.Slice? ==> bytes + |frames[sent].payload| <= kind.payVacant)
    }

    predicate Between() {
      AllValid(frames) && sent <= |frames| && (kind.Slice? ==> bytes <= kind.payVacant)
    }

    function Current(): Frame
      requires sent < |frames|
    {
      frames[sent]
    }

    function After(): Call
      requires sent < |frames|
    {
      this.(sent := sent + 1, bytes := bytes + |Current().payload|)
    }
  }

  datatype Stage = EmptyControl | VacantControl | EmptyPayload | VacantPayload | AwaitControlRoom | AwaitPayloadRoom

  /** Filling vacant slots in place and then advancing: what `shared_poke_slice` reads, the caller's
      stores, the checks of `shared_advance_index` and its two stores. */
  datatype PokeStage = SeeItems | SeeBytes | Fill | CheckItems | CheckBytes | StoreBytes | StoreItems

  datatype Producer =
    /** Between calls, with the vacancies the last wait promised. */
    | Idle(controlRoom: nat, payloadRoom: nat)
    /** The two vacancy checks of a try or of the first half of an async send. */
    | CheckPayload(frame: Frame, async: bool)
    | CheckControl(frame: Frame, async: bool)
    /** The `has_room` future of an async send. */
    | AwaitPayload(frame: Frame)
    | AwaitControl(frame: Frame)
    | IterLimit(frames: seq<Frame>)
    | IterCheck(call: Call)
    | IterWait(call: Call)
    | SliceControl(frames: seq<Frame>)
    | SlicePayload(frames: seq<Frame>)
    | SliceNext(call: Call)
    /** `push_slice` on the payload ring: load, fill slots, publish; then `try_push` on the control ring. */
    | PushLoad(call: Call)
    | PushWrite(call: Call, n: nat)
    | PushStore(call: Call, n: nat)
    | ItemLoad(call: Call)
    | ItemWrite(call: Call)
    | ItemStore(call: Call)
    | Waiting(stage: Stage, shutdown: bool, items: nat, payload: nat)
    | Poke(at: PokeStage, poked: seq<Frame>)

  // ---- consumer ----

  datatype Consumer =
    /** Between calls, with what the last peek returned and nothing has taken since. */
    | Resting(peeked: Option<Frame>)
    | TakeStart
    | PeekStart
    | AdvanceStart(count: nat)
    | Peeked(item: ControlItem)
    | Checked(item: ControlItem)
    | CopiedOut(item: ControlItem, data: seq<byte>)
    /** `try_pop` between its load of the write index and its store of the read index. */
    | PopSeen(item: ControlItem, data: seq<byte>)
    | Popped(item: ControlItem, data: seq<byte>)
    | PeekLoad(item: ControlItem)
    | SliceStart(itemRoom: nat, byteRoom: nat)
    | SliceItems(items: seq<ControlItem>)
    | SliceBytes(items: seq<ControlItem>, data: seq<byte>)
    | SliceFreed(items: seq<ControlItem>, data: seq<byte>)
    /** `shared_advance_index` past items read in place, with the bytes they announce; its stores are those of a
        slice take. */
    | AdvanceBytes(items: seq<ControlItem>)
    /** A slice index out of bounds in the peek. */
    | Panicked

  datatype State = State(
    control: Ring<ControlItem>, payload: Ring<byte>,
    producer: Producer, consumer: Consumer,
    sent: seq<Frame>, acked: seq<Frame>, got: seq<Frame>,
    outItems: nat, outBytes: nat)

  predicate RingsOk(s: State) {
    s.control.Ok() && s.payload.Ok()
  }

  predicate Init(s: State) {
    RingsOk(s) && s.control.Queue() == [] && s.payload.Queue() == []
    && s.producer == Idle(0, 0) && s.consumer == Resting(None)
    && s.sent == [] && s.acked == [] && s.got == [] && s.outItems == s.outBytes == 0
  }

  // ---- producer steps ----

  /** The caller is told `count` of the frames went out. */
  function Return(s: State, frames: seq<Frame>, count: nat): State {
    s.(producer := Idle(0, 0), acked := s.acked + if count <= |frames| then frames[..count] else frames)
  }

  function At(s: State, p: Producer): State {
    s.(producer := p)
  }

  /** What follows a frame that went out, or was taken for having gone out. */
  function AfterFrame(s: State, call: Call): State
    requires call.sent < |call.frames|
  {
    match call.kind
    case Once => Return(s, call.frames, 1)
    case Awaited => Return(s, call.frames, 1)
    case Iter => At(s, IterCheck(call.After()))
    case Slice(_) => At(s, SliceNext(call.After()))
  }

  predicate Starts(p: Producer) {
    match p
    case CheckPayload(f, _) => f.Valid()
    case IterLimit(frames) => AllValid(frames)
    case SliceControl(frames) => AllValid(frames)
    case Waiting(stage, shutdown, _, _) => stage == if shutdown then EmptyControl else VacantControl
    case Poke(at, fs) => at.SeeItems? && AllValid(fs)
    case _ => false
  }

  /** No room: a try returns the item, an async send blocks, closes, or waits. */
  predicate NoRoom(s: State, s': State, f: Frame, async: bool) {
    s' == At(s, Idle(0, 0)) || (async && s' == At(s, AwaitPayload(f)))
  }

  predicate WaitStep(s: State, s': State)
    requires RingsOk(s) && s.producer.Waiting?
  {
    var w := s.producer;
    var needItems, needBytes := Min(w.items, s.control.Cap()), Min(w.payload, s.payload.Cap());
    match w.stage
    case EmptyControl =>
      s' == At(s, w.(stage := if s.control.Avail() == 0 then EmptyPayload else VacantControl))
    case VacantControl =>
      if w.items <= s.control.Vacant() then
        s' == At(s, w.(stage := if w.shutdown then EmptyPayload else VacantPayload))
      else s' == At(s, w.(stage := AwaitControlRoom)) || (w.shutdown && s' == At(s, Idle(0, 0)))
    case EmptyPayload =>
      s' == At(s, if s.payload.Avail() == 0 then Idle(needItems, needBytes) else w.(stage := VacantPayload))
    case VacantPayload =>
      if w.payload <= s.payload.Vacant() then s' == At(s, Idle(needItems, needBytes))
      else s' == At(s, w.(stage := AwaitControlRoom)) || (w.shutdown && s' == At(s, Idle(0, 0)))
    case AwaitControlRoom =>
      (w.shutdown && s' == At(s, Idle(0, 0)))
      || (needItems <= s.control.Vacant() && s' == At(s, w.(stage := AwaitPayloadRoom)))
    case AwaitPayloadRoom =>
      (w.shutdown && s' == At(s, Idle(0, 0)))
      || (needBytes <= s.payload.Vacant() && s' == At(s, Idle(needItems, needBytes)))
  }

  predicate PokeStep(s: State, s': State)
    requires RingsOk(s) && s.producer.Poke?
  {
    var fs := s.producer.poked;
    var roomForItems, roomForBytes := |fs| <= s.control.Vacant(), |Bytes(fs)| <= s.payload.Vacant();
    match s.producer.at
    case SeeItems => s' == At(s, if roomForItems then Poke(SeeBytes, fs) else Idle(0, 0))
    case SeeBytes => s' == At(s, if roomForBytes then Poke(Fill, fs) else Idle(0, 0))
    case Fill =>
      s' == At(s, Poke(CheckItems, fs)).(
            control := s.control.WriteSlots(Items(fs)), payload := s.payload.WriteSlots(Bytes(fs)))
    case CheckItems => s' == At(s, if roomForItems then Poke(CheckBytes, fs) else Idle(0, 0))
    case CheckBytes => s' == At(s, if roomForBytes then Poke(StoreBytes, fs) else Idle(0, 0))
    case StoreBytes => s' == At(s, Poke(StoreItems, fs)).(payload := s.payload.StoreWrite(|Bytes(fs)|))
    case StoreItems =>
      s' == Return(s.(control := s.control.StoreWrite(|fs|), sent := s.sent + fs), fs, |fs|)
  }

  predicate ProducerStep(s: State, s': State)
    requires RingsOk(s)
  {
    match s.producer
    case Idle(_, _) => Starts(s'.producer) && s' == At(s, s'.producer)
    case CheckPayload(f, async) =>
      if f.item.length <= s.payload.Vacant() then s' == At(s, CheckControl(f, async))
      else NoRoom(s, s', f, async)
    case CheckControl(f, async) =>
      if 1 <= s.control.Vacant() then s' == At(s, PushLoad(Call(Once, [f], 0, 0)))
      else NoRoom(s, s', f, async)
    case AwaitPayload(f) =>
      s' == At(s, Idle(0, 0)) || (|f.payload| <= s.payload.Vacant() && s' == At(s, AwaitControl(f)))
    case AwaitControl(f) =>
      s' == At(s, Idle(0, 0))
      || (1 <= s.control.Vacant() && s' == At(s, PushLoad(Call(Awaited, [f], 0, 0))))
    case IterLimit(frames) =>
      s' == At(s, IterCheck(Call(Iter, frames[..Min(|frames|, s.control.Vacant())], 0, 0)))
    case IterCheck(call) =>
      if |call.frames| <= call.sent then s' == Return(s, call.frames, call.sent)
      else if s.payload.Vacant() < |call.Current().payload| then s' == At(s, IterWait(call))
      else s' == At(s, PushLoad(call))
    case IterWait(call) =>
      call.sent < |call.frames| && |call.Current().payload| <= s.payload.Vacant() && s' == At(s, PushLoad(call))
    case SliceControl(frames) =>
      if frames == [] then s' == Return(s, [], 0)
      else s' == At(s, SlicePayload(frames[..Min(|frames|, s.control.Vacant())]))
    case SlicePayload(frames) => s' == At(s, SliceNext(Call(Slice(s.payload.Vacant()), frames, 0, 0)))
    case SliceNext(call) =>
      if |call.frames| <= call.sent || !call.kind.Slice?
         || call.kind.payVacant < call.bytes + |call.Current().payload|
      then s' == Return(s, call.frames, call.sent)
      else s' == At(s, PushLoad(call))
    case PushLoad(call) =>
      call.sent < |call.frames|
      && s' == At(s, PushWrite(call, Min(|call.Current().payload|, s.payload.Vacant())))
    case PushWrite(call, n) =>
      call.sent < |call.frames| && n <= |call.Current().payload|
      && s' == At(s, PushStore(call, n)).(payload := s.payload.WriteSlots(call.Current().payload[..n]))
    case PushStore(call, n) =>
      call.sent < |call.frames|
      && var out := s.(payload := s.payload.StoreWrite(n));
         // Only a slice and an awaited send look at how much was pushed.
         if n != |call.Current().payload| && (call.kind.Slice? || call.kind.Awaited?)
         then s' == Return(out, call.frames, call.sent)
         else s' == At(out, ItemLoad(call))
    case ItemLoad(call) =>
      call.sent < |call.frames|
      && if 1 <= s.control.Vacant() then s' == At(s, ItemWrite(call))
         else match call.kind {
           case Slice(_) => s' == Return(s, call.frames, call.sent)
           case Awaited => s' == s
           case _ => s' == AfterFrame(s, call)   // the refused item is dropped and counted all the same
         }
    case ItemWrite(call) =>
      call.sent < |call.frames|
      && s' == At(s, ItemStore(call)).(control := s.control.WriteSlots([call.Current().item]))
    case ItemStore(call) =>
      call.sent < |call.frames|
      && s' == AfterFrame(s.(control := s.control.StoreWrite(1), sent := s.sent + [call.Current()]), call)
    case Waiting(_, _, _, _) => WaitStep(s, s')
    case Poke(_, _) => PokeStep(s, s')
  }

  // ---- consumer steps ----

  function On(s: State, c: Consumer): State {
    s.(consumer := c)
  }

  /** Storing the read index of one ring. */
  function DropItems(s: State, n: nat): State
    requires s.control.Ok()
  {
    s.(control := s.control.StoreRead(n), outItems := s.outItems + n)
  }

  function DropBytes(s: State, n: nat): State
    requires s.payload.Ok()
  {
    s.(payload := s.payload.StoreRead(n), outBytes := s.outBytes + n)
  }

  /** `peek_slice` into a zeroed buffer of `n` bytes. */
  function PeekInto(q: seq<byte>, n: nat): seq<byte> {
    q[..Min(n, |q|)] + seq(n - Min(n, |q|), _ => 0)
  }

  function Cut(items: seq<ControlItem>, data: seq<byte>): seq<Frame> {
    if SumLen(items) <= |data| then Split(items, data) else []
  }

  predicate Begins(c: Consumer) {
    c.TakeStart? || c.PeekStart? || c.AdvanceStart? || c.SliceStart?
  }

  predicate ConsumerStep(s: State, s': State)
    requires RingsOk(s)
  {
    match s.consumer
    case Resting(_) => Begins(s'.consumer) && s' == On(s, s'.consumer)
    case TakeStart => s' == On(s, if s.control.Queue() == [] then Resting(None) else Peeked(s.control.Queue()[0]))
    case PeekStart => s' == On(s, if s.control.Queue() == [] then Resting(None) else PeekLoad(s.control.Queue()[0]))
    case AdvanceStart(count) =>
      s' == On(s, if count <= s.control.Avail() then AdvanceBytes(s.control.Queue()[..count]) else Resting(None))
    case Peeked(item) =>
      if item.length <= s.payload.Avail() then s' == On(s, Checked(item)) else s' == On(s, Resting(None))
    case Checked(item) => s' == On(s, CopiedOut(item, PeekInto(s.payload.Queue(), item.length)))
    case CopiedOut(item, data) =>
      s' == On(s, if s.control.Queue() == [] then Resting(None) else PopSeen(item, data))
    case PopSeen(item, data) =>
      s.control.Queue() != [] && s' == On(DropItems(s, 1), Popped(s.control.Queue()[0], data))
    case Popped(item, data) =>
      s' == On(DropBytes(s, |data|), Resting(None)).(got := s.got + [Frame(item, data)])
    case PeekLoad(item) =>
      var a, b := s.payload.Front(), s.payload.Back();
      var countA := Min(|a|, item.length);
      var countB := item.length - countA;
      s' == On(s, if countB <= |b| then Resting(Some(Frame(item, a[..countA] + b[..countB]))) else Panicked)
    case SliceStart(itemRoom, byteRoom) =>
      s' == On(s, SliceItems(Copied(s.control.Front(), s.control.Back(), itemRoom, byteRoom)))
    case SliceItems(items) =>
      var q := s.payload.Queue();
      s' == On(s, SliceBytes(items, q[..Min(|q|, SumLen(items))]))
    case SliceBytes(items, data) => s' == On(DropBytes(s, |data|), SliceFreed(items, data))
    case SliceFreed(items, data) =>
      s' == On(DropItems(s, |items|), Resting(None)).(got := s.got + Cut(items, data))
    case AdvanceBytes(items) =>
      var n := SumLen(items);
      s' == On(s, if n <= s.payload.Avail() then SliceBytes(items, s.payload.Queue()[..n]) else Resting(None))
    case Panicked => false
  }

  /** A slice take whose second scan jumps over the item the first one stopped at. */
  predicate Skips(s: State, s': State)
    requires RingsOk(s)
  {
    s.consumer.SliceStart? && s'.consumer.SliceItems?
    && !NoSkip(s.control.Front(), s.control.Back(), s.consumer.itemRoom, s.consumer.byteRoom)
  }

  predicate Next(s: State, s': State) {
    RingsOk(s) && (ProducerStep(s, s') || ConsumerStep(s, s'))
  }

  predicate Run(trace: seq<State>) {
    |trace| != 0 && Init(trace[0])
    && forall i :: 0 < i < |trace| ==> Next(trace[i - 1], trace[i])
  }

  /** No slice take has skipped up to state `i`. */
  predicate InOrder(trace: seq<State>, i: nat)
    requires Run(trace) && i < |trace|
  {
    forall k :: 0 < k <= i ==> !(Next(trace[k - 1], trace[k]) && Skips(trace[k - 1], trace[k]))
  }

  // ---- what holds in every run ----

  /** Payload published ahead of its control item. */
  function Ahead(p: Producer): seq<byte> {
    if (p.ItemLoad? || p.ItemWrite? || p.ItemStore?) && p.call.sent < |p.call.frames| then p.call.Current().payload
    else if p.Poke? && p.at.StoreItems? then Bytes(p.poked)
    else []
  }

  function CallOf(p: Producer): Option<Call> {
    match p
    case IterCheck(call) => Some(call)
    case IterWait(call) => Some(call)
    case SliceNext(call) => Some(call)
    case PushLoad(call) => Some(call)
    case PushWrite(call, _) => Some(call)
    case PushStore(call, _) => Some(call)
    case ItemLoad(call) => Some(call)
    case ItemWrite(call) => Some(call)
    case ItemStore(call) => Some(call)
    case _ => None
  }

  /** Frames of the call in progress that are out already. */
  function Published(p: Producer): seq<Frame> {
    match CallOf(p)
    case Some(call) => call.frames[..Min(call.sent, |call.frames|)]
    case None => []
  }

  function PushRoom(call: Call): nat {
    if call.kind.Slice? then (if call.bytes <= call.kind.payVacant then call.kind.payVacant - call.bytes else 0)
    else if call.sent < |call.frames| then |call.Current().payload| else 0
  }

  function ItemRoom(call: Call): nat {
    if call.sent <= |call.frames| then |call.frames| - call.sent else 0
  }

  /** Vacancy in the control ring the producer is relying on. */
  function ControlRoom(s: State): nat {
    match s.producer
    case Idle(c, _) => c
    case SlicePayload(frames) => |frames|
    case Waiting(stage, _, items, _) =>
      if stage.EmptyPayload? || stage.VacantPayload? || stage.AwaitPayloadRoom?
      then Min(items, s.control.Cap()) else 0
    case Poke(at, fs) => if at.SeeItems? then 0 else |fs|
    case p => match CallOf(p) { case Some(call) => ItemRoom(call) case None => 0 }
  }

  /** Vacancy in the payload ring the producer is relying on. */
  function PayloadRoom(s: State): nat {
    match s.producer
    case Idle(_, p) => p
    case CheckControl(f, _) => |f.payload|
    case AwaitControl(f) => |f.payload|
    case SliceNext(call) => PushRoom(call)
    case PushLoad(call) => PushRoom(call)
    case PushWrite(call, _) => PushRoom(call)
    case PushStore(call, _) => PushRoom(call)
    case ItemLoad(call) => if call.kind.Slice? && call.sent < |call.frames| then PushRoom(call.After()) else 0
    case ItemWrite(call) => if call.kind.Slice? && call.sent < |call.frames| then PushRoom(call.After()) else 0
    case ItemStore(call) => if call.kind.Slice? && call.sent < |call.frames| then PushRoom(call.After()) else 0
    case Poke(at, fs) => if at.SeeItems? || at.SeeBytes? || at.StoreItems? then 0 else |Bytes(fs)|
    case _ => 0
  }

  predicate ProducerOk(s: State)
    requires RingsOk(s)
  {
    ControlRoom(s) <= s.control.Vacant() && PayloadRoom(s) <= s.payload.Vacant()
    && match s.producer
       case CheckPayload(f, _) => f.Valid()
       case CheckControl(f, _) => f.Valid()
       case AwaitPayload(f) => f.Valid()
       case AwaitControl(f) => f.Valid()
       case IterLimit(frames) => AllValid(frames)
       case SliceControl(frames) => AllValid(frames)
       case SlicePayload(frames) => AllValid(frames)
       case IterCheck(call) => call.kind.Iter? && call.Between()
       case IterWait(call) => call.kind.Iter? && call.Going()
       case SliceNext(call) => call.kind.Slice? && call.Between()
       case PushLoad(call) => call.Going() && Alone(call)
       case PushWrite(call, n) => call.Going() && Alone(call) && n == |call.Current().payload|
       case PushStore(call, n) =>
         call.Going() && Alone(call) && n == |call.Current().payload|
         && Window(s.payload.slots, s.payload.wr, n) == call.Current().payload
       case ItemLoad(call) => call.Going() && Alone(call)
       case ItemWrite(call) => call.Going() && Alone(call)
       case ItemStore(call) =>
         call.Going() && Alone(call)
         && Window(s.control.slots, s.control.wr, 1) == [call.Current().item]
       case Poke(at, fs) =>
         AllValid(fs)
         && (at.CheckItems? || at.CheckBytes? || at.StoreBytes? || at.StoreItems? ==>
               Window(s.control.slots, s.control.wr, |fs|) == Items(fs))
         && (at.CheckItems? || at.CheckBytes? || at.StoreBytes? ==>
               Window(s.payload.slots, s.payload.wr, |Bytes(fs)|) == Bytes(fs))
       case _ => true
  }

  predicate Alone(call: Call) {
    call.kind.Once? || call.kind.Awaited? ==> |call.frames| == 1
  }

  /** Each ring holds, in order, exactly what was published and has not left it. */
  predicate Stored(s: State)
    requires RingsOk(s)
  {
    AllValid(s.sent) && s.outItems <= |s.sent| && s.outBytes <= |Bytes(s.sent)|
    && s.control.Queue() == Items(s.sent[s.outItems..])
    && s.payload.Queue() == (Bytes(s.sent) + Ahead(s.producer))[s.outBytes..]
  }

  /** What callers were told so far, plus what the call in progress has sent, is what went out. */
  predicate Told(s: State) {
    s.sent == s.acked + Published(s.producer)
  }

  predicate Head(s: State, item: ControlItem)
    requires RingsOk(s)
  {
    s.control.Queue() != [] && s.control.Queue()[0] == item
  }

  /** What the consumer has in hand is still there to be removed, in the amounts it will remove. */
  predicate Holding(s: State)
    requires RingsOk(s)
  {
    match s.consumer
    case Peeked(item) => Head(s, item)
    case Checked(item) => Head(s, item)
    case PeekLoad(item) => Head(s, item)
    case CopiedOut(item, data) => Head(s, item) && |data| == item.length
    case PopSeen(item, data) => Head(s, item) && |data| == item.length
    case Popped(item, data) => |data| == item.length
    case AdvanceBytes(items) => items <= s.control.Queue()
    case SliceItems(items) => |items| <= |s.control.Queue()|
    case SliceBytes(items, data) => |items| <= |s.control.Queue()| && |data| == SumLen(items)
    case SliceFreed(items, data) => |items| <= |s.control.Queue()| && |data| == SumLen(items)
    case Panicked => false
    case _ => true
  }

  /** Entries the call in progress is bound to remove yet. */
  function DueItems(c: Consumer): nat {
    if c.SliceItems? || c.SliceBytes? || c.SliceFreed? then |c.items| else 0
  }

  function DueBytes(c: Consumer): nat {
    if c.SliceItems? then SumLen(c.items) else if c.SliceBytes? || c.Popped? then |c.data| else 0
  }

  /** Bytes announced by the items that leave, less the bytes that leave: payload left behind without an item. */
  function Surplus(s: State): int
    requires s.outItems + DueItems(s.consumer) <= |s.sent|
  {
    Offset(s.sent, s.outItems + DueItems(s.consumer)) - (s.outBytes + DueBytes(s.consumer))
  }

  predicate Sound(s: State) {
    RingsOk(s) && Stored(s) && Told(s) && ProducerOk(s) && Holding(s) && Surplus(s) >= 0
  }

  // ---- what holds as long as nothing is skipped ----

  /** How many frames' payloads have left the payload ring. */
  function Freed(s: State): nat {
    |s.got| + if s.consumer.SliceFreed? then |s.consumer.items| else 0
  }

  /** What the consumer knows about the frames at the front. */
  predicate Known(s: State) {
    var n := |s.got|;
    match s.consumer
    case Resting(Some(f)) => n < |s.sent| && f == s.sent[n]
    case CopiedOut(item, data) => n < |s.sent| && data == s.sent[n].payload
    case PopSeen(item, data) => n < |s.sent| && data == s.sent[n].payload
    case Popped(item, data) => n < |s.sent| && Frame(item, data) == s.sent[n]
    case SliceItems(items) => n + |items| <= |s.sent| && items == Items(s.sent[n..n + |items|])
    case SliceBytes(items, data) =>
      n + |items| <= |s.sent| && items == Items(s.sent[n..n + |items|]) && data == Bytes(s.sent[n..n + |items|])
    case SliceFreed(items, data) =>
      n + |items| <= |s.sent| && items == Items(s.sent[n..n + |items|]) && data == Bytes(s.sent[n..n + |items|])
    case _ => true
  }

  predicate Ordered(s: State)
    requires Sound(s)
  {
    s.got <= s.sent && s.outItems == |s.got| + (if s.consumer.Popped? then 1 else 0) && Surplus(s) == 0 && Known(s)
  }

  /** The framing invariant. */
  predicate Inv(s: State) {
    Sound(s) && Ordered(s)
  }

  // ---- producer steps ----

  lemma InitInv(s: State)
    requires Init(s)
    ensures Inv(s)
  {
    hide Window, Occupied, Split;
  }

  // Producer steps that touch neither ring: loads, decisions, returns.

  predicate Moved(s: State, s': State)
    requires RingsOk(s)
  {
    s' == s.(producer := s'.producer, acked := s'.acked)
    && Ahead(s'.producer) == Ahead(s.producer) && Told(s') && ProducerOk(s')
  }

  lemma IdleMoves(s: State, s': State)
    requires RingsOk(s) && Told(s) && ProducerOk(s) && ProducerStep(s, s') && s.producer.Idle?
    ensures Moved(s, s')
  {
    hide Window, WriteAt, Occupied;
  }

  lemma WaitControlMoves(s: State, s': State)
    requires RingsOk(s) && Told(s) && ProducerOk(s) && ProducerStep(s, s') && s.producer.Waiting?
    requires s.producer.stage.EmptyControl? || s.producer.stage.VacantControl? || s.producer.stage.AwaitControlRoom?
    ensures Moved(s, s')
  {
    hide Window, WriteAt, Occupied, Rings.Ring.Ok;
  }

  lemma WaitPayloadMoves(s: State, s': State)
    requires RingsOk(s) && Told(s) && ProducerOk(s) && ProducerStep(s, s') && s.producer.Waiting?
    requires s.producer.stage.EmptyPayload? || s.producer.stage.VacantPayload? || s.producer.stage.AwaitPayloadRoom?
    ensures Moved(s, s')
  {
    hide Window, WriteAt, Occupied, Rings.Ring.Ok;
  }

  lemma CheckMoves(s: State, s': State)
    requires RingsOk(s) && Told(s) && ProducerOk(s) && ProducerStep(s, s')
    requires var p := s.producer; p.CheckPayload? || p.CheckControl? || p.AwaitPayload? || p.AwaitControl?
    ensures Moved(s, s')
  {
    hide Window, WriteAt, Occupied;
  }

  lemma IterMoves(s: State, s': State)
    requires RingsOk(s) && Told(s) && ProducerOk(s) && ProducerStep(s, s')
    requires s.producer.IterLimit? || s.producer.IterCheck? || s.producer.IterWait?
    ensures Moved(s, s')
  {
    hide Window, WriteAt, Occupied;
  }

  lemma SliceMoves(s: State, s': State)
    requires RingsOk(s) && Told(s) && ProducerOk(s) && ProducerStep(s, s')
    requires s.producer.SliceControl? || s.producer.SlicePayload? || s.producer.SliceNext?
    ensures Moved(s, s')
  {
    hide Window, WriteAt, Occupied;
  }

  lemma PokeMoves(s: State, s': State)
    requires RingsOk(s) && Told(s) && ProducerOk(s) && ProducerStep(s, s')
    requires var p := s.producer;
             p.Poke? && (p.at.SeeItems? || p.at.SeeBytes? || p.at.CheckItems? || p.at.CheckBytes?)
    ensures Moved(s, s')
  {
    hide Window, WriteAt, Occupied, Items, Bytes;
  }

  lemma LoadMoves(s: State, s': State)
    requires RingsOk(s) && Told(s) && ProducerOk(s) && ProducerStep(s, s')
    requires s.producer.PushLoad? || s.producer.ItemLoad?
    ensures Moved(s, s')
  {
    hide Window, WriteAt, Occupied;
  }

  predicate SameConsumer(s: State, s': State) {
    s'.consumer == s.consumer && s'.got == s.got && s'.outItems == s.outItems && s'.outBytes == s.outBytes
  }

  predicate SameCapacities(s: State, s': State) {
    s'.control.Cap() == s.control.Cap() && s'.payload.Cap() == s.payload.Cap()
  }

  // Producer steps on a ring.

  /** What a producer step may do: queue `items` and `bytes`, with all it relies on still there. */
  predicate Appended(s: State, s': State, items: seq<ControlItem>, bytes: seq<byte>)
    requires RingsOk(s)
  {
    RingsOk(s') && Told(s') && ProducerOk(s') && SameConsumer(s, s') && SameCapacities(s, s')
    && s'.control.Queue() == s.control.Queue() + items && s'.payload.Queue() == s.payload.Queue() + bytes
  }

  lemma PushWriteLocal(s: State, s': State)
    requires RingsOk(s) && Told(s) && ProducerOk(s) && s.producer.PushWrite? && ProducerStep(s, s')
    ensures Appended(s, s', [], []) && s'.sent == s.sent && Ahead(s'.producer) == Ahead(s.producer)
  {
    hide WriteAt, Occupied;
    var data := s.producer.call.Current().payload;
    assert data[..s.producer.n] == data;
    WriteSlotsInvisible(s.payload, data);
  }

  lemma PushStoreLocal(s: State, s': State)
    requires RingsOk(s) && Told(s) && ProducerOk(s) && s.producer.PushStore? && ProducerStep(s, s')
    ensures Appended(s, s', [], s.producer.call.Current().payload) && s'.sent == s.sent
    ensures Ahead(s.producer) == [] && Ahead(s'.producer) == s.producer.call.Current().payload
  {
    StoreWriteAppends(s.payload, s.producer.n);
  }

  lemma ItemWriteLocal(s: State, s': State)
    requires RingsOk(s) && Told(s) && ProducerOk(s) && s.producer.ItemWrite? && ProducerStep(s, s')
    ensures Appended(s, s', [], []) && s'.sent == s.sent && Ahead(s'.producer) == Ahead(s.producer)
  {
    WriteSlotsInvisible(s.control, [s.producer.call.Current().item]);
  }

  lemma ItemStoreLocal(s: State, s': State)
    requires RingsOk(s) && Told(s) && ProducerOk(s) && s.producer.ItemStore? && ProducerStep(s, s')
    ensures var f := s.producer.call.Current();
            f.Valid() && Appended(s, s', [f.item], []) && s'.sent == s.sent + [f]
            && Ahead(s.producer) == f.payload && Ahead(s'.producer) == []
  {
    hide WriteAt, Occupied;
    var call := s.producer.call;
    StoreWriteAppends(s.control, 1);
    assert call.frames[..call.sent + 1] == call.frames[..call.sent] + [call.Current()];
  }

  lemma FillLocal(s: State, s': State)
    requires RingsOk(s) && Told(s) && ProducerOk(s) && ProducerStep(s, s') && s.producer.Poke? && s.producer.at.Fill?
    ensures Appended(s, s', [], []) && s'.sent == s.sent && Ahead(s'.producer) == Ahead(s.producer)
  {
    hide WriteAt, Occupied, Items, Bytes;
    WriteSlotsInvisible(s.control, Items(s.producer.poked));
    WriteSlotsInvisible(s.payload, Bytes(s.producer.poked));
  }

  lemma StoreBytesLocal(s: State, s': State)
    requires RingsOk(s) && Told(s) && ProducerOk(s) && ProducerStep(s, s')
    requires s.producer.Poke? && s.producer.at.StoreBytes?
    ensures Appended(s, s', [], Bytes(s.producer.poked)) && s'.sent == s.sent
    ensures Ahead(s.producer) == [] && Ahead(s'.producer) == Bytes(s.producer.poked)
  {
    hide WriteAt, Occupied, Items, Bytes;
    StoreWriteAppends(s.payload, |Bytes(s.producer.poked)|);
  }

  lemma StoreItemsLocal(s: State, s': State)
    requires RingsOk(s) && Told(s) && ProducerOk(s) && ProducerStep(s, s')
    requires s.producer.Poke? && s.producer.at.StoreItems?
    ensures var fs := s.producer.poked;
            AllValid(fs) && Appended(s, s', Items(fs), []) && s'.sent == s.sent + fs
            && Ahead(s.producer) == Bytes(fs) && Ahead(s'.producer) == []
  {
    hide WriteAt, Occupied, Items, Bytes;
    StoreWriteAppends(s.control, |s.producer.poked|);
    assert s.producer.poked[..|s.producer.poked|] == s.producer.poked;
  }

  predicate Writes(p: Producer) {
    p.PushWrite? || p.PushStore? || p.ItemWrite? || p.ItemStore?
    || (p.Poke? && (p.at.Fill? || p.at.StoreBytes? || p.at.StoreItems?))
  }

  lemma ProducerMoves(s: State, s': State)
    requires RingsOk(s) && Told(s) && ProducerOk(s) && ProducerStep(s, s') && !Writes(s.producer)
    ensures Moved(s, s')
  {
    var p := s.producer;
    if p.Idle? {
      IdleMoves(s, s');
    } else if p.Waiting? {
      if p.stage.EmptyControl? || p.stage.VacantControl? || p.stage.AwaitControlRoom? {
        WaitControlMoves(s, s');
      } else {
        WaitPayloadMoves(s, s');
      }
    } else if p.CheckPayload? || p.CheckControl? || p.AwaitPayload? || p.AwaitControl? {
      CheckMoves(s, s');
    } else if p.IterLimit? || p.IterCheck? || p.IterWait? {
      IterMoves(s, s');
    } else if p.SliceControl? || p.SlicePayload? || p.SliceNext? {
      SliceMoves(s, s');
    } else if p.Poke? {
      PokeMoves(s, s');
    } else {
      LoadMoves(s, s');
    }
  }

  lemma AppendedKeepsStored(s: State, s': State, bytes: seq<byte>)
    requires RingsOk(s) && Stored(s) && Appended(s, s', [], bytes) && s'.sent == s.sent
    requires Ahead(s'.producer) == Ahead(s.producer) + bytes
    ensures Stored(s')
  {
    hide Window, WriteAt, Occupied, Items, Bytes, ProducerOk, Told;
    var all := Bytes(s.sent);
    assert (all + Ahead(s.producer))[s.outBytes..] + bytes == (all + Ahead(s'.producer))[s.outBytes..];
  }

  lemma ItemStoreKeepsStored(s: State, s': State, fs: seq<Frame>)
    requires RingsOk(s) && Stored(s) && AllValid(fs) && Ahead(s.producer) == Bytes(fs)
    requires Appended(s, s', Items(fs), []) && s'.sent == s.sent + fs && Ahead(s'.producer) == []
    ensures Stored(s')
  {
    hide Window, WriteAt, Occupied, ProducerOk, Told, Rings.Ring.Queue, Rings.Ring.Ok, SumLen, Bytes;
    assert s'.sent[s.outItems..] == s.sent[s.outItems..] + fs;
    BytesAppend(s.sent, fs);
    assert Bytes(s'.sent) + [] == Bytes(s.sent) + Bytes(fs);
  }

  /** Frames that go out do not touch what the consumer has in hand. */
  lemma GrowthKeepsHolding(s: State, s': State, items: seq<ControlItem>)
    requires RingsOk(s) && RingsOk(s') && Stored(s) && Holding(s) && SameConsumer(s, s')
    requires s'.control.Queue() == s.control.Queue() + items && s.sent <= s'.sent
    ensures Holding(s') && s.outItems + DueItems(s.consumer) <= |s.sent| && Surplus(s') == Surplus(s)
  {
    hide Window, WriteAt, Occupied, Items, Bytes;
    var n := s.outItems + DueItems(s.consumer);
    assert s'.sent[..n] == s.sent[..n];
  }

  /** Every step of the producer, whatever the consumer is in the middle of and whatever it skipped. */
  lemma ProducerStepKeepsSound(s: State, s': State)
    requires Sound(s) && ProducerStep(s, s')
    ensures Sound(s') && SameConsumer(s, s') && SameCapacities(s, s') && s.sent <= s'.sent && Surplus(s') == Surplus(s)
  {
    hide Window, WriteAt, Occupied, Items, Bytes, ProducerOk, Told, Stored, Holding, Rings.Ring.Queue;
    var p := s.producer;
    if !Writes(p) {
      ProducerMoves(s, s');
      MovedKeepsStored(s, s');
      GrowthKeepsHolding(s, s', []) by {
        assert s'.control.Queue() == s.control.Queue() + [];
      }
    } else if p.PushWrite? {
      PushWriteLocal(s, s');
      AppendedKeepsStored(s, s', []);
      GrowthKeepsHolding(s, s', []);
    } else if p.PushStore? {
      PushStoreLocal(s, s');
      AppendedKeepsStored(s, s', p.call.Current().payload);
      GrowthKeepsHolding(s, s', []);
    } else if p.ItemWrite? {
      ItemWriteLocal(s, s');
      AppendedKeepsStored(s, s', []);
      GrowthKeepsHolding(s, s', []);
    } else if p.ItemStore? {
      var f := p.call.Current();
      ItemStoreLocal(s, s');
      SingleFrame(f);
      ItemStoreKeepsStored(s, s', [f]);
      GrowthKeepsHolding(s, s', [f.item]);
    } else {
      PokeWritesKeepSound(s, s');
    }
  }

  lemma PokeWritesKeepSound(s: State, s': State)
    requires Sound(s) && ProducerStep(s, s') && s.producer.Poke? && Writes(s.producer)
    ensures Sound(s') && SameConsumer(s, s') && SameCapacities(s, s') && s.sent <= s'.sent && Surplus(s') == Surplus(s)
  {
    hide Window, WriteAt, Occupied, Items, Bytes, ProducerOk, Told, Stored, Holding, Rings.Ring.Queue, PokeStep;
    var fs := s.producer.poked;
    match s.producer.at
    case Fill =>
      FillLocal(s, s');
      AppendedKeepsStored(s, s', []);
      GrowthKeepsHolding(s, s', []);
    case StoreBytes =>
      StoreBytesLocal(s, s');
      AppendedKeepsStored(s, s', Bytes(fs));
      GrowthKeepsHolding(s, s', []);
    case StoreItems =>
      StoreItemsLocal(s, s');
      ItemStoreKeepsStored(s, s', fs);
      GrowthKeepsHolding(s, s', Items(fs));
  }

  lemma SingleFrame(f: Frame)
    ensures Items([f]) == [f.item] && Bytes([f]) == f.payload
  {
    BytesOne(f);
  }

  lemma MovedKeepsStored(s: State, s': State)
    requires RingsOk(s) && Stored(s) && Moved(s, s')
    ensures RingsOk(s') && Stored(s') && SameConsumer(s, s') && s'.sent == s.sent
    ensures s'.control == s.control && s'.payload == s.payload
  {
    hide ProducerOk, Told;
  }

  /** The consumer's knowledge is about frames that are out already. */
  lemma GrowthKeepsOrdered(s: State, s': State)
    requires Inv(s) && Sound(s') && SameConsumer(s, s') && s.sent <= s'.sent && Surplus(s') == Surplus(s)
    ensures Ordered(s')
  {
    hide Sound, Surplus, Window, Bytes, Items;
    var n := |s.got|;
    assert forall k :: n <= k <= |s.sent| ==> s'.sent[n..k] == s.sent[n..k];
  }

  lemma ProducerStepKeepsInv(s: State, s': State)
    requires Inv(s) && ProducerStep(s, s')
    ensures Inv(s')
  {
    hide Sound, Ordered, ProducerStep;
    ProducerStepKeepsSound(s, s');
    GrowthKeepsOrdered(s, s');
  }

  // ---- consumer steps ----

  /** The bytes announced by the first `k` visible items are visible, if perhaps not at the front. */
  lemma CoveredBytes(s: State, k: nat)
    requires RingsOk(s) && Stored(s) && k <= s.control.Avail() && s.outBytes <= Offset(s.sent, s.outItems)
    ensures s.outItems + k <= |s.sent|
    ensures Offset(s.sent, s.outItems + k) == Offset(s.sent, s.outItems) + SumLen(s.control.Queue()[..k])
    ensures SumLen(s.control.Queue()[..k]) <= s.payload.Avail()
  {
    hide Window, WriteAt, Occupied, Bytes, SumLen;
    OffsetStep(s.sent, s.outItems, k);
    assert s.control.Queue()[..k] == Items(s.sent)[s.outItems..s.outItems + k];
  }

  /** With the rings in step they are at the front: the bytes of the first `k` visible frames. */
  lemma VisibleFrames(s: State, k: nat)
    requires RingsOk(s) && Stored(s) && k <= s.control.Avail() && s.outBytes == Offset(s.sent, s.outItems)
    ensures var n, items := s.outItems, s.control.Queue()[..k];
            n + k <= |s.sent| && items == Items(s.sent[n..n + k])
            && SumLen(items) <= s.payload.Avail()
            && Bytes(s.sent[n..n + k]) == s.payload.Queue()[..SumLen(items)]
  {
    hide Window, WriteAt, Occupied, Bytes, SumLen;
    CoveredBytes(s, k);
    OffsetStep(s.sent, s.outItems, k);
    var m := SumLen(s.control.Queue()[..k]);
    assert s.payload.Queue()[..m] == Bytes(s.sent)[s.outBytes..s.outBytes + m];
  }

  lemma HeadFrame(s: State)
    requires RingsOk(s) && Stored(s) && s.control.Queue() != [] && s.outBytes == Offset(s.sent, s.outItems)
    ensures s.outItems < |s.sent|
    ensures var f := s.sent[s.outItems];
            s.control.Queue()[0] == f.item && f.item.length <= s.payload.Avail()
            && s.payload.Queue()[..f.item.length] == f.payload
  {
    hide Window, WriteAt, Occupied, SumLen;
    var n := s.outItems;
    VisibleFrames(s, 1);
    var f := s.sent[n];
    assert s.sent[n..n + 1] == [f];
    BytesOne(f);
    BytesLength([f]);
  }

  /** `as_slices` then cutting at the item's length gives the front of the queue, in bounds. */
  lemma CutPieces<T>(r: Ring<T>, n: nat)
    requires r.Ok() && n <= r.Avail()
    ensures n - Min(|r.Front()|, n) <= |r.Back()|
    ensures r.Front()[..Min(|r.Front()|, n)] + r.Back()[..n - Min(|r.Front()|, n)] == r.Queue()[..n]
  {
    SlicesAreQueue(r);
  }

  lemma HeadCovered(s: State, item: ControlItem)
    requires RingsOk(s) && Stored(s) && Head(s, item) && s.outBytes <= Offset(s.sent, s.outItems)
    ensures item.length <= s.payload.Avail() && s.outItems < |s.sent|
    ensures Offset(s.sent, s.outItems + 1) == Offset(s.sent, s.outItems) + item.length
  {
    hide Window, Occupied, Bytes, Items;
    CoveredBytes(s, 1);
    assert s.control.Queue()[..1] == [item];
    assert SumLen([item]) == item.length;
  }

  // Loads and decisions: only the program counter moves.

  predicate Looked(s: State, s': State)
    requires Sound(s)
  {
    s' == On(s, s'.consumer) && Sound(s')
  }

  /** Nothing but the consumer's own part depends on its program counter. */
  lemma LookKeeps(s: State, c: Consumer)
    requires RingsOk(s) && Stored(s) && Told(s) && ProducerOk(s)
    ensures var s' := On(s, c); RingsOk(s') && Stored(s') && Told(s') && ProducerOk(s')
    ensures AllValid(s.sent) && |s.control.Queue()| == |s.sent| - s.outItems
  {
    hide Window, WriteAt, Occupied, Bytes;
  }

  lemma TakeMoves(s: State, s': State)
    requires Sound(s) && ConsumerStep(s, s')
    requires var c := s.consumer;
             c.Resting? || c.TakeStart? || c.PeekStart? || c.AdvanceStart? || c.Peeked? || c.Checked? || c.CopiedOut?
    ensures Looked(s, s') && Surplus(s') == Surplus(s)
  {
    hide Window, WriteAt, Occupied, Bytes, Items, ProducerOk, Told, Stored;
    LookKeeps(s, s'.consumer);
  }

  lemma PeekMoves(s: State, s': State)
    requires Sound(s) && ConsumerStep(s, s') && s.consumer.PeekLoad?
    ensures Looked(s, s') && Surplus(s') == Surplus(s) && s'.consumer.Resting? && s'.consumer.peeked.Some?
    ensures s'.consumer.peeked.value.item == s.consumer.item
  {
    hide Window, WriteAt, Occupied, Bytes, Items, ProducerOk, Told, Stored, Rings.Ring.Front, Rings.Ring.Back;
    LookKeeps(s, s'.consumer);
    HeadCovered(s, s.consumer.item);
    CutPieces(s.payload, s.consumer.item.length);
  }

  lemma AdvanceMoves(s: State, s': State)
    requires Sound(s) && ConsumerStep(s, s') && s.consumer.AdvanceBytes?
    ensures Looked(s, s') && Surplus(s') == Surplus(s) && s'.consumer.SliceBytes?
  {
    hide Window, WriteAt, Occupied, Bytes, Items, ProducerOk, Told, Stored, SumLen;
    LookKeeps(s, s'.consumer);
    CoveredBytes(s, |s.consumer.items|);
    assert s.control.Queue()[..|s.consumer.items|] == s.consumer.items;
  }

  /** Choosing the items of a slice take: the one step that can put the rings out of step. */
  lemma SliceStartMoves(s: State, s': State)
    requires Sound(s) && ConsumerStep(s, s') && s.consumer.SliceStart?
    ensures Looked(s, s') && Surplus(s') >= Surplus(s) && (Surplus(s') == Surplus(s) <==> !Skips(s, s'))
  {
    hide Window, WriteAt, Occupied, Bytes, Items, ProducerOk, Told, Stored, NoSkip, Copied, SumLen,
      Rings.Ring.Front, Rings.Ring.Back;
    LookKeeps(s, s'.consumer);
    var a, b := s.control.Front(), s.control.Back();
    SlicesAreQueue(s.control);
    SkipIffSurplus(a, b, s.consumer.itemRoom, s.consumer.byteRoom);
    CoveredBytes(s, |s'.consumer.items|);
  }

  lemma SliceItemsMoves(s: State, s': State)
    requires Sound(s) && ConsumerStep(s, s') && s.consumer.SliceItems?
    ensures Looked(s, s') && Surplus(s') == Surplus(s) && |s'.consumer.data| == SumLen(s.consumer.items)
  {
    hide Window, WriteAt, Occupied, Bytes, Items, ProducerOk, Told, SumLen, Stored;
    LookKeeps(s, s'.consumer);
    StoredBytes(s);
    OffsetStep(s.sent, 0, s.outItems + |s.consumer.items|);
  }

  // Stores of a read index.

  /** A consumer only ever makes room, so nothing the producer relies on is lost. */
  lemma RoomOnlyGrows(s: State, s': State, items: nat, bytes: nat)
    requires RingsOk(s) && ProducerOk(s) && Dropped(s, s', items, bytes)
    ensures RingsOk(s') && ProducerOk(s')
    ensures s'.control.Vacant() == s.control.Vacant() + items && s'.payload.Vacant() == s.payload.Vacant() + bytes
  {
    hide Window, Occupied, Advance;
    StoreReadDrops(s.control, items);
    StoreReadDrops(s.payload, bytes);
  }

  /** What a consumer's index store does: `items` and `bytes` entries leave the front of the rings. */
  predicate Dropped(s: State, s': State, items: nat, bytes: nat)
    requires RingsOk(s)
  {
    items <= s.control.Avail() && bytes <= s.payload.Avail()
    && s' == DropItems(DropBytes(s, bytes), items).(consumer := s'.consumer, got := s'.got)
  }

  lemma StoreNothing<T>(r: Ring<T>)
    requires r.Ok()
    ensures r.StoreRead(0) == r
  {
    AdvanceCases(r.Cap(), r.rd, 0);
  }

  lemma DroppedKeepsStored(s: State, s': State, items: nat, bytes: nat)
    requires RingsOk(s) && Stored(s) && Told(s) && ProducerOk(s) && Dropped(s, s', items, bytes)
    requires s.outBytes + bytes <= |Bytes(s.sent)|
    ensures RingsOk(s') && Stored(s') && Told(s') && ProducerOk(s')
    ensures s'.control.Queue() == s.control.Queue()[items..]
  {
    hide Window, WriteAt, Occupied, Bytes, Advance, ProducerOk;
    RoomOnlyGrows(s, s', items, bytes);
    StoreReadDrops(s.control, items);
    StoreReadDrops(s.payload, bytes);
    assert s.sent[s.outItems..][items..] == s.sent[s'.outItems..];
    var all := Bytes(s.sent) + Ahead(s.producer);
    assert all[s.outBytes..][bytes..] == all[s'.outBytes..];
  }

  predicate Settles(s: State, s': State)
    requires Sound(s)
  {
    Sound(s') && Surplus(s') == Surplus(s)
  }

  lemma PopStep(s: State, s': State)
    requires Sound(s) && s.consumer.PopSeen? && ConsumerStep(s, s')
    ensures Dropped(s, s', 1, 0) && Settles(s, s') && s'.consumer == Popped(s.consumer.item, s.consumer.data)
  {
    hide Window, WriteAt, Occupied, Bytes, Items, Advance, ProducerOk, Told, Stored;
    HeadCovered(s, s.consumer.item);
    StoreNothing(s.payload);
    DroppedKeepsStored(s, s', 1, 0) by {
      StoredBytes(s);
    }
  }

  lemma StoredBytes(s: State)
    requires RingsOk(s) && Stored(s)
    ensures s.outBytes <= |Bytes(s.sent)| <= s.outBytes + s.payload.Avail()
  {
    hide Bytes, Items;
  }

  lemma FreeStep(s: State, s': State)
    requires Sound(s) && s.consumer.Popped? && ConsumerStep(s, s')
    ensures Dropped(s, s', 0, |s.consumer.data|) && Settles(s, s')
  {
    hide Window, WriteAt, Occupied, Bytes, Items, Advance, ProducerOk, Told, Stored;
    OutAtMost(s);
    StoredBytes(s);
    StoreNothing(s.control);
    DroppedKeepsStored(s, s', 0, |s.consumer.data|);
  }

  /** What is bound to leave the payload ring has been published. */
  lemma OutAtMost(s: State)
    requires Sound(s)
    ensures s.outBytes + DueBytes(s.consumer) <= |Bytes(s.sent)|
  {
    hide Window, WriteAt, Occupied, Bytes, ProducerOk, Told;
    OffsetStep(s.sent, 0, s.outItems + DueItems(s.consumer));
  }

  lemma SliceFreeStep(s: State, s': State)
    requires Sound(s) && s.consumer.SliceBytes? && ConsumerStep(s, s')
    ensures Dropped(s, s', 0, |s.consumer.data|) && Settles(s, s')
  {
    hide Window, WriteAt, Occupied, Bytes, Items, Advance, ProducerOk, Told, Stored;
    OutAtMost(s);
    StoredBytes(s);
    StoreNothing(s.control);
    DroppedKeepsStored(s, s', 0, |s.consumer.data|);
    assert s'.control.Queue() == s.control.Queue();
  }

  lemma SliceDoneStep(s: State, s': State)
    requires Sound(s) && s.consumer.SliceFreed? && ConsumerStep(s, s')
    ensures Dropped(s, s', |s.consumer.items|, 0) && Settles(s, s')
  {
    hide Window, WriteAt, Occupied, Bytes, Items, Advance, ProducerOk, Told, Stored, Cut;
    StoredBytes(s);
    StoreNothing(s.payload);
    DroppedKeepsStored(s, s', |s.consumer.items|, 0);
  }

  /** Payload is left behind exactly by a skip. */
  predicate LeftBehind(s: State, s': State)
    requires Sound(s) && Sound(s')
  {
    Surplus(s') >= Surplus(s) && (Surplus(s') == Surplus(s) <==> !Skips(s, s'))
  }

  /** Every step of the consumer. Payload is left behind exactly where a slice take skips. */
  lemma ConsumerStepKeepsSound(s: State, s': State)
    requires Sound(s) && ConsumerStep(s, s')
    ensures Sound(s') && LeftBehind(s, s')
    ensures s'.producer == s.producer && s'.sent == s.sent && s'.acked == s.acked
    ensures s.outItems <= s'.outItems && s.outBytes <= s'.outBytes
  {
    hide Sound, Surplus, ConsumerStep, NoSkip;
    var c := s.consumer;
    if c.PopSeen? {
      PopStep(s, s');
    } else if c.Popped? {
      FreeStep(s, s');
    } else if c.SliceBytes? {
      SliceFreeStep(s, s');
    } else if c.SliceFreed? {
      SliceDoneStep(s, s');
    } else if c.PeekLoad? {
      PeekMoves(s, s');
    } else if c.AdvanceBytes? {
      AdvanceMoves(s, s');
    } else if c.SliceStart? {
      SliceStartMoves(s, s');
    } else if c.SliceItems? {
      SliceItemsMoves(s, s');
    } else {
      NotPanicked(s);
      TakeMoves(s, s');
    }
  }

  lemma NotPanicked(s: State)
    requires Sound(s)
    ensures !s.consumer.Panicked?
  {
  }

  // Without a skip the consumer's knowledge stays right.

  lemma TakeKeepsOrdered(s: State, s': State)
    requires Inv(s) && Sound(s') && Surplus(s') == 0 && ConsumerStep(s, s')
    requires var c := s.consumer;
             c.Resting? || c.TakeStart? || c.PeekStart? || c.AdvanceStart?
             || c.Peeked? || c.Checked? || c.CopiedOut? || c.PopSeen?
    ensures Ordered(s')
  {
    hide Window, WriteAt, Occupied, Bytes, Items, ProducerOk, Told;
    if s.control.Queue() != [] {
      HeadFrame(s);
    }
  }

  lemma PeekKeepsOrdered(s: State, s': State)
    requires Inv(s) && Sound(s') && Surplus(s') == 0 && ConsumerStep(s, s') && s.consumer.PeekLoad?
    ensures Ordered(s')
  {
    hide Window, WriteAt, Occupied, Bytes, Items, ProducerOk, Told, Rings.Ring.Front, Rings.Ring.Back;
    HeadFrame(s);
    CutPieces(s.payload, s.consumer.item.length);
  }

  lemma AdvanceKeepsOrdered(s: State, s': State)
    requires Inv(s) && Sound(s') && Surplus(s') == 0 && ConsumerStep(s, s') && s.consumer.AdvanceBytes?
    ensures Ordered(s')
  {
    hide Window, WriteAt, Occupied, Bytes, Items, ProducerOk, Told, SumLen;
    var n, k := |s.got|, |s.consumer.items|;
    assert s.control.Queue()[..k] == s.consumer.items;
    VisibleFrames(s, k);
    assert s'.consumer == SliceBytes(s.consumer.items, Bytes(s.sent[n..n + k]));
  }

  lemma ChoiceKeepsOrdered(s: State, s': State)
    requires Inv(s) && Sound(s') && Surplus(s') == 0 && ConsumerStep(s, s') && s.consumer.SliceStart? && !Skips(s, s')
    ensures Ordered(s')
  {
    hide Window, WriteAt, Occupied, Bytes, Items, ProducerOk, Told, NoSkip, Copied, SumLen,
      Rings.Ring.Front, Rings.Ring.Back;
    SlicesAreQueue(s.control);
    TwoLoopsMatchOneScan(s.control.Front(), s.control.Back(), s.consumer.itemRoom, s.consumer.byteRoom);
    VisibleFrames(s, |s'.consumer.items|);
  }

  lemma CopyKeepsOrdered(s: State, s': State)
    requires Inv(s) && Sound(s') && Surplus(s') == 0 && ConsumerStep(s, s') && s.consumer.SliceItems?
    ensures Ordered(s')
  {
    hide Window, WriteAt, Occupied, Bytes, ProducerOk, Told, SumLen;
    var n, k := |s.got|, |s.consumer.items|;
    ItemsSlice(s.sent, n, n + k);
    OffsetStep(s.sent, n, k);
    VisibleFrames(s, k);
  }

  lemma RemovalKeepsOrdered(s: State, s': State)
    requires Inv(s) && Sound(s') && Surplus(s') == 0 && ConsumerStep(s, s')
    requires s.consumer.Popped? || s.consumer.SliceBytes? || s.consumer.SliceFreed?
    ensures Ordered(s')
  {
    hide Sound, Surplus, Window, Bytes, Items, SumLen, Split, Cut;
    var n := |s.got|;
    if s.consumer.Popped? {
      assert s'.got == s.sent[..n + 1];
    } else if s.consumer.SliceFreed? {
      var k := |s.consumer.items|;
      CutFrames(s.sent[n..n + k]) by {
        AllValidSent(s);
      }
      assert s.sent[..n] + s.sent[n..n + k] == s.sent[..n + k];
    }
  }

  lemma AllValidSent(s: State)
    requires Sound(s)
    ensures AllValid(s.sent)
  {
  }

  lemma CutFrames(fs: seq<Frame>)
    requires AllValid(fs)
    ensures Cut(Items(fs), Bytes(fs)) == fs
  {
    SplitJoined(fs, []);
    assert Bytes(fs) + [] == Bytes(fs);
  }

  lemma ConsumerStepKeepsInv(s: State, s': State)
    requires Inv(s) && ConsumerStep(s, s') && !Skips(s, s')
    ensures Inv(s')
  {
    hide Ordered, Sound, ConsumerStep, Skips;
    ConsumerStepKeepsSound(s, s');
    NotPanicked(s);
    NoSurplus(s);
    var c := s.consumer;
    if c.PeekLoad? {
      PeekKeepsOrdered(s, s');
    } else if c.AdvanceBytes? {
      AdvanceKeepsOrdered(s, s');
    } else if c.SliceStart? {
      ChoiceKeepsOrdered(s, s');
    } else if c.SliceItems? {
      CopyKeepsOrdered(s, s');
    } else if c.Popped? || c.SliceBytes? || c.SliceFreed? {
      RemovalKeepsOrdered(s, s');
    } else {
      TakeKeepsOrdered(s, s');
    }
  }

  lemma NoSurplus(s: State)
    requires Inv(s)
    ensures Surplus(s) == 0
  {
  }

  // ---- theorems about every run ----

  /** One step of a run, with everything known about the two kinds. */
  lemma StepSides(trace: seq<State>, k: nat)
    requires Run(trace) && 0 < k < |trace|
    ensures RingsOk(trace[k - 1])
    ensures ProducerStep(trace[k - 1], trace[k]) || ConsumerStep(trace[k - 1], trace[k])
  {
    hide ProducerStep, ConsumerStep;
    assert Next(trace[k - 1], trace[k]);
  }

  lemma {:induction false} EveryStateSound(trace: seq<State>, i: nat)
    requires Run(trace) && i < |trace|
    ensures Sound(trace[i])
  {
    hide Sound, Init, ProducerStep, ConsumerStep;
    if i == 0 {
      InitInv(trace[0]);
    } else {
      EveryStateSound(trace, i - 1);
      StepSides(trace, i);
      if ProducerStep(trace[i - 1], trace[i]) {
        ProducerStepKeepsSound(trace[i - 1], trace[i]);
      } else {
        ConsumerStepKeepsSound(trace[i - 1], trace[i]);
      }
    }
  }

  /** Payload is left behind without an item exactly when a slice take has skipped; it never goes missing. */
  lemma {:induction false} SurplusIff(trace: seq<State>, i: nat)
    requires Run(trace) && i < |trace|
    ensures Sound(trace[i]) && Surplus(trace[i]) >= 0
    ensures Surplus(trace[i]) == 0 <==> InOrder(trace, i)
  {
    hide Sound, Surplus, Init, Next, ProducerStep, ConsumerStep, Skips;
    if i == 0 {
      InitInv(trace[0]);
      NoSurplus(trace[0]);
    } else {
      var s, s' := trace[i - 1], trace[i];
      SurplusIff(trace, i - 1);
      StepSides(trace, i);
      assert Next(s, s');
      assert InOrder(trace, i) <==> InOrder(trace, i - 1) && !Skips(s, s');
      if ProducerStep(s, s') {
        ProducerStepKeepsSound(s, s');
        SameConsumerSkipsNot(s, s');
      } else {
        ConsumerStepKeepsSound(s, s');
      }
    }
  }

  lemma SameConsumerSkipsNot(s: State, s': State)
    requires RingsOk(s) && s'.consumer == s.consumer
    ensures !Skips(s, s')
  {
  }

  lemma {:induction false} EveryStateInv(trace: seq<State>, i: nat)
    requires Run(trace) && i < |trace| && InOrder(trace, i)
    ensures Inv(trace[i])
  {
    hide Inv, Init, Next, ProducerStep, ConsumerStep, Skips;
    if i == 0 {
      InitInv(trace[0]);
    } else {
      EveryStateInv(trace, i - 1);
      StepSides(trace, i);
      assert Next(trace[i - 1], trace[i]);
      if ProducerStep(trace[i - 1], trace[i]) {
        ProducerStepKeepsInv(trace[i - 1], trace[i]);
      } else {
        ConsumerStepKeepsInv(trace[i - 1], trace[i]);
      }
    }
  }

  /** The framing invariant holds in a state of a run exactly when no slice take has skipped before it. */
  lemma FramingIff(trace: seq<State>, i: nat)
    requires Run(trace) && i < |trace|
    ensures Inv(trace[i]) <==> InOrder(trace, i)
  {
    hide Inv, Sound, InOrder, Surplus;
    SurplusIff(trace, i);
    if InOrder(trace, i) {
      EveryStateInv(trace, i);
    } else if Inv(trace[i]) {
      NoSurplus(trace[i]);
    }
  }

  /** The same in terms of the rings: outside a half-finished removal, the lengths in the control ring
      add up to the payload ring, less what is published ahead, exactly when nothing was skipped. */
  lemma RingsAgreeIff(trace: seq<State>, i: nat)
    requires Run(trace) && i < |trace|
    requires DueItems(trace[i].consumer) == 0 && DueBytes(trace[i].consumer) == 0
    ensures var s := trace[i];
            RingsOk(s)
            && SumLen(s.control.Queue()) + |Ahead(s.producer)| <= s.payload.Avail()
            && (SumLen(s.control.Queue()) + |Ahead(s.producer)| == s.payload.Avail() <==> InOrder(trace, i))
  {
    hide InOrder, Window, Occupied, Bytes, Items, SumLen, Holding, ProducerOk, Told;
    var s := trace[i];
    SurplusIff(trace, i);
    CoveredBytes(s, s.control.Avail());
    assert s.control.Queue()[..s.control.Avail()] == s.control.Queue();
    assert s.sent[..|s.sent|] == s.sent;
  }

  /** What the consumer is about to free or drop, between the two stores of a removal. */
  function HalfItems(c: Consumer): nat {
    if c.SliceFreed? then |c.items| else 0
  }

  function HalfBytes(c: Consumer): nat {
    if c.Popped? then |c.data| else 0
  }

  /** Frames that are out of the consumer's way, or about to be. */
  function Gone(s: State): nat {
    |s.got| + if s.consumer.Popped? then 1 else if s.consumer.SliceFreed? then |s.consumer.items| else 0
  }

  /** Whatever either side is in the middle of, every visible control item has its whole payload visible
      at the offset the lengths in front of it give, and cutting the payload ring at those lengths yields
      the frames that were sent, in order. Between the two stores of a removal one ring is ahead of the
      other by exactly the frames being removed. */
  lemma VisibleItemsHaveTheirPayload(trace: seq<State>, i: nat)
    requires Run(trace) && i < |trace| && InOrder(trace, i)
    ensures var s := trace[i];
            var m, n := HalfItems(s.consumer), HalfBytes(s.consumer);
            RingsOk(s) && m <= s.control.Avail() && n <= s.payload.Avail() && Gone(s) <= |s.sent|
            && SumLen(s.control.Queue()[m..]) <= s.payload.Avail() - n
            && Split(s.control.Queue()[m..], s.payload.Queue()[n..]) == s.sent[Gone(s)..]
            && s.control.Queue()[..m] == Items(s.sent[|s.got|..|s.got| + m])
            && s.payload.Queue()[..n] == (if s.consumer.Popped? then s.sent[|s.got|].payload else [])
  {
    hide InOrder, Window, Occupied, Bytes, SumLen, Split, ProducerOk;
    EveryStateInv(trace, i);
    var s := trace[i];
    FreedBytes(s);
    var m, n, queued := HalfItems(s.consumer), HalfBytes(s.consumer), s.sent[Gone(s)..];
    if s.consumer.Popped? {
      var f := s.sent[|s.got|];
      FrontFrame(f, queued);
      assert s.sent[|s.got|..] == [f] + queued;
    }
    assert s.control.Queue()[m..] == Items(queued);
    assert s.payload.Queue()[n..] == Bytes(queued) + Ahead(s.producer);
    SplitJoined(queued, Ahead(s.producer));
    BytesLength(queued);
  }

  /** With the rings in step the payload ring holds the payloads of whole frames. */
  lemma FreedBytes(s: State)
    requires Inv(s)
    ensures Freed(s) <= |s.sent| && s.outBytes == Offset(s.sent, Freed(s))
    ensures s.control.Queue() == Items(s.sent[s.outItems..])
    ensures s.payload.Queue() == Bytes(s.sent[Freed(s)..]) + Ahead(s.producer)
  {
    hide Window, Occupied, Bytes, Items, SumLen, ProducerOk, Told;
    var n, k := |s.got|, DueItems(s.consumer);
    if s.consumer.Popped? {
      HeadOffset(s.sent, n);
    } else if 0 < k {
      OffsetStep(s.sent, n, k);
      assert Items(s.sent)[n..n + k] == Items(s.sent[n..n + k]) by {
        ItemsSlice(s.sent, n, n + k);
      }
    } else if s.consumer.SliceItems? || s.consumer.SliceBytes? || s.consumer.SliceFreed? {
      SumLenNone(s.consumer.items);
    }
    OffsetStep(s.sent, Freed(s), 0);
    assert s.payload.Queue() == Bytes(s.sent)[s.outBytes..] + Ahead(s.producer);
  }

  /** No check inside the consumer's calls fails, in any run: a take that saw an item finds its whole
      payload and pops, and the peek's slices are in bounds. */
  lemma ConsumerNeverDisappointed(trace: seq<State>, i: nat)
    requires Run(trace) && i < |trace|
    ensures var s := trace[i];
            RingsOk(s) && !s.consumer.Panicked?
            && (s.consumer.Peeked? ==> s.consumer.item.length <= s.payload.Avail())
            && (s.consumer.CopiedOut? || s.consumer.PopSeen? ==> s.control.Queue() != [])
            && (s.consumer.AdvanceBytes? ==> SumLen(s.consumer.items) <= s.payload.Avail())
            && (s.consumer.PeekLoad? ==>
                  s.consumer.item.length - Min(|s.payload.Front()|, s.consumer.item.length) <= |s.payload.Back()|)
  {
    hide Run, Window, Occupied, Bytes, Items, SumLen, ProducerOk, Told, Stored;
    EveryStateSound(trace, i);
    var s := trace[i];
    if s.consumer.Peeked? || s.consumer.PeekLoad? {
      HeadCovered(s, s.consumer.item);
      CutPieces(s.payload, s.consumer.item.length);
    } else if s.consumer.AdvanceBytes? {
      CoveredBytes(s, |s.consumer.items|);
      assert s.control.Queue()[..|s.consumer.items|] == s.consumer.items;
    }
  }

  /** What a peek returned is the frame the next take will deliver, until it is taken. */
  lemma PeekIsNextFrame(trace: seq<State>, i: nat)
    requires Run(trace) && i < |trace| && InOrder(trace, i)
    requires trace[i].consumer.Resting? && trace[i].consumer.peeked.Some?
    ensures var s := trace[i]; |s.got| < |s.sent| && s.consumer.peeked.value == s.sent[|s.got|]
  {
    hide Sound;
    EveryStateInv(trace, i);
  }

  /** Every discarded push result is a full success, in any run. */
  lemma IgnoredPushesSucceed(trace: seq<State>, i: nat)
    requires Run(trace) && i < |trace|
    ensures var s := trace[i];
            RingsOk(s)
            && (s.producer.PushLoad? ==>
                  s.producer.call.sent < |s.producer.call.frames|
                  && |s.producer.call.Current().payload| <= s.payload.Vacant())
            && (s.producer.PushStore? ==>
                  s.producer.call.sent < |s.producer.call.frames|
                  && s.producer.n == |s.producer.call.Current().payload|)
            && (s.producer.ItemLoad? ==> 1 <= s.control.Vacant())
  {
    hide Run, Window, WriteAt, Occupied, Items, Bytes, Stored, Holding, Surplus;
    EveryStateSound(trace, i);
  }

  /** The consumer receives a prefix of what was sent, frame for frame. In every state the rings hold
      exactly the frames sent and not yet removed, plus payload ahead of its item; between sends, what
      the producer's callers were told went out is what was delivered plus what is on its way. */
  lemma FramesConserved(trace: seq<State>, i: nat)
    requires Run(trace) && i < |trace| && InOrder(trace, i)
    ensures var s := trace[i];
            RingsOk(s) && s.got <= s.sent && s.outItems <= |s.sent| && Freed(s) <= |s.sent|
            && s.control.Queue() == Items(s.sent[s.outItems..])
            && s.payload.Queue() == Bytes(s.sent[Freed(s)..]) + Ahead(s.producer)
    ensures var s := trace[i];
            s.producer.Idle? ==>
              s.acked == s.sent && RingsOk(s)
              && (!s.consumer.Popped? && !s.consumer.SliceFreed? ==>
                    Framed(s.control.Queue(), s.payload.Queue())
                    && s.acked == s.got + Split(s.control.Queue(), s.payload.Queue()))
  {
    hide InOrder, Window, Occupied, Bytes, Items, SumLen, Split, ProducerOk;
    EveryStateInv(trace, i);
    var s := trace[i];
    FreedBytes(s);
    if s.producer.Idle? && !s.consumer.Popped? && !s.consumer.SliceFreed? {
      VisibleItemsHaveTheirPayload(trace, i);
      BytesLength(s.sent[|s.got|..]);
      assert s.sent == s.got + s.sent[|s.got|..];
    }
  }

  /** Nothing is taken back: deliveries, sends and removals only grow, capacities stay. */
  predicate Grown(s: State, s': State) {
    s.got <= s'.got && s.sent <= s'.sent && s.outItems <= s'.outItems && s.outBytes <= s'.outBytes
    && SameCapacities(s, s')
  }

  lemma {:induction false} GotGrows(trace: seq<State>, i: nat, j: nat)
    requires Run(trace) && i <= j < |trace|
    ensures Grown(trace[i], trace[j])
    decreases j
  {
    hide Next, Init, Sound, ProducerStep, ConsumerStep;
    if i == j {
    } else {
      GotGrows(trace, i, j - 1);
      EveryStateSound(trace, j - 1);
      StepSides(trace, j);
      if ProducerStep(trace[j - 1], trace[j]) {
        ProducerStepKeepsSound(trace[j - 1], trace[j]);
      } else {
        ConsumerFrame(trace[j - 1], trace[j]);
      }
    }
  }

  lemma ConsumerFrame(s: State, s': State)
    requires RingsOk(s) && ConsumerStep(s, s')
    ensures Grown(s, s') && s'.producer == s.producer && s'.acked == s.acked && s'.sent == s.sent
  {
    hide Window, Occupied, Split, Items, Bytes, SumLen, Copied, NoSkip;
  }

  /** Between sends every sent frame has been reported and nothing is published ahead. */
  lemma AtRest(trace: seq<State>, i: nat)
    requires Run(trace) && i < |trace| && trace[i].producer.Idle?
    ensures var s := trace[i];
            RingsOk(s) && s.acked == s.sent && s.outItems <= |s.sent| && s.outBytes <= |Bytes(s.sent)|
            && s.control.Queue() == Items(s.sent[s.outItems..])
            && s.payload.Queue() == Bytes(s.sent)[s.outBytes..]
  {
    hide Run, Window, Occupied, Items, Bytes, SumLen, Holding, Surplus, ProducerOk;
    EveryStateSound(trace, i);
    var all := Bytes(trace[i].sent);
    assert all + [] == all;
  }

  /** A stretch of calls that reports nothing sent (Err, Blocked, Timeout, Closed, a count of
      zero) has put nothing in either ring, in any run and whatever the consumer is in the middle of at
      either end: what is there is what was there, less what was taken from the front. */
  lemma FailedSendsLeaveNothing(trace: seq<State>, i: nat, j: nat)
    requires Run(trace) && i <= j < |trace| && trace[i].acked == trace[j].acked
    requires trace[i].producer.Idle? && trace[j].producer.Idle?
    ensures var s, s' := trace[i], trace[j];
            RingsOk(s) && RingsOk(s') && s'.sent == s.sent
            && s.outItems <= s'.outItems <= |s.sent| && s.outBytes <= s'.outBytes <= |Bytes(s.sent)|
            && s.control.Queue() == Items(s.sent[s.outItems..s'.outItems]) + s'.control.Queue()
            && s.payload.Queue() == Bytes(s.sent)[s.outBytes..s'.outBytes] + s'.payload.Queue()
  {
    hide Run, Window, Occupied, Bytes, SumLen;
    AtRest(trace, i);
    AtRest(trace, j);
    GotGrows(trace, i, j);
    var s, s' := trace[i], trace[j];
    assert s.sent[s.outItems..] == s.sent[s.outItems..s'.outItems] + s.sent[s'.outItems..];
  }

  /** While nothing is skipped, what was taken from the payload ring meanwhile are whole payloads. */
  lemma FailedSendsLeaveFrames(trace: seq<State>, i: nat, j: nat)
    requires Run(trace) && i <= j < |trace| && trace[i].acked == trace[j].acked && InOrder(trace, j)
    requires trace[i].producer.Idle? && trace[j].producer.Idle?
    ensures var s, s' := trace[i], trace[j];
            RingsOk(s) && RingsOk(s') && s'.sent == s.sent
            && s.outItems <= s'.outItems <= |s.sent| && Freed(s) <= Freed(s') <= |s.sent|
            && s.control.Queue() == Items(s.sent[s.outItems..s'.outItems]) + s'.control.Queue()
            && s.payload.Queue() == Bytes(s.sent[Freed(s)..Freed(s')]) + s'.payload.Queue()
  {
    hide Next, Init, Window, Occupied, Bytes, SumLen, Items;
    FailedSendsLeaveNothing(trace, i, j);
    EveryStateInv(trace, i);
    EveryStateInv(trace, j);
    FreedGrows(trace, i, j);
    FreedBytes(trace[i]);
    FreedBytes(trace[j]);
    OffsetStep(trace[i].sent, Freed(trace[i]), Freed(trace[j]) - Freed(trace[i]));
  }

  lemma {:induction false} FreedGrows(trace: seq<State>, i: nat, j: nat)
    requires Run(trace) && i <= j < |trace| && InOrder(trace, j)
    ensures Freed(trace[i]) <= Freed(trace[j])
    decreases j
  {
    hide Next, Init, ProducerStep, ConsumerStep;
    if i == j {
    } else {
      FreedGrows(trace, i, j - 1);
      EveryStateInv(trace, j - 1);
      StepSides(trace, j);
      if ProducerStep(trace[j - 1], trace[j]) {
        ProducerStepKeepsSound(trace[j - 1], trace[j]);
      } else {
        FreedStep(trace[j - 1], trace[j]);
      }
    }
  }

  lemma FreedStep(s: State, s': State)
    requires Inv(s) && ConsumerStep(s, s')
    ensures Freed(s) <= Freed(s')
  {
    hide Sound, Surplus, Window, Occupied, Items, Bytes, SumLen, Split, Cut, Copied;
    if s.consumer.SliceFreed? {
      AllValidSent(s);
      CutFrames(s.sent[|s.got|..|s.got| + |s.consumer.items|]);
    }
  }

  /** How a wait returns true: with the request, clamped to what the rings can hold. */
  function Promise(s: State): Producer
    requires s.producer.Waiting?
  {
    Idle(Min(s.producer.items, s.control.Cap()), Min(s.producer.payload, s.payload.Cap()))
  }

  /** A wait that returned true promises room in both rings at once, although it waited for them
      one after the other, and the promise holds until the producer next calls. */
  lemma WaitedRoomStays(trace: seq<State>, i: nat, j: nat)
    requires Run(trace) && i < j < |trace| && trace[i].producer.Waiting?
    requires forall k :: i < k <= j ==> trace[k].producer == Promise(trace[i])
    ensures var s, w := trace[j], trace[i].producer;
            RingsOk(s) && s.control.Cap() == trace[i].control.Cap() && s.payload.Cap() == trace[i].payload.Cap()
            && Min(w.items, s.control.Cap()) <= s.control.Vacant()
            && Min(w.payload, s.payload.Cap()) <= s.payload.Vacant()
  {
    hide Run, Stored, Holding, Surplus, Window, Occupied;
    EveryStateSound(trace, j);
    GotGrows(trace, i, j);
    assert trace[j].producer.Idle?;
  }
}

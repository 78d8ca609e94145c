/** A plain channel (one ring) under every interleaving of its producer and its
    consumer, one shared index load or store a step. The vacancy and
    availability queries read the two indices in two separate loads, and the
    other side may move in between and afterwards.

    `given` is every message handed to a send, `back` every message returned to
    a caller, `sent` the published ones in order, `got` the delivered ones. */
module ChannelProtocol {
  import opened Rings

  datatype Kind = Try | SliceSend | AsyncFirst | AsyncAgain

  datatype Producer<T> =
    /** Between calls, with the vacancy the last query or wait reported. */
    | Idle(room: nat)
    | VacantRead(rd: nat)
    | Push(msgs: seq<T>, kind: Kind)
    | Write(msgs: seq<T>, n: nat)
    | Store(msgs: seq<T>, n: nat)
    | AwaitRoom(msg: T)
    | WaitEmpty(count: nat)
    | WaitVacant(count: nat, shutdown: bool)
    | WaitRoom(count: nat, shutdown: bool)
    /** An unsigned subtraction below zero, or the `result <= capacity` assert. */
    | ProducerPanic

  datatype Consumer<T> =
    | Resting(avail: nat)
    | AvailRead(wr: nat)
    /** `shared_try_take` (room one), `shared_take_slice`, or `shared_advance_index` by `room`. */
    | Take(room: nat)
    | TakeStore(data: seq<T>)
    | ConsumerPanic

  datatype State<T> = State(
    ring: Ring<T>, producer: Producer<T>, consumer: Consumer<T>,
    given: seq<T>, back: seq<T>, sent: seq<T>, got: seq<T>)

  ghost predicate Init<T>(s: State<T>) {
    s.ring.Ok() && s.ring.Queue() == [] && s.producer == Idle(0) && s.consumer == Resting(0)
    && s.given == [] && s.back == [] && s.sent == [] && s.got == []
  }

  function At<T>(s: State<T>, p: Producer<T>): State<T> {
    s.(producer := p)
  }

  function GiveBack<T>(s: State<T>, msgs: seq<T>): State<T> {
    s.(producer := Idle(0), back := s.back + msgs)
  }

  /** The messages a starting call is handed. */
  function Handed<T>(p: Producer<T>): seq<T> {
    if p.Push? then p.msgs else []
  }

  predicate Starts<T>(p: Producer<T>) {
    match p
    case VacantRead(_) => true
    case Push(msgs, kind) => kind == SliceSend || (kind != AsyncAgain && |msgs| == 1)
    case WaitEmpty(_) => true
    case WaitVacant(_, shutdown) => !shutdown
    case _ => false
  }

  ghost predicate ProducerStep<T>(s: State<T>, s': State<T>)
    requires s.ring.Ok()
  {
    var cap, r := s.ring.Cap(), s.ring;
    match s.producer
    case Idle(_) =>
      Starts(s'.producer) && (s'.producer.VacantRead? ==> s'.producer.rd == r.rd)
      && s' == At(s, s'.producer).(given := s.given + Handed(s'.producer))
    case VacantRead(rd) =>
      s' == At(s, if r.wr <= cap + rd && (cap + rd - r.wr) % (2 * cap) <= cap
                  then Idle((cap + rd - r.wr) % (2 * cap)) else ProducerPanic)
    case Push(msgs, kind) =>
      var n := Min(|msgs|, r.Vacant());
      if n == 0 then s' == GiveBack(s, msgs) || (kind == AsyncFirst && |msgs| == 1 && s' == At(s, AwaitRoom(msgs[0])))
      else s' == At(s, Write(msgs, n))
    case Write(msgs, n) =>
      n <= |msgs| && s' == At(s, Store(msgs, n)).(ring := r.WriteSlots(msgs[..n]))
    case Store(msgs, n) =>
      n <= |msgs| && s' == GiveBack(s, msgs[n..]).(ring := r.StoreWrite(n), sent := s.sent + msgs[..n])
    case AwaitRoom(msg) =>
      s' == GiveBack(s, [msg]) || (1 <= r.Vacant() && s' == At(s, Push([msg], AsyncAgain)))
    case WaitEmpty(count) =>
      s' == At(s, if r.Avail() == 0 then Idle(Min(count, cap)) else WaitVacant(count, true))
    case WaitVacant(count, shutdown) =>
      if count <= r.Vacant() then s' == At(s, Idle(Min(count, cap)))
      else s' == At(s, WaitRoom(count, shutdown)) || (shutdown && s' == At(s, Idle(0)))
    case WaitRoom(count, shutdown) =>
      (shutdown && s' == At(s, Idle(0)))
      || (Min(count, cap) <= r.Vacant() && s' == At(s, Idle(Min(count, cap))))
    case ProducerPanic => false
  }

  ghost predicate ConsumerStep<T>(s: State<T>, s': State<T>)
    requires s.ring.Ok()
  {
    var cap, r := s.ring.Cap(), s.ring;
    match s.consumer
    case Resting(_) =>
      s' == s.(consumer := s'.consumer) && (s'.consumer.Take? || s'.consumer == AvailRead(r.wr))
    case AvailRead(wr) =>
      s' == s.(consumer := if r.rd <= 2 * cap + wr && (2 * cap + wr - r.rd) % (2 * cap) <= cap
                           then Resting((2 * cap + wr - r.rd) % (2 * cap)) else ConsumerPanic)
    case Take(room) => s' == s.(consumer := TakeStore(r.Queue()[..Min(room, r.Avail())]))
    case TakeStore(data) =>
      s' == s.(consumer := Resting(0), ring := r.StoreRead(|data|), got := s.got + data)
    case ConsumerPanic => false
  }

  ghost predicate Next<T>(s: State<T>, s': State<T>) {
    s.ring.Ok() && (ProducerStep(s, s') || ConsumerStep(s, s'))
  }

  ghost predicate Run<T>(trace: seq<State<T>>) {
    |trace| != 0 && Init(trace[0])
    && forall i :: 0 < i < |trace| ==> Next(trace[i - 1], trace[i])
  }

  // ---- invariant ----

  /** Messages a send in progress still holds. */
  function InHand<T>(p: Producer<T>): seq<T> {
    match p
    case Push(msgs, _) => msgs
    case Write(msgs, _) => msgs
    case Store(msgs, _) => msgs
    case AwaitRoom(msg) => [msg]
    case _ => []
  }

  ghost predicate ProducerOk<T>(s: State<T>)
    requires s.ring.Ok()
  {
    match s.producer
    case Idle(room) => room <= s.ring.Vacant()
    case VacantRead(rd) =>
      // An index the consumer may since have moved past, but never past the write index.
      rd < 2 * s.ring.Cap() && s.ring.Avail() <= Occupied(s.ring.Cap(), rd, s.ring.wr) <= s.ring.Cap()
    case Push(msgs, kind) => (kind == SliceSend || |msgs| == 1) && (kind == AsyncAgain ==> 1 <= s.ring.Vacant())
    case Write(msgs, n) => 0 < n <= |msgs| && n <= s.ring.Vacant()
    case Store(msgs, n) =>
      0 < n <= |msgs| && n <= s.ring.Vacant() && Window(s.ring.slots, s.ring.wr, n) == msgs[..n]
    case ProducerPanic => false
    case _ => true
  }

  ghost predicate ConsumerOk<T>(s: State<T>)
    requires s.ring.Ok()
  {
    match s.consumer
    case Resting(avail) => avail <= s.ring.Avail()
    case AvailRead(wr) => wr < 2 * s.ring.Cap() && Occupied(s.ring.Cap(), s.ring.rd, wr) <= s.ring.Avail()
    case TakeStore(data) => data <= s.ring.Queue()
    case ConsumerPanic => false
    case _ => true
  }

  ghost predicate Fifo<T>(s: State<T>)
    requires s.ring.Ok()
  {
    s.sent == s.got + s.ring.Queue()
  }

  ghost predicate Conserved<T>(s: State<T>) {
    multiset(s.given) == multiset(s.sent) + multiset(s.back) + multiset(InHand(s.producer))
  }

  ghost predicate Inv<T>(s: State<T>) {
    s.ring.Ok() && Fifo(s) && Conserved(s) && ProducerOk(s) && ConsumerOk(s)
  }

  /** The vacancy formula on a read index that may be stale: never below zero, never above the
      capacity, and exact for the index it was given. */
  lemma VacantFormula(cap: nat, rd: nat, wr: nat)
    requires 0 < cap && rd < 2 * cap && wr < 2 * cap && Occupied(cap, rd, wr) <= cap
    ensures wr <= cap + rd && (cap + rd - wr) % (2 * cap) == cap - Occupied(cap, rd, wr)
  {
    OccupiedCases(cap, rd, wr);
    ModOnce(cap + rd - wr, 2 * cap);
  }

  lemma QueryMoves<T>(s: State<T>, s': State<T>)
    requires s.ring.Ok() && ProducerOk(s) && ProducerStep(s, s')
    requires s.producer.VacantRead? || s.producer.WaitEmpty? || s.producer.WaitVacant? || s.producer.WaitRoom?
    ensures s' == At(s, s'.producer) && InHand(s'.producer) == InHand(s.producer) && ProducerOk(s')
  {
    if s.producer.VacantRead? {
      VacantFormula(s.ring.Cap(), s.producer.rd, s.ring.wr);
    }
  }

  lemma SendMoves<T>(s: State<T>, s': State<T>)
    requires s.ring.Ok() && ProducerOk(s) && ProducerStep(s, s')
    requires s.producer.Idle? || s.producer.Push? || s.producer.AwaitRoom?
    ensures s' == s.(producer := s'.producer, given := s'.given, back := s'.back) && ProducerOk(s')
    ensures s.producer.Idle? ==>
              s'.given == s.given + InHand(s'.producer) && s'.back == s.back && InHand(s.producer) == []
    ensures !s.producer.Idle? ==>
              s'.given == s.given
              && ((s'.back == s.back && InHand(s'.producer) == InHand(s.producer))
                  || (s'.back == s.back + InHand(s.producer) && InHand(s'.producer) == []))
  {
    hide Window, Occupied;
  }

  lemma SendConserves<T>(s: State<T>, s': State<T>)
    requires s.ring.Ok() && ProducerOk(s) && ProducerStep(s, s') && Conserved(s)
    requires s.producer.Idle? || s.producer.Push? || s.producer.AwaitRoom?
    ensures Conserved(s')
  {
    SendMoves(s, s');
    hide ProducerStep, ProducerOk, InHand;
  }

  lemma Unmoved<T>(s: State<T>, s': State<T>)
    requires Inv(s) && s' == s.(producer := s'.producer, given := s'.given, back := s'.back)
    requires ProducerOk(s') && Conserved(s')
    ensures Inv(s')
  {
  }

  lemma WriteMoves<T>(s: State<T>, s': State<T>)
    requires Inv(s) && s.producer.Write? && ProducerStep(s, s')
    ensures Inv(s')
  {
    WriteSlotsInvisible(s.ring, s.producer.msgs[..s.producer.n]);
  }

  lemma StoreMoves<T>(s: State<T>, s': State<T>)
    requires Inv(s) && s.producer.Store? && ProducerStep(s, s')
    ensures Inv(s')
  {
    hide Window, Occupied, Advance;
    var msgs, n := s.producer.msgs, s.producer.n;
    StoreWriteAppends(s.ring, n);
    assert msgs == msgs[..n] + msgs[n..];
    if s.consumer.AvailRead? {
      assert Occupied(s.ring.Cap(), s.ring.rd, s.consumer.wr) <= s'.ring.Avail();
    }
  }

  lemma ConsumerMoves<T>(s: State<T>, s': State<T>)
    requires Inv(s) && ConsumerStep(s, s') && !s.consumer.TakeStore?
    ensures Inv(s')
  {
    if s.consumer.AvailRead? {
      OccupiedCases(s.ring.Cap(), s.ring.rd, s.consumer.wr);
    }
  }

  lemma TakeStoreMoves<T>(s: State<T>, s': State<T>)
    requires Inv(s) && s.consumer.TakeStore? && ConsumerStep(s, s')
    ensures Inv(s')
  {
    var n := |s.consumer.data|;
    StoreReadDrops(s.ring, n);
    hide Window, Occupied, Advance;
    assert s.ring.Queue() == s.consumer.data + s.ring.Queue()[n..];
    assert Fifo(s');
    assert s'.producer == s.producer && s'.ring.slots == s.ring.slots && s'.ring.wr == s.ring.wr;
  }

  lemma StepKeepsInv<T>(s: State<T>, s': State<T>)
    requires Inv(s) && Next(s, s')
    ensures Inv(s')
  {
    var p := s.producer;
    if !ProducerStep(s, s') {
      if s.consumer.TakeStore? {
        TakeStoreMoves(s, s');
      } else {
        ConsumerMoves(s, s');
      }
    } else if p.Write? {
      WriteMoves(s, s');
    } else if p.Store? {
      StoreMoves(s, s');
    } else {
      if p.Idle? || p.Push? || p.AwaitRoom? {
        SendMoves(s, s');
        SendConserves(s, s');
      } else {
        QueryMoves(s, s');
      }
      Unmoved(s, s');
    }
  }

  lemma {:induction false} EveryStateInv<T>(trace: seq<State<T>>, i: nat)
    requires Run(trace) && i < |trace|
    ensures Inv(trace[i])
  {
    if i == 0 {
    } else {
      EveryStateInv(trace, i - 1);
      assert Next(trace[i - 1], trace[i]);
      StepKeepsInv(trace[i - 1], trace[i]);
    }
  }

  // ---- theorems about every run ----

  /** Reported vacancy and availability never exceed the truth, from the report until the caller's
      own next call, whatever the other side does; no query panics. */
  lemma ReportsAreSafe<T>(trace: seq<State<T>>, i: nat)
    requires Run(trace) && i < |trace|
    ensures var s := trace[i];
            s.ring.Ok() && !s.producer.ProducerPanic? && !s.consumer.ConsumerPanic?
            && (s.producer.Idle? ==> s.producer.room <= s.ring.Vacant())
            && (s.consumer.Resting? ==> s.consumer.avail <= s.ring.Avail())
  {
    EveryStateInv(trace, i);
  }

  /** What is delivered followed by what is queued is what was published, in order. */
  lemma DeliveredThenQueued<T>(trace: seq<State<T>>, i: nat)
    requires Run(trace) && i < |trace|
    ensures trace[i].ring.Ok() && trace[i].sent == trace[i].got + trace[i].ring.Queue()
  {
    EveryStateInv(trace, i);
  }

  /** Between calls every message handed to a send has been published once or handed back once:
      as collections with multiplicity, nothing is lost and nothing doubled. */
  lemma MessagesConserved<T>(trace: seq<State<T>>, i: nat)
    requires Run(trace) && i < |trace| && trace[i].producer.Idle?
    ensures multiset(trace[i].given) == multiset(trace[i].sent) + multiset(trace[i].back)
  {
    EveryStateInv(trace, i);
    assert multiset(InHand(trace[i].producer)) == multiset{};
  }

  /** An async send that was granted room always finds it: its second push is never refused. */
  lemma SecondPushSucceeds<T>(trace: seq<State<T>>, i: nat)
    requires Run(trace) && i < |trace|
    requires trace[i].producer.Push? && trace[i].producer.kind == AsyncAgain
    ensures trace[i].ring.Ok() && 1 <= Min(|trace[i].producer.msgs|, trace[i].ring.Vacant())
  {
    EveryStateInv(trace, i);
  }

  /** With nobody inside a query the two formulas are exact and add up to the capacity. */
  lemma QuiescentQueriesAddUp<T>(r: Ring<T>)
    requires r.Ok()
    ensures r.wr <= r.Cap() + r.rd
    ensures (r.Cap() + r.rd - r.wr) % (2 * r.Cap()) + (2 * r.Cap() + r.wr - r.rd) % (2 * r.Cap()) == r.Cap()
  {
    VacantFormula(r.Cap(), r.rd, r.wr);
  }

  // ---- waits ----

  /** What a wait asks for. */
  function Wanted<T>(p: Producer<T>): Option<nat> {
    match p
    case WaitEmpty(count) => Some(count)
    case WaitVacant(count, _) => Some(count)
    case WaitRoom(count, _) => Some(count)
    case _ => None
  }

  function MayGiveUp<T>(p: Producer<T>): bool {
    p.WaitEmpty? || ((p.WaitVacant? || p.WaitRoom?) && p.shutdown)
  }

  /** One step of a wait: it goes on for the same thing, ends with the clamped request, or gives up
      where shutdown may end it. */
  lemma WaitingStep<T>(s: State<T>, s': State<T>)
    requires s.ring.Ok() && Wanted(s.producer).Some? && ProducerStep(s, s')
    ensures s'.producer.Idle? ==>
              s'.producer == Idle(Min(Wanted(s.producer).value, s.ring.Cap()))
              || (MayGiveUp(s.producer) && s'.producer == Idle(0))
    ensures !s'.producer.Idle? ==>
              Wanted(s'.producer) == Wanted(s.producer) && (MayGiveUp(s'.producer) ==> MayGiveUp(s.producer))
  {
  }

  lemma NextCap<T>(s: State<T>, s': State<T>)
    requires Next(s, s')
    ensures s'.ring.Cap() == s.ring.Cap()
  {
    hide Window, Occupied;
  }

  lemma {:induction false} CapStays<T>(trace: seq<State<T>>, i: nat, j: nat)
    requires Run(trace) && i <= j < |trace|
    ensures trace[j].ring.Cap() == trace[i].ring.Cap()
    decreases j
  {
    hide Next, Init;
    if i == j {
    } else {
      CapStays(trace, i, j - 1);
      assert Next(trace[j - 1], trace[j]);
      NextCap(trace[j - 1], trace[j]);
    }
  }

  /** The room a wait promised is there, and stays there whatever the consumer does, until the
      producer's next call. */
  lemma WaitedRoomStays<T>(trace: seq<State<T>>, i: nat, j: nat)
    requires Run(trace) && i < j < |trace| && Wanted(trace[i].producer).Some?
    requires forall k :: i < k <= j ==>
                           trace[k].producer == Idle(Min(Wanted(trace[i].producer).value, trace[i].ring.Cap()))
    ensures var s := trace[j];
            s.ring.Ok() && s.ring.Cap() == trace[i].ring.Cap()
            && Min(Wanted(trace[i].producer).value, s.ring.Cap()) <= s.ring.Vacant()
  {
    hide Init, Next;
    EveryStateInv(trace, j);
    CapStays(trace, i, j);
  }

  lemma ConsumerKeepsProducer<T>(s: State<T>, s': State<T>)
    requires s.ring.Ok() && ConsumerStep(s, s')
    ensures s'.producer == s.producer
  {
    hide Window, Occupied;
  }

  lemma {:induction false} WaitingUpTo<T>(trace: seq<State<T>>, i: nat, k: nat)
    requires Run(trace) && i <= k < |trace| && Wanted(trace[i].producer).Some?
    requires forall m :: i <= m <= k ==> !trace[m].producer.Idle?
    ensures Wanted(trace[k].producer) == Wanted(trace[i].producer)
    ensures MayGiveUp(trace[k].producer) ==> MayGiveUp(trace[i].producer)
    decreases k
  {
    hide Init, ProducerStep, ConsumerStep;
    if i == k {
    } else {
      WaitingUpTo(trace, i, k - 1);
      assert Next(trace[k - 1], trace[k]);
      if ProducerStep(trace[k - 1], trace[k]) {
        WaitingStep(trace[k - 1], trace[k]);
      } else {
        ConsumerKeepsProducer(trace[k - 1], trace[k]);
      }
    }
  }

  /** At some step the ring had less room than asked for. */
  ghost predicate WasLacking<T>(trace: seq<State<T>>, i: nat, k: nat, count: nat)
    requires k <= |trace|
  {
    exists m :: i <= m < k && trace[m].ring.Ok() && trace[m].ring.Vacant() < count
  }

  ghost predicate WasFilled<T>(trace: seq<State<T>>, i: nat, k: nat)
    requires k <= |trace|
  {
    exists m :: i <= m < k && trace[m].ring.Ok() && 0 < trace[m].ring.Avail()
  }

  /** A wait begins to wait, or gives up, only where room is lacking, and an empty ring is enough for it. */
  lemma LackingStep<T>(s: State<T>, s': State<T>)
    requires s.ring.Ok() && (s.producer.WaitEmpty? || s.producer.WaitVacant?) && ProducerStep(s, s')
    ensures s'.producer.WaitRoom? ==> s.ring.Vacant() < s.producer.count
    ensures s'.producer.Idle? && s'.producer.room != Min(s.producer.count, s.ring.Cap()) ==>
              s.ring.Vacant() < s.producer.count
    ensures s.producer.WaitEmpty? ==> s'.producer == Idle(Min(s.producer.count, s.ring.Cap())) || 0 < s.ring.Avail()
  {
  }

  lemma {:induction false} LackingUpTo<T>(trace: seq<State<T>>, i: nat, k: nat)
    requires Run(trace) && i <= k < |trace| && (trace[i].producer.WaitEmpty? || trace[i].producer.WaitVacant?)
    requires forall m :: i <= m <= k ==> !trace[m].producer.Idle?
    ensures Wanted(trace[k].producer) == Wanted(trace[i].producer)
    ensures trace[k].producer.WaitRoom? ==> WasLacking(trace, i, k, trace[i].producer.count)
    ensures trace[i].producer.WaitEmpty? && !trace[k].producer.WaitEmpty? ==> WasFilled(trace, i, k)
    decreases k
  {
    hide Init, ProducerStep, ConsumerStep;
    WaitingUpTo(trace, i, k);
    if i == k {
    } else {
      WaitingUpTo(trace, i, k - 1);
      LackingUpTo(trace, i, k - 1);
      assert Next(trace[k - 1], trace[k]);
      if ProducerStep(trace[k - 1], trace[k]) {
        if !trace[k - 1].producer.WaitRoom? {
          LackingStep(trace[k - 1], trace[k]);
        }
      } else {
        ConsumerKeepsProducer(trace[k - 1], trace[k]);
      }
    }
  }

  /** A wait that returns has found the clamped room; it gives up only where shutdown may end it, and
      only after it found the ring too full and not empty. */
  lemma WaitOutcome<T>(trace: seq<State<T>>, i: nat, j: nat)
    requires Run(trace) && i < j < |trace| && trace[j].producer.Idle?
    requires trace[i].producer.WaitEmpty? || trace[i].producer.WaitVacant?
    requires forall m :: i <= m < j ==> !trace[m].producer.Idle?
    ensures var s, room := trace[j], Min(trace[i].producer.count, trace[j].ring.Cap());
            s.ring.Ok() && s.ring.Cap() == trace[i].ring.Cap()
            && ((s.producer == Idle(room) && room <= s.ring.Vacant())
                || (MayGiveUp(trace[i].producer) && s.producer == Idle(0)
                    && (trace[i].producer.WaitEmpty? ==> WasFilled(trace, i, j))
                    && WasLacking(trace, i, j, trace[i].producer.count)))
  {
    hide Init, ProducerStep, ConsumerStep;
    WaitingUpTo(trace, i, j - 1);
    LackingUpTo(trace, i, j - 1);
    CapStays(trace, i, j - 1);
    CapStays(trace, i, j);
    ReportsAreSafe(trace, j);
    assert Next(trace[j - 1], trace[j]);
    if ProducerStep(trace[j - 1], trace[j]) {
      WaitingStep(trace[j - 1], trace[j]);
      if !trace[j - 1].producer.WaitRoom? {
        LackingStep(trace[j - 1], trace[j]);
      }
    } else {
      ConsumerKeepsProducer(trace[j - 1], trace[j]);
    }
  }

  // ---- what whole calls come to ----

  /** The producer is inside one call throughout, and returns at `j`. */
  ghost predicate SendSpan<T>(trace: seq<State<T>>, i: nat, j: nat) {
    Run(trace) && i < j < |trace| && trace[j].producer.Idle?
    && forall k :: i <= k < j ==> !trace[k].producer.Idle?
  }

  lemma StepSides<T>(trace: seq<State<T>>, k: nat)
    requires Run(trace) && 0 < k < |trace|
    ensures trace[k - 1].ring.Ok()
    ensures ProducerStep(trace[k - 1], trace[k]) || ConsumerStep(trace[k - 1], trace[k])
  {
    hide ProducerStep, ConsumerStep;
    assert Next(trace[k - 1], trace[k]);
  }

  lemma ConsumerFrame<T>(s: State<T>, s': State<T>)
    requires s.ring.Ok() && ConsumerStep(s, s')
    ensures s'.producer == s.producer && s'.sent == s.sent && s'.back == s.back && s'.given == s.given
    ensures s'.ring.wr == s.ring.wr && s'.ring.Cap() == s.ring.Cap()
  {
    hide Window, Occupied;
  }

  /** The call is sending `msgs`. */
  predicate Sending<T(==)>(p: Producer<T>, msgs: seq<T>) {
    match p
    case Push(ms, _) => ms == msgs
    case Write(ms, _) => ms == msgs
    case Store(ms, _) => ms == msgs
    case AwaitRoom(msg) => msgs == [msg]
    case _ => false
  }

  /** `n` of the messages fit the vacancy at some step of the call. */
  ghost predicate RoomSeen<T>(trace: seq<State<T>>, i: nat, k: nat, msgs: seq<T>, n: nat)
    requires k <= |trace|
  {
    exists m :: i <= m < k && trace[m].ring.Ok() && n == Min(|msgs|, trace[m].ring.Vacant())
  }

  lemma SendingStep<T>(s: State<T>, s': State<T>, msgs: seq<T>)
    requires s.ring.Ok() && ProducerOk(s) && Sending(s.producer, msgs) && ProducerStep(s, s')
    ensures !s'.producer.Idle? ==> Sending(s'.producer, msgs) && s'.sent == s.sent && s'.back == s.back
    ensures s'.producer.Write? ==> s.producer.Push? && s'.producer.n == Min(|msgs|, s.ring.Vacant())
    ensures s'.producer.Store? ==> s.producer.Write? && s'.producer.n == s.producer.n
    ensures s'.producer.AwaitRoom? ==>
              s.producer.Push? && s.producer.kind == AsyncFirst && 0 == Min(|msgs|, s.ring.Vacant())
    ensures s'.producer.Push? ==> s.producer.AwaitRoom?
    ensures s'.producer.Idle? ==>
              if s.producer.Store? then
                s'.sent == s.sent + msgs[..s.producer.n] && s'.back == s.back + msgs[s.producer.n..]
              else s'.sent == s.sent && s'.back == s.back + msgs
                   && (s.producer.AwaitRoom? || 0 == Min(|msgs|, s.ring.Vacant()))
  {
    hide Window, WriteAt, Occupied;
  }

  lemma {:induction false} SendingUpTo<T>(trace: seq<State<T>>, i: nat, j: nat, k: nat)
    requires SendSpan(trace, i, j) && i <= k < j
    requires trace[i].producer.Push?
    ensures var p, msgs := trace[k].producer, trace[i].producer.msgs;
            Sending(p, msgs) && trace[k].sent == trace[i].sent && trace[k].back == trace[i].back
            && (p.Write? || p.Store? ==> p.n <= |msgs| && RoomSeen(trace, i, k, msgs, p.n))
            && (p.AwaitRoom? ==> RoomSeen(trace, i, k, msgs, 0))
            && (trace[i].producer.kind != AsyncFirst ==> !p.AwaitRoom? && (p.Push? ==> p == trace[i].producer))
  {
    hide Inv, Init, Next, ProducerStep, ConsumerStep;
    if i == k {
    } else {
      SendingUpTo(trace, i, j, k - 1);
      EveryStateInv(trace, k - 1);
      StepSides(trace, k);
      if ProducerStep(trace[k - 1], trace[k]) {
        InvParts(trace[k - 1]);
        SendingStep(trace[k - 1], trace[k], trace[i].producer.msgs);
      } else {
        ConsumerFrame(trace[k - 1], trace[k]);
      }
    }
  }

  lemma InvParts<T>(s: State<T>)
    requires Inv(s)
    ensures s.ring.Ok() && ProducerOk(s) && ConsumerOk(s)
  {
  }

  /** A send that returns, tried, sliced or awaited, has published exactly as many of its messages as fit
      the vacancy at some step of the call, and handed back the others. A single message comes back only
      if the ring was full at some step. */
  lemma SendOutcome<T>(trace: seq<State<T>>, i: nat, j: nat)
    requires SendSpan(trace, i, j) && trace[i].producer.Push?
    ensures var msgs := trace[i].producer.msgs;
            exists n: nat :: n <= |msgs| && RoomSeen(trace, i, j, msgs, n)
                        && trace[j].sent == trace[i].sent + msgs[..n] && trace[j].back == trace[i].back + msgs[n..]
  {
    hide Inv, Init, Next, ProducerStep, ConsumerStep;
    var msgs := trace[i].producer.msgs;
    SendingUpTo(trace, i, j, j - 1);
    EveryStateInv(trace, j - 1);
    StepSides(trace, j);
    var s := trace[j - 1];
    if ProducerStep(s, trace[j]) {
      InvParts(s);
      SendingStep(s, trace[j], msgs);
      var n := if s.producer.Store? then s.producer.n else 0;
      assert RoomSeen(trace, i, j, msgs, n);
      assert msgs[..0] == [] && msgs[0..] == msgs;
    } else {
      ConsumerFrame(s, trace[j]);
    }
  }

  /** A try or a slice never waits. */
  lemma TryNeverWaits<T>(trace: seq<State<T>>, i: nat, j: nat, k: nat)
    requires SendSpan(trace, i, j) && i <= k < j && trace[i].producer.Push? && trace[i].producer.kind != AsyncFirst
    ensures !trace[k].producer.AwaitRoom?
  {
    SendingUpTo(trace, i, j, k);
  }

  /** A single message comes back only if the ring was full at some step of the call. */
  lemma OneComesBack<T>(trace: seq<State<T>>, i: nat, j: nat)
    requires SendSpan(trace, i, j) && trace[i].producer.Push? && |trace[i].producer.msgs| == 1
    ensures trace[j].sent == trace[i].sent + trace[i].producer.msgs
            || exists m :: i <= m < j && trace[m].ring.Ok() && trace[m].ring.Vacant() == 0
  {
    hide Run, ProducerStep, ConsumerStep;
    var msgs := trace[i].producer.msgs;
    SendOutcome(trace, i, j);
    var n: nat :| n <= |msgs| && RoomSeen(trace, i, j, msgs, n) && trace[j].sent == trace[i].sent + msgs[..n];
    if n == 1 {
      assert msgs[..1] == msgs;
    }
  }

  /** A reported vacancy is exactly the one at the load of the read index: it is neither above it nor short of it. */
  lemma VacancyReport<T>(trace: seq<State<T>>, i: nat, j: nat)
    requires 0 < i && SendSpan(trace, i, j) && trace[i - 1].producer.Idle? && trace[i].producer.VacantRead?
    ensures trace[i - 1].ring.Ok() && trace[j].producer.room == trace[i - 1].ring.Vacant()
  {
    hide Init, ProducerStep, ConsumerStep;
    EveryStateInv(trace, i - 1);
    StepSides(trace, i);
    QueryLoads(trace[i - 1], trace[i]);
    QueryWaits(trace, i, j, j - 1);
    StepSides(trace, j);
    var r := trace[i - 1].ring;
    VacantFormula(r.Cap(), r.rd, r.wr);
    if ProducerStep(trace[j - 1], trace[j]) {
      QueryReports(trace[j - 1], trace[j]);
    } else {
      ConsumerFrame(trace[j - 1], trace[j]);
    }
  }

  lemma QueryLoads<T>(s: State<T>, s': State<T>)
    requires s.ring.Ok() && s.producer.Idle? && s'.producer.VacantRead? && (ProducerStep(s, s') || ConsumerStep(s, s'))
    ensures s'.producer.rd == s.ring.rd && s'.ring == s.ring
  {
    hide Window, Occupied;
  }

  lemma QueryReports<T>(s: State<T>, s': State<T>)
    requires s.ring.Ok() && s.producer.VacantRead? && ProducerStep(s, s') && s'.producer.Idle?
    ensures var cap, rd, wr := s.ring.Cap(), s.producer.rd, s.ring.wr;
            wr <= cap + rd && s'.producer.room == (cap + rd - wr) % (2 * cap)
  {
  }

  lemma {:induction false} QueryWaits<T>(trace: seq<State<T>>, i: nat, j: nat, k: nat)
    requires SendSpan(trace, i, j) && i <= k < j && trace[i].producer.VacantRead?
    ensures trace[k].producer == trace[i].producer
    ensures trace[k].ring.wr == trace[i].ring.wr && trace[k].ring.Cap() == trace[i].ring.Cap()
  {
    hide Init, ConsumerStep;
    if i == k {
    } else {
      QueryWaits(trace, i, j, k - 1);
      StepSides(trace, k);
      if ProducerStep(trace[k - 1], trace[k]) {
        EveryStateInv(trace, k);
        QueryEnds(trace[k - 1], trace[k]);
      } else {
        ConsumerFrame(trace[k - 1], trace[k]);
      }
    }
  }

  lemma QueryEnds<T>(s: State<T>, s': State<T>)
    requires s.ring.Ok() && s.producer.VacantRead? && ProducerStep(s, s')
    ensures s'.producer.Idle? || s'.producer.ProducerPanic?
  {
  }

  // ---- the consumer's calls ----

  /** The consumer is inside one call throughout, and returns at `j`. */
  ghost predicate TakeSpan<T>(trace: seq<State<T>>, i: nat, j: nat) {
    Run(trace) && i < j < |trace| && trace[j].consumer.Resting?
    && forall k :: i <= k < j ==> !trace[k].consumer.Resting?
  }

  lemma ProducerFrame<T>(s: State<T>, s': State<T>)
    requires s.ring.Ok() && ProducerStep(s, s')
    ensures s'.consumer == s.consumer && s'.got == s.got && s'.ring.rd == s.ring.rd && s'.ring.Cap() == s.ring.Cap()
  {
    hide Window, Occupied;
  }

  /** At some step of the call `data` was the longest prefix of the queue that fits the room. */
  ghost predicate PrefixSeen<T>(trace: seq<State<T>>, i: nat, k: nat, room: nat, data: seq<T>)
    requires k <= |trace|
  {
    exists m :: i <= m < k && trace[m].ring.Ok()
                && data == trace[m].ring.Queue()[..Min(room, trace[m].ring.Avail())]
  }

  lemma TakingStep<T>(s: State<T>, s': State<T>)
    requires s.ring.Ok() && (s.consumer.Take? || s.consumer.TakeStore?) && ConsumerStep(s, s')
    ensures if s.consumer.Take?
            then s'.got == s.got
                 && s'.consumer == TakeStore(s.ring.Queue()[..Min(s.consumer.room, s.ring.Avail())])
            else s'.got == s.got + s.consumer.data && s'.consumer.Resting?
  {
    hide Window, Occupied;
  }

  lemma {:induction false} TakingUpTo<T>(trace: seq<State<T>>, i: nat, j: nat, k: nat)
    requires TakeSpan(trace, i, j) && i <= k < j && trace[i].consumer.Take?
    ensures trace[k].got == trace[i].got
    ensures trace[k].consumer == trace[i].consumer
            || (trace[k].consumer.TakeStore?
                && PrefixSeen(trace, i, k, trace[i].consumer.room, trace[k].consumer.data))
  {
    hide Init, Next, ProducerStep, ConsumerStep;
    if i == k {
    } else {
      TakingUpTo(trace, i, j, k - 1);
      StepSides(trace, k);
      if ProducerStep(trace[k - 1], trace[k]) {
        ProducerFrame(trace[k - 1], trace[k]);
      } else {
        TakingStep(trace[k - 1], trace[k]);
      }
    }
  }

  /** A take delivers exactly the longest prefix of the queue, as it was at some step of the call, that
      fits the room asked for. */
  lemma TakeOutcome<T>(trace: seq<State<T>>, i: nat, j: nat)
    requires TakeSpan(trace, i, j) && trace[i].consumer.Take?
    ensures exists data :: PrefixSeen(trace, i, j, trace[i].consumer.room, data)
                           && trace[j].got == trace[i].got + data
  {
    hide Init, Next, ProducerStep, ConsumerStep;
    TakingUpTo(trace, i, j, j - 1);
    StepSides(trace, j);
    var s := trace[j - 1];
    if ProducerStep(s, trace[j]) {
      ProducerFrame(s, trace[j]);
    } else {
      TakingStep(s, trace[j]);
      assert PrefixSeen(trace, i, j, trace[i].consumer.room, s.consumer.data);
    }
  }

  lemma {:induction false} AvailWaits<T>(trace: seq<State<T>>, i: nat, j: nat, k: nat)
    requires TakeSpan(trace, i, j) && i <= k < j && trace[i].consumer.AvailRead?
    ensures trace[k].consumer == trace[i].consumer
    ensures trace[k].ring.rd == trace[i].ring.rd && trace[k].ring.Cap() == trace[i].ring.Cap()
  {
    hide Init, ProducerStep;
    if i == k {
    } else {
      AvailWaits(trace, i, j, k - 1);
      StepSides(trace, k);
      if ProducerStep(trace[k - 1], trace[k]) {
        ProducerFrame(trace[k - 1], trace[k]);
      } else {
        EveryStateInv(trace, k);
        AvailEnds(trace[k - 1], trace[k]);
      }
    }
  }

  lemma AvailEnds<T>(s: State<T>, s': State<T>)
    requires s.ring.Ok() && s.consumer.AvailRead? && ConsumerStep(s, s')
    ensures s'.consumer.Resting? || s'.consumer.ConsumerPanic?
    ensures s'.consumer.Resting? ==>
              2 * s.ring.Cap() <= s.consumer.wr
              || s'.consumer.avail == Occupied(s.ring.Cap(), s.ring.rd, s.consumer.wr)
  {
  }

  /** A reported availability is exactly the one at the load of the write index. */
  lemma AvailReport<T>(trace: seq<State<T>>, i: nat, j: nat)
    requires 0 < i && TakeSpan(trace, i, j) && trace[i - 1].consumer.Resting? && trace[i].consumer.AvailRead?
    ensures trace[i - 1].ring.Ok() && trace[j].consumer.avail == trace[i - 1].ring.Avail()
  {
    hide Init, ProducerStep, ConsumerStep;
    EveryStateInv(trace, i - 1);
    StepSides(trace, i);
    AvailLoads(trace[i - 1], trace[i]);
    AvailWaits(trace, i, j, j - 1);
    StepSides(trace, j);
    if ProducerStep(trace[j - 1], trace[j]) {
      ProducerFrame(trace[j - 1], trace[j]);
    } else {
      AvailEnds(trace[j - 1], trace[j]);
    }
  }

  lemma AvailLoads<T>(s: State<T>, s': State<T>)
    requires s.ring.Ok() && s.consumer.Resting? && s'.consumer.AvailRead?
    requires ProducerStep(s, s') || ConsumerStep(s, s')
    ensures s'.consumer.wr == s.ring.wr && s'.ring == s.ring
  {
    hide Window, Occupied;
  }

  // ---- calls come to an end ----

  /** A bound on the steps the producer still takes in its call. */
  function Rank<T>(p: Producer<T>): nat {
    match p
    case Idle(_) => 0
    case VacantRead(_) => 1
    case Push(_, kind) => if kind == AsyncAgain then 3 else 5
    case AwaitRoom(_) => 4
    case Write(_, _) => 2
    case Store(_, _) => 1
    case WaitEmpty(_) => 3
    case WaitVacant(_, _) => 2
    case WaitRoom(_, _) => 1
    case ProducerPanic => 0
  }

  function ConsumerRank<T>(c: Consumer<T>): nat {
    match c
    case Take(_) => 2
    case TakeStore(_) => 1
    case AvailRead(_) => 1
    case _ => 0
  }

  lemma ProducerDescends<T>(s: State<T>, s': State<T>)
    requires Inv(s) && !s.producer.Idle? && ProducerStep(s, s')
    ensures Rank(s'.producer) < Rank(s.producer)
  {
    hide Window, Occupied, WriteAt;
    if s.producer.VacantRead? {
      VacantFormula(s.ring.Cap(), s.producer.rd, s.ring.wr);
    }
  }

  lemma ConsumerDescends<T>(s: State<T>, s': State<T>)
    requires Inv(s) && !s.consumer.Resting? && ConsumerStep(s, s')
    ensures ConsumerRank(s'.consumer) < ConsumerRank(s.consumer)
  {
    hide Window, Occupied;
  }

  /** The producer always has a next step, except in a wait without shutdown for room that is not there. */
  lemma ProducerNotStuck<T>(s: State<T>)
    requires Inv(s)
    requires var p := s.producer;
             p.WaitRoom? && !p.shutdown ==> Min(p.count, s.ring.Cap()) <= s.ring.Vacant()
    ensures exists s' :: ProducerStep(s, s')
  {
    hide Window, Occupied, WriteAt;
    var cap, r := s.ring.Cap(), s.ring;
    match s.producer
    case Idle(_) => assert ProducerStep(s, At(s, WaitVacant(0, false)).(given := s.given + []));
    case VacantRead(rd) =>
      var n := if r.wr <= cap + rd then (cap + rd - r.wr) % (2 * cap) else 0;
      assert ProducerStep(s, At(s, if r.wr <= cap + rd && n <= cap then Idle(n) else ProducerPanic));
    case Push(msgs, kind) =>
      var n := Min(|msgs|, r.Vacant());
      assert ProducerStep(s, if n == 0 then GiveBack(s, msgs) else At(s, Write(msgs, n)));
    case Write(msgs, n) => assert ProducerStep(s, At(s, Store(msgs, n)).(ring := r.WriteSlots(msgs[..n])));
    case Store(msgs, n) =>
      assert ProducerStep(s, GiveBack(s, msgs[n..]).(ring := r.StoreWrite(n), sent := s.sent + msgs[..n]));
    case AwaitRoom(msg) => assert ProducerStep(s, GiveBack(s, [msg]));
    case WaitEmpty(count) =>
      assert ProducerStep(s, At(s, if r.Avail() == 0 then Idle(Min(count, cap)) else WaitVacant(count, true)));
    case WaitVacant(count, shutdown) =>
      assert ProducerStep(s, At(s, if count <= r.Vacant() then Idle(Min(count, cap)) else WaitRoom(count, shutdown)));
    case WaitRoom(count, shutdown) =>
      assert ProducerStep(s, At(s, if Min(count, cap) <= r.Vacant() then Idle(Min(count, cap)) else Idle(0)));
  }

  lemma ConsumerNotStuck<T>(s: State<T>)
    requires Inv(s)
    ensures exists s' :: ConsumerStep(s, s')
  {
    hide Window, Occupied;
    var cap, r := s.ring.Cap(), s.ring;
    match s.consumer
    case Resting(_) => assert ConsumerStep(s, s.(consumer := Take(1)));
    case AvailRead(wr) =>
      var n := if r.rd <= 2 * cap + wr then (2 * cap + wr - r.rd) % (2 * cap) else 0;
      assert ConsumerStep(s, s.(consumer := if r.rd <= 2 * cap + wr && n <= cap then Resting(n) else ConsumerPanic));
    case Take(room) => assert ConsumerStep(s, s.(consumer := TakeStore(r.Queue()[..Min(room, r.Avail())])));
    case TakeStore(data) =>
      assert ConsumerStep(s, s.(consumer := Resting(0), ring := r.StoreRead(|data|), got := s.got + data));
  }

  /** With room in the ring an async send that waits can publish its message. */
  lemma AwaitedSendCanFinish<T>(s: State<T>, msg: T)
    requires Inv(s) && s.producer == AwaitRoom(msg) && 1 <= s.ring.Vacant()
    ensures exists s1: State<T>, s2: State<T>, s3: State<T>, s4: State<T> ::
              s1.ring.Ok() && s2.ring.Ok() && s3.ring.Ok() && ProducerStep(s, s1) && ProducerStep(s1, s2)
              && ProducerStep(s2, s3) && ProducerStep(s3, s4)
              && s4.producer == Idle(0) && s4.sent == s.sent + [msg] && s4.back == s.back
  {
    hide Window, Occupied, WriteAt;
    var s1 := At(s, Push([msg], AsyncAgain));
    var s2 := At(s, Write([msg], 1));
    assert [msg][..1] == [msg] && [msg][1..] == [];
    WriteSlotsInvisible(s.ring, [msg]);
    var s3 := At(s, Store([msg], 1)).(ring := s.ring.WriteSlots([msg]));
    var s4 := GiveBack(s3, [msg][1..]).(ring := s3.ring.StoreWrite(1), sent := s3.sent + [msg][..1]);
    assert ProducerStep(s, s1) && ProducerStep(s1, s2) && ProducerStep(s2, s3) && ProducerStep(s3, s4);
  }

  /** An async send that finds the ring full can wait for room. */
  lemma AsyncCanWait<T>(s: State<T>, msg: T)
    requires Inv(s) && s.producer == Push([msg], AsyncFirst) && s.ring.Vacant() == 0
    ensures ProducerStep(s, At(s, AwaitRoom(msg)))
  {
  }

  /** Every call can be made whenever its side is between calls. */
  lemma CallsCanStart<T>(s: State<T>, msgs: seq<T>, msg: T, count: nat)
    requires Inv(s) && s.producer.Idle?
    ensures ProducerStep(s, At(s, VacantRead(s.ring.rd)).(given := s.given + []))
    ensures ProducerStep(s, At(s, Push(msgs, SliceSend)).(given := s.given + msgs))
    ensures ProducerStep(s, At(s, Push([msg], Try)).(given := s.given + [msg]))
    ensures ProducerStep(s, At(s, Push([msg], AsyncFirst)).(given := s.given + [msg]))
    ensures ProducerStep(s, At(s, WaitEmpty(count)).(given := s.given + []))
    ensures ProducerStep(s, At(s, WaitVacant(count, false)).(given := s.given + []))
  {
  }

  // ---- over runs ----

  ghost function ProducerSteps<T>(trace: seq<State<T>>, i: nat, k: nat): nat
    requires i <= k < |trace|
  {
    if i == k then 0 else ProducerSteps(trace, i, k - 1) + if trace[k].producer != trace[k - 1].producer then 1 else 0
  }

  /** A call of the producer takes no more steps than its rank at the start, however the consumer moves. */
  lemma {:induction false} ProducerCallBounded<T>(trace: seq<State<T>>, i: nat, k: nat)
    requires Run(trace) && i <= k < |trace| && forall m :: i <= m < k ==> !trace[m].producer.Idle?
    ensures ProducerSteps(trace, i, k) + Rank(trace[k].producer) <= Rank(trace[i].producer)
  {
    hide Inv, Next, Init, ProducerStep, ConsumerStep, Rank;
    if i == k {
    } else {
      ProducerCallBounded(trace, i, k - 1);
      EveryStateInv(trace, k - 1);
      StepSides(trace, k);
      if ProducerStep(trace[k - 1], trace[k]) {
        ProducerDescends(trace[k - 1], trace[k]);
      } else {
        ConsumerFrame(trace[k - 1], trace[k]);
      }
    }
  }
}

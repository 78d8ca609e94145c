/** Channels that are named when they are declared and allocated when the first
    end is asked for. Threads build, clone ends and build eagerly in any
    interleaving; a step is one atomic action on the id counter, a lock or a
    field behind one. */
module LazyChannels {
  import opened Rings

  /** The source refuses a capacity of zero before it names a channel. */
  type Capacity = n: nat | 0 < n witness 1

  datatype Builder = Builder(capacity: Capacity, girth: nat, bundleIndex: Option<nat>, reserved: Option<nat>)

  /** One end of an established channel: which it is, the ring behind it with its capacity, and the id in
      its metadata. */
  datatype End = End(side: Side, ring: nat, id: nat, capacity: Capacity)
  datatype Ends = Ends(tx: End, rx: End) {
    function Of(side: Side): End {
      if side.Tx? then tx else rx
    }

    predicate Joined() {
      tx.side == Tx && rx == tx.(side := Rx)
    }
  }
  datatype Side = Tx | Rx

  /** `LazyChannel`, with the thread holding the lock of `channel` and the build call it came from. */
  datatype Lazy = Lazy(packId: nat, packCapacity: Capacity, packGirth: nat, packBundleIndex: Option<nat>,
                       builder: Option<Builder>, channel: Option<Ends>, lock: Option<nat>, call: nat)
  {
    function Key(): Option<nat> {
      BundleKey(packId, packGirth, packBundleIndex)
    }
  }

  /** The bundle key recorded for packing, with the saturating subtraction of the source. */
  function BundleKey(packId: nat, girth: nat, bundleIndex: Option<nat>): Option<nat> {
    var lane := match bundleIndex { case Some(i) => i case None => 0 };
    if girth > 1 then Some(if lane <= packId then packId - lane else 0) else None
  }

  /** The builders of a bundle's lanes. */
  function Lanes(b: Builder, girth: nat): (r: seq<Builder>)
    ensures |r| == girth
  {
    seq(girth, i requires 0 <= i < girth => b.(bundleIndex := Some(i), girth := girth))
  }

  /** One call of `build` or `build_channel_bundle`: who runs it, its lanes, the lazies made so far. */
  datatype Call = Call(caller: nat, lanes: seq<Builder>, made: seq<nat>)

  datatype Thread =
    | Idle
    | Making(call: nat)
    | Reserved(call: nat, id: nat)
    | Locked(lazy: nat, side: Side)
    | Naming(builder: Builder, target: Option<(nat, Side)>)
    | Allocating(target: Option<(nat, Side)>, id: nat, capacity: Capacity)
    | Built(target: Option<(nat, Side)>, ends: Ends)
    | Ready(lazy: nat, side: Side)
    | Panicked

  /** What became of an id or a ring: still on its way, or the lazy or eager channel it ended in. */
  datatype Owner = InFlight(thread: nat) | OfLazy(lazy: nat) | OfEager(eager: nat)

  datatype Handed = Handed(lazy: nat, side: Side, end: End)

  /** `ids` and `rings` record the owner of every number drawn; their lengths are the counters. */
  datatype State = State(ids: seq<Owner>, rings: seq<Owner>, lazies: seq<Lazy>, calls: seq<Call>,
                         eagers: seq<Ends>, handed: seq<Handed>, threads: seq<Thread>)

  datatype Choice =
    | Build(b: Builder)
    | Bundle(proto: Builder, girth: nat)
    | Clone(lazy: nat, side: Side)
    | Eager(b: Builder)

  function Start(threads: nat): State {
    State([], [], [], [], [], [], seq(threads, _ => Idle))
  }

  // ---- steps ----

  function At(s: State, t: nat, thread: Thread): State
    requires t < |s.threads|
  {
    s.(threads := s.threads[t := thread])
  }

  /** An idle thread starts a call; cloning an end first waits for the lock of the channel. */
  function Begin(s: State, t: nat, c: Choice): State
    requires t < |s.threads|
  {
    match c
    case Build(b) => At(s, t, Making(|s.calls|)).(calls := s.calls + [Call(t, [b], [])])
    case Bundle(b, girth) => At(s, t, Making(|s.calls|)).(calls := s.calls + [Call(t, Lanes(b, girth), [])])
    case Eager(b) => At(s, t, Naming(b.(reserved := None), None))
    case Clone(l, side) =>
      if l < |s.lazies| && s.lazies[l].lock == None then
        At(s, t, Locked(l, side)).(lazies := s.lazies[l := s.lazies[l].(lock := Some(t))])
      else s
  }

  /** The loop over the lanes: `LazyChannel::new` draws an id, then stores everything with it. */
  function Make(s: State, t: nat, c: nat): State
    requires t < |s.threads|
  {
    if c < |s.calls| && |s.calls[c].made| < |s.calls[c].lanes|
    then At(s, t, Reserved(c, |s.ids|)).(ids := s.ids + [InFlight(t)])
    else At(s, t, Idle)
  }

  function NewLazy(b: Builder, id: nat, call: nat): Lazy {
    Lazy(id, b.capacity, if b.girth < 1 then 1 else b.girth, b.bundleIndex,
         Some(b.(reserved := Some(id))), None, None, call)
  }

  function Reserve(s: State, t: nat, c: nat, id: nat): State
    requires t < |s.threads|
  {
    if c < |s.calls| && |s.calls[c].made| < |s.calls[c].lanes| && id < |s.ids| then
      var call := s.calls[c];
      At(s, t, Making(c)).(
      ids := s.ids[id := OfLazy(|s.lazies|)],
      lazies := s.lazies + [NewLazy(call.lanes[|call.made|], id, c)],
      calls := s.calls[c := call.(made := call.made + [|s.lazies|])])
    else s
  }

  /** Under the lock: an unestablished channel takes its builder, which must still be there. */
  function Check(s: State, t: nat, l: nat, side: Side): State
    requires t < |s.threads|
  {
    if |s.lazies| <= l then s
    else if s.lazies[l].channel.Some? then At(s, t, Ready(l, side))
    else match s.lazies[l].builder
      case Some(b) =>
        At(s, t, Naming(b, Some((l, side)))).(lazies := s.lazies[l := s.lazies[l].(builder := None)])
      case None => At(s, t, Panicked)
  }

  /** `to_meta_data`: the reserved id, else the next one. */
  function Name(s: State, t: nat, b: Builder, target: Option<(nat, Side)>): State
    requires t < |s.threads|
  {
    match b.reserved
    case Some(id) => At(s, t, Allocating(target, id, b.capacity))
    case None => At(s, t, Allocating(target, |s.ids|, b.capacity)).(ids := s.ids + [InFlight(t)])
  }

  function Allocate(s: State, t: nat, target: Option<(nat, Side)>, id: nat, capacity: Capacity): State
    requires t < |s.threads|
  {
    var ring := |s.rings|;
    At(s, t, Built(target, Ends(End(Tx, ring, id, capacity), End(Rx, ring, id, capacity)))).(
    rings := s.rings + [InFlight(t)])
  }

  function Deliver(s: State, t: nat, target: Option<(nat, Side)>, ends: Ends): State
    requires t < |s.threads|
  {
    if |s.rings| <= ends.tx.ring || |s.ids| <= ends.tx.id then s
    else match target
      case None =>
        var owner := OfEager(|s.eagers|);
        At(s, t, Idle).(eagers := s.eagers + [ends],
        ids := s.ids[ends.tx.id := owner], rings := s.rings[ends.tx.ring := owner])
      case Some((l, side)) =>
        if |s.lazies| <= l then s
        else
          At(s, t, Ready(l, side)).(
          lazies := s.lazies[l := s.lazies[l].(channel := Some(ends))], rings := s.rings[ends.tx.ring := OfLazy(l)])
  }

  /** Clones the asked end and lets go of the lock; without a channel it would panic. */
  function Finish(s: State, t: nat, l: nat, side: Side): State
    requires t < |s.threads|
  {
    if |s.lazies| <= l then s
    else match s.lazies[l].channel
      case None => At(s, t, Panicked)
      case Some(ends) =>
        At(s, t, Idle).(
        handed := s.handed + [Handed(l, side, ends.Of(side))], lazies := s.lazies[l := s.lazies[l].(lock := None)])
  }

  function Step(s: State, t: nat, c: Choice): State {
    if |s.threads| <= t then s
    else match s.threads[t]
      case Idle => Begin(s, t, c)
      case Making(call) => Make(s, t, call)
      case Reserved(call, id) => Reserve(s, t, call, id)
      case Locked(l, side) => Check(s, t, l, side)
      case Naming(b, target) => Name(s, t, b, target)
      case Allocating(target, id, capacity) => Allocate(s, t, target, id, capacity)
      case Built(target, ends) => Deliver(s, t, target, ends)
      case Ready(l, side) => Finish(s, t, l, side)
      case Panicked => s
  }

  function Run(threads: nat, events: seq<(nat, Choice)>): State {
    if events == [] then Start(threads)
    else
      var last := events[|events| - 1];
      Step(Run(threads, events[..|events| - 1]), last.0, last.1)
  }

  // ---- the invariant ----

  /** The lazy channel whose lock the thread holds. */
  function Holding(thread: Thread): Option<nat> {
    match thread
    case Locked(l, _) => Some(l)
    case Ready(l, _) => Some(l)
    case Naming(_, Some(x)) => Some(x.0)
    case Allocating(Some(x), _, _) => Some(x.0)
    case Built(Some(x), _) => Some(x.0)
    case _ => None
  }

  predicate Owns(owners: seq<Owner>, n: nat, o: Owner) {
    n < |owners| && owners[n] == o
  }

  predicate LazyOk(s: State, l: nat)
    requires l < |s.lazies|
  {
    var z := s.lazies[l];
    Owns(s.ids, z.packId, OfLazy(l))
    && (z.builder.Some? ==>
          z.builder.value.reserved == Some(z.packId) && z.builder.value.capacity == z.packCapacity && z.channel.None?)
    && (z.channel.Some? ==>
          z.channel.value.Joined() && z.channel.value.tx.id == z.packId
          && z.channel.value.tx.capacity == z.packCapacity
          && Owns(s.rings, z.channel.value.tx.ring, OfLazy(l)))
    && (z.lock.None? ==> z.builder.Some? || z.channel.Some?)
    && (z.lock.Some? ==> z.lock.value < |s.threads| && Holding(s.threads[z.lock.value]) == Some(l))
  }

  predicate Bare(s: State, l: nat) {
    l < |s.lazies| && s.lazies[l].builder.None? && s.lazies[l].channel.None?
  }

  predicate ThreadOk(s: State, t: nat)
    requires t < |s.threads|
  {
    var thread := s.threads[t];
    (Holding(thread).Some? ==> Holding(thread).value < |s.lazies| && s.lazies[Holding(thread).value].lock == Some(t))
    && match thread
       case Making(c) => c < |s.calls| && s.calls[c].caller == t
       case Reserved(c, id) =>
         c < |s.calls| && s.calls[c].caller == t && |s.calls[c].made| < |s.calls[c].lanes|
         && Owns(s.ids, id, InFlight(t)) && Below(s, c, |s.calls[c].made|, id)
       case Locked(l, _) => l < |s.lazies| && (s.lazies[l].builder.Some? || s.lazies[l].channel.Some?)
       case Naming(b, None) => b.reserved == None
       case Naming(b, Some(x)) =>
         Bare(s, x.0) && b.reserved == Some(s.lazies[x.0].packId) && b.capacity == s.lazies[x.0].packCapacity
       case Allocating(None, id, _) => Owns(s.ids, id, InFlight(t))
       case Allocating(Some(x), id, capacity) =>
         Bare(s, x.0) && id == s.lazies[x.0].packId && capacity == s.lazies[x.0].packCapacity
       case Built(None, ends) =>
         ends.Joined() && Owns(s.ids, ends.tx.id, InFlight(t)) && Owns(s.rings, ends.tx.ring, InFlight(t))
       case Built(Some(x), ends) =>
         Bare(s, x.0) && ends.Joined() && ends.tx.id == s.lazies[x.0].packId
         && ends.tx.capacity == s.lazies[x.0].packCapacity && Owns(s.rings, ends.tx.ring, InFlight(t))
       case Ready(l, _) => l < |s.lazies| && s.lazies[l].channel.Some?
       case Idle => true
       case Panicked => false
  }

  /** The first `n` lanes of a call were named with ids below `id`. */
  predicate Below(s: State, c: nat, n: nat, id: nat) {
    c < |s.calls| && n <= |s.calls[c].made|
    && forall i :: 0 <= i < n ==> s.calls[c].made[i] < |s.lazies| && s.lazies[s.calls[c].made[i]].packId < id
  }

  /** Lane `i` of a call: its lazy belongs to the call and is named above all lanes before it. */
  predicate CallOk(s: State, c: nat)
    requires c < |s.calls|
  {
    var call := s.calls[c];
    |call.made| <= |call.lanes|
    && forall i :: 0 <= i < |call.made| ==> call.made[i] < |s.lazies| && LaneOk(s, c, i)
  }

  predicate LaneOk(s: State, c: nat, i: nat)
    requires c < |s.calls| && i < |s.calls[c].made| && s.calls[c].made[i] < |s.lazies|
  {
    i < |s.calls[c].lanes|
    && var z, b := s.lazies[s.calls[c].made[i]], s.calls[c].lanes[i];
    z.call == c && z.packCapacity == b.capacity && z.packGirth == (if b.girth < 1 then 1 else b.girth)
    && z.packBundleIndex == b.bundleIndex
    && Below(s, c, i, z.packId)
  }

  /** The thread is in the loop of this call. */
  predicate Working(thread: Thread, c: nat) {
    match thread
    case Making(call) => call == c
    case Reserved(call, _) => call == c
    case _ => false
  }

  /** A call that its caller has left has made all its lanes. */
  predicate Closed(s: State, c: nat)
    requires c < |s.calls|
  {
    var call := s.calls[c];
    call.caller < |s.threads| && (|call.made| == |call.lanes| || Working(s.threads[call.caller], c))
  }

  predicate HandedOk(s: State, h: Handed) {
    h.lazy < |s.lazies| && s.lazies[h.lazy].channel.Some? && h.end == s.lazies[h.lazy].channel.value.Of(h.side)
  }

  predicate EagerOk(s: State, e: nat)
    requires e < |s.eagers|
  {
    var ends := s.eagers[e];
    ends.Joined() && Owns(s.ids, ends.tx.id, OfEager(e)) && Owns(s.rings, ends.tx.ring, OfEager(e))
  }

  predicate Inv(s: State) {
    (forall l :: 0 <= l < |s.lazies| ==> LazyOk(s, l))
    && (forall t :: 0 <= t < |s.threads| ==> ThreadOk(s, t))
    && (forall c :: 0 <= c < |s.calls| ==> CallOk(s, c) && Closed(s, c))
    && (forall e :: 0 <= e < |s.eagers| ==> EagerOk(s, e))
    && forall i :: 0 <= i < |s.handed| ==> HandedOk(s, s.handed[i])
  }

  // ---- the invariant is inductive ----

  /** What a step of thread `t` leaves alone: only lazy `l`, whose lock is free or its own, only its
      own calls, and only numbers it has in flight change; nothing already established does. */
  predicate Touches(s: State, s': State, t: nat, l: Option<nat>) {
    t < |s.threads| == |s'.threads| && (Holding(s.threads[t]).Some? ==> l == Holding(s.threads[t]))
    && (forall u :: 0 <= u < |s.threads| && u != t ==> s'.threads[u] == s.threads[u])
    && (l.Some? ==> l.value < |s.lazies| && s.lazies[l.value].lock in {None, Some(t)})
    && |s.lazies| <= |s'.lazies|
    && (forall k :: 0 <= k < |s.lazies| ==> SameLazy(s.lazies[k], s'.lazies[k], l == Some(k)))
    && SameOwners(s.ids, s'.ids, t) && SameOwners(s.rings, s'.rings, t)
    && |s.calls| <= |s'.calls|
    && (forall c :: 0 <= c < |s.calls| && s.calls[c].caller != t ==> s'.calls[c] == s.calls[c])
    && s.eagers <= s'.eagers && s.handed <= s'.handed
  }

  predicate SameLazy(z: Lazy, z': Lazy, touched: bool) {
    (if touched then z' == z.(builder := z'.builder, channel := z'.channel, lock := z'.lock) else z' == z)
    && (z.channel.Some? ==> z'.channel == z.channel)
  }

  predicate SameOwners(owners: seq<Owner>, owners': seq<Owner>, t: nat) {
    |owners| <= |owners'| && forall n :: 0 <= n < |owners| && owners[n] != InFlight(t) ==> owners'[n] == owners[n]
  }

  lemma OtherThread(s: State, s': State, t: nat, l: Option<nat>, u: nat)
    requires Touches(s, s', t, l) && u < |s.threads| && u != t && ThreadOk(s, u)
    ensures ThreadOk(s', u)
  {
    var thread := s.threads[u];
    assert s'.threads[u] == thread;
    if Holding(thread).Some? {
      var k := Holding(thread).value;
      assert SameLazy(s.lazies[k], s'.lazies[k], l == Some(k));
    }
  }

  lemma OtherLazy(s: State, s': State, t: nat, l: Option<nat>, k: nat)
    requires Touches(s, s', t, l) && k < |s.lazies| && l != Some(k) && LazyOk(s, k)
    ensures LazyOk(s', k)
  {
    assert SameLazy(s.lazies[k], s'.lazies[k], l == Some(k));
  }

  lemma SameCall(s: State, s': State, t: nat, l: Option<nat>, c: nat)
    requires Touches(s, s', t, l) && c < |s.calls| && s'.calls[c] == s.calls[c] && CallOk(s, c)
    ensures CallOk(s', c)
  {
    forall i | 0 <= i < |s.calls[c].made|
      ensures s.calls[c].made[i] < |s'.lazies| && LaneOk(s', c, i)
    {
      assert s.calls[c].made[i] < |s.lazies| && LaneOk(s, c, i);
      LaneStays(s, s', t, l, c, i);
    }
  }

  lemma OtherCall(s: State, s': State, t: nat, l: Option<nat>, c: nat)
    requires Touches(s, s', t, l) && c < |s.calls| && s.calls[c].caller != t && Closed(s, c)
    ensures Closed(s', c)
  {
  }

  /** A step of a thread leaves all its calls closed: the others were, and the one it is in goes on or is done. */
  lemma OwnCallsClosed(s: State, s': State, t: nat)
    requires Inv(s) && t < |s.threads| && |s'.threads| == |s.threads| && |s.calls| <= |s'.calls|
    requires forall c :: 0 <= c < |s.calls| && !Working(s.threads[t], c) ==> s'.calls[c] == s.calls[c]
    requires forall c :: 0 <= c < |s'.calls| && s'.calls[c].caller == t
                         && (|s.calls| <= c || Working(s.threads[t], c)) ==>
                           Working(s'.threads[t], c) || |s'.calls[c].made| == |s'.calls[c].lanes|
    ensures forall c :: 0 <= c < |s'.calls| && s'.calls[c].caller == t ==> Closed(s', c)
  {
    forall c | 0 <= c < |s'.calls| && s'.calls[c].caller == t
      ensures Closed(s', c)
    {
      assert c < |s.calls| ==> Closed(s, c);
    }
  }

  lemma LaneStays(s: State, s': State, t: nat, l: Option<nat>, c: nat, i: nat)
    requires Touches(s, s', t, l) && c < |s.calls| && i < |s.calls[c].made| && s.calls[c].made[i] < |s.lazies|
    requires c < |s'.calls| && s.calls[c].made <= s'.calls[c].made && s'.calls[c].lanes == s.calls[c].lanes
    requires LaneOk(s, c, i)
    ensures LaneOk(s', c, i)
  {
    var k := s.calls[c].made[i];
    assert SameLazy(s.lazies[k], s'.lazies[k], l == Some(k));
    BelowStays(s, s', t, l, c, i, s.lazies[k].packId);
  }

  lemma BelowStays(s: State, s': State, t: nat, l: Option<nat>, c: nat, n: nat, id: nat)
    requires Touches(s, s', t, l) && Below(s, c, n, id)
    requires c < |s'.calls| && s.calls[c].made <= s'.calls[c].made
    ensures Below(s', c, n, id)
  {
    forall i | 0 <= i < n
      ensures s'.calls[c].made[i] < |s'.lazies| && s'.lazies[s'.calls[c].made[i]].packId < id
    {
      var k := s.calls[c].made[i];
      assert SameLazy(s.lazies[k], s'.lazies[k], l == Some(k));
    }
  }

  lemma HandedStays(s: State, s': State, t: nat, l: Option<nat>, h: Handed)
    requires Touches(s, s', t, l) && HandedOk(s, h)
    ensures HandedOk(s', h)
  {
    assert SameLazy(s.lazies[h.lazy], s'.lazies[h.lazy], l == Some(h.lazy));
  }

  /** What is left to show of a step: the thread itself, the lazy it holds, and whatever is new. */
  predicate News(s: State, s': State, t: nat, l: Option<nat>)
    requires Touches(s, s', t, l)
  {
    ThreadOk(s', t) && (l.Some? ==> LazyOk(s', l.value))
    && (forall k :: |s.lazies| <= k < |s'.lazies| ==> LazyOk(s', k))
    && (forall c :: 0 <= c < |s'.calls| ==> (c < |s.calls| && s'.calls[c] == s.calls[c]) || CallOk(s', c))
    && (forall c :: 0 <= c < |s'.calls| && s'.calls[c].caller == t ==> Closed(s', c))
    && (forall c :: |s.calls| <= c < |s'.calls| ==> s'.calls[c].caller == t)
    && (forall c :: 0 <= c < |s.calls| ==> s'.calls[c].caller == s.calls[c].caller)
    && (forall e :: |s.eagers| <= e < |s'.eagers| ==> EagerOk(s', e))
    && forall i :: |s.handed| <= i < |s'.handed| ==> HandedOk(s', s'.handed[i])
  }

  lemma NewsKeepsInv(s: State, s': State, t: nat, l: Option<nat>)
    requires Inv(s) && Touches(s, s', t, l) && News(s, s', t, l)
    ensures Inv(s')
  {
    hide Touches, LazyOk, ThreadOk, CallOk, HandedOk;
    assert |s'.threads| == |s.threads| && |s.lazies| <= |s'.lazies|
           && s.handed <= s'.handed && s.eagers <= s'.eagers by {
      Spread(s, s', t, l);
    }
    forall k | 0 <= k < |s'.lazies|
      ensures LazyOk(s', k)
    {
      if k < |s.lazies| && l != Some(k) {
        OtherLazy(s, s', t, l, k);
      }
    }
    forall u | 0 <= u < |s'.threads|
      ensures ThreadOk(s', u)
    {
      if u != t {
        OtherThread(s, s', t, l, u);
      }
    }
    forall c | 0 <= c < |s'.calls|
      ensures CallOk(s', c) && Closed(s', c)
    {
      if c < |s.calls| && s'.calls[c] == s.calls[c] {
        SameCall(s, s', t, l, c);
      }
      if c < |s.calls| && s.calls[c].caller != t {
        OtherCall(s, s', t, l, c);
      }
    }
    forall e | 0 <= e < |s'.eagers|
      ensures EagerOk(s', e)
    {
      if e < |s.eagers| {
        assert EagerOk(s, e);
        Spread(s, s', t, l);
      }
    }
    forall i | 0 <= i < |s'.handed|
      ensures HandedOk(s', s'.handed[i])
    {
      if i < |s.handed| {
        assert HandedOk(s, s.handed[i]);
        HandedStays(s, s', t, l, s.handed[i]);
      }
    }
  }

  lemma Spread(s: State, s': State, t: nat, l: Option<nat>)
    requires Touches(s, s', t, l)
    ensures |s'.threads| == |s.threads| && |s.lazies| <= |s'.lazies| && s.handed <= s'.handed && s.eagers <= s'.eagers
    ensures SameOwners(s.ids, s'.ids, t) && SameOwners(s.rings, s'.rings, t)
  {
  }

  lemma BeginKeepsInv(s: State, t: nat, c: Choice)
    requires Inv(s) && t < |s.threads| && s.threads[t].Idle?
    ensures Inv(Begin(s, t, c))
  {
    var s' := Begin(s, t, c);
    OwnCallsClosed(s, s', t);
    if c.Clone? {
      if c.lazy < |s.lazies| && s.lazies[c.lazy].lock == None {
        assert LazyOk(s, c.lazy);
        NewsKeepsInv(s, s', t, Some(c.lazy));
      }
    } else {
      NewsKeepsInv(s, s', t, None);
    }
  }

  lemma MakeKeepsInv(s: State, t: nat, c: nat)
    requires Inv(s) && t < |s.threads| && s.threads[t] == Making(c)
    ensures Inv(Make(s, t, c))
  {
    var s' := Make(s, t, c);
    assert ThreadOk(s, t) && CallOk(s, c);
    OwnCallsClosed(s, s', t);
    forall i | 0 <= i < |s.calls[c].made|
      ensures s.calls[c].made[i] < |s.lazies| && s.lazies[s.calls[c].made[i]].packId < |s.ids|
    {
      assert LazyOk(s, s.calls[c].made[i]);
    }
    NewsKeepsInv(s, s', t, None);
  }

  lemma ReserveKeepsInv(s: State, t: nat, c: nat, id: nat)
    requires Inv(s) && t < |s.threads| && s.threads[t] == Reserved(c, id)
    ensures Inv(Reserve(s, t, c, id))
  {
    var s', n := Reserve(s, t, c, id), |s.lazies|;
    assert ThreadOk(s, t) && CallOk(s, c);
    OwnCallsClosed(s, s', t);
    assert Touches(s, s', t, None);
    forall i | 0 <= i < |s'.calls[c].made|
      ensures s'.calls[c].made[i] < |s'.lazies| && LaneOk(s', c, i)
    {
      if i < |s.calls[c].made| {
        assert s.calls[c].made[i] < n && LaneOk(s, c, i);
        LaneStays(s, s', t, None, c, i);
      } else {
        BelowStays(s, s', t, None, c, i, id);
      }
    }
    NewsKeepsInv(s, s', t, None);
  }

  lemma CheckKeepsInv(s: State, t: nat, l: nat, side: Side)
    requires Inv(s) && t < |s.threads| && s.threads[t] == Locked(l, side)
    ensures Inv(Check(s, t, l, side))
  {
    assert ThreadOk(s, t) && LazyOk(s, l);
    OwnCallsClosed(s, Check(s, t, l, side), t);
    NewsKeepsInv(s, Check(s, t, l, side), t, Some(l));
  }

  lemma NameKeepsInv(s: State, t: nat, b: Builder, target: Option<(nat, Side)>)
    requires Inv(s) && t < |s.threads| && s.threads[t] == Naming(b, target)
    ensures Inv(Name(s, t, b, target))
  {
    assert ThreadOk(s, t);
    if target.Some? {
      assert LazyOk(s, target.value.0);
    }
    OwnCallsClosed(s, Name(s, t, b, target), t);
    NewsKeepsInv(s, Name(s, t, b, target), t, Holding(s.threads[t]));
  }

  lemma AllocateKeepsInv(s: State, t: nat, target: Option<(nat, Side)>, id: nat, capacity: Capacity)
    requires Inv(s) && t < |s.threads| && s.threads[t] == Allocating(target, id, capacity)
    ensures Inv(Allocate(s, t, target, id, capacity))
  {
    assert ThreadOk(s, t);
    if target.Some? {
      assert LazyOk(s, target.value.0);
    }
    OwnCallsClosed(s, Allocate(s, t, target, id, capacity), t);
    NewsKeepsInv(s, Allocate(s, t, target, id, capacity), t, Holding(s.threads[t]));
  }

  lemma DeliverKeepsInv(s: State, t: nat, target: Option<(nat, Side)>, ends: Ends)
    requires Inv(s) && t < |s.threads| && s.threads[t] == Built(target, ends)
    ensures Inv(Deliver(s, t, target, ends))
  {
    assert ThreadOk(s, t);
    if target.Some? {
      assert LazyOk(s, target.value.0);
    }
    OwnCallsClosed(s, Deliver(s, t, target, ends), t);
    NewsKeepsInv(s, Deliver(s, t, target, ends), t, Holding(s.threads[t]));
  }

  lemma FinishKeepsInv(s: State, t: nat, l: nat, side: Side)
    requires Inv(s) && t < |s.threads| && s.threads[t] == Ready(l, side)
    ensures Inv(Finish(s, t, l, side))
  {
    assert ThreadOk(s, t) && LazyOk(s, l);
    OwnCallsClosed(s, Finish(s, t, l, side), t);
    NewsKeepsInv(s, Finish(s, t, l, side), t, Some(l));
  }

  lemma StepKeepsInv(s: State, t: nat, c: Choice)
    requires Inv(s)
    ensures Inv(Step(s, t, c))
  {
    hide Inv, Begin, Make, Reserve, Check, Name, Allocate, Deliver, Finish;
    if t < |s.threads| {
      match s.threads[t]
      case Idle => BeginKeepsInv(s, t, c);
      case Making(call) => MakeKeepsInv(s, t, call);
      case Reserved(call, id) => ReserveKeepsInv(s, t, call, id);
      case Locked(l, side) => CheckKeepsInv(s, t, l, side);
      case Naming(b, target) => NameKeepsInv(s, t, b, target);
      case Allocating(target, id, capacity) => AllocateKeepsInv(s, t, target, id, capacity);
      case Built(target, ends) => DeliverKeepsInv(s, t, target, ends);
      case Ready(l, side) => FinishKeepsInv(s, t, l, side);
      case Panicked =>
    }
  }

  lemma {:induction false} EveryRunInv(threads: nat, events: seq<(nat, Choice)>)
    ensures Inv(Run(threads, events))
  {
    if events == [] {
    } else {
      var last := events[|events| - 1];
      EveryRunInv(threads, events[..|events| - 1]);
      StepKeepsInv(Run(threads, events[..|events| - 1]), last.0, last.1);
    }
  }

  // ---- what every interleaving guarantees ----

  /** Whenever a channel's lock is free, it is either still described or established, never both or neither. */
  lemma BuilderOrChannel(threads: nat, events: seq<(nat, Choice)>, l: nat)
    requires l < |Run(threads, events).lazies| && Run(threads, events).lazies[l].lock == None
    ensures Run(threads, events).lazies[l].builder.Some? <==> Run(threads, events).lazies[l].channel.None?
  {
    EveryRunInv(threads, events);
    assert LazyOk(Run(threads, events), l);
  }

  /** Neither panic of `get_tx_clone` and `get_rx_clone` is ever reached. */
  lemma NeverPanics(threads: nat, events: seq<(nat, Choice)>, t: nat)
    requires t < |Run(threads, events).threads|
    ensures Run(threads, events).threads[t] != Panicked
  {
    EveryRunInv(threads, events);
    assert ThreadOk(Run(threads, events), t);
  }

  /** All ends cloned from one lazy channel are of the side asked for and belong to one ring, of the capacity
      and with the id it was declared with; ends of different ones share neither ring nor id. */
  lemma ClonesAgree(threads: nat, events: seq<(nat, Choice)>, i: nat, j: nat)
    requires i < |Run(threads, events).handed| && j < |Run(threads, events).handed|
    ensures var s := Run(threads, events);
            var x, y := s.handed[i], s.handed[j];
            x.lazy < |s.lazies| && x.end.id == s.lazies[x.lazy].packId
            && x.end.side == x.side && x.end.capacity == s.lazies[x.lazy].packCapacity
            && (x.end.ring == y.end.ring <==> x.lazy == y.lazy)
            && (x.end.id == y.end.id <==> x.lazy == y.lazy)
  {
    var s := Run(threads, events);
    EveryRunInv(threads, events);
    assert HandedOk(s, s.handed[i]) && HandedOk(s, s.handed[j]);
    assert LazyOk(s, s.handed[i].lazy) && LazyOk(s, s.handed[j].lazy);
  }

  /** No two channels, declared or built eagerly, share an id; no two established ones share a ring. */
  lemma NamesDistinct(threads: nat, events: seq<(nat, Choice)>)
    ensures var s := Run(threads, events);
            (forall k, l :: 0 <= k < l < |s.lazies| ==>
               s.lazies[k].packId != s.lazies[l].packId
               && (s.lazies[k].channel.Some? && s.lazies[l].channel.Some? ==>
                     s.lazies[k].channel.value.tx.ring != s.lazies[l].channel.value.tx.ring))
            && (forall d, e :: 0 <= d < e < |s.eagers| ==>
                  s.eagers[d].tx.id != s.eagers[e].tx.id && s.eagers[d].tx.ring != s.eagers[e].tx.ring)
            && (forall l, e :: 0 <= l < |s.lazies| && 0 <= e < |s.eagers| ==>
                  s.lazies[l].packId != s.eagers[e].tx.id
                  && (s.lazies[l].channel.Some? ==> s.lazies[l].channel.value.tx.ring != s.eagers[e].tx.ring))
  {
    hide LazyOk, EagerOk;
    var s := Run(threads, events);
    EveryRunInv(threads, events);
    forall l | 0 <= l < |s.lazies|
      ensures Owns(s.ids, s.lazies[l].packId, OfLazy(l))
      ensures s.lazies[l].channel.Some? ==> Owns(s.rings, s.lazies[l].channel.value.tx.ring, OfLazy(l))
    {
      LazyOwns(s, l);
    }
    forall e | 0 <= e < |s.eagers|
      ensures Owns(s.ids, s.eagers[e].tx.id, OfEager(e)) && Owns(s.rings, s.eagers[e].tx.ring, OfEager(e))
    {
      EagerOwns(s, e);
    }
  }

  lemma LazyOwns(s: State, l: nat)
    requires l < |s.lazies| && LazyOk(s, l)
    ensures Owns(s.ids, s.lazies[l].packId, OfLazy(l))
    ensures s.lazies[l].channel.Some? ==> Owns(s.rings, s.lazies[l].channel.value.tx.ring, OfLazy(l))
  {
  }

  lemma EagerOwns(s: State, e: nat)
    requires e < |s.eagers| && EagerOk(s, e)
    ensures Owns(s.ids, s.eagers[e].tx.id, OfEager(e)) && Owns(s.rings, s.eagers[e].tx.ring, OfEager(e))
  {
  }

  // ---- calls come to an end ----

  /** The end a thread is cloning. */
  function Wants(thread: Thread): Option<(nat, Side)> {
    match thread
    case Locked(l, side) => Some((l, side))
    case Naming(_, target) => target
    case Allocating(target, _, _) => target
    case Built(target, _) => target
    case Ready(l, side) => Some((l, side))
    case _ => None
  }

  /** A bound on the steps of a clone or an eager build yet to come. */
  function BuildRank(thread: Thread): nat {
    match thread
    case Locked(_, _) => 5
    case Naming(_, _) => 4
    case Allocating(_, _, _) => 3
    case Built(_, _) => 2
    case Ready(_, _) => 1
    case _ => 0
  }

  /** With every step of its own a cloning thread gets closer to handing out exactly one end, of the
      channel and the side it was asked for. */
  lemma CloneGoesOn(s: State, t: nat, c: Choice)
    requires Inv(s) && t < |s.threads| && Wants(s.threads[t]).Some?
    ensures var s', x := Step(s, t, c), Wants(s.threads[t]).value;
            t < |s'.threads|
            && (if s'.threads[t] == Idle
                then |s'.handed| == |s.handed| + 1 && s'.handed[..|s.handed|] == s.handed
                     && s'.handed[|s.handed|].lazy == x.0 && s'.handed[|s.handed|].side == x.1
                else Wants(s'.threads[t]) == Some(x) && s'.handed == s.handed
                     && BuildRank(s'.threads[t]) < BuildRank(s.threads[t]))
  {
    assert ThreadOk(s, t) && LazyOk(s, Wants(s.threads[t]).value.0);
  }

  /** A thread that clones can always start on a channel whose lock is free. */
  lemma CloneCanStart(s: State, t: nat, l: nat, side: Side)
    requires Inv(s) && t < |s.threads| && s.threads[t] == Idle && l < |s.lazies| && s.lazies[l].lock == None
    ensures Wants(Step(s, t, Clone(l, side)).threads[t]) == Some((l, side))
  {
  }

  /** An eager build ends in one more eager channel, of the capacity asked for. */
  lemma EagerGoesOn(s: State, t: nat, c: Choice)
    requires Inv(s) && t < |s.threads|
    requires var thread := s.threads[t];
             (thread.Naming? || thread.Allocating? || thread.Built?) && Wants(thread) == None
    ensures var s', thread := Step(s, t, c), s.threads[t];
            t < |s'.threads|
            && (if s'.threads[t] == Idle then thread.Built? && s'.eagers == s.eagers + [thread.ends]
                else Wants(s'.threads[t]) == None && s'.eagers == s.eagers && Asked(s'.threads[t]) == Asked(thread)
                     && BuildRank(s'.threads[t]) < BuildRank(thread))
  {
    assert ThreadOk(s, t);
  }

  /** The capacity a channel under construction was asked to have. */
  function Asked(thread: Thread): nat {
    match thread
    case Naming(b, _) => b.capacity
    case Allocating(_, _, capacity) => capacity
    case Built(_, ends) => ends.tx.capacity
    case _ => 0
  }

  function LanesLeft(call: Call): nat {
    if |call.made| <= |call.lanes| then |call.lanes| - |call.made| else 0
  }

  function MakeRank(s: State, t: nat): nat
    requires t < |s.threads|
  {
    match s.threads[t]
    case Making(c) => if c < |s.calls| then 2 * LanesLeft(s.calls[c]) + 2 else 1
    case Reserved(c, _) => if c < |s.calls| then 2 * LanesLeft(s.calls[c]) + 1 else 1
    case _ => 0
  }

  /** With every step of its own a building thread gets closer to the end of its call. */
  lemma BuildGoesOn(s: State, t: nat, c: Choice)
    requires Inv(s) && t < |s.threads| && (s.threads[t].Making? || s.threads[t].Reserved?)
    ensures t < |Step(s, t, c).threads| && MakeRank(Step(s, t, c), t) < MakeRank(s, t)
  {
    assert ThreadOk(s, t);
  }

  /** Nobody's step moves another thread. */
  lemma OthersStay(s: State, t: nat, u: nat, c: Choice)
    requires t < |s.threads| && u != t
    ensures |Step(s, u, c).threads| == |s.threads| && Step(s, u, c).threads[t] == s.threads[t]
  {
  }

  /** A build call its caller has returned from has made every lane it was asked for, and each of them is
      as asked. */
  lemma FinishedCallsAreWhole(threads: nat, events: seq<(nat, Choice)>, c: nat)
    requires var s := Run(threads, events);
             c < |s.calls| && s.calls[c].caller < |s.threads| && !Working(s.threads[s.calls[c].caller], c)
    ensures var s := Run(threads, events);
            |s.calls[c].made| == |s.calls[c].lanes|
            && forall i :: 0 <= i < |s.calls[c].made| ==> s.calls[c].made[i] < |s.lazies| && LaneOk(s, c, i)
  {
    EveryRunInv(threads, events);
    assert CallOk(Run(threads, events), c) && Closed(Run(threads, events), c);
  }

  // ---- bundle keys ----

  /** Call `c` built a whole bundle of at least two lanes. */
  predicate Bundled(s: State, c: nat, b: Builder, girth: nat) {
    c < |s.calls| && s.calls[c].lanes == Lanes(b, girth) && |s.calls[c].made| == girth > 1
    && forall i :: 0 <= i < girth ==> s.calls[c].made[i] < |s.lazies|
  }

  function LaneId(s: State, c: nat, i: nat): nat
    requires c < |s.calls| && i < |s.calls[c].made| && s.calls[c].made[i] < |s.lazies|
  {
    s.lazies[s.calls[c].made[i]].packId
  }

  function LaneKey(s: State, c: nat, i: nat): Option<nat>
    requires c < |s.calls| && i < |s.calls[c].made| && s.calls[c].made[i] < |s.lazies|
  {
    s.lazies[s.calls[c].made[i]].Key()
  }

  /** Nobody else drew an id between those of the first and the last lane. */
  predicate Uninterrupted(s: State, c: nat, b: Builder, girth: nat)
    requires Bundled(s, c, b, girth)
  {
    forall n :: LaneId(s, c, 0) <= n <= LaneId(s, c, girth - 1) ==> IsLaneId(s, c, girth, n)
  }

  predicate IsLaneId(s: State, c: nat, girth: nat, n: nat)
    requires c < |s.calls| && |s.calls[c].made| == girth
    requires forall i :: 0 <= i < girth ==> s.calls[c].made[i] < |s.lazies|
  {
    exists i :: 0 <= i < girth && LaneId(s, c, i) == n
  }

  lemma {:induction false} LaneIdsSpread(s: State, c: nat, b: Builder, girth: nat, i: nat, j: nat)
    requires Inv(s) && Bundled(s, c, b, girth) && i <= j < girth
    ensures LaneId(s, c, i) + (j - i) <= LaneId(s, c, j)
  {
    if i == j {
    } else {
      LaneIdsSpread(s, c, b, girth, i, j - 1);
      assert CallOk(s, c) && LaneOk(s, c, j) && Below(s, c, j, LaneId(s, c, j));
    }
  }

  lemma KeyOfLane(s: State, c: nat, b: Builder, girth: nat, i: nat)
    requires Inv(s) && Bundled(s, c, b, girth) && i < girth
    ensures i <= LaneId(s, c, i) && LaneKey(s, c, i) == Some(LaneId(s, c, i) - i)
  {
    assert CallOk(s, c) && LaneOk(s, c, i);
    LaneIdsSpread(s, c, b, girth, 0, i);
  }

  /** The ids are consecutive as soon as nobody else drew one in between. */
  lemma {:induction false} ConsecutiveIds(s: State, c: nat, b: Builder, girth: nat, i: nat)
    requires Inv(s) && Bundled(s, c, b, girth) && Uninterrupted(s, c, b, girth) && i < girth
    ensures LaneId(s, c, i) == LaneId(s, c, 0) + i
  {
    if i == 0 {
    } else {
      ConsecutiveIds(s, c, b, girth, i - 1);
      LaneIdsSpread(s, c, b, girth, i - 1, i);
      LaneIdsSpread(s, c, b, girth, i, girth - 1);
      var n := LaneId(s, c, 0) + i;
      assert IsLaneId(s, c, girth, n);
      var j :| 0 <= j < girth && LaneId(s, c, j) == n;
      if j < i {
        LaneIdsSpread(s, c, b, girth, j, i - 1);
      } else {
        LaneIdsSpread(s, c, b, girth, i, j);
      }
    }
  }

  /** The lanes of a bundle share one key, the id of its first lane, exactly when nobody else drew an
      id while it was being built. */
  lemma LanesShareKeyIff(threads: nat, events: seq<(nat, Choice)>, c: nat, b: Builder, girth: nat)
    requires Bundled(Run(threads, events), c, b, girth)
    ensures var s := Run(threads, events);
            Uninterrupted(s, c, b, girth)
            <==> forall i :: 0 <= i < girth ==> LaneKey(s, c, i) == Some(LaneId(s, c, 0))
    ensures var s := Run(threads, events);
            Uninterrupted(s, c, b, girth) <==> LaneKey(s, c, girth - 1) == LaneKey(s, c, 0)
  {
    var s := Run(threads, events);
    EveryRunInv(threads, events);
    hide Inv, Run, LaneId, LaneKey;
    KeyOfLane(s, c, b, girth, 0);
    KeyOfLane(s, c, b, girth, girth - 1);
    if Uninterrupted(s, c, b, girth) {
      forall i | 0 <= i < girth
        ensures LaneKey(s, c, i) == Some(LaneId(s, c, 0))
      {
        ConsecutiveIds(s, c, b, girth, i);
        KeyOfLane(s, c, b, girth, i);
      }
    } else if LaneKey(s, c, girth - 1) == LaneKey(s, c, 0) {
      NoRoomBetween(s, c, b, girth);
    }
  }

  lemma NoRoomBetween(s: State, c: nat, b: Builder, girth: nat)
    requires Inv(s) && Bundled(s, c, b, girth) && LaneId(s, c, girth - 1) == LaneId(s, c, 0) + girth - 1
    ensures Uninterrupted(s, c, b, girth)
  {
    forall n | LaneId(s, c, 0) <= n <= LaneId(s, c, girth - 1)
      ensures IsLaneId(s, c, girth, n)
    {
      var i := n - LaneId(s, c, 0);
      LaneIdsSpread(s, c, b, girth, 0, i);
      LaneIdsSpread(s, c, b, girth, i, girth - 1);
      assert LaneId(s, c, i) == n;
    }
  }

  /** Two bundles built without interruption never share a key. */
  lemma BundlesDiffer(threads: nat, events: seq<(nat, Choice)>, c: nat, b: Builder, m: nat, d: nat, e: Builder, n: nat,
                      i: nat, j: nat)
    requires c != d && i < m && j < n
    requires Bundled(Run(threads, events), c, b, m) && Uninterrupted(Run(threads, events), c, b, m)
    requires Bundled(Run(threads, events), d, e, n) && Uninterrupted(Run(threads, events), d, e, n)
    ensures LaneKey(Run(threads, events), c, i) != LaneKey(Run(threads, events), d, j)
  {
    hide Run, Step, Lanes;
    var s := Run(threads, events);
    EveryRunInv(threads, events);
    KeyOfLane(s, c, b, m, i);
    KeyOfLane(s, d, e, n, j);
    ConsecutiveIds(s, c, b, m, i);
    ConsecutiveIds(s, d, e, n, j);
    assert CallOk(s, c) && CallOk(s, d) && LaneOk(s, c, 0) && LaneOk(s, d, 0);
    assert LazyOk(s, s.calls[c].made[0]) && LazyOk(s, s.calls[d].made[0]);
  }

  lemma RunNext(threads: nat, events: seq<(nat, Choice)>, t: nat, c: Choice)
    ensures Run(threads, events + [(t, c)]) == Step(Run(threads, events), t, c)
  {
    assert (events + [(t, c)])[..|events|] == events;
  }

  lemma NextLane(threads: nat, events: seq<(nat, Choice)>, t: nat, c: nat, ch: Choice)
    requires var s := Run(threads, events);
             t < |s.threads| && s.threads[t] == Making(c) && c < |s.calls| && |s.calls[c].made| < |s.calls[c].lanes|
    ensures var s := Run(threads, events);
            var id, l, call := |s.ids|, |s.lazies|, s.calls[c];
            Run(threads, events + [(t, ch)] + [(t, ch)])
            == s.(ids := s.ids + [OfLazy(l)], lazies := s.lazies + [NewLazy(call.lanes[|call.made|], id, c)],
                  calls := s.calls[c := call.(made := call.made + [l])])
  {
    var s := Run(threads, events);
    RunNext(threads, events, t, ch);
    RunNext(threads, events + [(t, ch)], t, ch);
    assert s.threads[t := Reserved(c, |s.ids|)][t := Making(c)] == s.threads;
    assert (s.ids + [InFlight(t)])[|s.ids| := OfLazy(|s.lazies|)] == s.ids + [OfLazy(|s.lazies|)];
  }

  /** Two lanes of three, a whole bundle of two, the third lane. */
  function Interleaved(b: Builder): seq<(nat, Choice)> {
    var x, y := (0, Bundle(b, 3)), (1, Bundle(b, 2));
    FirstTwo(b) + [y] + [y] + [y] + [y] + [y] + [x] + [x]
  }

  function FirstTwo(b: Builder): seq<(nat, Choice)> {
    var x := (0, Bundle(b, 3));
    [] + [x] + [x] + [x] + [x] + [x]
  }

  lemma AfterFirstTwo(b: Builder)
    ensures var s := Run(2, FirstTwo(b));
            s.threads == [Making(0), Idle] && s.calls == [Call(0, Lanes(b, 3), [0, 1])]
            && |s.ids| == 2 && s.lazies == [NewLazy(Lanes(b, 3)[0], 0, 0), NewLazy(Lanes(b, 3)[1], 1, 0)]
  {
    hide Run, Step, Lanes, NewLazy;
    var x := (0, Bundle(b, 3));
    RunNone(2);
    BeginNext(2, [], 0, x.1);
    assert Run(2, [] + [x]).threads == [Making(0), Idle];
    NextLane(2, [] + [x], 0, 0, x.1);
    NextLane(2, [] + [x] + [x] + [x], 0, 0, x.1);
    assert Run(2, FirstTwo(b)).calls[0].made == [0, 1];
  }

  /** The condition is needed: when a bundle of two is built between lanes of a bundle of three, the
      last lane of the larger one falls on the key of the smaller one. */
  lemma InterruptedLaneCollides(b: Builder)
    ensures var s := Run(2, Interleaved(b));
            Bundled(s, 0, b, 3) && Bundled(s, 1, b, 2) && Uninterrupted(s, 1, b, 2)
            && LaneKey(s, 0, 2) == LaneKey(s, 1, 0) == Some(2)
  {
    hide Run, Step;
    var x, y, begun := (0, Bundle(b, 3)), (1, Bundle(b, 2)), FirstTwo(b);
    var both := begun + [y] + [y] + [y] + [y] + [y];
    AfterFirstTwo(b);
    BeginNext(2, begun, 1, y.1);
    assert Run(2, begun + [y]).threads == [Making(0), Making(1)];
    NextLane(2, begun + [y], 1, 1, y.1);
    NextLane(2, begun + [y] + [y] + [y], 1, 1, y.1);
    assert Run(2, both).calls[1].made == [2, 3];
    NextLane(2, both, 0, 0, x.1);
    var v := Run(2, Interleaved(b));
    assert v.calls[0].made == [0, 1, 4] && v.calls[1].made == [2, 3];
    assert LaneId(v, 1, 0) == 2 && LaneId(v, 1, 1) == 3 && LaneId(v, 0, 2) == 4;
  }

  lemma BeginNext(threads: nat, events: seq<(nat, Choice)>, t: nat, c: Choice)
    requires var s := Run(threads, events);
             t < |s.threads| && s.threads[t] == Idle
    ensures Run(threads, events + [(t, c)]) == Begin(Run(threads, events), t, c)
  {
    RunNext(threads, events, t, c);
  }

  lemma RunNone(threads: nat)
    ensures Run(threads, []) == Start(threads)
  {
  }
}

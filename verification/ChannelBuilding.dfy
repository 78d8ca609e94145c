/** The builders and the lazy channel as mutable objects, one thread at a time;
    `LazyChannels` interleaves the same calls. */
module ChannelBuilding {
  import opened Rings
  import opened LazyChannels

  /** What all builders of a graph share: the id counter. The ring counter stands for allocation. */
  class Graph {
    var channelCount: nat
    var ringCount: nat
    /** Every id and every ring given out so far. */
    ghost var named: set<nat>
    ghost var ringsOut: set<nat>

    ghost predicate Valid()
      reads this
    {
      (forall id :: id in named ==> id < channelCount) && forall ring :: ring in ringsOut ==> ring < ringCount
    }

    constructor ()
      ensures Valid() && named == {} && ringsOut == {} && channelCount == 0
    {
      channelCount, ringCount, named, ringsOut := 0, 0, {}, {};
    }

    /** `fetch_add`: an id nobody was given before. */
    method NextId() returns (id: nat)
      requires Valid()
      modifies this`channelCount, this`named
      ensures Valid() && id !in old(named) && named == old(named) + {id}
      ensures id == old(channelCount) && channelCount == id + 1
    {
      id := channelCount;
      channelCount := channelCount + 1;
      named := named + {id};
    }

    /** The id choice of `to_meta_data`: a reserved id is kept and nothing is drawn, otherwise the id is new. */
    method ToMetaData(b: Builder) returns (id: nat)
      requires Valid()
      modifies this`channelCount, this`named
      ensures Valid() && named == old(named) + if b.reserved.Some? then {} else {id}
      ensures if b.reserved.Some? then id == b.reserved.value && channelCount == old(channelCount)
              else id !in old(named) && id == old(channelCount) && channelCount == id + 1
    {
      match b.reserved
      case Some(r) => id := r;
      case None => id := NextId();
    }

    /** `eager_build`: both ends belong to one ring that no other channel has, and carry one id. */
    method EagerBuild(b: Builder) returns (ends: Ends)
      requires Valid()
      modifies this
      ensures Valid() && ends.Joined() && ends.tx.capacity == b.capacity
      ensures ends.tx.ring !in old(ringsOut) && ringsOut == old(ringsOut) + {ends.tx.ring}
      ensures named == old(named) + if b.reserved.Some? then {} else {ends.tx.id}
      ensures if b.reserved.Some? then ends.tx.id == b.reserved.value && channelCount == old(channelCount)
              else ends.tx.id !in old(named) && ends.tx.id == old(channelCount) && channelCount == ends.tx.id + 1
    {
      var id := ToMetaData(b);
      ends := Ends(End(Tx, ringCount, id, b.capacity), End(Rx, ringCount, id, b.capacity));
      ringsOut := ringsOut + {ringCount};
      ringCount := ringCount + 1;
    }
  }

  class LazyChannel {
    const graph: Graph
    const packId: nat
    const packCapacity: Capacity
    const packGirth: nat
    const packBundleIndex: Option<nat>
    var builder: Option<Builder>
    var channel: Option<Ends>

    /** Described or established, and named `packId` either way. */
    ghost predicate Valid()
      reads this
    {
      (builder.Some? <==> channel.None?)
      && (builder.Some? ==> builder.value.reserved == Some(packId) && builder.value.capacity == packCapacity)
      && (channel.Some? ==>
            channel.value.Joined() && channel.value.tx.id == packId && channel.value.tx.capacity == packCapacity)
    }

    function Key(): Option<nat> {
      BundleKey(packId, packGirth, packBundleIndex)
    }

    /** `LazyChannel::new`: reserves the next id, allocates no ring. */
    constructor (graph: Graph, b: Builder)
      requires graph.Valid()
      modifies graph`channelCount, graph`named
      ensures Valid() && graph.Valid() && channel == None && this.graph == graph
      ensures packId !in old(graph.named) && graph.named == old(graph.named) + {packId}
      ensures packId == old(graph.channelCount) && graph.channelCount == packId + 1
      ensures packCapacity == b.capacity && packBundleIndex == b.bundleIndex
      ensures packGirth == if b.girth < 1 then 1 else b.girth
    {
      var id := graph.NextId();
      this.graph, packId, packCapacity, packBundleIndex := graph, id, b.capacity, b.bundleIndex;
      packGirth := if b.girth < 1 then 1 else b.girth;
      builder, channel := Some(b.(reserved := Some(id))), None;
    }

    /** The establishing half of both `get_tx_clone` and `get_rx_clone`: the builder is there exactly
        when it is needed, a ring is allocated the first time only, and no new id is drawn. */
    method Establish() returns (ends: Ends)
      requires Valid() && graph.Valid()
      modifies this`builder, this`channel, graph
      ensures Valid() && graph.Valid() && channel == Some(ends) && ends.Joined() && ends.tx.id == packId
      ensures old(channel).Some? ==> channel == old(channel) && graph.ringsOut == old(graph.ringsOut)
      ensures old(channel).None? ==>
                ends.tx.ring !in old(graph.ringsOut) && graph.ringsOut == old(graph.ringsOut) + {ends.tx.ring}
      ensures graph.channelCount == old(graph.channelCount) && graph.named == old(graph.named)
    {
      if channel.None? {
        var b := builder.value;
        builder := None;
        var built := graph.EagerBuild(b);
        channel := Some(built);
      }
      ends := channel.value;
    }

    /** `get_tx_clone`: the transmitter of this channel's one ring. */
    method GetTxClone() returns (tx: End)
      requires Valid() && graph.Valid()
      modifies this`builder, this`channel, graph
      ensures Valid() && graph.Valid() && channel.Some? && tx == channel.value.tx
      ensures tx.side == Tx && tx.id == packId && tx.capacity == packCapacity
      ensures old(channel).Some? ==> channel == old(channel)
      ensures graph.channelCount == old(graph.channelCount)
    {
      var ends := Establish();
      tx := ends.tx;
    }

    /** `get_rx_clone`: the receiver of the same ring. */
    method GetRxClone() returns (rx: End)
      requires Valid() && graph.Valid()
      modifies this`builder, this`channel, graph
      ensures Valid() && graph.Valid() && channel.Some? && rx == channel.value.rx && rx.ring == channel.value.tx.ring
      ensures rx.side == Rx && rx.id == packId && rx.capacity == packCapacity
      ensures old(channel).Some? ==> channel == old(channel)
      ensures graph.channelCount == old(graph.channelCount)
    {
      var ends := Establish();
      rx := ends.rx;
    }
  }

  /** `build_channel_bundle`, with nobody else drawing ids: consecutive ids, so one key for all lanes. */
  method BuildChannelBundle(graph: Graph, b: Builder, girth: nat) returns (lanes: seq<LazyChannel>)
    requires graph.Valid()
    modifies graph`channelCount, graph`named
    ensures |lanes| == girth && graph.channelCount == old(graph.channelCount) + girth
    ensures graph.Valid() && forall i :: 0 <= i < girth ==> lanes[i].packId !in old(graph.named)
    ensures forall i :: 0 <= i < girth ==> fresh(lanes[i]) && lanes[i].Valid() && lanes[i].channel == None
    ensures forall i :: 0 <= i < girth ==>
              lanes[i].packId == old(graph.channelCount) + i && lanes[i].packCapacity == b.capacity
    ensures forall i :: 0 <= i < girth ==>
              lanes[i].Key() == if girth > 1 then Some(old(graph.channelCount)) else None
  {
    lanes := [];
    for i := 0 to girth
      invariant |lanes| == i && graph.channelCount == old(graph.channelCount) + i
      invariant graph.Valid() && old(graph.named) <= graph.named
      invariant forall j :: 0 <= j < i ==> lanes[j].packId !in old(graph.named)
      invariant forall j :: 0 <= j < i ==> fresh(lanes[j]) && lanes[j].Valid() && lanes[j].channel == None
      invariant forall j :: 0 <= j < i ==>
                  lanes[j].packId == old(graph.channelCount) + j && lanes[j].packCapacity == b.capacity
                  && lanes[j].packGirth == girth && lanes[j].packBundleIndex == Some(j)
    {
      var lane := new LazyChannel(graph, b.(bundleIndex := Some(i), girth := girth));
      lanes := lanes + [lane];
    }
  }
}

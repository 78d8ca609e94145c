/** How the code generator bundles channels: every channel joins the first group
    it agrees with. A first pass groups by source node; a second takes the
    channels left alone and groups them by target node. */
module RollUp {
  import opened Rings
  import opened NodeNames

  /** The generator's channel. `arrow` is not a field of the source: it is the position of the arrow the
      channel was read from, so that laws can name it. */
  datatype Channel = Channel(
    name: string, fromMod: string, toMod: string, messageType: string, peek: bool, copy: bool,
    batchRead: nat, batchWrite: nat, toNode: string, fromNode: string, isUnbundled: bool,
    capacity: nat, bundleIndex: int, rebundleIndex: int, bundleOnFrom: bool, arrow: nat)

  type Group = seq<Channel>

  /** The `group_by` predicates: of the actors' own lists, of the first and of the second pass. */
  datatype Rule = Anything | SameFrom | SameTo

  predicate Accepts(rule: Rule, t: Channel, g: Group) {
    match rule
    case Anything => true
    case SameFrom => forall k :: 0 <= k < |g| ==> g[k].fromNode == t.fromNode
    case SameTo => forall k :: 0 <= k < |g| ==> g[k].toNode == t.toNode
  }

  predicate Matches(g: Group, t: Channel, rule: Rule)
    requires g != []
  {
    g[0].name == t.name && g[0].capacity == t.capacity && g[0].messageType == t.messageType && Accepts(rule, t, g)
  }

  predicate NonEmpty(groups: seq<Group>) {
    forall i :: 0 <= i < |groups| ==> groups[i] != []
  }

  lemma MatchesAlike(g: Group, t: Channel, rule: Rule)
    requires g != [] && Matches(g, t, rule)
    ensures g[0].name == t.name && g[0].capacity == t.capacity && g[0].messageType == t.messageType
  {
  }

  function FirstMatch(groups: seq<Group>, t: Channel, rule: Rule): (r: Option<nat>)
    requires NonEmpty(groups)
    ensures r.Some? ==> r.value < |groups| && Matches(groups[r.value], t, rule)
    ensures forall j :: 0 <= j < (if r.Some? then r.value else |groups|) ==> !Matches(groups[j], t, rule)
  {
    if groups == [] then None
    else
      var n := |groups| - 1;
      match FirstMatch(groups[..n], t, rule)
      case Some(i) => Some(i)
      case None => if Matches(groups[n], t, rule) then Some(n) else None
  }

  // ---- one insertion ----

  /** What joining does to the member at position `k`: the copy flag is shared, indices are either
      renumbered or marked as a bundle's, and a match on the target marks the whole group. */
  function Member(c: Channel, copy: bool, k: nat, index: bool, rule: Rule): Channel {
    c.(copy := copy, bundleIndex := if index then k else -1, rebundleIndex := if index then k else c.rebundleIndex,
    bundleOnFrom := rule != SameTo && c.bundleOnFrom)
  }

  function Joined(g: Group, t: Channel, index: bool, rule: Rule): (r: Group)
    requires g != []
    ensures |r| == |g| + 1
  {
    var all := g + [t];
    seq(|all|, k requires 0 <= k < |all| =>
      Member(all[k], if t.copy == g[0].copy then all[k].copy else k == |g| || !g[0].copy || g[k].copy, k, index, rule))
  }

  /** A channel that starts a group; only in an empty collection, a loop onto the same module and the
      same stem is marked as not to be bundled. */
  function Alone(t: Channel, first: bool): Channel {
    t.(bundleIndex := 0,
    isUnbundled := t.isUnbundled
                   || (first && t.fromMod == t.toMod && Extracted(t.fromNode).0 == Extracted(t.toNode).0))
  }

  function RollUp(groups: seq<Group>, t: Channel, index: bool, rule: Rule): (r: seq<Group>)
    requires NonEmpty(groups)
    ensures NonEmpty(r)
  {
    match FirstMatch(groups, t, rule)
    case Some(i) => groups[i := Joined(groups[i], t, index, rule)]
    case None => groups + [[Alone(t, groups == [])]]
  }

  /** Both node names are one stem, followed by instance numbers or by nothing. */
  ghost predicate SameStem(c: Channel) {
    exists stem :: IsStem(c.fromNode, stem) && IsStem(c.toNode, stem)
  }

  /** A channel that starts the very first group is marked as not to be bundled exactly if it was before,
      or if it loops within one module and one stem. */
  lemma FirstUnbundledIff(t: Channel, index: bool, rule: Rule)
    ensures RollUp([], t, index, rule) == [[Alone(t, true)]]
    ensures Alone(t, true).isUnbundled <==> t.isUnbundled || (t.fromMod == t.toMod && SameStem(t))
  {
    var a, b := Extracted(t.fromNode).0, Extracted(t.toNode).0;
    StemIff(t.fromNode, a);
    StemIff(t.toNode, b);
    forall stem
      ensures IsStem(t.fromNode, stem) <==> stem == a
      ensures IsStem(t.toNode, stem) <==> stem == b
    {
      StemIff(t.fromNode, stem);
      StemIff(t.toNode, stem);
    }
  }

  /** Where rolling up puts a channel. */
  function Place(groups: seq<Group>, t: Channel, rule: Rule): nat
    requires NonEmpty(groups)
  {
    match FirstMatch(groups, t, rule)
    case Some(i) => i
    case None => |groups|
  }

  /** With groups there already nobody's mark changes, and the new channel keeps its own. */
  lemma LaterMarksStay(groups: seq<Group>, t: Channel, index: bool, rule: Rule)
    requires NonEmpty(groups) && groups != []
    ensures var r, at := RollUp(groups, t, index, rule), Place(groups, t, rule);
            at < |r| && r[at][|r[at]| - 1].isUnbundled == t.isUnbundled
    ensures var r := RollUp(groups, t, index, rule);
            |groups| <= |r|
            && forall i, k :: 0 <= i < |groups| && 0 <= k < |groups[i]| ==>
                                k < |r[i]| && r[i][k].isUnbundled == groups[i][k].isUnbundled
  {
    hide Matches, Extracted, Joined;
    match FirstMatch(groups, t, rule)
    case Some(i) => JoinedMarks(groups[i], t, index, rule);
    case None =>
  }

  lemma JoinedMarks(g: Group, t: Channel, index: bool, rule: Rule)
    requires g != []
    ensures var r := Joined(g, t, index, rule);
            r[|g|].isUnbundled == t.isUnbundled && forall k :: 0 <= k < |g| ==> r[k].isUnbundled == g[k].isUnbundled
  {
  }

  /** The two passes. */
  function FromGroups(channels: seq<Channel>): (r: seq<Group>)
    ensures NonEmpty(r)
  {
    if channels == [] then []
    else
      var n := |channels| - 1;
      RollUp(FromGroups(channels[..n]), channels[n], false, SameFrom)
  }

  function ToGroups(groups: seq<Group>): (r: seq<Group>)
    requires NonEmpty(groups)
    ensures NonEmpty(r)
  {
    if groups == [] then []
    else
      var n := |groups| - 1;
      var front, g := ToGroups(groups[..n]), groups[n];
      if |g| > 1 then front + [g] else RollUp(front, g[0], true, SameTo)
  }

  // ---- conservation ----

  /** A channel without the fields that grouping sets. */
  function Core(c: Channel): Channel {
    c.(copy := false, isUnbundled := false, bundleIndex := -1, rebundleIndex := -1, bundleOnFrom := true)
  }

  function Cores(g: Group): seq<Channel> {
    seq(|g|, k requires 0 <= k < |g| => Core(g[k]))
  }

  function AllCores(groups: seq<Group>): multiset<Channel> {
    if groups == [] then multiset{}
    else AllCores(groups[..|groups| - 1]) + multiset(Cores(groups[|groups| - 1]))
  }

  lemma {:induction false} AllCoresUpdate(groups: seq<Group>, i: nat, g: Group, c: Channel)
    requires i < |groups| && Cores(g) == Cores(groups[i]) + [c]
    ensures AllCores(groups[i := g]) == AllCores(groups) + multiset{c}
  {
    var n := |groups| - 1;
    if i < n {
      AllCoresUpdate(groups[..n], i, g, c);
      assert groups[i := g][..n] == groups[..n][i := g];
    } else {
      assert groups[i := g][..n] == groups[..n];
    }
  }

  lemma JoinedCores(g: Group, t: Channel, index: bool, rule: Rule)
    requires g != []
    ensures Cores(Joined(g, t, index, rule)) == Cores(g) + [Core(t)]
  {
  }

  lemma AloneCore(t: Channel, first: bool)
    ensures Core(Alone(t, first)) == Core(t)
  {
    hide Extracted;
  }

  /** Rolling a channel up adds exactly that channel. */
  lemma RollUpConserves(groups: seq<Group>, t: Channel, index: bool, rule: Rule)
    requires NonEmpty(groups)
    ensures AllCores(RollUp(groups, t, index, rule)) == AllCores(groups) + multiset{Core(t)}
  {
    hide Joined, Alone, Core, Matches;
    match FirstMatch(groups, t, rule)
    case Some(i) =>
      JoinedCores(groups[i], t, index, rule);
      AllCoresUpdate(groups, i, Joined(groups[i], t, index, rule), Core(t));
    case None =>
      var r := RollUp(groups, t, index, rule);
      assert r[..|groups|] == groups;
      AloneCore(t, groups == []);
      assert Cores(r[|groups|]) == [Core(t)];
  }

  lemma {:induction false} FromGroupsConserve(channels: seq<Channel>)
    ensures AllCores(FromGroups(channels)) == multiset(Cores(channels))
  {
    hide RollUp, Core;
    if channels == [] {
      assert Cores(channels) == [];
    } else {
      var n := |channels| - 1;
      FromGroupsConserve(channels[..n]);
      RollUpConserves(FromGroups(channels[..n]), channels[n], false, SameFrom);
      assert Cores(channels) == Cores(channels[..n]) + [Core(channels[n])];
    }
  }

  lemma {:induction false} ToGroupsConserve(groups: seq<Group>)
    requires NonEmpty(groups)
    ensures AllCores(ToGroups(groups)) == AllCores(groups)
  {
    hide RollUp, Core;
    if groups == [] {
    } else {
      var n := |groups| - 1;
      var front, g := ToGroups(groups[..n]), groups[n];
      ToGroupsConserve(groups[..n]);
      if |g| > 1 {
        assert (front + [g])[..|front|] == front;
      } else {
        RollUpConserves(front, g[0], true, SameTo);
        assert Cores(g) == [Core(g[0])];
      }
    }
  }

  // ---- what a group agrees on ----

  predicate Alike(c: Channel, d: Channel) {
    c.name == d.name && c.capacity == d.capacity && c.messageType == d.messageType
  }

  /** Channels of a group agree on name, capacity, type, copy and `bundleOnFrom`. Grouped on the source
      they share it and no index is given out; grouped on the target they share that and are numbered. */
  predicate Uniform(g: Group) {
    g != []
    && (forall k :: 0 <= k < |g| ==> UniformAt(g, k))
  }

  predicate UniformAt(g: Group, k: nat)
    requires k < |g|
  {
    var c := g[k];
    Alike(c, g[0]) && c.copy == g[0].copy && c.bundleOnFrom == g[0].bundleOnFrom
    && (if g[0].bundleOnFrom
        then c.fromNode == g[0].fromNode && c.bundleIndex == (if |g| > 1 then -1 else 0) && c.rebundleIndex == -1
        else |g| > 1 && c.toNode == g[0].toNode && c.bundleIndex == c.rebundleIndex == k)
  }

  predicate AllUniform(groups: seq<Group>) {
    forall i :: 0 <= i < |groups| ==> Uniform(groups[i])
  }

  /** As a channel is when it is read: nobody has grouped it yet. */
  predicate Fresh(c: Channel) {
    c.bundleOnFrom && c.rebundleIndex == -1 && !c.isUnbundled
  }

  predicate AllFresh(channels: seq<Channel>) {
    forall k :: 0 <= k < |channels| ==> Fresh(channels[k])
  }

  lemma JoinedFromUniform(g: Group, t: Channel)
    requires Uniform(g) && g[0].bundleOnFrom && t.bundleOnFrom && t.rebundleIndex == -1 && Matches(g, t, SameFrom)
    ensures Uniform(Joined(g, t, false, SameFrom)) && Joined(g, t, false, SameFrom)[0].bundleOnFrom
  {
    var r := Joined(g, t, false, SameFrom);
    assert UniformAt(g, 0);
    forall k | 0 <= k < |r|
      ensures UniformAt(r, k)
    {
      assert k < |g| ==> UniformAt(g, k);
    }
  }

  lemma JoinedToUniform(g: Group, t: Channel)
    requires Uniform(g) && Matches(g, t, SameTo)
    ensures Uniform(Joined(g, t, true, SameTo))
  {
    var r := Joined(g, t, true, SameTo);
    assert UniformAt(g, 0);
    forall k | 0 <= k < |r|
      ensures UniformAt(r, k)
    {
      assert k < |g| ==> UniformAt(g, k);
    }
  }

  /** What groups after the first pass have in common: all of them are grouped on the source. */
  predicate AllOnFrom(groups: seq<Group>) {
    AllUniform(groups) && forall i :: 0 <= i < |groups| ==> groups[i][0].bundleOnFrom
  }

  predicate SameFromKey(c: Channel, d: Channel) {
    Alike(c, d) && c.fromNode == d.fromNode
  }

  predicate SameToKey(c: Channel, d: Channel) {
    Alike(c, d) && c.toNode == d.toNode
  }

  /** No two groups could have been one. */
  predicate Separated(groups: seq<Group>)
    requires NonEmpty(groups)
  {
    forall i, j :: 0 <= i < j < |groups| ==> !SameFromKey(groups[i][0], groups[j][0])
  }

  lemma MatchesFromIff(g: Group, t: Channel)
    requires Uniform(g) && g[0].bundleOnFrom
    ensures Matches(g, t, SameFrom) <==> SameFromKey(g[0], t)
  {
    if SameFromKey(g[0], t) {
      forall k | 0 <= k < |g|
        ensures g[k].fromNode == t.fromNode
      {
        assert UniformAt(g, k);
      }
    }
  }

  lemma {:induction false} FromGroupsUniform(channels: seq<Channel>)
    requires AllFresh(channels)
    ensures AllOnFrom(FromGroups(channels)) && Separated(FromGroups(channels))
  {
    hide RollUp, Matches, Uniform, Joined;
    if channels == [] {
    } else {
      var n := |channels| - 1;
      FromGroupsUniform(channels[..n]);
      FromStep(FromGroups(channels[..n]), channels[n]);
    }
  }

  lemma FromStep(groups: seq<Group>, t: Channel)
    requires NonEmpty(groups) && AllOnFrom(groups) && Separated(groups) && t.bundleOnFrom && t.rebundleIndex == -1
    ensures AllOnFrom(RollUp(groups, t, false, SameFrom)) && Separated(RollUp(groups, t, false, SameFrom))
  {
    hide Matches, Uniform, Extracted, Joined;
    var r := RollUp(groups, t, false, SameFrom);
    match FirstMatch(groups, t, SameFrom)
    case Some(i) =>
      JoinedFromUniform(groups[i], t);
      JoinedHead(groups[i], t, false, SameFrom);
    case None =>
      AloneUniform(t, groups == []);
      forall j | 0 <= j < |groups|
        ensures !SameFromKey(groups[j][0], t)
      {
        MatchesFromIff(groups[j], t);
      }
  }

  lemma AloneUniform(t: Channel, first: bool)
    requires t.bundleOnFrom && t.rebundleIndex == -1
    ensures Uniform([Alone(t, first)]) && Alone(t, first).bundleOnFrom
  {
    assert UniformAt([Alone(t, first)], 0);
  }

  lemma JoinedHead(g: Group, t: Channel, index: bool, rule: Rule)
    requires g != []
    ensures Core(Joined(g, t, index, rule)[0]) == Core(g[0])
  {
  }

  /** After the first pass two channels are in one group exactly when they agree on name, capacity,
      type and source node. */
  lemma FromGroupsIff(channels: seq<Channel>, i: nat, k: nat, j: nat, m: nat)
    requires AllFresh(channels)
    requires i < |FromGroups(channels)| && k < |FromGroups(channels)[i]|
    requires j < |FromGroups(channels)| && m < |FromGroups(channels)[j]|
    ensures i == j <==> SameFromKey(FromGroups(channels)[i][k], FromGroups(channels)[j][m])
  {
    FromGroupsUniform(channels);
    var groups := FromGroups(channels);
    SameFromHead(groups, i, k);
    SameFromHead(groups, j, m);
  }

  lemma SameFromHead(groups: seq<Group>, i: nat, k: nat)
    requires AllOnFrom(groups) && i < |groups| && k < |groups[i]|
    ensures SameFromKey(groups[i][k], groups[i][0])
  {
    assert Uniform(groups[i]) && UniformAt(groups[i], k);
  }

  // ---- the second pass ----

  lemma {:induction false} ToGroupsUniform(groups: seq<Group>)
    requires AllOnFrom(groups)
    ensures AllUniform(ToGroups(groups))
  {
    if groups == [] {
    } else {
      var n := |groups| - 1;
      var front, g := ToGroups(groups[..n]), groups[n];
      ToGroupsUniform(groups[..n]);
      if |g| == 1 {
        assert UniformAt(g, 0);
        match FirstMatch(front, g[0], SameTo)
        case Some(i) => JoinedToUniform(front[i], g[0]);
        case None => AloneUniform(g[0], front == []);
      }
    }
  }

  /** The channel was left alone by the first pass. */
  predicate WasSingle(groups: seq<Group>, c: Channel) {
    exists p :: 0 <= p < |groups| && |groups[p]| == 1 && Core(groups[p][0]) == Core(c)
  }

  /** The channel has the source key of one of the groups. */
  predicate CameFrom(groups: seq<Group>, c: Channel)
    requires NonEmpty(groups)
  {
    exists p :: 0 <= p < |groups| && SameFromKey(c, groups[p][0])
  }

  /** A former single sits in the first group it could go to. */
  predicate Placed(groups: seq<Group>, acc: seq<Group>, i: nat, k: nat)
    requires NonEmpty(groups) && NonEmpty(acc) && i < |acc| && k < |acc[i]|
  {
    var c := acc[i][k];
    CameFrom(groups, c) && (WasSingle(groups, c) ==> FirstMatch(acc, c, SameTo) == Some(i))
  }

  predicate AllPlaced(groups: seq<Group>, acc: seq<Group>)
    requires NonEmpty(groups) && NonEmpty(acc)
  {
    forall i, k :: 0 <= i < |acc| && 0 <= k < |acc[i]| ==> Placed(groups, acc, i, k)
  }

  lemma FirstMatchIs(groups: seq<Group>, t: Channel, rule: Rule, i: nat)
    requires NonEmpty(groups) && i < |groups| && Matches(groups[i], t, rule)
    requires forall j :: 0 <= j < i ==> !Matches(groups[j], t, rule)
    ensures FirstMatch(groups, t, rule) == Some(i)
  {
    var r := FirstMatch(groups, t, rule);
    assert r.Some? && r.value == i;
  }

  /** A member accepted for its target changes nothing for others looking for theirs. */
  lemma JoinedMatchesSame(g: Group, t: Channel, probe: Channel)
    requires g != [] && Matches(g, t, SameTo)
    ensures Matches(Joined(g, t, true, SameTo), probe, SameTo) <==> Matches(g, probe, SameTo)
  {
    var r := Joined(g, t, true, SameTo);
    assert forall k :: 0 <= k < |g| ==> r[k].toNode == g[k].toNode;
    assert r[|g|].toNode == t.toNode == g[0].toNode;
  }

  lemma CoreMatches(g: Group, c: Channel, d: Channel)
    requires g != [] && Core(c) == Core(d)
    ensures Matches(g, c, SameTo) <==> Matches(g, d, SameTo)
  {
  }

  lemma BundleNotSingle(groups: seq<Group>, n: nat, k: nat)
    requires AllOnFrom(groups) && NonEmpty(groups) && Separated(groups)
    requires n < |groups| && |groups[n]| > 1 && k < |groups[n]|
    ensures !WasSingle(groups[..n + 1], groups[n][k])
  {
    SameFromHead(groups, n, k);
    forall q | 0 <= q < n
      ensures Core(groups[q][0]) != Core(groups[n][k])
    {
      assert !SameFromKey(groups[q][0], groups[n][0]);
    }
  }

  lemma NewBundlePlaced(groups: seq<Group>, n: nat, acc: seq<Group>, i: nat, k: nat)
    requires AllOnFrom(groups) && Separated(groups) && n < |groups| && |groups[n]| > 1
    requires NonEmpty(acc) && AllPlaced(groups[..n], acc) && i <= |acc| && k < |(acc + [groups[n]])[i]|
    ensures Placed(groups[..n + 1], acc + [groups[n]], i, k)
  {
    hide Matches;
    var front, now, acc' := groups[..n], groups[..n + 1], acc + [groups[n]];
    var c := acc'[i][k];
    if i < |acc| {
      assert Placed(front, acc, i, k);
      var p :| 0 <= p < n && SameFromKey(c, front[p][0]);
      assert now[p] == front[p];
      if WasSingle(now, c) {
        var q :| 0 <= q < |now| && |now[q]| == 1 && Core(now[q][0]) == Core(c);
        assert front[q] == now[q];
        FirstMatchIs(acc', c, SameTo, i);
      }
    } else {
      SameFromHead(groups, n, k);
      assert now[n] == groups[n];
      BundleNotSingle(groups, n, k);
    }
  }

  /** Nobody's choice among the groups there were changes. */
  ghost predicate SameChoices(acc: seq<Group>, acc': seq<Group>)
    requires NonEmpty(acc) && NonEmpty(acc')
  {
    |acc| <= |acc'|
    && forall j, c :: 0 <= j < |acc| ==> (Matches(acc'[j], c, SameTo) <==> Matches(acc[j], c, SameTo))
  }

  lemma RollUpSameChoices(acc: seq<Group>, t: Channel)
    requires NonEmpty(acc)
    ensures SameChoices(acc, RollUp(acc, t, true, SameTo))
  {
    hide Matches, Joined, Extracted;
    var r := RollUp(acc, t, true, SameTo);
    forall j, c | 0 <= j < |acc|
      ensures Matches(r[j], c, SameTo) <==> Matches(acc[j], c, SameTo)
    {
      if FirstMatch(acc, t, SameTo) == Some(j) {
        JoinedMatchesSame(acc[j], t, c);
      }
    }
  }

  /** A member that was there before stays placed, whatever the other fields of it became. */
  lemma OldMemberPlaced(groups: seq<Group>, n: nat, acc: seq<Group>, acc': seq<Group>, i: nat, k: nat)
    requires AllOnFrom(groups) && Separated(groups) && n < |groups|
    requires NonEmpty(acc) && NonEmpty(acc') && SameChoices(acc, acc')
    requires i < |acc| && k < |acc[i]| && k < |acc'[i]| && Core(acc'[i][k]) == Core(acc[i][k])
    requires Placed(groups[..n], acc, i, k)
    ensures Placed(groups[..n + 1], acc', i, k)
  {
    hide Matches;
    var front, now := groups[..n], groups[..n + 1];
    var c, c' := acc[i][k], acc'[i][k];
    var p :| 0 <= p < n && SameFromKey(c, front[p][0]);
    assert now[p] == front[p] && SameFromKey(c', now[p][0]);
    if WasSingle(now, c') {
      var q :| 0 <= q < |now| && |now[q]| == 1 && Core(now[q][0]) == Core(c');
      assert SameFromKey(groups[p][0], groups[q][0]);
      assert front[q] == now[q];
      CoreMatches(acc[i], c, c');
      forall j | 0 <= j < i
        ensures !Matches(acc'[j], c', SameTo)
      {
        CoreMatches(acc[j], c, c');
      }
      FirstMatchIs(acc', c', SameTo, i);
    }
  }

  lemma NewSinglePlaced(groups: seq<Group>, n: nat, acc: seq<Group>, i: nat, k: nat)
    requires AllOnFrom(groups) && Separated(groups) && n < |groups| && |groups[n]| == 1
    requires NonEmpty(acc) && AllPlaced(groups[..n], acc)
    requires var r := RollUp(acc, groups[n][0], true, SameTo);
             i < |r| && k < |r[i]|
    ensures Placed(groups[..n + 1], RollUp(acc, groups[n][0], true, SameTo), i, k)
  {
    hide Matches, Extracted;
    var t, r := groups[n][0], RollUp(acc, groups[n][0], true, SameTo);
    var at := match FirstMatch(acc, t, SameTo) { case Some(x) => x case None => |acc| };
    RollUpSameChoices(acc, t);
    if i < |acc| && k < |acc[i]| {
      assert Placed(groups[..n], acc, i, k);
      OldMemberPlaced(groups, n, acc, r, i, k);
    } else {
      var c := r[i][k];
      assert i == at && Core(c) == Core(t);
      assert groups[..n + 1][n][0] == t && SameFromKey(c, t);
      NewMemberMatches(acc, t);
      CoreMatches(r[at], c, t);
      forall j | 0 <= j < at
        ensures !Matches(r[j], c, SameTo)
      {
        CoreMatches(r[j], c, t);
      }
      FirstMatchIs(r, c, SameTo, at);
    }
  }

  /** The group a channel is put into is one it matches. */
  lemma NewMemberMatches(acc: seq<Group>, t: Channel)
    requires NonEmpty(acc)
    ensures var r := RollUp(acc, t, true, SameTo);
            var at := match FirstMatch(acc, t, SameTo) { case Some(x) => x case None => |acc| };
            Matches(r[at], t, SameTo)
  {
    match FirstMatch(acc, t, SameTo)
    case Some(x) => JoinedMatchesSame(acc[x], t, t);
    case None =>
  }

  lemma {:induction false} ToGroupsPlaced(groups: seq<Group>, n: nat)
    requires AllOnFrom(groups) && Separated(groups) && n <= |groups|
    ensures AllPlaced(groups[..n], ToGroups(groups[..n]))
  {
    if n == 0 {
    } else {
      ToGroupsPlaced(groups, n - 1);
      var acc, now := ToGroups(groups[..n - 1]), groups[..n];
      assert now[..n - 1] == groups[..n - 1];
      assert ToGroups(now)
             == if |groups[n - 1]| > 1 then acc + [groups[n - 1]] else RollUp(acc, groups[n - 1][0], true, SameTo);
      forall i, k | 0 <= i < |ToGroups(now)| && 0 <= k < |ToGroups(now)[i]|
        ensures Placed(now, ToGroups(now), i, k)
      {
        if |groups[n - 1]| > 1 {
          NewBundlePlaced(groups, n - 1, acc, i, k);
        } else {
          NewSinglePlaced(groups, n - 1, acc, i, k);
        }
      }
    }
  }

  /** After the second pass two channels the first one left alone are in one group exactly when they
      agree on name, capacity, type and target node. */
  lemma ToGroupsIff(channels: seq<Channel>, i: nat, k: nat, j: nat, m: nat)
    requires AllFresh(channels)
    requires var r := ToGroups(FromGroups(channels));
             i < |r| && k < |r[i]| && j < |r| && m < |r[j]|
             && WasSingle(FromGroups(channels), r[i][k]) && WasSingle(FromGroups(channels), r[j][m])
    ensures var r := ToGroups(FromGroups(channels));
            i == j <==> SameToKey(r[i][k], r[j][m])
  {
    var groups := FromGroups(channels);
    var r := ToGroups(groups);
    var a, b := r[i][k], r[j][m];
    FromGroupsUniform(channels);
    ToGroupsUniform(groups);
    ToGroupsPlaced(groups, |groups|);
    assert groups[..|groups|] == groups;
    assert Placed(groups, r, i, k) && Placed(groups, r, j, m);
    assert Uniform(r[i]) && UniformAt(r[i], k) && Uniform(r[j]) && UniformAt(r[j], m);
    if SameToKey(a, b) {
      SameKeySameChoice(r, a, b);
    } else if i == j {
      SinglesApart(groups, a, b);
    }
  }

  lemma SameKeySameChoice(groups: seq<Group>, a: Channel, b: Channel)
    requires NonEmpty(groups) && SameToKey(a, b)
    ensures FirstMatch(groups, a, SameTo) == FirstMatch(groups, b, SameTo)
  {
    forall j | 0 <= j < |groups|
      ensures Matches(groups[j], a, SameTo) <==> Matches(groups[j], b, SameTo)
    {
    }
    if FirstMatch(groups, a, SameTo).Some? {
      FirstMatchIs(groups, b, SameTo, FirstMatch(groups, a, SameTo).value);
    }
  }

  /** Different singles differ in their source key. */
  lemma SinglesApart(groups: seq<Group>, a: Channel, b: Channel)
    requires NonEmpty(groups) && Separated(groups) && WasSingle(groups, a) && WasSingle(groups, b)
    ensures SameFromKey(a, b) ==> SameToKey(a, b)
  {
    var p :| 0 <= p < |groups| && |groups[p]| == 1 && Core(groups[p][0]) == Core(a);
    var q :| 0 <= q < |groups| && |groups[q]| == 1 && Core(groups[q][0]) == Core(b);
    if SameFromKey(a, b) {
      assert SameFromKey(groups[p][0], groups[q][0]) && SameFromKey(groups[q][0], groups[p][0]);
    }
  }

  /** A bundle of the first pass stays together, in order, at the front of a final group. */
  lemma {:induction false} BundlesStayWhole(groups: seq<Group>, p: nat)
    requires NonEmpty(groups) && p < |groups| && |groups[p]| > 1
    ensures exists i :: 0 <= i < |ToGroups(groups)| && Cores(groups[p]) <= Cores(ToGroups(groups)[i])
  {
    hide Matches, Extracted, Joined, Core;
    var n := |groups| - 1;
    var front, r := ToGroups(groups[..n]), ToGroups(groups);
    if p == n {
      assert r[|front|] == groups[p];
    } else {
      BundlesStayWhole(groups[..n], p);
      var i :| 0 <= i < |front| && Cores(groups[p]) <= Cores(front[i]);
      if |groups[n]| == 1 && FirstMatch(front, groups[n][0], SameTo) == Some(i) {
        JoinedCores(front[i], groups[n][0], true, SameTo);
      }
      assert Cores(groups[p]) <= Cores(r[i]);
    }
  }

  // ---- from the diagram to the groups ----

  datatype Actor = Actor(displayName: string, modName: string)

  /** One arrow of the diagram, its label already read. */
  datatype Edge = Edge(fromName: string, fromId: Option<nat>, toName: string, toId: Option<nat>, name: string,
                       messageType: string, peek: bool, copy: bool, batchRead: nat, batchWrite: nat, capacity: nat)

  function ModOf(actors: seq<Actor>, name: string): Option<string> {
    if actors == [] then None
    else if actors[0].displayName == name then Some(actors[0].modName)
    else ModOf(actors[1..], name)
  }

  function OrUnknown(m: Option<string>): string {
    match m
    case Some(name) => if name == "" then "unknown" else name
    case None => "unknown"
  }

  function ChannelOf(actors: seq<Actor>, e: Edge, arrow: nat): Channel {
    Channel(e.name, OrUnknown(ModOf(actors, e.fromName)), OrUnknown(ModOf(actors, e.toName)), e.messageType,
            e.peek, e.copy, e.batchRead, e.batchWrite, UnifiedName(e.toName, e.toId), UnifiedName(e.fromName, e.fromId),
            false, e.capacity, -1, -1, true, arrow)
  }

  /** The channels of the arrows that start at a known actor. */
  function Known(actors: seq<Actor>, edges: seq<Edge>): (r: seq<Channel>)
    ensures AllFresh(r)
  {
    if edges == [] then []
    else
      var n := |edges| - 1;
      var front := Known(actors, edges[..n]);
      if ModOf(actors, edges[n].fromName).Some? then front + [ChannelOf(actors, edges[n], n)] else front
  }

  /** The renumbering loops: consecutive indices, or the mark of a bundle. */
  method Number(g: Group, index: bool) returns (x: Group)
    ensures |x| == |g|
    ensures forall k :: 0 <= k < |g| ==>
              x[k] == g[k].(bundleIndex := if index then k else -1,
                            rebundleIndex := if index then k else g[k].rebundleIndex)
  {
    x := g;
    for i := 0 to |x|
      invariant |x| == |g|
      invariant forall k :: 0 <= k < |x| ==>
                  x[k] == if i <= k then g[k]
                          else g[k].(bundleIndex := if index then k else -1,
                                     rebundleIndex := if index then k else g[k].rebundleIndex)
    {
      x := x[i := if index then x[i].(rebundleIndex := i, bundleIndex := i) else x[i].(bundleIndex := -1)];
    }
  }

  /** What both sides become before the channel is added: a match on the target marks them all,
      capacity and copy are widened on whichever side lacks them. */
  method Widen(g: Group, insertMe: Channel, rule: Rule) returns (x: Group, t: Channel)
    requires g != []
    ensures |x| == |g|
    ensures forall k :: 0 <= k < |g| ==>
              x[k] == g[k].(capacity := if insertMe.capacity > g[0].capacity then insertMe.capacity else g[k].capacity,
                            copy := g[k].copy || (insertMe.copy && !g[0].copy),
                            bundleOnFrom := rule != SameTo && g[k].bundleOnFrom)
    ensures t == insertMe.(capacity := if insertMe.capacity > g[0].capacity then insertMe.capacity else g[0].capacity,
                           copy := insertMe.copy || g[0].copy,
                           bundleOnFrom := rule != SameTo && insertMe.bundleOnFrom)
  {
    x, t := g, insertMe;
    if rule == SameTo {
      t := t.(bundleOnFrom := false);
      x := seq(|x|, k requires 0 <= k < |x| => x[k].(bundleOnFrom := false));
    }
    if t.capacity > x[0].capacity {
      x := seq(|x|, k requires 0 <= k < |x| => x[k].(capacity := t.capacity));
    } else {
      t := t.(capacity := x[0].capacity);
    }
    if t.copy != x[0].copy {
      if x[0].copy {
        t := t.(copy := true);
      } else {
        x := seq(|x|, k requires 0 <= k < |x| => x[k].(copy := true));
      }
    }
  }

  /** The first branch of `roll_up_bundle`; a match means equal capacities, so those stay. */
  method Join(g: Group, insertMe: Channel, index: bool, rule: Rule) returns (r: Group)
    requires g != [] && Matches(g, insertMe, rule)
    ensures r == Joined(g, insertMe, index, rule)
  {
    hide Matches;
    assert g[0].capacity == insertMe.capacity by {
      MatchesAlike(g, insertMe, rule);
    }
    var x, t := Widen(g, insertMe, rule);
    r := Number(x + [t], index);
    ghost var expected := Joined(g, insertMe, index, rule);
    forall k | 0 <= k < |r|
      ensures r[k] == expected[k]
    {
      assert k < |g| ==> (x + [t])[k] == x[k];
    }
  }
}

/** What the two passes of `RollUp` come to for the arrows of a diagram: which
    arrows end up where, and what the generator's channels say about them. */
module DiagramLaws {
  import opened Rings
  import opened NodeNames
  import opened RollUp

  /** What `ProjectModel.BuildChannels` leaves. */
  function Bundles(actors: seq<Actor>, edges: seq<Edge>): (r: seq<Group>)
    ensures NonEmpty(r)
  {
    ToGroups(FromGroups(Known(actors, edges)))
  }

  ghost predicate HasActor(actors: seq<Actor>, name: string) {
    exists a :: 0 <= a < |actors| && actors[a].displayName == name
  }

  /** The module of the first actor of that display name; "unknown" if it has none or there is no such actor. */
  ghost predicate IsModule(actors: seq<Actor>, name: string, m: string) {
    if HasActor(actors, name) then
      exists a :: 0 <= a < |actors| && actors[a].displayName == name
                  && (forall b :: 0 <= b < a ==> actors[b].displayName != name)
                  && m == if actors[a].modName == "" then "unknown" else actors[a].modName
    else m == "unknown"
  }

  lemma {:induction false} FirstActor(actors: seq<Actor>, name: string) returns (a: nat)
    ensures HasActor(actors, name) <==> ModOf(actors, name).Some?
    ensures HasActor(actors, name) ==>
              a < |actors| && actors[a].displayName == name && ModOf(actors, name) == Some(actors[a].modName)
              && forall b :: 0 <= b < a ==> actors[b].displayName != name
  {
    a := 0;
    if actors == [] {
    } else if actors[0].displayName != name {
      var later := FirstActor(actors[1..], name);
      a := later + 1;
      if HasActor(actors, name) {
        var b :| 0 <= b < |actors| && actors[b].displayName == name;
        assert actors[1..][b - 1] == actors[b];
      }
      forall b | 0 <= b < a && HasActor(actors[1..], name)
        ensures actors[b].displayName != name
      {
        assert b > 0 ==> actors[b] == actors[1..][b - 1];
      }
    }
  }

  lemma ModuleRead(actors: seq<Actor>, name: string)
    ensures IsModule(actors, name, OrUnknown(ModOf(actors, name)))
    ensures HasActor(actors, name) <==> ModOf(actors, name).Some?
  {
    var a := FirstActor(actors, name);
  }

  // ---- from arrows to channels ----

  /** The node name is made of these parts and of no others. */
  predicate MadeOf(node: string, name: string, id: Option<nat>) {
    match id
    case Some(n) => n <= USIZE_MAX && !EndsInDigit(name) ==> Extracted(node) == (name, id)
    case None => !EndsInDigit(name) ==> Extracted(node) == (name, id)
  }

  /** The channel says what the arrow says. */
  ghost predicate Reads(actors: seq<Actor>, e: Edge, c: Channel) {
    c.name == e.name && c.messageType == e.messageType && c.capacity == e.capacity && c.peek == e.peek
    && c.batchRead == e.batchRead && c.batchWrite == e.batchWrite
    && MadeOf(c.fromNode, e.fromName, e.fromId) && MadeOf(c.toNode, e.toName, e.toId)
    && IsModule(actors, e.fromName, c.fromMod) && IsModule(actors, e.toName, c.toMod)
  }

  lemma PartsAgain(name: string, id: Option<nat>)
    ensures MadeOf(UnifiedName(name, id), name, id)
  {
    match id
    case Some(n) => if n <= USIZE_MAX { ApartAgainIff(name, n); }
    case None => PlainAgainIff(name);
  }

  lemma ChannelReads(actors: seq<Actor>, e: Edge, n: nat)
    ensures Reads(actors, e, ChannelOf(actors, e, n))
  {
    hide Extracted, IsModule, MadeOf;
    ModuleRead(actors, e.fromName);
    ModuleRead(actors, e.toName);
    PartsAgain(e.fromName, e.fromId);
    PartsAgain(e.toName, e.toId);
  }

  predicate ReadFrom(actors: seq<Actor>, edges: seq<Edge>, c: Channel) {
    c.arrow < |edges| && c == ChannelOf(actors, edges[c.arrow], c.arrow)
  }

  ghost predicate KnownAt(actors: seq<Actor>, edges: seq<Edge>, c: Channel) {
    ReadFrom(actors, edges, c) && HasActor(actors, edges[c.arrow].fromName)
  }

  predicate InArrowOrder(channels: seq<Channel>) {
    forall l, m :: 0 <= l < m < |channels| ==> channels[l].arrow < channels[m].arrow
  }

  lemma LongerDiagram(actors: seq<Actor>, edges: seq<Edge>, n: nat, c: Channel)
    requires n <= |edges| && KnownAt(actors, edges[..n], c)
    ensures KnownAt(actors, edges, c)
  {
  }

  /** The known channels, in the order of their arrows, each known arrow once. */
  lemma {:induction false} KnownAre(actors: seq<Actor>, edges: seq<Edge>)
    ensures forall m :: 0 <= m < |Known(actors, edges)| ==> KnownAt(actors, edges, Known(actors, edges)[m])
    ensures InArrowOrder(Known(actors, edges))
  {
    hide ChannelOf, HasActor, KnownAt;
    if edges == [] {
    } else {
      var n := |edges| - 1;
      KnownAre(actors, edges[..n]);
      var front, known := Known(actors, edges[..n]), Known(actors, edges);
      forall m | 0 <= m < |known|
        ensures KnownAt(actors, edges, known[m]) && (m < |front| ==> known[m].arrow < n)
      {
        if m < |front| {
          assert KnownAt(actors, edges[..n], front[m]);
          LongerDiagram(actors, edges, n, front[m]);
          ArrowBelow(actors, edges[..n], front[m]);
        } else {
          LastKnown(actors, edges);
        }
      }
      ArrowKept(actors, edges[n], n);
    }
  }

  lemma ArrowBelow(actors: seq<Actor>, edges: seq<Edge>, c: Channel)
    requires KnownAt(actors, edges, c)
    ensures c.arrow < |edges|
  {
  }

  lemma LastKnown(actors: seq<Actor>, edges: seq<Edge>)
    requires edges != [] && ModOf(actors, edges[|edges| - 1].fromName).Some?
    ensures KnownAt(actors, edges, ChannelOf(actors, edges[|edges| - 1], |edges| - 1))
  {
    ModuleRead(actors, edges[|edges| - 1].fromName);
  }

  lemma ArrowKept(actors: seq<Actor>, e: Edge, n: nat)
    ensures ChannelOf(actors, e, n).arrow == n
  {
  }

  lemma {:induction false} KnownHas(actors: seq<Actor>, edges: seq<Edge>, n: nat) returns (m: nat)
    requires n < |edges| && HasActor(actors, edges[n].fromName)
    ensures m < |Known(actors, edges)| && Known(actors, edges)[m].arrow == n
  {
    hide ChannelOf, HasActor;
    var last := |edges| - 1;
    ModuleRead(actors, edges[last].fromName);
    ArrowKept(actors, edges[last], last);
    if n == last {
      m := |Known(actors, edges[..last])|;
    } else {
      m := KnownHas(actors, edges[..last], n);
    }
  }

  // ---- members and cores ----

  lemma {:induction false} CoreIsMember(groups: seq<Group>, c: Channel)
    ensures c in AllCores(groups) <==>
            exists i, k :: 0 <= i < |groups| && 0 <= k < |groups[i]| && Core(groups[i][k]) == c
  {
    hide Core;
    if groups == [] {
    } else {
      var n := |groups| - 1;
      CoreIsMember(groups[..n], c);
      var cs := Cores(groups[n]);
      if c in AllCores(groups) {
        if c in multiset(cs) {
          var k :| 0 <= k < |cs| && cs[k] == c;
          assert Core(groups[n][k]) == c;
        } else {
          var i, k :| 0 <= i < n && 0 <= k < |groups[..n][i]| && Core(groups[..n][i][k]) == c;
          assert Core(groups[i][k]) == c;
        }
      }
      forall i, k | 0 <= i < |groups| && 0 <= k < |groups[i]| && Core(groups[i][k]) == c
        ensures c in AllCores(groups)
      {
        if i == n {
          assert cs[k] == c;
        } else {
          assert Core(groups[..n][i][k]) == c;
        }
      }
    }
  }

  /** The same core at two places is there twice. */
  lemma {:induction false} CountTwice(groups: seq<Group>, i: nat, k: nat, j: nat, m: nat)
    requires i < |groups| && k < |groups[i]| && j < |groups| && m < |groups[j]|
    requires i < j || (i == j && k < m)
    requires Core(groups[i][k]) == Core(groups[j][m])
    ensures AllCores(groups)[Core(groups[i][k])] >= 2
  {
    hide Core, AllCores;
    var n, c := |groups| - 1, Core(groups[i][k]);
    var cs := Cores(groups[n]);
    AllCoresStep(groups);
    if j < n {
      assert groups[..n][i] == groups[i] && groups[..n][j] == groups[j];
      CountTwice(groups[..n], i, k, j, m);
    } else if i == j {
      TwiceInSeq(cs, k, m);
    } else {
      CoreIsMember(groups[..n], c);
      assert Core(groups[..n][i][k]) == c && cs[m] == c;
    }
  }

  lemma AllCoresStep(groups: seq<Group>)
    requires groups != []
    ensures AllCores(groups) == AllCores(groups[..|groups| - 1]) + multiset(Cores(groups[|groups| - 1]))
  {
  }

  lemma TwiceInSeq<T>(xs: seq<T>, k: nat, m: nat)
    requires k < m < |xs| && xs[k] == xs[m]
    ensures multiset(xs)[xs[k]] >= 2
  {
    assert xs == xs[..m] + xs[m..];
    assert xs[..m][k] == xs[k] && xs[m..][0] == xs[k];
  }

  /** A channel that is there once is at one place. */
  lemma OnePlace(groups: seq<Group>, i: nat, k: nat, j: nat, m: nat)
    requires i < |groups| && k < |groups[i]| && j < |groups| && m < |groups[j]|
    requires Core(groups[i][k]) == Core(groups[j][m]) && AllCores(groups)[Core(groups[i][k])] <= 1
    ensures i == j && k == m
  {
    hide Core, AllCores;
    if i < j || (i == j && k < m) {
      CountTwice(groups, i, k, j, m);
    } else if j < i || m < k {
      CountTwice(groups, j, m, i, k);
    }
  }

  lemma {:induction false} DistinctOnce<T>(xs: seq<T>, x: T)
    requires forall l, m :: 0 <= l < m < |xs| ==> xs[l] != xs[m]
    ensures multiset(xs)[x] <= 1
  {
    if xs == [] {
    } else {
      var n := |xs| - 1;
      DistinctOnce(xs[..n], x);
      assert xs == xs[..n] + [xs[n]];
      if x == xs[n] {
        forall k | 0 <= k < n
          ensures xs[..n][k] != x
        {
        }
      }
    }
  }

  // ---- which arrows appear, and what is read from them ----

  lemma KnownOnce(actors: seq<Actor>, edges: seq<Edge>, c: Channel)
    ensures AllCores(Bundles(actors, edges)) == multiset(Cores(Known(actors, edges)))
    ensures AllCores(Bundles(actors, edges))[c] <= 1
  {
    hide RollUp.RollUp, ToGroups, FromGroups, AllCores;
    var known := Known(actors, edges);
    KnownAre(actors, edges);
    FromGroupsConserve(known);
    ToGroupsConserve(FromGroups(known));
    var cs := Cores(known);
    forall l, m | 0 <= l < m < |cs|
      ensures cs[l] != cs[m]
    {
      assert cs[l].arrow == known[l].arrow && cs[m].arrow == known[m].arrow;
    }
    DistinctOnce(cs, c);
  }

  lemma FinalIsKnown(actors: seq<Actor>, edges: seq<Edge>, i: nat, k: nat) returns (m: nat)
    requires i < |Bundles(actors, edges)| && k < |Bundles(actors, edges)[i]|
    ensures m < |Known(actors, edges)| && Core(Bundles(actors, edges)[i][k]) == Core(Known(actors, edges)[m])
  {
    hide Bundles, Core, AllCores, Known;
    var c := Core(Bundles(actors, edges)[i][k]);
    KnownOnce(actors, edges, c);
    CoreIsMember(Bundles(actors, edges), c);
    var cs := Cores(Known(actors, edges));
    assert c in cs;
    m :| 0 <= m < |cs| && cs[m] == c;
  }

  lemma KnownIsFinal(actors: seq<Actor>, edges: seq<Edge>, m: nat) returns (i: nat, k: nat)
    requires m < |Known(actors, edges)|
    ensures i < |Bundles(actors, edges)| && k < |Bundles(actors, edges)[i]|
    ensures Core(Bundles(actors, edges)[i][k]) == Core(Known(actors, edges)[m])
  {
    hide Bundles, Core, AllCores, Known;
    var c := Core(Known(actors, edges)[m]);
    KnownOnce(actors, edges, c);
    CoreIsMember(Bundles(actors, edges), c);
    assert Cores(Known(actors, edges))[m] == c;
    i, k :| 0 <= i < |Bundles(actors, edges)| && 0 <= k < |Bundles(actors, edges)[i]|
            && Core(Bundles(actors, edges)[i][k]) == c;
  }

  lemma CoreReads(actors: seq<Actor>, e: Edge, c: Channel, d: Channel)
    requires Core(c) == Core(d) && Reads(actors, e, d)
    ensures Reads(actors, e, c) && c.arrow == d.arrow
  {
    hide MadeOf, IsModule;
  }

  /** Every final channel says what one arrow says: its names, the parts of both node names, and the
      modules of the first actors of those names. */
  lemma ChannelsAreArrows(actors: seq<Actor>, edges: seq<Edge>, i: nat, k: nat)
    requires i < |Bundles(actors, edges)| && k < |Bundles(actors, edges)[i]|
    ensures var c := Bundles(actors, edges)[i][k];
            c.arrow < |edges| && Reads(actors, edges[c.arrow], c) && HasActor(actors, edges[c.arrow].fromName)
  {
    hide Bundles, Core, Known, Reads, ChannelOf, HasActor;
    var m := FinalIsKnown(actors, edges, i, k);
    var d: Channel := Known(actors, edges)[m];
    KnownAre(actors, edges);
    assert KnownAt(actors, edges, d);
    ChannelReads(actors, edges[d.arrow], d.arrow);
    CoreReads(actors, edges[d.arrow], Bundles(actors, edges)[i][k], d);
  }

  /** No arrow appears twice. */
  lemma ArrowOnce(actors: seq<Actor>, edges: seq<Edge>, i: nat, k: nat, j: nat, m: nat)
    requires var r := Bundles(actors, edges);
             i < |r| && k < |r[i]| && j < |r| && m < |r[j]| && r[i][k].arrow == r[j][m].arrow
    ensures i == j && k == m
  {
    hide Bundles, Known, ChannelOf;
    var x := FinalIsKnown(actors, edges, i, k);
    var y := FinalIsKnown(actors, edges, j, m);
    KnownAre(actors, edges);
    assert x == y;
    KnownOnce(actors, edges, Core(Known(actors, edges)[x]));
    OnePlace(Bundles(actors, edges), i, k, j, m);
  }

  ghost predicate Appears(groups: seq<Group>, n: nat) {
    exists i, k :: 0 <= i < |groups| && 0 <= k < |groups[i]| && groups[i][k].arrow == n
  }

  /** An arrow appears exactly when some actor carries the name it starts at. */
  lemma ArrowAppearsIff(actors: seq<Actor>, edges: seq<Edge>, n: nat)
    requires n < |edges|
    ensures Appears(Bundles(actors, edges), n) <==> HasActor(actors, edges[n].fromName)
  {
    hide Bundles, Known, HasActor;
    var r: seq<Group> := Bundles(actors, edges);
    if HasActor(actors, edges[n].fromName) {
      var m := KnownHas(actors, edges, n);
      var i, k := KnownIsFinal(actors, edges, m);
      assert r[i][k].arrow == n;
    } else if Appears(r, n) {
      var i, k :| 0 <= i < |r| && 0 <= k < |r[i]| && r[i][k].arrow == n;
      ChannelsAreArrows(actors, edges, i, k);
    }
  }

  // ---- which arrows share a group ----

  lemma FirstPassHas(actors: seq<Actor>, edges: seq<Edge>, i: nat, k: nat) returns (p: nat, x: nat)
    requires i < |Bundles(actors, edges)| && k < |Bundles(actors, edges)[i]|
    ensures var groups := FromGroups(Known(actors, edges));
            p < |groups| && x < |groups[p]| && Core(groups[p][x]) == Core(Bundles(actors, edges)[i][k])
  {
    hide RollUp.RollUp, FromGroups, ToGroups, Core, AllCores, Known;
    var groups, c := FromGroups(Known(actors, edges)), Core(Bundles(actors, edges)[i][k]);
    ToGroupsConserve(groups);
    CoreIsMember(Bundles(actors, edges), c);
    CoreIsMember(groups, c);
    p, x :| 0 <= p < |groups| && 0 <= x < |groups[p]| && Core(groups[p][x]) == c;
  }

  lemma CoreSameFrom(a: Channel, b: Channel, c: Channel, d: Channel)
    requires Core(a) == Core(c) && Core(b) == Core(d)
    ensures SameFromKey(a, b) <==> SameFromKey(c, d)
  {
  }

  /** Arrows of one name, capacity and type from one source instance end in one group, whatever else
      that group takes in. */
  lemma SameSourceTogether(actors: seq<Actor>, edges: seq<Edge>, i: nat, k: nat, j: nat, m: nat)
    requires var r := Bundles(actors, edges);
             i < |r| && k < |r[i]| && j < |r| && m < |r[j]| && SameFromKey(r[i][k], r[j][m])
    ensures i == j
  {
    hide RollUp.RollUp, FromGroups, ToGroups, Core, AllCores, Known, Cores, SameFromKey;
    var r, groups := Bundles(actors, edges), FromGroups(Known(actors, edges));
    var p, x := FirstPassHas(actors, edges, i, k);
    var q, y := FirstPassHas(actors, edges, j, m);
    CoreSameFrom(groups[p][x], groups[q][y], r[i][k], r[j][m]);
    FromGroupsIff(Known(actors, edges), p, x, q, y);
    KnownOnce(actors, edges, Core(r[i][k]));
    KnownOnce(actors, edges, Core(r[j][m]));
    if |groups[p]| == 1 {
      OnePlace(r, i, k, j, m);
    } else {
      BundlesStayWhole(groups, p);
      var z :| 0 <= z < |r| && Cores(groups[p]) <= Cores(r[z]);
      CoreAt(groups[p], r[z], x);
      CoreAt(groups[p], r[z], y);
      OnePlace(r, i, k, z, x);
      OnePlace(r, j, m, z, y);
    }
  }

  lemma CoreAt(g: Group, h: Group, x: nat)
    requires Cores(g) <= Cores(h) && x < |g|
    ensures x < |h| && Core(g[x]) == Core(h[x])
  {
    hide Core;
    assert Cores(g)[x] == Cores(h)[x];
  }

  predicate OneSource(g: Group) {
    forall k :: 0 <= k < |g| ==> g[k].fromNode == g[0].fromNode
  }

  lemma JoinedMixes(g: Group, t: Channel)
    requires g != [] && (!OneSource(g) || t.fromNode != g[0].fromNode)
    ensures !OneSource(Joined(g, t, true, SameTo))
  {
    var r := Joined(g, t, true, SameTo);
    assert r[|g|].fromNode == t.fromNode && r[0].fromNode == g[0].fromNode;
    if !OneSource(g) {
      var k :| 0 <= k < |g| && g[k].fromNode != g[0].fromNode;
      assert r[k].fromNode == g[k].fromNode;
    }
  }

  predicate FlagsMix(groups: seq<Group>)
    requires NonEmpty(groups)
  {
    forall i :: 0 <= i < |groups| ==> groups[i][0].bundleOnFrom || !OneSource(groups[i])
  }

  /** A single that joins a group never comes from that group's only source: the first pass would have
      put it there. */
  lemma SingleMixes(groups: seq<Group>, n: nat, acc: seq<Group>)
    requires AllOnFrom(groups) && Separated(groups) && n < |groups| && |groups[n]| == 1
    requires NonEmpty(acc) && AllPlaced(groups[..n], acc) && FlagsMix(acc)
    ensures FlagsMix(RollUp.RollUp(acc, groups[n][0], true, SameTo))
  {
    hide Joined, Extracted;
    var t := groups[n][0];
    match FirstMatch(acc, t, SameTo)
    case Some(x) =>
      assert Placed(groups[..n], acc, x, 0);
      var p :| 0 <= p < n && SameFromKey(acc[x][0], groups[..n][p][0]);
      assert !SameFromKey(groups[p][0], groups[n][0]);
      JoinedMixes(acc[x], t);
    case None =>
  }

  lemma {:induction false} ToGroupsMix(groups: seq<Group>, n: nat)
    requires AllOnFrom(groups) && Separated(groups) && n <= |groups|
    ensures FlagsMix(ToGroups(groups[..n]))
  {
    hide RollUp.RollUp, OneSource;
    if n == 0 {
    } else {
      ToGroupsMix(groups, n - 1);
      ToGroupsPlaced(groups, n - 1);
      assert groups[..n][..n - 1] == groups[..n - 1];
      if |groups[n - 1]| == 1 {
        SingleMixes(groups, n - 1, ToGroups(groups[..n - 1]));
      }
    }
  }

  /** A final group is marked as bundled on the source exactly when its arrows have one source node. */
  lemma FlagIff(actors: seq<Actor>, edges: seq<Edge>, i: nat, k: nat)
    requires i < |Bundles(actors, edges)| && k < |Bundles(actors, edges)[i]|
    ensures Bundles(actors, edges)[i][k].bundleOnFrom <==> OneSource(Bundles(actors, edges)[i])
  {
    hide RollUp.RollUp, FromGroups, ToGroups, Known;
    var r, groups := Bundles(actors, edges), FromGroups(Known(actors, edges));
    FromGroupsUniform(Known(actors, edges));
    ToGroupsUniform(groups);
    ToGroupsMix(groups, |groups|);
    assert groups[..|groups|] == groups;
    assert Uniform(r[i]) && UniformAt(r[i], k);
    if r[i][0].bundleOnFrom {
      forall x | 0 <= x < |r[i]|
        ensures r[i][x].fromNode == r[i][0].fromNode
      {
        assert UniformAt(r[i], x);
      }
    }
  }

  /** So arrows of one source with different targets are bundled on the source. */
  lemma FanOutOnFrom(actors: seq<Actor>, edges: seq<Edge>, i: nat, k: nat, m: nat)
    requires i < |Bundles(actors, edges)| && k < |Bundles(actors, edges)[i]| && m < |Bundles(actors, edges)[i]|
    requires Bundles(actors, edges)[i][k].toNode != Bundles(actors, edges)[i][m].toNode
    ensures Bundles(actors, edges)[i][k].bundleOnFrom && OneSource(Bundles(actors, edges)[i])
  {
    hide RollUp.RollUp, FromGroups, ToGroups, Known;
    var r := Bundles(actors, edges);
    FromGroupsUniform(Known(actors, edges));
    ToGroupsUniform(FromGroups(Known(actors, edges)));
    assert Uniform(r[i]) && UniformAt(r[i], k) && UniformAt(r[i], m);
    FlagIff(actors, edges, i, k);
  }

  // ---- the copy flag ----

  /** Some arrow of the group asks for copies. */
  predicate WantsCopy(edges: seq<Edge>, g: Group) {
    exists k :: 0 <= k < |g| && g[k].arrow < |edges| && edges[g[k].arrow].copy
  }

  predicate CopyLaw(edges: seq<Edge>, g: Group) {
    g != [] && (g[0].copy <==> WantsCopy(edges, g))
  }

  predicate AllCopyLaw(edges: seq<Edge>, groups: seq<Group>) {
    forall i :: 0 <= i < |groups| ==> CopyLaw(edges, groups[i])
  }

  lemma WantsJoined(edges: seq<Edge>, g: Group, t: Channel, r: Group)
    requires |r| == |g| + 1 && forall k :: 0 <= k < |r| ==> r[k].arrow == (g + [t])[k].arrow
    ensures WantsCopy(edges, r) <==> WantsCopy(edges, g) || WantsCopy(edges, [t])
  {
    if WantsCopy(edges, g) {
      var k :| 0 <= k < |g| && g[k].arrow < |edges| && edges[g[k].arrow].copy;
      assert r[k].arrow == g[k].arrow;
    }
    if WantsCopy(edges, [t]) {
      assert r[|g|].arrow == [t][0].arrow;
    }
    if WantsCopy(edges, r) {
      var k :| 0 <= k < |r| && r[k].arrow < |edges| && edges[r[k].arrow].copy;
      assert if k < |g| then r[k].arrow == g[k].arrow else r[k].arrow == [t][0].arrow;
    }
  }

  lemma JoinedArrows(g: Group, t: Channel, index: bool, rule: Rule)
    requires g != []
    ensures var r := Joined(g, t, index, rule);
            (forall k :: 0 <= k < |r| ==> r[k].arrow == (g + [t])[k].arrow) && (r[0].copy <==> g[0].copy || t.copy)
  {
  }

  lemma JoinedCopyLaw(edges: seq<Edge>, g: Group, t: Channel, index: bool, rule: Rule)
    requires CopyLaw(edges, g) && CopyLaw(edges, [t])
    ensures CopyLaw(edges, Joined(g, t, index, rule))
  {
    hide Joined, WantsCopy;
    JoinedArrows(g, t, index, rule);
    WantsJoined(edges, g, t, Joined(g, t, index, rule));
  }

  lemma AloneCopyLaw(edges: seq<Edge>, t: Channel, first: bool)
    requires CopyLaw(edges, [t])
    ensures CopyLaw(edges, [Alone(t, first)])
  {
    hide Extracted;
    if WantsCopy(edges, [t]) {
      assert [Alone(t, first)][0].arrow == [t][0].arrow;
    }
  }

  lemma RollUpCopyLaw(edges: seq<Edge>, groups: seq<Group>, t: Channel, index: bool, rule: Rule)
    requires NonEmpty(groups) && AllCopyLaw(edges, groups) && CopyLaw(edges, [t])
    ensures AllCopyLaw(edges, RollUp.RollUp(groups, t, index, rule))
  {
    hide Joined, Alone, CopyLaw;
    match FirstMatch(groups, t, rule)
    case Some(i) => JoinedCopyLaw(edges, groups[i], t, index, rule);
    case None => AloneCopyLaw(edges, t, groups == []);
  }

  lemma {:induction false} FromCopyLaw(edges: seq<Edge>, channels: seq<Channel>)
    requires forall m :: 0 <= m < |channels| ==> CopyLaw(edges, [channels[m]])
    ensures AllCopyLaw(edges, FromGroups(channels))
  {
    hide RollUp.RollUp, CopyLaw;
    if channels == [] {
    } else {
      var n := |channels| - 1;
      FromCopyLaw(edges, channels[..n]);
      RollUpCopyLaw(edges, FromGroups(channels[..n]), channels[n], false, SameFrom);
    }
  }

  lemma {:induction false} ToCopyLaw(edges: seq<Edge>, groups: seq<Group>)
    requires NonEmpty(groups) && AllCopyLaw(edges, groups)
    ensures AllCopyLaw(edges, ToGroups(groups))
  {
    hide RollUp.RollUp, CopyLaw;
    if groups == [] {
    } else {
      var n := |groups| - 1;
      ToCopyLaw(edges, groups[..n]);
      if |groups[n]| == 1 {
        assert groups[n] == [groups[n][0]];
        RollUpCopyLaw(edges, ToGroups(groups[..n]), groups[n][0], true, SameTo);
      }
    }
  }

  /** A final group copies exactly when one of its arrows asks for it. */
  lemma CopyIff(actors: seq<Actor>, edges: seq<Edge>, i: nat, k: nat)
    requires i < |Bundles(actors, edges)| && k < |Bundles(actors, edges)[i]|
    ensures Bundles(actors, edges)[i][k].copy <==> WantsCopy(edges, Bundles(actors, edges)[i])
  {
    hide RollUp.RollUp, FromGroups, ToGroups, Known;
    var known, r := Known(actors, edges), Bundles(actors, edges);
    KnownAre(actors, edges);
    forall m | 0 <= m < |known|
      ensures CopyLaw(edges, [known[m]])
    {
      assert KnownAt(actors, edges, known[m]);
      OneCopyLaw(actors, edges, known[m]);
    }
    FromCopyLaw(edges, known);
    FromGroupsUniform(known);
    ToCopyLaw(edges, FromGroups(known));
    ToGroupsUniform(FromGroups(known));
    assert CopyLaw(edges, r[i]) && Uniform(r[i]) && UniformAt(r[i], k);
  }

  lemma OneCopyLaw(actors: seq<Actor>, edges: seq<Edge>, c: Channel)
    requires ReadFrom(actors, edges, c)
    ensures CopyLaw(edges, [c])
  {
    hide ModOf, OrUnknown, UnifiedName;
    assert [c][0] == c;
  }

  // ---- the mark of channels that are not to be bundled ----

  ghost predicate Loops(c: Channel) {
    c.fromMod == c.toMod && SameStem(c)
  }

  /** Only the first channel can carry the mark, and it does exactly if it loops. */
  ghost predicate MarkLaw(first: nat, c: Channel) {
    c.isUnbundled <==> c.arrow == first && Loops(c)
  }

  ghost predicate AllMarkLaw(first: nat, groups: seq<Group>) {
    forall i, k :: 0 <= i < |groups| && 0 <= k < |groups[i]| ==> MarkLaw(first, groups[i][k])
  }

  lemma SameMark(first: nat, c: Channel, d: Channel)
    requires Core(c) == Core(d) && c.isUnbundled == d.isUnbundled && MarkLaw(first, c)
    ensures MarkLaw(first, d)
  {
    hide IsStem;
  }

  lemma JoinedMarkLaw(first: nat, g: Group, t: Channel, index: bool, rule: Rule)
    requires g != [] && MarkLaw(first, t) && forall k :: 0 <= k < |g| ==> MarkLaw(first, g[k])
    ensures forall k :: 0 <= k < |Joined(g, t, index, rule)| ==> MarkLaw(first, Joined(g, t, index, rule)[k])
  {
    var r := Joined(g, t, index, rule);
    forall k | 0 <= k < |r|
      ensures MarkLaw(first, r[k])
    {
      SameMark(first, (g + [t])[k], r[k]);
    }
  }

  lemma RollUpMarkLaw(first: nat, groups: seq<Group>, t: Channel, index: bool, rule: Rule)
    requires NonEmpty(groups) && groups != [] && AllMarkLaw(first, groups) && MarkLaw(first, t)
    ensures AllMarkLaw(first, RollUp.RollUp(groups, t, index, rule))
  {
    hide Joined, MarkLaw, Extracted;
    match FirstMatch(groups, t, rule)
    case Some(i) => JoinedMarkLaw(first, groups[i], t, index, rule);
    case None => SameMark(first, t, Alone(t, false));
  }

  lemma FirstMarkLaw(t: Channel, index: bool, rule: Rule)
    requires t.isUnbundled ==> Loops(t)
    ensures AllMarkLaw(t.arrow, RollUp.RollUp([], t, index, rule))
    ensures RollUp.RollUp([], t, index, rule) != [] && RollUp.RollUp([], t, index, rule)[0][0].arrow == t.arrow
  {
    hide IsStem, Extracted;
    FirstUnbundledIff(t, index, rule);
    assert SameStem(Alone(t, true)) <==> SameStem(t);
  }

  lemma {:induction false} FromMarkLaw(channels: seq<Channel>)
    requires channels != [] && AllFresh(channels) && InArrowOrder(channels)
    ensures AllMarkLaw(channels[0].arrow, FromGroups(channels))
    ensures FromGroups(channels) != [] && FromGroups(channels)[0][0].arrow == channels[0].arrow
  {
    hide RollUp.RollUp, Loops;
    var n := |channels| - 1;
    var front := FromGroups(channels[..n]);
    if n == 0 {
      FirstMarkLaw(channels[0], false, SameFrom);
      assert channels[..n] == [];
    } else {
      FromMarkLaw(channels[..n]);
      RollUpMarkLaw(channels[0].arrow, front, channels[n], false, SameFrom);
      HeadStays(front, channels[n], false, SameFrom);
      SameArrow(front[0][0], RollUp.RollUp(front, channels[n], false, SameFrom)[0][0]);
    }
  }

  lemma SameArrow(c: Channel, d: Channel)
    requires Core(c) == Core(d)
    ensures c.arrow == d.arrow
  {
  }

  lemma HeadStays(groups: seq<Group>, t: Channel, index: bool, rule: Rule)
    requires NonEmpty(groups) && groups != []
    ensures RollUp.RollUp(groups, t, index, rule) != []
    ensures Core(RollUp.RollUp(groups, t, index, rule)[0][0]) == Core(groups[0][0])
  {
    hide Matches, Extracted;
    if FirstMatch(groups, t, rule).Some? {
      JoinedHead(groups[FirstMatch(groups, t, rule).value], t, index, rule);
    }
  }

  lemma {:induction false} ToMarkLaw(first: nat, groups: seq<Group>)
    requires NonEmpty(groups) && AllMarkLaw(first, groups)
    requires groups != [] ==> groups[0][0].arrow == first
    ensures AllMarkLaw(first, ToGroups(groups))
    ensures groups != [] ==> ToGroups(groups) != []
  {
    hide RollUp.RollUp, MarkLaw;
    if groups == [] {
    } else {
      var n := |groups| - 1;
      var front, g := ToGroups(groups[..n]), groups[n];
      ToMarkLaw(first, groups[..n]);
      if |g| > 1 {
      } else if n == 0 {
        LoopsIfMarked(first, g[0]);
        FirstMarkLaw(g[0], true, SameTo);
        assert groups[..n] == [] && front == [];
      } else {
        RollUpMarkLaw(first, front, g[0], true, SameTo);
        HeadStays(front, g[0], true, SameTo);
      }
    }
  }

  lemma LoopsIfMarked(first: nat, c: Channel)
    requires MarkLaw(first, c)
    ensures c.isUnbundled ==> Loops(c)
  {
  }

  /** In the end a channel is marked as not to be bundled exactly if it comes from the first known arrow
      and that arrow loops within one module and one stem. */
  lemma UnbundledIff(actors: seq<Actor>, edges: seq<Edge>, i: nat, k: nat)
    requires i < |Bundles(actors, edges)| && k < |Bundles(actors, edges)[i]|
    ensures var c := Bundles(actors, edges)[i][k];
            c.isUnbundled
            <==> Loops(c) && forall n :: 0 <= n < c.arrow && n < |edges| ==> !HasActor(actors, edges[n].fromName)
  {
    hide RollUp.RollUp, FromGroups, ToGroups, Known, Loops, HasActor;
    var known, r := Known(actors, edges), Bundles(actors, edges);
    var c := r[i][k];
    var m := FinalIsKnown(actors, edges, i, k);
    KnownAre(actors, edges);
    FromMarkLaw(known);
    ToMarkLaw(known[0].arrow, FromGroups(known));
    assert MarkLaw(known[0].arrow, c);
    assert known[m].arrow == c.arrow && KnownAt(actors, edges, known[0]) && KnownAt(actors, edges, known[m]);
    FirstKnown(actors, edges, c.arrow);
  }

  /** The first known arrow is the only known one with no known one in front of it. */
  lemma FirstKnown(actors: seq<Actor>, edges: seq<Edge>, n: nat)
    requires Known(actors, edges) != [] && n < |edges| && HasActor(actors, edges[n].fromName)
    ensures n == Known(actors, edges)[0].arrow
            <==> forall l :: 0 <= l < n ==> !HasActor(actors, edges[l].fromName)
  {
    hide Known, HasActor, ChannelOf;
    var known := Known(actors, edges);
    KnownAre(actors, edges);
    var m := KnownHas(actors, edges, n);
    assert KnownAt(actors, edges, known[0]);
    forall l | 0 <= l < known[0].arrow
      ensures !HasActor(actors, edges[l].fromName)
    {
      ArrowBelow(actors, edges, known[0]);
      if HasActor(actors, edges[l].fromName) {
        var x := KnownHas(actors, edges, l);
      }
    }
  }

  // ---- a bundle that changes sides ----

  /** Three alike arrows to one target, the first two of them from one source. */
  predicate ParallelThenOne(edges: seq<Edge>) {
    |edges| == 3 && edges[0].fromName == edges[1].fromName && edges[0].fromId == edges[1].fromId
    && UnifiedName(edges[0].fromName, edges[0].fromId) != UnifiedName(edges[2].fromName, edges[2].fromId)
    && forall n :: 0 <= n < 3 ==>
                     edges[n].name == edges[0].name && edges[n].messageType == edges[0].messageType
                     && edges[n].capacity == edges[0].capacity
                     && edges[n].toName == edges[0].toName && edges[n].toId == edges[0].toId
  }

  /** The group the first pass made on their source takes in the third arrow, and in the end it is bundled on
      the target. */
  lemma ParallelArrowsChangeSides(actors: seq<Actor>, edges: seq<Edge>)
    requires ParallelThenOne(edges) && HasActor(actors, edges[0].fromName) && HasActor(actors, edges[2].fromName)
    ensures var r := Bundles(actors, edges);
            |r| == 1 && |r[0]| == 3 && SameFromKey(r[0][0], r[0][1]) && forall k :: 0 <= k < 3 ==> !r[0][k].bundleOnFrom
  {
    hide Extracted, Joined, Alone, FromGroups, ToGroups, RollUp.RollUp, HasActor, UnifiedName, OrUnknown;
    var a, b, c := ChannelOf(actors, edges[0], 0), ChannelOf(actors, edges[1], 1), ChannelOf(actors, edges[2], 2);
    ModuleRead(actors, edges[0].fromName);
    ModuleRead(actors, edges[2].fromName);
    OneMoreKnown(actors, [], edges[0]);
    OneMoreKnown(actors, [edges[0]], edges[1]);
    OneMoreKnown(actors, [edges[0], edges[1]], edges[2]);
    assert [] + [edges[0]] == [edges[0]] && [edges[0]] + [edges[1]] == [edges[0], edges[1]];
    assert edges == [edges[0], edges[1]] + [edges[2]];
    assert Known(actors, edges) == [a, b, c];
    var g, y := Joined([Alone(a, true)], b, false, SameFrom), Alone(c, false);
    FirstPass(a, b, c);
    PairAlike(a, b);
    SecondPass(a, c, g, y);
  }

  lemma OneMoreKnown(actors: seq<Actor>, edges: seq<Edge>, e: Edge)
    requires HasActor(actors, e.fromName)
    ensures Known(actors, edges + [e]) == Known(actors, edges) + [ChannelOf(actors, e, |edges|)]
  {
    ModuleRead(actors, e.fromName);
    assert (edges + [e])[..|edges|] == edges;
  }

  /** For instance two arrows Gen -> A and one arrow Other -> A. */
  lemma SomeChangeSides()
    ensures exists actors: seq<Actor>, edges: seq<Edge> ::
              var r := Bundles(actors, edges);
              |r| == 1 && |r[0]| == 3 && SameFromKey(r[0][0], r[0][1]) && !r[0][0].bundleOnFrom
  {
    hide Bundles;
    var actors := [Actor("Gen", "gen"), Actor("Other", "other")];
    var twice := Edge("Gen", None, "A", None, "feed", "u32", false, false, 1, 1, 64);
    var edges := [twice, twice, twice.(fromName := "Other")];
    assert actors[0].displayName == "Gen" && actors[1].displayName == "Other";
    assert UnifiedName("Gen", None)[0] != UnifiedName("Other", None)[0];
    ParallelArrowsChangeSides(actors, edges);
  }

  lemma Appended(channels: seq<Channel>, c: Channel)
    ensures FromGroups(channels + [c]) == RollUp.RollUp(FromGroups(channels), c, false, SameFrom)
    ensures FromGroups([]) == []
  {
    assert (channels + [c])[..|channels|] == channels;
  }

  lemma FirstPass(a: Channel, b: Channel, c: Channel)
    requires SameFromKey(a, b) && a.fromNode != c.fromNode
    ensures FromGroups([a, b, c]) == [Joined([Alone(a, true)], b, false, SameFrom), [Alone(c, false)]]
  {
    hide Extracted, FromGroups;
    Appended([], a);
    Appended([a], b);
    Appended([a, b], c);
    assert [] + [a] == [a] && [a] + [b] == [a, b] && [a, b] + [c] == [a, b, c];
    var x := Alone(a, true);
    var g := Joined([x], b, false, SameFrom);
    assert FromGroups([a]) == [[x]];
    assert Matches([[x]][0], b, SameFrom) && FirstMatch([[x]], b, SameFrom) == Some(0);
    assert FromGroups([a, b]) == [g];
    assert g[0].fromNode == a.fromNode && !Matches([g][0], c, SameFrom);
  }

  lemma PairAlike(a: Channel, b: Channel)
    requires SameFromKey(a, b) && SameToKey(a, b)
    ensures var g := Joined([Alone(a, true)], b, false, SameFrom);
            |g| == 2 && SameFromKey(g[0], g[1]) && SameToKey(g[0], a) && SameToKey(g[1], a)
  {
    hide Extracted;
  }

  lemma SecondPass(a: Channel, c: Channel, g: Group, y: Channel)
    requires |g| == 2 && SameFromKey(g[0], g[1]) && SameToKey(g[0], a) && SameToKey(g[1], a)
    requires SameToKey(a, c) && y == Alone(c, false)
    ensures var r := ToGroups([g, [y]]);
            |r| == 1 && |r[0]| == 3 && SameFromKey(r[0][0], r[0][1]) && forall k :: 0 <= k < 3 ==> !r[0][k].bundleOnFrom
  {
    hide Extracted, RollUp.RollUp;
    var groups: seq<Group> := [g, [y]];
    assert groups[..1] == [g] && [g][..0] == [];
    assert ToGroups([g]) == [g];
    assert Matches([g][0], y, SameTo) && FirstMatch([g], y, SameTo) == Some(0);
    JoinedUp([g], y);
  }

  lemma JoinedUp(groups: seq<Group>, y: Channel)
    requires |groups| == 1 && NonEmpty(groups) && FirstMatch(groups, y, SameTo) == Some(0)
    ensures var r := RollUp.RollUp(groups, y, true, SameTo);
            |r| == 1 && |r[0]| == |groups[0]| + 1 && (forall k :: 0 <= k < |r[0]| ==> !r[0][k].bundleOnFrom)
            && (|groups[0]| == 2 && SameFromKey(groups[0][0], groups[0][1]) ==> SameFromKey(r[0][0], r[0][1]))
  {
    hide Matches, Extracted;
  }
}

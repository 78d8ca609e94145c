/** Which arrows of a diagram end in one group, and on which side that group is
    bundled, said of the arrows alone. */
module BundleHomes {
  import opened Rings
  import opened NodeNames
  import opened RollUp
  import opened DiagramLaws

  // ---- said of the arrows ----

  predicate SameLabel(e: Edge, f: Edge) {
    e.name == f.name && e.capacity == f.capacity && e.messageType == f.messageType
  }

  predicate SameSource(e: Edge, f: Edge) {
    SameLabel(e, f) && UnifiedName(e.fromName, e.fromId) == UnifiedName(f.fromName, f.fromId)
  }

  predicate SameTarget(e: Edge, f: Edge) {
    SameLabel(e, f) && UnifiedName(e.toName, e.toId) == UnifiedName(f.toName, f.toId)
  }

  ghost predicate IsKnown(actors: seq<Actor>, edges: seq<Edge>, n: nat) {
    n < |edges| && HasActor(actors, edges[n].fromName)
  }

  /** No other known arrow has its label and source. */
  ghost predicate Single(actors: seq<Actor>, edges: seq<Edge>, n: nat)
    requires n < |edges|
  {
    forall x: nat :: IsKnown(actors, edges, x) && SameSource(edges[x], edges[n]) ==> x == n
  }

  /** All known arrows with the label and source of `l` go where `n` goes. */
  ghost predicate Takes(actors: seq<Actor>, edges: seq<Edge>, l: nat, n: nat)
    requires l < |edges| && n < |edges|
  {
    forall x: nat :: IsKnown(actors, edges, x) && SameSource(edges[x], edges[l]) ==> SameTarget(edges[x], edges[n])
  }

  /** The earliest arrow whose source sends all its like to the target of `n`. */
  ghost predicate Earliest(actors: seq<Actor>, edges: seq<Edge>, l: nat, n: nat)
    requires n < |edges|
  {
    IsKnown(actors, edges, l) && Takes(actors, edges, l, n)
    && forall e: nat :: e < l && IsKnown(actors, edges, e) ==> !Takes(actors, edges, e, n)
  }

  /** A lone arrow goes to the group of the earliest source that sends everything its way, its own perhaps;
      any other arrow stays with its source. */
  ghost predicate Home(actors: seq<Actor>, edges: seq<Edge>, n: nat, l: nat)
    requires n < |edges|
  {
    if Single(actors, edges, n) then Earliest(actors, edges, l, n) else l == n
  }

  // ---- the order of the groups ----

  /** Groups are in the order of their first arrows, and each begins with its first. */
  predicate InOrder(groups: seq<Group>)
    requires NonEmpty(groups)
  {
    (forall i, j :: 0 <= i < j < |groups| ==> groups[i][0].arrow < groups[j][0].arrow)
    && forall i, k :: 0 <= i < |groups| && 0 < k < |groups[i]| ==> groups[i][0].arrow < groups[i][k].arrow
  }

  predicate Before(groups: seq<Group>, n: nat)
    requires NonEmpty(groups)
  {
    forall i :: 0 <= i < |groups| ==> groups[i][0].arrow < n
  }

  lemma RollUpInOrder(groups: seq<Group>, t: Channel, index: bool, rule: Rule)
    requires NonEmpty(groups) && InOrder(groups) && Before(groups, t.arrow)
    ensures InOrder(RollUp.RollUp(groups, t, index, rule)) && Before(RollUp.RollUp(groups, t, index, rule), t.arrow + 1)
  {
    hide Matches, Extracted, Joined;
    match FirstMatch(groups, t, rule)
    case Some(i) => JoinedArrows(groups[i], t, index, rule);
    case None =>
  }

  lemma JoinedArrows(g: Group, t: Channel, index: bool, rule: Rule)
    requires g != []
    ensures var r := Joined(g, t, index, rule);
            r[|g|].arrow == t.arrow && forall k :: 0 <= k < |g| ==> r[k].arrow == g[k].arrow
  {
  }

  lemma {:induction false} FromInOrder(known: seq<Channel>)
    requires InArrowOrder(known)
    ensures InOrder(FromGroups(known))
    ensures known != [] ==> Before(FromGroups(known), known[|known| - 1].arrow + 1)
  {
    hide RollUp.RollUp;
    if known != [] {
      var n := |known| - 1;
      FromInOrder(known[..n]);
      RollUpInOrder(FromGroups(known[..n]), known[n], false, SameFrom);
    }
  }

  lemma {:induction false} ToInOrder(groups: seq<Group>)
    requires NonEmpty(groups) && InOrder(groups)
    ensures InOrder(ToGroups(groups))
    ensures groups != [] ==> Before(ToGroups(groups), groups[|groups| - 1][0].arrow + 1)
  {
    hide RollUp.RollUp;
    if groups != [] {
      var n := |groups| - 1;
      ToInOrder(groups[..n]);
      if |groups[n]| == 1 {
        RollUpInOrder(ToGroups(groups[..n]), groups[n][0], true, SameTo);
      }
    }
  }

  lemma FinalInOrder(actors: seq<Actor>, edges: seq<Edge>)
    ensures InOrder(Bundles(actors, edges))
  {
    KnownAre(actors, edges);
    FromInOrder(Known(actors, edges));
    ToInOrder(FromGroups(Known(actors, edges)));
  }

  // ---- channels and their arrows ----

  ghost predicate IsOf(actors: seq<Actor>, edges: seq<Edge>, c: Channel) {
    IsKnown(actors, edges, c.arrow) && Core(c) == Core(ChannelOf(actors, edges[c.arrow], c.arrow))
  }

  lemma FinalIsOf(actors: seq<Actor>, edges: seq<Edge>, i: nat, k: nat)
    requires i < |Bundles(actors, edges)| && k < |Bundles(actors, edges)[i]|
    ensures IsOf(actors, edges, Bundles(actors, edges)[i][k])
  {
    hide Bundles, Known, ChannelOf, HasActor;
    var m := FinalIsKnown(actors, edges, i, k);
    KnownAre(actors, edges);
    assert KnownAt(actors, edges, Known(actors, edges)[m]);
  }

  lemma KeysOf(actors: seq<Actor>, edges: seq<Edge>, c: Channel, d: Channel)
    requires IsOf(actors, edges, c) && IsOf(actors, edges, d)
    ensures SameFromKey(c, d) <==> SameSource(edges[c.arrow], edges[d.arrow])
    ensures SameToKey(c, d) <==> SameTarget(edges[c.arrow], edges[d.arrow])
  {
    hide UnifiedName, OrUnknown, HasActor;
    ReadsKeys(actors, edges, c);
    ReadsKeys(actors, edges, d);
  }

  lemma ReadsKeys(actors: seq<Actor>, edges: seq<Edge>, c: Channel)
    requires IsOf(actors, edges, c)
    ensures var e := edges[c.arrow];
            c.name == e.name && c.capacity == e.capacity && c.messageType == e.messageType
            && c.fromNode == UnifiedName(e.fromName, e.fromId) && c.toNode == UnifiedName(e.toName, e.toId)
  {
    hide UnifiedName, OrUnknown, HasActor;
  }

  lemma PlaceOf(actors: seq<Actor>, edges: seq<Edge>, n: nat) returns (i: nat, k: nat)
    requires IsKnown(actors, edges, n)
    ensures i < |Bundles(actors, edges)| && k < |Bundles(actors, edges)[i]| && Bundles(actors, edges)[i][k].arrow == n
  {
    hide Bundles, HasActor;
    ArrowAppearsIff(actors, edges, n);
    i, k :| 0 <= i < |Bundles(actors, edges)| && 0 <= k < |Bundles(actors, edges)[i]|
            && Bundles(actors, edges)[i][k].arrow == n;
  }

  // ---- what the first pass made of an arrow ----

  lemma FirstIsOf(actors: seq<Actor>, edges: seq<Edge>, p: nat, x: nat)
    requires var groups := FromGroups(Known(actors, edges));
             p < |groups| && x < |groups[p]|
    ensures IsOf(actors, edges, FromGroups(Known(actors, edges))[p][x])
    ensures AllCores(FromGroups(Known(actors, edges)))[Core(FromGroups(Known(actors, edges))[p][x])] <= 1
  {
    hide FromGroups, ToGroups, Core, AllCores, Known, HasActor, ChannelOf;
    var groups := FromGroups(Known(actors, edges));
    var c := Core(groups[p][x]);
    ToGroupsConserve(groups);
    KnownOnce(actors, edges, c);
    CoreIsMember(groups, c);
    CoreIsMember(Bundles(actors, edges), c);
    var i, k :| 0 <= i < |Bundles(actors, edges)| && 0 <= k < |Bundles(actors, edges)[i]|
                && Core(Bundles(actors, edges)[i][k]) == c;
    FinalIsOf(actors, edges, i, k);
    SameCoreIsOf(actors, edges, Bundles(actors, edges)[i][k], groups[p][x]);
  }

  lemma SameCoreIsOf(actors: seq<Actor>, edges: seq<Edge>, c: Channel, d: Channel)
    requires IsOf(actors, edges, c) && Core(c) == Core(d)
    ensures IsOf(actors, edges, d)
  {
    hide HasActor, ChannelOf;
  }

  lemma SameArrowSameCore(actors: seq<Actor>, edges: seq<Edge>, c: Channel, d: Channel)
    requires IsOf(actors, edges, c) && IsOf(actors, edges, d)
    ensures c.arrow == d.arrow <==> Core(c) == Core(d)
  {
    hide HasActor, ChannelOf;
  }

  /** The first pass leaves an arrow alone exactly if no other has its label and source. */
  lemma SourceSize(actors: seq<Actor>, edges: seq<Edge>, i: nat, k: nat) returns (p: nat, x: nat)
    requires i < |Bundles(actors, edges)| && k < |Bundles(actors, edges)[i]|
    ensures var groups, c := FromGroups(Known(actors, edges)), Bundles(actors, edges)[i][k];
            p < |groups| && x < |groups[p]| && Core(groups[p][x]) == Core(c)
            && IsKnown(actors, edges, c.arrow) && (|groups[p]| == 1 <==> Single(actors, edges, c.arrow))
  {
    hide FromGroups, ToGroups, Core, AllCores, Known, HasActor, SameFromKey, SameSource, Bundles;
    var groups, c := FromGroups(Known(actors, edges)), Bundles(actors, edges)[i][k];
    p, x := FirstPassHas(actors, edges, i, k);
    FinalIsOf(actors, edges, i, k);
    FirstIsOf(actors, edges, p, x);
    SameArrowSameCore(actors, edges, c, groups[p][x]);
    if |groups[p]| > 1 {
      Companion(actors, edges, p, x);
    } else {
      forall n: nat | IsKnown(actors, edges, n) && SameSource(edges[n], edges[c.arrow])
        ensures n == c.arrow
      {
        LonelySource(actors, edges, p, n);
      }
    }
  }

  lemma Companion(actors: seq<Actor>, edges: seq<Edge>, p: nat, x: nat)
    requires var groups := FromGroups(Known(actors, edges));
             p < |groups| && x < |groups[p]| && |groups[p]| > 1 && IsOf(actors, edges, groups[p][x])
    ensures !Single(actors, edges, FromGroups(Known(actors, edges))[p][x].arrow)
  {
    hide FromGroups, ToGroups, Core, AllCores, Known, HasActor, SameFromKey, SameSource;
    var groups := FromGroups(Known(actors, edges));
    var y := if x == 0 then 1 else 0;
    var c, d := groups[p][x], groups[p][y];
    FirstIsOf(actors, edges, p, x);
    FirstIsOf(actors, edges, p, y);
    KnownAre(actors, edges);
    FromGroupsIff(Known(actors, edges), p, y, p, x);
    KeysOf(actors, edges, d, c);
    SameArrowSameCore(actors, edges, c, d);
    if c.arrow == d.arrow {
      OnePlace(groups, p, x, p, y);
    }
  }

  lemma LonelySource(actors: seq<Actor>, edges: seq<Edge>, p: nat, n: nat)
    requires var groups := FromGroups(Known(actors, edges));
             p < |groups| && |groups[p]| == 1 && IsKnown(actors, edges, n)
             && IsOf(actors, edges, groups[p][0]) && SameSource(edges[n], edges[groups[p][0].arrow])
    ensures n == FromGroups(Known(actors, edges))[p][0].arrow
  {
    hide FromGroups, ToGroups, Core, AllCores, Known, HasActor, SameFromKey, SameSource, Bundles;
    var groups := FromGroups(Known(actors, edges));
    var j, m := PlaceOf(actors, edges, n);
    var q, y := FirstPassHas(actors, edges, j, m);
    FinalIsOf(actors, edges, j, m);
    FirstIsOf(actors, edges, q, y);
    SameArrowSameCore(actors, edges, Bundles(actors, edges)[j][m], groups[q][y]);
    KeysOf(actors, edges, groups[q][y], groups[p][0]);
    KnownAre(actors, edges);
    FromGroupsIff(Known(actors, edges), q, y, p, 0);
  }

  // ---- where an arrow ends ----

  /** An arrow that is not alone ends in a group that begins with an arrow of its source. */
  lemma BundleHead(actors: seq<Actor>, edges: seq<Edge>, i: nat, k: nat)
    requires i < |Bundles(actors, edges)| && k < |Bundles(actors, edges)[i]|
    requires IsKnown(actors, edges, Bundles(actors, edges)[i][k].arrow)
    requires !Single(actors, edges, Bundles(actors, edges)[i][k].arrow)
    ensures SameFromKey(Bundles(actors, edges)[i][k], Bundles(actors, edges)[i][0])
  {
    hide RollUp.RollUp, FromGroups, ToGroups, Core, AllCores, Known, Cores, SameFromKey, HasActor, Single;
    var r, groups := Bundles(actors, edges), FromGroups(Known(actors, edges));
    var p, x := SourceSize(actors, edges, i, k);
    BundlesStayWhole(groups, p);
    var z :| 0 <= z < |r| && Cores(groups[p]) <= Cores(r[z]);
    CoreAt(groups[p], r[z], x);
    CoreAt(groups[p], r[z], 0);
    KnownOnce(actors, edges, Core(r[i][k]));
    OnePlace(r, i, k, z, x);
    KnownAre(actors, edges);
    FromGroupsIff(Known(actors, edges), p, x, p, 0);
    CoreSameFrom(groups[p][x], groups[p][0], r[i][k], r[i][0]);
  }

  /** A lone arrow ends in the first group it matches. */
  lemma SingleMatch(actors: seq<Actor>, edges: seq<Edge>, i: nat, k: nat)
    requires i < |Bundles(actors, edges)| && k < |Bundles(actors, edges)[i]|
    requires IsKnown(actors, edges, Bundles(actors, edges)[i][k].arrow)
    requires Single(actors, edges, Bundles(actors, edges)[i][k].arrow)
    ensures FirstMatch(Bundles(actors, edges), Bundles(actors, edges)[i][k], SameTo) == Some(i)
  {
    hide RollUp.RollUp, FromGroups, ToGroups, Core, AllCores, Known, HasActor, Single, Matches, CameFrom;
    var r, groups := Bundles(actors, edges), FromGroups(Known(actors, edges));
    var p, x := SourceSize(actors, edges, i, k);
    KnownAre(actors, edges);
    FromGroupsUniform(Known(actors, edges));
    ToGroupsPlaced(groups, |groups|);
    assert groups[..|groups|] == groups;
    assert Placed(groups, r, i, k);
  }

  lemma MatchedTo(g: Group, k: nat, c: Channel)
    requires Uniform(g) && k < |g| && Matches(g, c, SameTo)
    ensures SameToKey(g[k], c)
  {
    assert UniformAt(g, k);
  }

  lemma FinalUniform(actors: seq<Actor>, edges: seq<Edge>)
    ensures AllUniform(Bundles(actors, edges))
  {
    hide Uniform, FromGroups, ToGroups, Known;
    FromGroupsUniform(Known(actors, edges));
    ToGroupsUniform(FromGroups(Known(actors, edges)));
  }

  lemma HeadTakes(actors: seq<Actor>, edges: seq<Edge>, i: nat, k: nat)
    requires i < |Bundles(actors, edges)| && k < |Bundles(actors, edges)[i]|
    requires IsOf(actors, edges, Bundles(actors, edges)[i][k]) && IsOf(actors, edges, Bundles(actors, edges)[i][0])
    requires Single(actors, edges, Bundles(actors, edges)[i][k].arrow)
    ensures Takes(actors, edges, Bundles(actors, edges)[i][0].arrow, Bundles(actors, edges)[i][k].arrow)
  {
    hide Bundles, HasActor, Single, Matches, Uniform, SameSource, SameTarget, SameFromKey, SameToKey;
    var r: seq<Group> := Bundles(actors, edges);
    SingleMatch(actors, edges, i, k);
    FinalUniform(actors, edges);
    forall x: nat | IsKnown(actors, edges, x) && SameSource(edges[x], edges[r[i][0].arrow])
      ensures SameTarget(edges[x], edges[r[i][k].arrow])
    {
      var j, m := PlaceOf(actors, edges, x);
      FinalIsOf(actors, edges, j, m);
      KeysOf(actors, edges, r[j][m], r[i][0]);
      SameSourceTogether(actors, edges, j, m, i, 0);
      MatchedTo(r[i], m, r[i][k]);
      KeysOf(actors, edges, r[j][m], r[i][k]);
    }
  }

  /** A group that begins with an arrow of a source sending everything to the target of `c` accepts `c`. */
  lemma TakingGroupMatches(actors: seq<Actor>, edges: seq<Edge>, j: nat, c: Channel)
    requires j < |Bundles(actors, edges)| && IsOf(actors, edges, c)
    requires IsOf(actors, edges, Bundles(actors, edges)[j][0])
    requires Takes(actors, edges, Bundles(actors, edges)[j][0].arrow, c.arrow)
    ensures Matches(Bundles(actors, edges)[j], c, SameTo)
  {
    hide Bundles, HasActor, IsOf, SameSource, SameTarget;
    var r: seq<Group> := Bundles(actors, edges);
    var g := r[j];
    FinalUniform(actors, edges);
    forall m | 0 <= m < |g|
      ensures SameToKey(g[m], c)
    {
      assert UniformAt(g, m);
      var near := if g[0].bundleOnFrom then g[m] else g[0];
      FinalIsOf(actors, edges, j, m);
      KeysOf(actors, edges, near, g[0]);
      IsOfKnown(actors, edges, near);
      KeysOf(actors, edges, near, c);
    }
  }

  lemma IsOfKnown(actors: seq<Actor>, edges: seq<Edge>, c: Channel)
    requires IsOf(actors, edges, c)
    ensures IsKnown(actors, edges, c.arrow)
  {
  }

  lemma NoneEarlier(actors: seq<Actor>, edges: seq<Edge>, i: nat, k: nat, e: nat)
    requires i < |Bundles(actors, edges)| && k < |Bundles(actors, edges)[i]|
    requires IsOf(actors, edges, Bundles(actors, edges)[i][k]) && IsOf(actors, edges, Bundles(actors, edges)[i][0])
    requires Single(actors, edges, Bundles(actors, edges)[i][k].arrow)
    requires IsKnown(actors, edges, e) && Takes(actors, edges, e, Bundles(actors, edges)[i][k].arrow)
    ensures Bundles(actors, edges)[i][0].arrow <= e
  {
    hide Bundles, HasActor, Single, Matches, Uniform, SameToKey, Takes, IsOf;
    var r: seq<Group> := Bundles(actors, edges);
    var c := r[i][k];
    var j, y := PlaceOf(actors, edges, e);
    FinalIsOf(actors, edges, j, y);
    FinalIsOf(actors, edges, j, 0);
    FinalInOrder(actors, edges);
    IsOfKnown(actors, edges, c);
    SingleMatch(actors, edges, i, k);
    if Single(actors, edges, e) {
      SingleMatch(actors, edges, j, y);
      TakesItself(actors, edges, e, c.arrow);
      KeysOf(actors, edges, r[j][y], c);
      SameKeySameChoice(r, r[j][y], c);
    } else {
      BundleHead(actors, edges, j, y);
      KeysOf(actors, edges, r[j][y], r[j][0]);
      TakesAlike(actors, edges, e, r[j][0].arrow, c.arrow);
      TakingGroupMatches(actors, edges, j, c);
    }
  }

  lemma TakesItself(actors: seq<Actor>, edges: seq<Edge>, e: nat, n: nat)
    requires IsKnown(actors, edges, e) && n < |edges| && Takes(actors, edges, e, n)
    ensures SameTarget(edges[e], edges[n])
  {
  }

  lemma TakesAlike(actors: seq<Actor>, edges: seq<Edge>, e: nat, l: nat, n: nat)
    requires e < |edges| && l < |edges| && n < |edges| && SameSource(edges[e], edges[l])
    requires Takes(actors, edges, e, n)
    ensures Takes(actors, edges, l, n)
  {
  }

  /** Every group begins with the home of each of its arrows, or with one of the same source. */
  lemma HomeIsHead(actors: seq<Actor>, edges: seq<Edge>, i: nat, k: nat)
    requires i < |Bundles(actors, edges)| && k < |Bundles(actors, edges)[i]|
    ensures var n, h := Bundles(actors, edges)[i][k].arrow, Bundles(actors, edges)[i][0].arrow;
            IsKnown(actors, edges, n) && IsKnown(actors, edges, h)
            && if Single(actors, edges, n) then Earliest(actors, edges, h, n) else SameSource(edges[n], edges[h])
  {
    hide Bundles, HasActor, Single, SameSource, Takes;
    var r: seq<Group> := Bundles(actors, edges);
    FinalIsOf(actors, edges, i, k);
    FinalIsOf(actors, edges, i, 0);
    var n, h := r[i][k].arrow, r[i][0].arrow;
    if Single(actors, edges, n) {
      HeadTakes(actors, edges, i, k);
      forall e: nat | e < h && IsKnown(actors, edges, e)
        ensures !Takes(actors, edges, e, n)
      {
        if Takes(actors, edges, e, n) {
          NoneEarlier(actors, edges, i, k, e);
        }
      }
    } else {
      BundleHead(actors, edges, i, k);
      KeysOf(actors, edges, r[i][k], r[i][0]);
    }
  }

  /** Every known arrow has one home. */
  lemma OneHome(actors: seq<Actor>, edges: seq<Edge>, n: nat)
    requires IsKnown(actors, edges, n)
    ensures exists l :: Home(actors, edges, n, l)
    ensures forall l, h :: Home(actors, edges, n, l) && Home(actors, edges, n, h) ==> l == h
  {
    hide Bundles, HasActor, Single, SameSource, Takes;
    var i, k := PlaceOf(actors, edges, n);
    HomeIsHead(actors, edges, i, k);
    assert Single(actors, edges, n) ==> Home(actors, edges, n, Bundles(actors, edges)[i][0].arrow);
    assert !Single(actors, edges, n) ==> Home(actors, edges, n, n);
  }

  lemma HomeSource(actors: seq<Actor>, edges: seq<Edge>, i: nat, k: nat, l: nat)
    requires i < |Bundles(actors, edges)| && k < |Bundles(actors, edges)[i]|
    requires IsKnown(actors, edges, Bundles(actors, edges)[i][k].arrow)
    requires Home(actors, edges, Bundles(actors, edges)[i][k].arrow, l)
    ensures var h := Bundles(actors, edges)[i][0].arrow;
            IsKnown(actors, edges, l) && h < |edges| && SameSource(edges[l], edges[h])
  {
    hide Bundles, HasActor, Single, Takes;
    HomeIsHead(actors, edges, i, k);
  }

  /** Two arrows end in one group exactly when their homes have one label and source. */
  lemma TogetherIff(actors: seq<Actor>, edges: seq<Edge>, i: nat, k: nat, j: nat, m: nat, l: nat, h: nat)
    requires i < |Bundles(actors, edges)| && k < |Bundles(actors, edges)[i]|
    requires j < |Bundles(actors, edges)| && m < |Bundles(actors, edges)[j]|
    requires IsKnown(actors, edges, Bundles(actors, edges)[i][k].arrow)
    requires IsKnown(actors, edges, Bundles(actors, edges)[j][m].arrow)
    requires Home(actors, edges, Bundles(actors, edges)[i][k].arrow, l)
    requires Home(actors, edges, Bundles(actors, edges)[j][m].arrow, h)
    ensures l < |edges| && h < |edges| && (i == j <==> SameSource(edges[l], edges[h]))
  {
    hide Bundles, HasActor, Home, SameFromKey;
    HomeSource(actors, edges, i, k, l);
    HomeSource(actors, edges, j, m, h);
    FinalIsOf(actors, edges, i, 0);
    FinalIsOf(actors, edges, j, 0);
    KeysOf(actors, edges, Bundles(actors, edges)[i][0], Bundles(actors, edges)[j][0]);
    if SameSource(edges[l], edges[h]) {
      SameSourceTogether(actors, edges, i, 0, j, 0);
    }
  }

  /** A lone arrow whose home is another arrow's source. */
  ghost predicate Moves(actors: seq<Actor>, edges: seq<Edge>, x: nat, l: nat) {
    IsKnown(actors, edges, x) && Single(actors, edges, x) && l != x && Earliest(actors, edges, l, x)
  }

  /** An arrow ends bundled on its target exactly when it moves to the source of another, or another moves
      to its source. */
  lemma OnTargetIff(actors: seq<Actor>, edges: seq<Edge>, i: nat, k: nat)
    requires i < |Bundles(actors, edges)| && k < |Bundles(actors, edges)[i]|
    ensures var n := Bundles(actors, edges)[i][k].arrow;
            n < |edges|
            && (!Bundles(actors, edges)[i][k].bundleOnFrom
                <==> exists x: nat, l: nat :: Moves(actors, edges, x, l) && (x == n || SameSource(edges[n], edges[l])))
  {
    hide Bundles, HasActor, SameSource, OneSource, Single, Takes;
    var r: seq<Group> := Bundles(actors, edges);
    var n := r[i][k].arrow;
    HomeIsHead(actors, edges, i, k);
    FlagIff(actors, edges, i, k);
    if !OneSource(r[i]) {
      var x := SomeMoves(actors, edges, i);
      MoverOrSource(actors, edges, i, k, x);
    }
    forall x: nat, l: nat | Moves(actors, edges, x, l) && (x == n || SameSource(edges[n], edges[l]))
      ensures !OneSource(r[i])
    {
      MoverMixes(actors, edges, i, k, x, l);
    }
  }

  lemma SomeMoves(actors: seq<Actor>, edges: seq<Edge>, i: nat) returns (x: nat)
    requires i < |Bundles(actors, edges)| && !OneSource(Bundles(actors, edges)[i])
    ensures Moves(actors, edges, x, Bundles(actors, edges)[i][0].arrow)
  {
    hide Bundles, HasActor, Single, Earliest;
    var g: Group := Bundles(actors, edges)[i];
    var m :| 0 <= m < |g| && g[m].fromNode != g[0].fromNode;
    x := g[m].arrow;
    HomeIsHead(actors, edges, i, m);
    FinalIsOf(actors, edges, i, m);
    FinalIsOf(actors, edges, i, 0);
    KeysOf(actors, edges, g[m], g[0]);
    SameArrowSameCore(actors, edges, g[m], g[0]);
  }

  lemma MoverOrSource(actors: seq<Actor>, edges: seq<Edge>, i: nat, k: nat, x: nat)
    requires i < |Bundles(actors, edges)| && k < |Bundles(actors, edges)[i]|
    requires Bundles(actors, edges)[i][k].arrow < |edges|
    requires Moves(actors, edges, x, Bundles(actors, edges)[i][0].arrow)
    ensures exists x: nat, l: nat :: Moves(actors, edges, x, l)
                           && (x == Bundles(actors, edges)[i][k].arrow
                               || SameSource(edges[Bundles(actors, edges)[i][k].arrow], edges[l]))
  {
    hide Bundles, HasActor, Single, Takes;
    HomeIsHead(actors, edges, i, k);
    var n, l := Bundles(actors, edges)[i][k].arrow, Bundles(actors, edges)[i][0].arrow;
    if Single(actors, edges, n) && n != l {
      assert Moves(actors, edges, n, l);
    } else {
      assert SameSource(edges[n], edges[l]);
    }
  }

  lemma MoverMixes(actors: seq<Actor>, edges: seq<Edge>, i: nat, k: nat, x: nat, l: nat)
    requires i < |Bundles(actors, edges)| && k < |Bundles(actors, edges)[i]|
    requires Moves(actors, edges, x, l) && IsKnown(actors, edges, Bundles(actors, edges)[i][k].arrow)
    requires x == Bundles(actors, edges)[i][k].arrow
             || SameSource(edges[Bundles(actors, edges)[i][k].arrow], edges[l])
    ensures !OneSource(Bundles(actors, edges)[i])
  {
    hide Bundles, HasActor, Takes, SameSource;
    var r: seq<Group> := Bundles(actors, edges);
    var j, m := PlaceOf(actors, edges, x);
    HomeIsHead(actors, edges, j, m);
    assert r[j][0].arrow == l;
    FinalIsOf(actors, edges, j, m);
    FinalIsOf(actors, edges, j, 0);
    KeysOf(actors, edges, r[j][0], r[j][m]);
    FinalUniform(actors, edges);
    assert UniformAt(r[j], m);
    assert r[j][m].fromNode != r[j][0].fromNode;
    if x == r[i][k].arrow {
      ArrowOnce(actors, edges, i, k, j, m);
    } else {
      FinalIsOf(actors, edges, i, k);
      KeysOf(actors, edges, r[i][k], r[j][0]);
      SameSourceTogether(actors, edges, i, k, j, 0);
    }
  }
}

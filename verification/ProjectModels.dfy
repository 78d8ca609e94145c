/** The generator's model of a project as the mutable object it is, proved to
    leave the groups whose laws `DiagramLaws` states. */
module ProjectModels {
  import opened Rings
  import opened NodeNames
  import opened RollUp
  import opened DiagramLaws

  class ProjectModel {
    const actors: seq<Actor>
    var channels: seq<Group>

    constructor (actors: seq<Actor>)
      ensures channels == [] && this.actors == actors
    {
      this.actors, channels := actors, [];
    }

    /** `roll_up_bundle`: joins the first group there is, or starts one. */
    method RollUpBundle(insertMe: Channel, index: bool, rule: Rule)
      requires NonEmpty(channels)
      modifies this`channels
      ensures channels == RollUp.RollUp(old(channels), insertMe, index, rule)
      ensures old(channels) == [] ==>
                |channels| == 1 && |channels[0]| == 1
                && (channels[0][0].isUnbundled
                    <==> insertMe.isUnbundled || (insertMe.fromMod == insertMe.toMod && SameStem(insertMe)))
    {
      FirstUnbundledIff(insertMe, index, rule);
      hide Matches, Joined, Extracted;
      var at := FirstMatch(channels, insertMe, rule);
      if at.Some? {
        var x := Join(channels[at.value], insertMe, index, rule);
        channels := channels[at.value := x];
      } else {
        var t := insertMe.(bundleIndex := 0);
        if channels == [] && t.fromMod == t.toMod {
          var an, ai := ExtractTrailingNumber(t.fromNode);
          var bn, bi := ExtractTrailingNumber(t.toNode);
          if an == bn {
            t := t.(isUnbundled := true);
          }
        }
        channels := channels + [[t]];
      }
    }

    /** The channel half of `build_pm`: every known arrow is rolled up by source, then what stayed
        alone is rolled up by target. */
    method BuildChannels(edges: seq<Edge>)
      requires channels == []
      modifies this`channels
      ensures channels == Bundles(actors, edges) && AllUniform(channels)
      ensures AllCores(channels) == multiset(Cores(Known(actors, edges)))
      ensures forall i, k :: 0 <= i < |channels| && 0 <= k < |channels[i]| ==>
                               var c := channels[i][k];
                               c.arrow < |edges| && Reads(actors, edges[c.arrow], c)
      ensures forall n :: 0 <= n < |edges| ==> (Appears(channels, n) <==> HasActor(actors, edges[n].fromName))
    {
      hide RollUp.RollUp, Core, Cores, Uniform, AllCores, Matches, Reads, Appears, HasActor;
      for i := 0 to |edges|
        invariant channels == FromGroups(Known(actors, edges[..i]))
      {
        assert edges[..i + 1][..i] == edges[..i];
        var fromMod := ModOf(actors, edges[i].fromName);
        if fromMod.Some? {
          var channel := ChannelOf(actors, edges[i], i);
          ghost var before := Known(actors, edges[..i]);
          assert (before + [channel])[..|before|] == before;
          RollUpBundle(channel, false, SameFrom);
        }
      }
      assert edges[..|edges|] == edges;
      ghost var all := Known(actors, edges);
      FromGroupsConserve(all);
      FromGroupsUniform(all);
      var groups := channels;
      channels := [];
      for i := 0 to |groups|
        invariant channels == ToGroups(groups[..i])
      {
        assert groups[..i + 1][..i] == groups[..i];
        if |groups[i]| > 1 {
          channels := channels + [groups[i]];
        } else {
          RollUpBundle(groups[i][0], true, SameTo);
        }
      }
      assert groups[..|groups|] == groups;
      ToGroupsConserve(groups);
      ToGroupsUniform(groups);
      forall i, k | 0 <= i < |channels| && 0 <= k < |channels[i]|
        ensures channels[i][k].arrow < |edges| && Reads(actors, edges[channels[i][k].arrow], channels[i][k])
      {
        ChannelsAreArrows(actors, edges, i, k);
      }
      forall n | 0 <= n < |edges|
        ensures Appears(channels, n) <==> HasActor(actors, edges[n].fromName)
      {
        ArrowAppearsIff(actors, edges, n);
      }
    }
  }
}

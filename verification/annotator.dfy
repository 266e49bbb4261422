/**
 * `generate_xml_with_channel_groups`: validate the inputs, rebuild the
 * `channelGroups` node, overwrite the date, and run the region pass that fills
 * `region` and `brainRegions`. The document is the parsed template; a `Failure`
 * is an exception raised before the output file is written.
 */
module Annotator {
  import opened Wrappers
  import opened Session
  import opened Text
  import opened Sorting
  import opened Regions

  // ---------------------------------------------------------------------------
  // Step 1: the channelGroups node
  // ---------------------------------------------------------------------------

  /** The children with the first `channelGroups` node taken out, when there is one. */
  function RemoveFirstChannelGroups(children: seq<AnatomicalChild>): seq<AnatomicalChild>
  {
    if children == [] then []
    else if children[0].ChannelGroups? then children[1..]
    else [children[0]] + RemoveFirstChannelGroups(children[1..])
  }

  /** Only the first `channelGroups` child goes; everything else stays, in order. */
  lemma {:induction false} RemoveFirstChannelGroupsAt(children: seq<AnatomicalChild>, k: nat)
    requires k < |children| && children[k].ChannelGroups?
    requires forall j :: 0 <= j < k ==> !children[j].ChannelGroups?
    ensures RemoveFirstChannelGroups(children) == children[..k] + children[k + 1..]
  {
    if k > 0 {
      RemoveFirstChannelGroupsAt(children[1..], k - 1);
      assert children[1..][..k - 1] == children[1..k];
      assert children[1..][k..] == children[k + 1..];
      assert children[..k] == [children[0]] + children[1..k];
    }
  }

  /** Without a `channelGroups` child nothing is removed. */
  lemma {:induction false} RemoveFirstChannelGroupsNone(children: seq<AnatomicalChild>)
    requires forall j :: 0 <= j < |children| ==> !children[j].ChannelGroups?
    ensures RemoveFirstChannelGroups(children) == children
  {
    if children != [] {
      RemoveFirstChannelGroupsNone(children[1..]);
    }
  }

  /** At most one child is a `channelGroups` node. */
  predicate AtMostOneChannelGroups(children: seq<AnatomicalChild>)
  {
    forall i, j :: 0 <= i < j < |children| ==> !(children[i].ChannelGroups? && children[j].ChannelGroups?)
  }

  /** The `channel` children of a group: one per index, in order, `skip="0"`, the index as text. */
  predicate DescribesChannels(channels: seq<Channel>, indices: seq<int>)
  {
    |channels| == |indices|
    && forall j :: 0 <= j < |indices| ==> channels[j].skip == "0" && channels[j].text == Decimal(indices[j])
  }

  /** The `group` children of `channelGroups`: one per input group, in order. */
  predicate DescribesGroups(groups: seq<Group>, channelGroups: seq<seq<int>>)
  {
    |groups| == |channelGroups|
    && forall i :: 0 <= i < |groups| ==> DescribesChannels(groups[i].channels, channelGroups[i])
  }

  /** The `group` children, written out. */
  function GroupNodes(channelGroups: seq<seq<int>>): seq<Group>
  {
    seq(|channelGroups|, i requires 0 <= i < |channelGroups| =>
      Group(seq(|channelGroups[i]|, j requires 0 <= j < |channelGroups[i]| => Channel("0", Decimal(channelGroups[i][j])))))
  }

  /** The description determines the nodes. */
  lemma DescribesGroupsUnique(a: seq<Group>, b: seq<Group>, channelGroups: seq<seq<int>>)
    requires DescribesGroups(a, channelGroups) && DescribesGroups(b, channelGroups)
    ensures a == b
  {
    forall i | 0 <= i < |a| ensures a[i] == b[i] {
      assert a[i].channels == b[i].channels;
    }
  }

  /** Builds the `channel` children of one group, index by index. */
  method BuildChannels(indices: seq<int>) returns (channels: seq<Channel>)
    ensures DescribesChannels(channels, indices)
  {
    channels := [];
    for j := 0 to |indices|
      invariant DescribesChannels(channels, indices[..j])
    {
      channels := channels + [Channel("0", Decimal(indices[j]))];
    }
    assert indices[..|indices|] == indices;
  }

  /** Builds the new `channelGroups` node group by group, channel by channel. */
  method BuildChannelGroups(channelGroups: seq<seq<int>>) returns (node: AnatomicalChild)
    ensures node.ChannelGroups? && DescribesGroups(node.groups, channelGroups)
  {
    var groups: seq<Group> := [];
    for i := 0 to |channelGroups|
      invariant DescribesGroups(groups, channelGroups[..i])
    {
      var channels := BuildChannels(channelGroups[i]);
      groups := groups + [Group(channels)];
    }
    assert channelGroups[..|channelGroups|] == channelGroups;
    node := ChannelGroups(groups);
  }

  // ---------------------------------------------------------------------------
  // Step 2: the date
  // ---------------------------------------------------------------------------

  /** Sets `generalInfo/date` when both exist; otherwise the document is unchanged. */
  function WithDate(doc: Document, date: string): Document
  {
    if doc.generalInfo.Some? && doc.generalInfo.value.date.Some?
    then doc.(generalInfo := Some(doc.generalInfo.value.(date := Some(date))))
    else doc
  }

  // ---------------------------------------------------------------------------
  // Steps 3 and 4: the region pass and its emission
  // ---------------------------------------------------------------------------

  /** The region pass runs: labels were given, are non-empty, and `acquisitionSystem/nChannels` exists. */
  predicate RegionPassRuns(doc: Document, groupRegions: Option<seq<string>>)
  {
    groupRegions.Some? && |groupRegions.value| > 0
    && doc.acquisitionSystem.Some? && doc.acquisitionSystem.value.nChannels.Some?
  }

  /** One `brainRegions` child: the region's channels and electrode groups, each sorted and space-joined. */
  function RegionNodeFor(name: string, data: RegionData): RegionNode
  {
    RegionNode(name, JoinInts(SortInts(data.channels)), JoinInts(SortInts(data.electrodeGroups)))
  }

  /** The `brainRegions` children, one per summary key, in key order. */
  function BrainRegionNodes(pass: RegionPass): seq<RegionNode>
    requires forall key :: key in pass.keys ==> key in pass.data
  {
    seq(|pass.keys|, i requires 0 <= i < |pass.keys| => RegionNodeFor(pass.keys[i], pass.data[pass.keys[i]]))
  }

  /** Emits one `brainRegions` child per summary key, walking the keys in order. */
  method EmitBrainRegions(pass: RegionPass) returns (nodes: seq<RegionNode>)
    requires forall key :: key in pass.keys ==> key in pass.data
    ensures |nodes| == |pass.keys|
    ensures forall i :: 0 <= i < |nodes| ==> nodes[i] == RegionNodeFor(pass.keys[i], pass.data[pass.keys[i]])
  {
    nodes := [];
    for i := 0 to |pass.keys|
      invariant |nodes| == i
      invariant forall j :: 0 <= j < i ==> nodes[j] == RegionNodeFor(pass.keys[j], pass.data[pass.keys[j]])
    {
      var name := pass.keys[i];
      nodes := nodes + [RegionNodeFor(name, pass.data[name])];
    }
  }

  /** Writes `region` and rebuilds `brainRegions`, each only where the section exists. */
  function WithRegions(doc: Document, pass: RegionPass): Document
    requires forall key :: key in pass.keys ==> key in pass.data
  {
    doc.(region := if doc.region.Some? then Some(Join(pass.regionArray, ' ')) else doc.region,
         brainRegions := if doc.brainRegions.Some? then Some(BrainRegionNodes(pass)) else doc.brainRegions)
  }

  // ---------------------------------------------------------------------------
  // The whole call
  // ---------------------------------------------------------------------------

  /** Steps 1 and 2 on a template that has an `anatomicalDescription`. */
  function Prepared(template: Document, channelGroups: seq<seq<int>>, date: Option<string>): Document
    requires template.anatomicalDescription.Some?
  {
    var rebuilt := template.(anatomicalDescription :=
      Some(RemoveFirstChannelGroups(template.anatomicalDescription.value) + [ChannelGroups(GroupNodes(channelGroups))]));
    if date.Some? then WithDate(rebuilt, date.value) else rebuilt
  }

  /** What the call produces from the parsed template, or the exception it raises. */
  function Annotated(template: Document, channelGroups: seq<seq<int>>, date: Option<string>,
                     groupRegions: Option<seq<string>>): Result<Document, Error>
  {
    if groupRegions.Some? && |groupRegions.value| != |channelGroups| then
      Failure(RegionCountMismatch(|groupRegions.value|, |channelGroups|))
    else if template.anatomicalDescription.None? then
      Failure(MissingAnatomicalDescription)
    else if !RegionPassRuns(template, groupRegions) then
      Success(Prepared(template, channelGroups, date))
    else
      match RegionPassSpec(channelGroups, groupRegions.value, template.acquisitionSystem.value.nChannels.value)
      case Failure(e) => Failure(e)
      case Success(pass) => Success(WithRegions(Prepared(template, channelGroups, date), pass))
  }

  /** The annotator, step by step on the parsed template. */
  method GenerateXmlWithChannelGroups(template: Document, channelGroups: seq<seq<int>>, date: Option<string>,
                                      groupRegions: Option<seq<string>>) returns (r: Result<Document, Error>)
    ensures r == Annotated(template, channelGroups, date, groupRegions)
  {
    if groupRegions.Some? && |groupRegions.value| != |channelGroups| {
      return Failure(RegionCountMismatch(|groupRegions.value|, |channelGroups|));
    }
    var root := template;
    if root.anatomicalDescription.None? {
      return Failure(MissingAnatomicalDescription);
    }

    var node := BuildChannelGroups(channelGroups);
    DescribesGroupsUnique(node.groups, GroupNodes(channelGroups), channelGroups);
    root := root.(anatomicalDescription := Some(RemoveFirstChannelGroups(root.anatomicalDescription.value) + [node]));

    if date.Some? {
      if root.generalInfo.Some? {
        if root.generalInfo.value.date.Some? {
          root := root.(generalInfo := Some(root.generalInfo.value.(date := Some(date.value))));
        }
      }
    }

    if groupRegions.Some? && |groupRegions.value| > 0 {
      if root.acquisitionSystem.Some? {
        if root.acquisitionSystem.value.nChannels.Some? {
          var n := root.acquisitionSystem.value.nChannels.value;
          var pass := BuildRegions(channelGroups, groupRegions.value, n);
          if pass.Failure? {
            return Failure(pass.error);
          }
          if root.region.Some? {
            root := root.(region := Some(Join(pass.value.regionArray, ' ')));
          }
          if root.brainRegions.Some? {
            var nodes := EmitBrainRegions(pass.value);
            assert nodes == BrainRegionNodes(pass.value);
            root := root.(brainRegions := Some(nodes));
          }
        }
      }
    }
    return Success(root);
  }
}

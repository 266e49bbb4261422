/**
 * What the annotator promises, stated about its reference definition
 * `Annotator.Annotated` (which `GenerateXmlWithChannelGroups` is proved to
 * compute): when it raises, what each guarded step writes or leaves alone,
 * what the region text and the brainRegions text read back as, and that a
 * second run over its own output changes nothing.
 */
module AnnotatorProperties {
  import opened Wrappers
  import opened Session
  import opened Text
  import opened Sorting
  import opened Regions
  import opened Annotator

  /** The two ValueErrors come first; the IndexError only from a region pass that runs. */
  lemma AnnotatedFailures(t: Document, cg: seq<seq<int>>, date: Option<string>, gr: Option<seq<string>>)
    ensures gr.Some? && |gr.value| != |cg| ==>
      Annotated(t, cg, date, gr) == Failure(RegionCountMismatch(|gr.value|, |cg|))
    ensures (gr.None? || |gr.value| == |cg|) && t.anatomicalDescription.None? ==>
      Annotated(t, cg, date, gr) == Failure(MissingAnatomicalDescription)
    ensures (gr.None? || |gr.value| == |cg|) && t.anatomicalDescription.Some? ==>
      (Annotated(t, cg, date, gr).Failure? <==>
        RegionPassRuns(t, gr) && HasBadIndex(cg, gr.value, t.acquisitionSystem.value.nChannels.value))
    ensures (&& (gr.None? || |gr.value| == |cg|) && t.anatomicalDescription.Some? && RegionPassRuns(t, gr)
             && HasBadIndex(cg, gr.value, t.acquisitionSystem.value.nChannels.value)) ==>
      Annotated(t, cg, date, gr) == Failure(RegionIndexOutOfRange)
    ensures Annotated(t, cg, date, gr).Failure? && Annotated(t, cg, date, gr).error == RegionIndexOutOfRange ==>
      RegionPassRuns(t, gr)
  {
  }

  /**
   * The first `channelGroups` child is removed and a fresh one is appended,
   * with one `group` per input group and one `channel` per index.
   */
  lemma AnnotatedChannelGroups(t: Document, cg: seq<seq<int>>, date: Option<string>, gr: Option<seq<string>>)
    requires Annotated(t, cg, date, gr).Success?
    ensures t.anatomicalDescription.Some?
    ensures var out := Annotated(t, cg, date, gr).value;
      out.anatomicalDescription.Some?
      && var children := out.anatomicalDescription.value;
      |children| >= 1
      && children[..|children| - 1] == RemoveFirstChannelGroups(t.anatomicalDescription.value)
      && children[|children| - 1].ChannelGroups?
      && DescribesGroups(children[|children| - 1].groups, cg)
  {
    var out := Annotated(t, cg, date, gr).value;
    var prepared := Prepared(t, cg, date);
    if RegionPassRuns(t, gr) {
      var pass := RegionPassSpec(cg, gr.value, t.acquisitionSystem.value.nChannels.value).value;
      assert out == WithRegions(prepared, pass);
    } else {
      assert out == prepared;
    }
    var kept := RemoveFirstChannelGroups(t.anatomicalDescription.value);
    var children := kept + [ChannelGroups(GroupNodes(cg))];
    assert prepared.anatomicalDescription == Some(children);
    assert children[..|children| - 1] == kept;
  }

  /** The date is set only when a date is given and both `generalInfo` and its `date` exist. */
  lemma AnnotatedDate(t: Document, cg: seq<seq<int>>, date: Option<string>, gr: Option<seq<string>>)
    requires Annotated(t, cg, date, gr).Success?
    ensures var out := Annotated(t, cg, date, gr).value;
      out.generalInfo ==
        (if date.Some? && t.generalInfo.Some? && t.generalInfo.value.date.Some?
         then Some(GeneralInfo(Some(date.value))) else t.generalInfo)
    ensures Annotated(t, cg, date, gr).value.acquisitionSystem == t.acquisitionSystem
  {
  }

  /**
   * `region` is rewritten only when the region pass runs and the section exists.
   * Then it holds the per-channel labels joined by single spaces, and, if no
   * label holds a space, its space-separated fields are the
   * `nChannels` per-channel labels: field `k` is the label of the last labelled
   * group listing channel `k` (see `LabelAtLastWriter`), or empty.
   */
  lemma AnnotatedRegion(t: Document, cg: seq<seq<int>>, date: Option<string>, gr: Option<seq<string>>)
    requires Annotated(t, cg, date, gr).Success?
    ensures var out := Annotated(t, cg, date, gr).value;
      !(RegionPassRuns(t, gr) && t.region.Some?) ==> out.region == t.region
    ensures var out := Annotated(t, cg, date, gr).value;
      RegionPassRuns(t, gr) && t.region.Some? ==>
        var n := t.acquisitionSystem.value.nChannels.value;
        && out.region == Some(Join(seq(n, k => LabelAt(cg, gr.value, n, k, |cg|)), ' '))
        && (n == 0 ==> out.region.value == "")
        && (n > 0 && (forall g :: 0 <= g < |gr.value| ==> ' ' !in gr.value[g]) ==>
              var fields := Split(out.region.value, ' ');
              |fields| == n && forall k :: 0 <= k < n ==> fields[k] == LabelAt(cg, gr.value, n, k, |cg|))
  {
    if RegionPassRuns(t, gr) && t.region.Some? {
      var n := t.acquisitionSystem.value.nChannels.value;
      var pass := RegionPassSpec(cg, gr.value, n).value;
      var out := Annotated(t, cg, date, gr).value;
      assert out.region == Some(Join(pass.regionArray, ' '));
      if n > 0 && (forall g :: 0 <= g < |gr.value| ==> ' ' !in gr.value[g]) {
        forall k | 0 <= k < n ensures ' ' !in pass.regionArray[k] {
          LabelAtIsALabel(cg, gr.value, n, k, |cg|);
        }
        SplitJoin(pass.regionArray, ' ');
      }
    }
  }

  /** Every slot holds "" or one of the labels. */
  lemma {:induction false} LabelAtIsALabel(groups: seq<seq<int>>, labels: seq<string>, n: nat, k: int, m: nat)
    requires m <= |groups| && m <= |labels|
    ensures LabelAt(groups, labels, n, k, m) == "" || LabelAt(groups, labels, n, k, m) in labels[..m]
  {
    if m > 0 {
      LabelAtIsALabel(groups, labels, n, k, m - 1);
      assert labels[..m] == labels[..m - 1] + [labels[m - 1]];
    }
  }

  /**
   * `brainRegions` is rebuilt only when the region pass runs and the section
   * exists. Then it has one child per non-empty label, in first-seen order;
   * a child's `channels` text is the decimal text of its groups' channels,
   * sorted and space-joined, and its `electrodeGroups` text that of the indices
   * of its groups, already ascending; each text reads back as its list.
   */
  lemma AnnotatedBrainRegions(t: Document, cg: seq<seq<int>>, date: Option<string>, gr: Option<seq<string>>)
    requires Annotated(t, cg, date, gr).Success?
    ensures var out := Annotated(t, cg, date, gr).value;
      !(RegionPassRuns(t, gr) && t.brainRegions.Some?) ==> out.brainRegions == t.brainRegions
    ensures var out := Annotated(t, cg, date, gr).value;
      RegionPassRuns(t, gr) && t.brainRegions.Some? ==>
        var keys := Keys(gr.value, |gr.value|);
        && out.brainRegions.Some?
        && |out.brainRegions.value| == |keys|
        && forall i :: 0 <= i < |out.brainRegions.value| ==>
             && out.brainRegions.value[i].name == keys[i]
             && out.brainRegions.value[i].channels == JoinInts(SortInts(ChannelsOf(cg, gr.value, keys[i], |cg|)))
             && out.brainRegions.value[i].electrodeGroups == JoinInts(GroupsOf(gr.value, keys[i], |gr.value|))
             && ParseIntList(out.brainRegions.value[i].channels) == Some(SortInts(ChannelsOf(cg, gr.value, keys[i], |cg|)))
             && ParseIntList(out.brainRegions.value[i].electrodeGroups) == Some(GroupsOf(gr.value, keys[i], |gr.value|))
  {
    if RegionPassRuns(t, gr) && t.brainRegions.Some? {
      var n := t.acquisitionSystem.value.nChannels.value;
      var pass := RegionPassSpec(cg, gr.value, n).value;
      var out := Annotated(t, cg, date, gr).value;
      assert out == WithRegions(Prepared(t, cg, date), pass);
      assert out.brainRegions == Some(BrainRegionNodes(pass));
      PassBrainRegions(cg, gr.value, n);
    }
  }

  /** The `brainRegions` children a successful region pass yields, key by key. */
  lemma PassBrainRegions(cg: seq<seq<int>>, labels: seq<string>, n: nat)
    requires |labels| == |cg| && RegionPassSpec(cg, labels, n).Success?
    ensures var nodes := BrainRegionNodes(RegionPassSpec(cg, labels, n).value);
      var keys := Keys(labels, |labels|);
      && |nodes| == |keys|
      && forall i :: 0 <= i < |nodes| ==>
           && nodes[i].name == keys[i]
           && nodes[i].channels == JoinInts(SortInts(ChannelsOf(cg, labels, keys[i], |cg|)))
           && nodes[i].electrodeGroups == JoinInts(GroupsOf(labels, keys[i], |labels|))
           && ParseIntList(nodes[i].channels) == Some(SortInts(ChannelsOf(cg, labels, keys[i], |cg|)))
           && ParseIntList(nodes[i].electrodeGroups) == Some(GroupsOf(labels, keys[i], |labels|))
  {
    var pass := RegionPassSpec(cg, labels, n).value;
    var nodes := BrainRegionNodes(pass);
    var keys := Keys(labels, |labels|);
    forall i | 0 <= i < |nodes|
      ensures nodes[i].name == keys[i]
      ensures nodes[i].channels == JoinInts(SortInts(ChannelsOf(cg, labels, keys[i], |cg|)))
      ensures nodes[i].electrodeGroups == JoinInts(GroupsOf(labels, keys[i], |labels|))
      ensures ParseIntList(nodes[i].channels) == Some(SortInts(ChannelsOf(cg, labels, keys[i], |cg|)))
      ensures ParseIntList(nodes[i].electrodeGroups) == Some(GroupsOf(labels, keys[i], |labels|))
    {
      assert keys[i] in keys;
      assert pass.data[keys[i]] == RegionData(ChannelsOf(cg, labels, keys[i], |cg|), GroupsOf(labels, keys[i], |labels|));
      RegionNodeReadsBack(cg, labels, keys[i]);
    }
  }

  /**
   * The `brainRegions` child of a label: its `electrodeGroups` text is the
   * decimal text of its group indices as they stand, since they ascend; its
   * `channels` text reads back as the label's channels sorted, its
   * `electrodeGroups` text as its group indices.
   */
  lemma RegionNodeReadsBack(cg: seq<seq<int>>, labels: seq<string>, name: string)
    requires |labels| == |cg|
    ensures var node := RegionNodeFor(name, RegionData(ChannelsOf(cg, labels, name, |cg|), GroupsOf(labels, name, |labels|)));
      && node.electrodeGroups == JoinInts(GroupsOf(labels, name, |labels|))
      && ParseIntList(node.channels) == Some(SortInts(ChannelsOf(cg, labels, name, |cg|)))
      && ParseIntList(node.electrodeGroups) == Some(GroupsOf(labels, name, |labels|))
  {
    var groupsOf := GroupsOf(labels, name, |labels|);
    IntListRoundTrip(SortInts(ChannelsOf(cg, labels, name, |cg|)));
    GroupsOfIncreasing(labels, name, |labels|);
    SortAscending(groupsOf);
    IntListRoundTrip(groupsOf);
  }

  /** After removing the only `channelGroups` child, none is left. */
  lemma {:induction false} RemoveFirstLeavesNone(children: seq<AnatomicalChild>)
    requires AtMostOneChannelGroups(children)
    ensures forall j :: 0 <= j < |RemoveFirstChannelGroups(children)| ==> !RemoveFirstChannelGroups(children)[j].ChannelGroups?
  {
    if children != [] && !children[0].ChannelGroups? {
      RemoveFirstLeavesNone(children[1..]);
    }
  }

  /** With no other `channelGroups` child, the one appended last is the one removed. */
  lemma {:induction false} RemoveFirstOfAppended(children: seq<AnatomicalChild>, node: AnatomicalChild)
    requires forall j :: 0 <= j < |children| ==> !children[j].ChannelGroups?
    requires node.ChannelGroups?
    ensures RemoveFirstChannelGroups(children + [node]) == children
  {
    if children != [] {
      RemoveFirstOfAppended(children[1..], node);
      assert (children + [node])[1..] == children[1..] + [node];
      assert children == [children[0]] + children[1..];
    } else {
      assert children + [node] == [node];
    }
  }

  /**
   * Annotating the output again with the same inputs gives the same document,
   * provided the template had at most one `channelGroups` node.
   */
  lemma AnnotatedIdempotent(t: Document, cg: seq<seq<int>>, date: Option<string>, gr: Option<seq<string>>)
    requires Annotated(t, cg, date, gr).Success?
    requires t.anatomicalDescription.Some? ==> AtMostOneChannelGroups(t.anatomicalDescription.value)
    ensures Annotated(Annotated(t, cg, date, gr).value, cg, date, gr) == Annotated(t, cg, date, gr)
  {
    var kept := RemoveFirstChannelGroups(t.anatomicalDescription.value);
    RemoveFirstLeavesNone(t.anatomicalDescription.value);
    RemoveFirstOfAppended(kept, ChannelGroups(GroupNodes(cg)));
  }

  /**
   * Overlapping groups [[0, 1], [1, 2]] labelled A and B over 3 channels:
   * channel 1 belongs to both; the per-channel array gives it the later label B,
   * while the summary of A still lists it.
   */
  lemma OverlapLabels()
    ensures LabelAt([[0, 1], [1, 2]], ["A", "B"], 3, 0, 2) == "A"
    ensures LabelAt([[0, 1], [1, 2]], ["A", "B"], 3, 1, 2) == "B"
    ensures LabelAt([[0, 1], [1, 2]], ["A", "B"], 3, 2, 2) == "B"
  {
    var groups: seq<seq<int>> := [[0, 1], [1, 2]];
    var labels := ["A", "B"];
    assert Covers(groups[0], 3, 0) && !Covers(groups[1], 3, 0);
    assert Covers(groups[1], 3, 1) && Covers(groups[1], 3, 2);
    LabelAtLastWriter(groups, labels, 3, 0, 2, 0);
    LabelAtLastWriter(groups, labels, 3, 1, 2, 1);
    LabelAtLastWriter(groups, labels, 3, 2, 2, 1);
  }

  /** The summary of the same overlapping groups: A keeps channel 1 although the array labels it B. */
  lemma OverlapSummary()
    ensures Keys(["A", "B"], 2) == ["A", "B"]
    ensures ChannelsOf([[0, 1], [1, 2]], ["A", "B"], "A", 2) == [0, 1]
    ensures ChannelsOf([[0, 1], [1, 2]], ["A", "B"], "B", 2) == [1, 2]
    ensures GroupsOf(["A", "B"], "A", 2) == [0]
    ensures GroupsOf(["A", "B"], "B", 2) == [1]
  {
    assert Keys(["A", "B"], 1) == ["A"];
  }
}

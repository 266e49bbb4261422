/**
 * The region pass of the annotator: from the channel groups, one label per
 * group ("" for an unlabelled group) and the channel count, build the
 * per-channel label array (last labelled group wins) and the summary that maps
 * each label, in first-seen order, to its channels and its group indices.
 */
module Regions {
  import opened Wrappers
  import opened Session

  // ---------------------------------------------------------------------------
  // Python list indexing on the per-channel array
  // ---------------------------------------------------------------------------

  /** Assigning to index `ch` of a Python list of length `n` succeeds exactly when this holds. */
  predicate InBounds(ch: int, n: nat)
  {
    -(n as int) <= ch < n
  }

  /** The slot that index `ch` denotes: a negative index counts from the end. */
  function Slot(ch: int, n: nat): (k: nat)
    requires InBounds(ch, n)
    ensures k < n
  {
    if ch < 0 then ch + n else ch
  }

  /** Some index listed in `group` denotes slot `k` (for `0 <= k < n`). */
  predicate Covers(group: seq<int>, n: nat, k: int)
  {
    k in group || k - n in group
  }

  // ---------------------------------------------------------------------------
  // Reference definitions, over the first `m` groups
  // ---------------------------------------------------------------------------

  /** The label slot `k` holds once the first `m` groups are written; "" when none wrote it. */
  function LabelAt(groups: seq<seq<int>>, labels: seq<string>, n: nat, k: int, m: nat): string
    requires m <= |groups| && m <= |labels|
  {
    if m == 0 then ""
    else if labels[m - 1] != "" && Covers(groups[m - 1], n, k) then labels[m - 1]
    else LabelAt(groups, labels, n, k, m - 1)
  }

  /** Some group with a non-empty label lists an index that `region_array` rejects. */
  predicate HasBadIndex(groups: seq<seq<int>>, labels: seq<string>, n: nat)
  {
    exists i, j :: 0 <= i < |groups| && i < |labels| && labels[i] != "" && 0 <= j < |groups[i]|
      && !InBounds(groups[i][j], n)
  }

  /** The keys of the summary after the first `m` groups: the non-empty labels, each once, in first-seen order. */
  function Keys(labels: seq<string>, m: nat): seq<string>
    requires m <= |labels|
  {
    if m == 0 then []
    else
      var prior := Keys(labels, m - 1);
      if labels[m - 1] == "" || labels[m - 1] in prior then prior else prior + [labels[m - 1]]
  }

  /** The channels summarised under `name`: the lists of its groups, concatenated in group order. */
  function ChannelsOf(groups: seq<seq<int>>, labels: seq<string>, name: string, m: nat): seq<int>
    requires m <= |groups| && m <= |labels|
  {
    if m == 0 then []
    else ChannelsOf(groups, labels, name, m - 1) + (if labels[m - 1] == name then groups[m - 1] else [])
  }

  /** The electrode groups summarised under `name`: the indices of its groups. */
  function GroupsOf(labels: seq<string>, name: string, m: nat): seq<int>
    requires m <= |labels|
  {
    if m == 0 then []
    else GroupsOf(labels, name, m - 1) + (if labels[m - 1] == name then [m - 1] else [])
  }

  /** The index of the first group labelled `name`. */
  function FirstIndex(labels: seq<string>, name: string, m: nat): (i: nat)
    requires m <= |labels| && name in labels[..m]
    ensures i < m && labels[i] == name
    ensures forall j :: 0 <= j < i ==> labels[j] != name
  {
    assert labels[..m] == labels[..m - 1] + [labels[m - 1]];
    if name in labels[..m - 1] then FirstIndex(labels, name, m - 1) else m - 1
  }

  // ---------------------------------------------------------------------------
  // The outcome of the pass
  // ---------------------------------------------------------------------------

  /** One entry of `regions_dict`. */
  datatype RegionData = RegionData(channels: seq<int>, electrodeGroups: seq<int>)

  /** `region_array`, the keys of `regions_dict` in insertion order, and `regions_dict` itself. */
  datatype RegionPass = RegionPass(regionArray: seq<string>, keys: seq<string>, data: map<string, RegionData>)

  /** What the region pass computes, or the IndexError it raises. */
  function RegionPassSpec(groups: seq<seq<int>>, labels: seq<string>, n: nat): (r: Result<RegionPass, Error>)
    requires |labels| == |groups|
    ensures r.Success? ==> |r.value.regionArray| == n
    ensures r.Success? ==> forall key :: key in r.value.keys ==> key in r.value.data
  {
    if HasBadIndex(groups, labels, n) then Failure(RegionIndexOutOfRange)
    else
      var keys := Keys(labels, |labels|);
      Success(RegionPass(
        seq(n, k => LabelAt(groups, labels, n, k, |groups|)),
        keys,
        map name | name in keys :: RegionData(ChannelsOf(groups, labels, name, |groups|), GroupsOf(labels, name, |labels|))))
  }

  // ---------------------------------------------------------------------------
  // The pass itself: an array written in place, an ordered key list and a map
  // ---------------------------------------------------------------------------

  /**
   * Walks the groups in order; a group with a non-empty label extends its entry
   * of the summary and writes its label into every slot it lists, overwriting
   * what earlier groups wrote. Raises on the first index the array rejects.
   */
  method BuildRegions(groups: seq<seq<int>>, labels: seq<string>, n: nat) returns (r: Result<RegionPass, Error>)
    requires |labels| == |groups|
    ensures r == RegionPassSpec(groups, labels, n)
  {
    var regionArray := new string[n](_ => "");
    var keys: seq<string> := [];
    var data: map<string, RegionData> := map[];
    for g := 0 to |groups|
      invariant regionArray.Length == n
      invariant keys == Keys(labels, g)
      invariant SummaryUpTo(groups, labels, g, keys, data)
      invariant forall i, j :: 0 <= i < g && labels[i] != "" && 0 <= j < |groups[i]| ==> InBounds(groups[i][j], n)
      invariant forall k :: 0 <= k < n ==> regionArray[k] == LabelAt(groups, labels, n, k, g)
    {
      var name := labels[g];
      if name != "" {
        keys, data := AddToSummary(groups, labels, g, keys, data);
        var ok := WriteLabel(regionArray, groups[g], name);
        if !ok {
          return Failure(RegionIndexOutOfRange);
        }
      } else {
        SummarySkip(groups, labels, g, keys, data);
      }
    }
    assert !HasBadIndex(groups, labels, n);
    assert regionArray[..] == seq(n, k => LabelAt(groups, labels, n, k, |groups|));
    assert data == map name | name in keys :: RegionData(ChannelsOf(groups, labels, name, |groups|), GroupsOf(labels, name, |labels|));
    r := Success(RegionPass(regionArray[..], keys, data));
  }

  /** `data` holds, for each key, the summary of the first `m` groups. */
  ghost predicate SummaryUpTo(groups: seq<seq<int>>, labels: seq<string>, m: nat, keys: seq<string>, data: map<string, RegionData>)
    requires m <= |groups| && m <= |labels|
  {
    && (forall name :: name in data <==> name in keys)
    && (forall name :: name in data ==>
          data[name] == RegionData(ChannelsOf(groups, labels, name, m), GroupsOf(labels, name, m)))
  }

  /** Adds group `g` to the summary of its label: its channels go to the end of the label's channels, its index to the end of the label's groups. */
  method AddToSummary(groups: seq<seq<int>>, labels: seq<string>, g: nat, keys: seq<string>, data: map<string, RegionData>)
    returns (keys': seq<string>, data': map<string, RegionData>)
    requires g < |groups| == |labels| && labels[g] != ""
    requires keys == Keys(labels, g) && SummaryUpTo(groups, labels, g, keys, data)
    ensures keys' == Keys(labels, g + 1) && SummaryUpTo(groups, labels, g + 1, keys', data')
  {
    var name := labels[g];
    keys', data' := keys, data;
    if name !in data {
      KeysMembers(labels, g, name);
      AbsentLabel(groups, labels, name, g);
      keys' := keys + [name];
      data' := data[name := RegionData([], [])];
    }
    data' := data'[name := RegionData(data'[name].channels + groups[g], data'[name].electrodeGroups + [g])];
  }

  /** A group with the empty label leaves the summary as it is. */
  lemma SummarySkip(groups: seq<seq<int>>, labels: seq<string>, g: nat, keys: seq<string>, data: map<string, RegionData>)
    requires g < |groups| == |labels| && labels[g] == ""
    requires keys == Keys(labels, g) && SummaryUpTo(groups, labels, g, keys, data)
    ensures keys == Keys(labels, g + 1) && SummaryUpTo(groups, labels, g + 1, keys, data)
  {
    forall name | name in data ensures name != "" {
      KeysMembers(labels, g, name);
    }
  }

  /**
   * Writes `name` into every slot the group lists, one index at a time. On
   * success every slot the group lists holds `name` and the others are as they
   * were; `ok` is false when some index is out of range (Python raises there,
   * so the array is then not used).
   */
  method WriteLabel(regionArray: array<string>, group: seq<int>, name: string) returns (ok: bool)
    modifies regionArray
    ensures ok <==> forall j :: 0 <= j < |group| ==> InBounds(group[j], regionArray.Length)
    ensures ok ==> forall k :: 0 <= k < regionArray.Length ==>
      regionArray[k] == (if Covers(group, regionArray.Length, k) then name else old(regionArray[k]))
  {
    var n := regionArray.Length;
    for j := 0 to |group|
      invariant forall k :: 0 <= k < n ==>
        regionArray[k] == (if Covers(group[..j], n, k) then name else old(regionArray[k]))
      invariant forall jj :: 0 <= jj < j ==> InBounds(group[jj], n)
    {
      var ch := group[j];
      if !InBounds(ch, n) {
        return false;
      }
      assert group[..j + 1] == group[..j] + [ch];
      regionArray[Slot(ch, n)] := name;
    }
    assert group[..|group|] == group;
    return true;
  }

  // ---------------------------------------------------------------------------
  // What the reference definitions mean
  // ---------------------------------------------------------------------------

  /** A label that no group among the first `m` carries has no channels and no groups. */
  lemma {:induction false} AbsentLabel(groups: seq<seq<int>>, labels: seq<string>, name: string, m: nat)
    requires m <= |groups| && m <= |labels|
    requires name !in labels[..m]
    ensures ChannelsOf(groups, labels, name, m) == [] && GroupsOf(labels, name, m) == []
  {
    if m > 0 {
      assert labels[..m] == labels[..m - 1] + [labels[m - 1]];
      AbsentLabel(groups, labels, name, m - 1);
    }
  }

  /**
   * Last write wins: slot `k` holds the label of group `i` when group `i` is
   * labelled and lists `k`, and no later labelled group lists `k`.
   */
  lemma {:induction false} LabelAtLastWriter(groups: seq<seq<int>>, labels: seq<string>, n: nat, k: int, m: nat, i: nat)
    requires m <= |groups| && m <= |labels|
    requires i < m && labels[i] != "" && Covers(groups[i], n, k)
    requires forall j :: i < j < m ==> labels[j] == "" || !Covers(groups[j], n, k)
    ensures LabelAt(groups, labels, n, k, m) == labels[i]
  {
    if i < m - 1 {
      LabelAtLastWriter(groups, labels, n, k, m - 1, i);
    }
  }

  /** A slot that no labelled group lists keeps the empty label. */
  lemma {:induction false} LabelAtUnwritten(groups: seq<seq<int>>, labels: seq<string>, n: nat, k: int, m: nat)
    requires m <= |groups| && m <= |labels|
    requires forall j :: 0 <= j < m ==> labels[j] == "" || !Covers(groups[j], n, k)
    ensures LabelAt(groups, labels, n, k, m) == ""
  {
    if m > 0 {
      LabelAtUnwritten(groups, labels, n, k, m - 1);
    }
  }

  /** The summary keys are exactly the non-empty labels. */
  lemma {:induction false} KeysMembers(labels: seq<string>, m: nat, name: string)
    requires m <= |labels|
    ensures name in Keys(labels, m) <==> name != "" && name in labels[..m]
  {
    if m > 0 {
      assert labels[..m] == labels[..m - 1] + [labels[m - 1]];
      KeysMembers(labels, m - 1, name);
    }
  }

  /** No label is a key twice. */
  lemma {:induction false} KeysDistinct(labels: seq<string>, m: nat)
    requires m <= |labels|
    ensures forall a, b :: 0 <= a < b < |Keys(labels, m)| ==> Keys(labels, m)[a] != Keys(labels, m)[b]
  {
    if m > 0 {
      KeysDistinct(labels, m - 1);
    }
  }

  /** Keys appear in the order in which their labels are first seen. */
  lemma {:induction false} KeysFirstSeenOrder(labels: seq<string>, m: nat, a: nat, b: nat)
    requires m <= |labels| && a < b < |Keys(labels, m)|
    ensures Keys(labels, m)[a] in labels[..m] && Keys(labels, m)[b] in labels[..m]
    ensures FirstIndex(labels, Keys(labels, m)[a], m) < FirstIndex(labels, Keys(labels, m)[b], m)
  {
    var keys := Keys(labels, m);
    var prior := Keys(labels, m - 1);
    KeysMembers(labels, m, keys[a]);
    KeysMembers(labels, m, keys[b]);
    assert labels[..m] == labels[..m - 1] + [labels[m - 1]];
    KeysMembers(labels, m - 1, keys[a]);
    if b < |prior| {
      assert keys[a] == prior[a] && keys[b] == prior[b];
      KeysMembers(labels, m - 1, keys[b]);
      KeysFirstSeenOrder(labels, m - 1, a, b);
    } else {
      // keys[b] is the label of group m - 1, seen there for the first time
      assert keys[a] == prior[a];
      assert keys[b] == labels[m - 1] && labels[m - 1] !in prior;
      KeysMembers(labels, m - 1, keys[b]);
    }
  }

  /** Group `i` is summarised under `name` exactly when it is labelled `name`. */
  lemma {:induction false} GroupsOfMembers(labels: seq<string>, name: string, m: nat, i: int)
    requires m <= |labels|
    ensures i in GroupsOf(labels, name, m) <==> 0 <= i < m && labels[i] == name
  {
    if m > 0 {
      GroupsOfMembers(labels, name, m - 1, i);
    }
  }

  /** The group indices of a label are strictly increasing, so `sorted` leaves them as they are. */
  lemma {:induction false} GroupsOfIncreasing(labels: seq<string>, name: string, m: nat)
    requires m <= |labels|
    ensures forall a, b :: 0 <= a < b < |GroupsOf(labels, name, m)| ==>
      GroupsOf(labels, name, m)[a] < GroupsOf(labels, name, m)[b]
  {
    if m > 0 {
      var prior := GroupsOf(labels, name, m - 1);
      GroupsOfIncreasing(labels, name, m - 1);
      forall a | 0 <= a < |prior| ensures prior[a] < m - 1 {
        GroupsOfMembers(labels, name, m - 1, prior[a]);
      }
    }
  }

  /** A channel is summarised under `name` exactly when some group labelled `name` lists it. */
  lemma {:induction false} ChannelsOfMembers(groups: seq<seq<int>>, labels: seq<string>, name: string, m: nat, ch: int)
    requires m <= |groups| && m <= |labels|
    ensures ch in ChannelsOf(groups, labels, name, m) <==>
      exists i :: 0 <= i < m && labels[i] == name && ch in groups[i]
  {
    if m > 0 {
      ChannelsOfMembers(groups, labels, name, m - 1, ch);
    }
  }
}

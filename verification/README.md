# Channel-group and brain-region annotation of a session file, in Dafny

This project models the session-file annotator of an electrophysiology pipeline
(`generate_xml_with_channel_groups` in `utils/generate_xml_with_channel_groups.py`).
The annotator takes a session-description document used by NeuroScope and the
MATLAB session tools, a list of channel groups (lists of 0-based channel indices),
an optional recording date and an optional brain-region label per group. From these
it writes a new document. It works in four steps:

1. It validates the inputs. Labels whose count differs from the number of groups
   raise a `ValueError` before the template is parsed. A template without an
   `anatomicalDescription` element raises one too.
2. It rebuilds `anatomicalDescription/channelGroups`. The first existing
   `channelGroups` child is removed and a fresh one is appended. That node holds one
   `group` per input group and one `channel` per index, with `skip="0"` and the index
   as text.
3. It sets `generalInfo/date`, when a date is given and both elements exist.
4. It runs the region pass when labels are given and non-empty and
   `acquisitionSystem/nChannels` exists. The pass fills a per-channel label array of
   length `nChannels`; a later labelled group overwrites an earlier one. It also
   builds an insertion-ordered summary from each non-empty label to the
   concatenated channels and the indices of its groups. The array is written,
   space-joined, into `region`. `brainRegions` is cleared and given one child per
   label, holding sorted, space-joined `channels` and `electrodeGroups` text. Each
   of the two sections is written only if it exists. A labelled index outside the
   array raises Python's `IndexError`; a negative index wraps.

The model also covers the blank-line filter at the end of `prettify_xml`.

## Layout

- `wrappers.dfy` — `Option` and `Result`.
- `session.dfy` — the document as an abstract record. Each section the template may
  lack is an `Option`. The module also holds the three exceptions.
- `text.dfy` — `str.split`/`str.join` on one character, `str.isspace`, `str(int)` with
  its inverse, the space-joined integer lists, and the blank-line filter.
- `sorting.dfy` — `sorted` on integers, as an insertion sort.
- `regions.dfy` — the region pass. A method writes an `array<string>` in place and
  keeps an ordered key sequence and a map. It is proved equal to reference
  definitions (`LabelAt`, `Keys`, `ChannelsOf`, `GroupsOf`), and lemmas state what
  those mean.
- `annotator.dfy` — the channel-group rebuild, the date step and the emission. It
  holds the whole call as an imperative method, `GenerateXmlWithChannelGroups`,
  proved equal to the reference function `Annotated`. A `Failure` result is an
  exception: no output file is written.
- `properties.dfy` — what the call promises, as lemmas about `Annotated`.

Three details of the behaviour of `utils/generate_xml_with_channel_groups.py` that
the model keeps (line numbers refer to that file):

- The `region` text is the per-channel labels joined by single spaces: each
  entry of the region array holds a label, or "" for a channel no labelled group
  lists (lines 94, 104 and 109).
- A label's `channels` are its groups' lists concatenated, so a channel listed
  twice appears twice after `sorted` (lines 99 and 124).
- A labelled channel index outside `[-nChannels, nChannels)` raises `IndexError`
  in the middle of the pass, so no output is written. A negative index within
  that range writes the slot counted from the end (line 104).

## Model

| member | source | states |
|---|---|---|
| Text.Join | utils/generate_xml_with_channel_groups.py:11 | Python's join on one separator character; `JoinSplit` and `SplitJoin` state that it inverts `Split`, and `JoinEndsWithLast` and `JoinAppendEmpty` state how it ends |
| Text.JoinInts | utils/generate_xml_with_channel_groups.py:124 | the decimal texts of integers joined by single spaces; `IntListRoundTrip` states that the text reads back as the list, and the empty list as the empty text |
| Annotator.RegionPassRuns | utils/generate_xml_with_channel_groups.py:81-86 | the guards under which the region pass runs: labels given and non-empty, and both `acquisitionSystem` and `nChannels` present; `AnnotatedFailures`, `AnnotatedRegion` and `AnnotatedBrainRegions` state that outside it `region` and `brainRegions` are unchanged and no index error is raised |
| Regions.InBounds | utils/generate_xml_with_channel_groups.py:104 | the index range a Python list assignment accepts, `[-n, n)`; `Slot` maps every such index into the array, and `HasBadIndex`, `WriteLabel` and `BuildRegions` state that any other labelled index raises |
| Annotator.GroupNodes | utils/generate_xml_with_channel_groups.py:53-64 | the new `channelGroups` node's groups; `DescribesGroupsUnique` states that the description fixes them, `BuildChannelGroups` is proved to build them, and `AnnotatedChannelGroups` states that they are appended |
| Annotator.Annotated | utils/generate_xml_with_channel_groups.py:13-144 | the reference outcome of the whole call, raised error or output document; `GenerateXmlWithChannelGroups` is proved to compute it, and `AnnotatedFailures`, `AnnotatedChannelGroups`, `AnnotatedDate`, `AnnotatedRegion`, `AnnotatedBrainRegions` and `AnnotatedIdempotent` state what it means |
| Annotator.RemoveFirstChannelGroups | utils/generate_xml_with_channel_groups.py:48-50 | the children with the first `channelGroups` node taken out; `RemoveFirstChannelGroupsAt` and `RemoveFirstChannelGroupsNone` state which child goes and that the rest keep their order |
| Annotator.WithDate | utils/generate_xml_with_channel_groups.py:67-77 | the date step; `AnnotatedDate` states when the date is written and that nothing else in `generalInfo` or `acquisitionSystem` changes |
| Annotator.RegionNodeFor | utils/generate_xml_with_channel_groups.py:119-128 | one `brainRegions` child; `RegionNodeReadsBack` states that its texts read back as the label's channels sorted and its group indices |
| Annotator.BrainRegionNodes | utils/generate_xml_with_channel_groups.py:119-128 | the `brainRegions` children, one per key; `EmitBrainRegions` is proved to produce them and `AnnotatedBrainRegions` states their order and contents |
| Annotator.WithRegions | utils/generate_xml_with_channel_groups.py:106-128 | writes `region` and rebuilds `brainRegions` where the sections exist; `AnnotatedRegion` and `AnnotatedBrainRegions` state the result |
| Regions.LabelAt | utils/generate_xml_with_channel_groups.py:94-104 | the label slot k holds after the first m groups; `LabelAtLastWriter`, `LabelAtUnwritten` and `LabelAtIsALabel` state that the last labelled writer wins and that an unwritten slot stays empty |
| Regions.HasBadIndex | utils/generate_xml_with_channel_groups.py:97-104 | some labelled group lists an index outside `[-n, n)`; `BuildRegions` and `AnnotatedFailures` state that exactly then the pass raises the index error |
| Regions.Keys | utils/generate_xml_with_channel_groups.py:97-100 | the summary keys after the first m groups; `KeysMembers`, `KeysDistinct` and `KeysFirstSeenOrder` state that they are the non-empty labels, once each, in first-seen order |
| Regions.ChannelsOf | utils/generate_xml_with_channel_groups.py:99 | the channels summarised under a label; `ChannelsOfMembers` states which channels they are |
| Regions.GroupsOf | utils/generate_xml_with_channel_groups.py:100 | the group indices summarised under a label; `GroupsOfMembers` and `GroupsOfIncreasing` state which indices they are and that they ascend |
| Text.IsSpace | utils/generate_xml_with_channel_groups.py:10 | the whitespace characters of Python's `str.isspace`; `NonBlankMembers` states that a line is kept exactly when it has a character outside this set |
| Text.NonBlank | utils/generate_xml_with_channel_groups.py:10 | the non-blank lines; `NonBlankMembers`, `NonBlankAppend` and `NonBlankKeepsNonBlank` state membership, order and that non-blank lines pass unchanged |
| Text.StripBlankLines | utils/generate_xml_with_channel_groups.py:10-11 | the blank-line filter of `prettify_xml`; `StripBlankLinesLines`, `StripBlankLinesHasNoBlankLine`, `StripBlankLinesTrailingNewline` and `StripBlankLinesIdempotent` state what the output holds |
| Text.Decimal | utils/generate_xml_with_channel_groups.py:64 | Python's `str` of an integer; `DecimalRoundTrip` states that it reads back as the integer, is non-empty and holds no space |
| Annotator.GenerateXmlWithChannelGroups | utils/generate_xml_with_channel_groups.py:13-144 | the step-by-step call (validation, rebuild, date, region pass, emission) returns exactly the reference outcome `Annotated`: the same raised error or the same output document |
| AnnotatorProperties.AnnotatedFailures | utils/generate_xml_with_channel_groups.py:31-45 | a label count different from the group count raises the count mismatch whatever the template (an empty label list included); otherwise a template without `anatomicalDescription` raises; otherwise the call fails exactly when the region pass runs and a labelled group lists an out-of-range index, and then the error is the index error |
| AnnotatorProperties.AnnotatedChannelGroups | utils/generate_xml_with_channel_groups.py:47-64 | on success the `anatomicalDescription` children are the template's with the first `channelGroups` removed, followed by one fresh `channelGroups` node whose groups describe the input exactly |
| AnnotatorProperties.AnnotatedDate | utils/generate_xml_with_channel_groups.py:66-77 | `generalInfo` gets the new date only when a date is given and both `generalInfo` and `generalInfo/date` exist; otherwise it is unchanged; `acquisitionSystem` is never changed |
| AnnotatorProperties.AnnotatedRegion | utils/generate_xml_with_channel_groups.py:81-109 | `region` is unchanged unless the pass runs and the element exists. Then it is the per-channel labels joined by single spaces, which is empty for zero channels. When in addition `nChannels > 0` and no label holds a space, it splits into exactly `nChannels` fields, field k being the per-channel label |
| AnnotatorProperties.LabelAtIsALabel | utils/generate_xml_with_channel_groups.py:94-104 | every per-channel entry is empty or one of the given labels |
| AnnotatorProperties.AnnotatedBrainRegions | utils/generate_xml_with_channel_groups.py:112-128 | `brainRegions` is unchanged unless the pass runs and the element exists. Then it has one child per non-empty label, in first-seen order. A child's `channels` text is exactly the decimal texts of its groups' channels, sorted and joined by single spaces, and its `electrodeGroups` text that of its group indices. Each text reads back as its list |
| AnnotatorProperties.PassBrainRegions | utils/generate_xml_with_channel_groups.py:119-128 | for a successful region pass, the emitted children are one per key in key order, with exactly the texts above, each reading back as its list |
| AnnotatorProperties.RegionNodeReadsBack | utils/generate_xml_with_channel_groups.py:119-128 | the child emitted for a label has `electrodeGroups` text equal to the decimal texts of its group indices as they stand, since they already ascend; its `channels` text reads back as that label's channels sorted, and its `electrodeGroups` text as its group indices |
| AnnotatorProperties.AnnotatedIdempotent | utils/generate_xml_with_channel_groups.py:47-128 | when the template has at most one `channelGroups` node, annotating the output again with the same inputs returns the same document |
| AnnotatorProperties.RemoveFirstLeavesNone | utils/generate_xml_with_channel_groups.py:48-50 | removing the first `channelGroups` child of a node with at most one leaves none |
| AnnotatorProperties.RemoveFirstOfAppended | utils/generate_xml_with_channel_groups.py:48-53 | when no other child is a `channelGroups` node, the removal takes away exactly the one appended last |
| AnnotatorProperties.OverlapLabels | utils/generate_xml_with_channel_groups.py:94-104 | groups [[0,1],[1,2]] labelled A, B over 3 channels: channel 0 holds A; channels 1 and 2 hold B, the later group winning on channel 1 |
| AnnotatorProperties.OverlapSummary | utils/generate_xml_with_channel_groups.py:97-100 | for the same groups: keys A then B; A has channels [0,1] and group [0], B has channels [1,2] and group [1]; so A still lists channel 1 |
| Annotator.BuildChannelGroups | utils/generate_xml_with_channel_groups.py:53-64 | the new node has one `group` per input group, in order. Group i has one `channel` per index of input group i, in order, each with `skip` "0" and the index's decimal text |
| Annotator.BuildChannels | utils/generate_xml_with_channel_groups.py:59-64 | the built `channel` children are one per index, in order, each with `skip` "0" and the index's decimal text |
| Annotator.DescribesGroupsUnique | utils/generate_xml_with_channel_groups.py:56-64 | the group/channel description determines the nodes completely |
| Annotator.RemoveFirstChannelGroupsAt | utils/generate_xml_with_channel_groups.py:48-50 | with k the first `channelGroups` child, the removal leaves exactly the children before and after k, in order |
| Annotator.RemoveFirstChannelGroupsNone | utils/generate_xml_with_channel_groups.py:48-50 | without a `channelGroups` child nothing is removed |
| Annotator.EmitBrainRegions | utils/generate_xml_with_channel_groups.py:119-128 | one node per summary key, in key order, each holding the key, its sorted space-joined channels and its sorted space-joined group indices |
| Regions.BuildRegions | utils/generate_xml_with_channel_groups.py:89-104 | the in-place pass returns the IndexError exactly when a labelled group lists an out-of-range index. Otherwise it returns the last-writer array of length `nChannels`, the first-seen keys and the per-key channels and group indices of `RegionPassSpec` |
| Regions.AddToSummary | utils/generate_xml_with_channel_groups.py:97-100 | adding a labelled group keeps the keys equal to the first-seen non-empty labels so far, and every entry equal to its concatenated channels and group indices so far |
| Regions.SummarySkip | utils/generate_xml_with_channel_groups.py:98 | a group with an empty label leaves keys and entries as they are |
| Regions.WriteLabel | utils/generate_xml_with_channel_groups.py:103-104 | writing a group's label succeeds exactly when all its indices are in range. Then every slot it lists (a negative index counting from the end) holds the label, and every other slot is unchanged |
| Regions.RegionPassSpec | utils/generate_xml_with_channel_groups.py:94 | a successful pass has an array of exactly `nChannels` entries and an entry for every key |
| Regions.LabelAtLastWriter | utils/generate_xml_with_channel_groups.py:97-104 | last write wins: a slot holds the label of the last labelled group listing it |
| Regions.LabelAtUnwritten | utils/generate_xml_with_channel_groups.py:94 | a slot no labelled group lists keeps the empty label |
| Regions.AbsentLabel | utils/generate_xml_with_channel_groups.py:91 | a label no group carries has no channels and no groups |
| Regions.KeysMembers | utils/generate_xml_with_channel_groups.py:97-99 | the summary keys are exactly the non-empty labels given |
| Regions.KeysDistinct | utils/generate_xml_with_channel_groups.py:91 | no label appears twice among the keys |
| Regions.KeysFirstSeenOrder | utils/generate_xml_with_channel_groups.py:119 | keys appear in the order their labels are first seen among the groups |
| Regions.FirstIndex | utils/generate_xml_with_channel_groups.py:97 | the index returned is the first group carrying the label |
| Regions.GroupsOfMembers | utils/generate_xml_with_channel_groups.py:100 | group i is listed under a label exactly when it carries that label |
| Regions.GroupsOfIncreasing | utils/generate_xml_with_channel_groups.py:100 | the group indices under a label are strictly increasing |
| Regions.ChannelsOfMembers | utils/generate_xml_with_channel_groups.py:99 | a channel is listed under a label exactly when some group with that label lists it |
| Regions.Slot | utils/generate_xml_with_channel_groups.py:104 | an in-range index, negative or not, denotes a slot inside the array |
| Sorting.SortInts | utils/generate_xml_with_channel_groups.py:124 | `sorted` returns an ascending permutation of its input |
| Sorting.Insert | utils/generate_xml_with_channel_groups.py:124 | inserting into an ascending sequence keeps it ascending and adds exactly the one value |
| Sorting.SortedUnique | utils/generate_xml_with_channel_groups.py:124 | two ascending permutations of the same values are equal |
| Sorting.SortAscending | utils/generate_xml_with_channel_groups.py:128 | sorting an ascending sequence leaves it unchanged |
| Text.Split | utils/generate_xml_with_channel_groups.py:10 | `split` yields at least one piece and no piece holds the separator |
| Text.JoinSplit | utils/generate_xml_with_channel_groups.py:10-11 | joining the pieces of a split restores the text |
| Text.SplitJoin | utils/generate_xml_with_channel_groups.py:109 | splitting a join of separator-free pieces restores the pieces |
| Text.NonBlankMembers | utils/generate_xml_with_channel_groups.py:10 | the filter keeps exactly the lines that are not whitespace-only |
| Text.NonBlankAppend | utils/generate_xml_with_channel_groups.py:10 | the filter distributes over concatenation, so kept lines stay in their order |
| Text.NonBlankKeepsNonBlank | utils/generate_xml_with_channel_groups.py:10 | lines that are all non-blank pass unchanged |
| Text.StripBlankLinesLines | utils/generate_xml_with_channel_groups.py:10-11 | the output's lines are the input's non-blank lines in order, then the empty rest after one final newline; with no non-blank line the output is a single newline |
| Text.StripBlankLinesHasNoBlankLine | utils/generate_xml_with_channel_groups.py:10-11 | no line of the output before the final newline is whitespace-only |
| Text.StripBlankLinesTrailingNewline | utils/generate_xml_with_channel_groups.py:11 | the output ends with exactly one newline |
| Text.StripBlankLinesIdempotent | utils/generate_xml_with_channel_groups.py:10-11 | filtering a filtered text changes nothing |
| Text.NatDigits | utils/generate_xml_with_channel_groups.py:64 | the decimal text of a natural number is a non-empty string of digits |
| Text.ParseNatDigits | utils/generate_xml_with_channel_groups.py:64 | the digits of n read back as n |
| Text.DecimalRoundTrip | utils/generate_xml_with_channel_groups.py:64 | `str(i)` reads back as i, is non-empty and holds no space |
| Text.DecimalsRoundTrip | utils/generate_xml_with_channel_groups.py:124 | the list of `str(x)` reads back as the list of x |
| Text.IntListRoundTrip | utils/generate_xml_with_channel_groups.py:124 | `' '.join(str(x) for x in xs)` reads back as xs, the empty list as the empty text |

## Left out

- Parsing, serialising and pretty-printing XML (`ET.parse`, `ET.tostring`, the minidom
  round trip): these are library calls. The document is an abstract record and only
  the blank-line filter of `prettify_xml` is modelled.
- Writing the output file and every diagnostic `print`: I/O with no data contract.
  A `Failure` result stands for "raised, no file written".
- Converting the `nChannels` text with `int(...)`: the count is taken as an
  already-parsed natural number. A non-numeric or negative count is not modelled.
- Any tag or text the minidom reparse in `prettify_xml` (line 7) rejects: it makes
  the source raise, so no file is written, while the model returns `Success`. Two
  examples. A region label that is not a well-formed XML name (such as "CA 1" or
  "1A") becomes a `brainRegions` child's tag (line 120); `ET.SubElement` accepts it.
  A label written into `region` (line 109) or a date (line 72) that holds a
  character XML 1.0 forbids (such as U+0001) is serialised as is.
- Element attributes, tail text, and children other than those the annotator
  reads: the record leaves them out. The model therefore does not capture that
  `brainRegions.clear()` also drops the element's own attributes and text.
- Update in place and aliasing of element objects: the model updates the document
  as a value. A failure after some mutations is just the error, since the mutated
  tree is never written.
- A `None` entry in the label list: it is represented by the empty label, which the
  source treats the same way (falsy).
- `str(date)` of a non-string date object: the date is a string.
- The usage text in the `__main__` block and the script `temp_pipeline.py`: glue
  around an external sorting library, with no logic of its own.
- Regions.WriteLabel: when an index is out of range it promises nothing about the
  array contents. The source raises there and the array is discarded.
- Text.StripBlankLinesHasNoBlankLine: assumes the input has at least one non-blank
  line. When every line is blank the output is the single newline "\n", whose only
  line is empty.
- Text.ParseDecimal and Text.ParseIntList: inverses used to state round trips. They
  do not model Python's `int()`, which also accepts signs, surrounding spaces and
  underscores.

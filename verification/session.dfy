/**
 * The session-description document, abstracted to the sections the annotator
 * reads or rewrites. A section that the template may lack is an `Option`; an
 * element's text is a string.
 */
module Session {
  import opened Wrappers

  /** A `<channel skip="...">text</channel>` element. */
  datatype Channel = Channel(skip: string, text: string)

  /** A `<group>` element of `channelGroups`: its `channel` children in order. */
  datatype Group = Group(channels: seq<Channel>)

  /** The tag of an element other than `channelGroups`. */
  type OtherTag = tag: string | tag != "channelGroups" witness ""

  /** A child of `anatomicalDescription`: a `channelGroups` node, or any other element (kept as is). */
  datatype AnatomicalChild = ChannelGroups(groups: seq<Group>) | OtherChild(tag: OtherTag)

  /** `generalInfo`, with its `date` child when there is one. */
  datatype GeneralInfo = GeneralInfo(date: Option<string>)

  /** `acquisitionSystem`, with the channel count of its `nChannels` child when there is one. */
  datatype AcquisitionSystem = AcquisitionSystem(nChannels: Option<nat>)

  /** A child of `brainRegions`: an element named after the region, with `channels` and `electrodeGroups` text. */
  datatype RegionNode = RegionNode(name: string, channels: string, electrodeGroups: string)

  /** The root element, as far as the annotator looks at it. */
  datatype Document = Document(
    anatomicalDescription: Option<seq<AnatomicalChild>>,
    generalInfo: Option<GeneralInfo>,
    acquisitionSystem: Option<AcquisitionSystem>,
    region: Option<string>,
    brainRegions: Option<seq<RegionNode>>)

  /** The exceptions that abort the annotation before anything is written. */
  datatype Error =
    | RegionCountMismatch(regions: nat, groups: nat)  // ValueError: group_regions and channel_groups differ in length
    | MissingAnatomicalDescription                    // ValueError: the template has no anatomicalDescription
    | RegionIndexOutOfRange                           // IndexError: a labelled channel index outside the region array
}

/**
 * The JSON payloads of the listing API, as the scripts read them. A field that is absent
 * and a field that is JSON null are both `None`. Values of a type the scripts would crash
 * on (a non-string `uri`, a non-object list entry under `connections`) are not
 * representable; every shape the scripts handle is.
 */
module Payload {
  import opened Wrappers

  /** A value where an object carrying a `uri` is expected: an object, or anything else. */
  datatype RefNode = RefObject(uri: Option<string>) | RefOther

  /** The value of `parent_folder`: missing, one value, or a list of values. */
  datatype ParentField = ParentAbsent | ParentOne(node: RefNode) | ParentList(items: seq<RefNode>)

  /**
   * The value of `metadata.connections`: falsy (absent, null, empty), an object holding
   * `parent_folder`, or a list of such objects.
   */
  datatype Connections = NoConnections | ConnObject(parentFolder: ParentField) | ConnList(entries: seq<ParentField>)

  /** An item of `/me/projects`. */
  datatype Folder = Folder(uri: Option<string>, name: Option<string>, connections: Connections)

  /** An entry of a video's `files` or `download` list. */
  datatype Rendition = Rendition(
    mediaType: Option<string>,   // `type`
    link: Option<string>,
    height: Option<int>,
    bitrate: Option<int>,
    quality: Option<string>)

  /**
   * An item of a video listing: `uri`, `name`, `files`, `download` (absent lists are empty)
   * and `metadata.connections.folders.total` / `.totalCount`.
   */
  datatype Video = Video(
    uri: Option<string>,
    name: Option<string>,
    files: seq<Rendition>,
    download: seq<Rendition>,
    folderTotal: Option<int>,
    folderTotalCount: Option<int>)
}

/** The player's typed value tree (mpv_node): one constructor per format tag
    the overlay reads. Arrays hold values; maps hold key/value entries in the
    order the host returns them. */
module MpvNode {

  datatype Node =
    | NoneValue                      // MPV_FORMAT_NONE
    | Str(s: string)                 // MPV_FORMAT_STRING
    | OsdStr(s: string)              // MPV_FORMAT_OSD_STRING
    | Flag(b: bool)                  // MPV_FORMAT_FLAG
    | Int64(i: int)                  // MPV_FORMAT_INT64
    | Double(printed: string)        // MPV_FORMAT_DOUBLE, carried as the text the formatter prints for it
    | NodeArray(values: seq<Node>)   // MPV_FORMAT_NODE_ARRAY
    | NodeMap(entries: seq<KeyValue>) // MPV_FORMAT_NODE_MAP
    | ByteArray(size: nat)           // MPV_FORMAT_BYTE_ARRAY
    | Unhandled(format: int)         // any other format tag

  datatype KeyValue = KeyValue(key: string, value: Node)

  /** The string payload; a node of another format reads as "". */
  function StringOf(n: Node): string {
    match n
    case Str(s) => s
    case OsdStr(s) => s
    case _ => ""
  }

  /** The flag payload; a node of another format reads as false. */
  function FlagOf(n: Node): bool {
    n.Flag? && n.b
  }

  /** The values of a list node; a scalar reads as an empty list. */
  function ValuesOf(n: Node): seq<Node> {
    match n
    case NodeArray(values) => values
    case NodeMap(entries) => seq(|entries|, i requires 0 <= i < |entries| => entries[i].value)
    case _ => []
  }

  /** The entries of a map node; any other node reads as an empty map. */
  function EntriesOf(n: Node): seq<KeyValue> {
    if n.NodeMap? then n.entries else []
  }
}

/** The decoded XMind topic tree, as `json_decode` hands it to the exporter. */
module Topics {
  import opened Wrappers

  /** One entry of a topic's `markers` list; `markerId` may be missing. */
  datatype Marker = Marker(markerId: Option<string>)

  /** A topic's `children` object: missing (or without an `attached` list), or its `attached` list. */
  datatype Children = Absent | Attached(attached: seq<Topic>)

  /** A topic: its `title` (may be missing), its children, the `style.properties` object as a map
      (missing = empty) and its `markers` (missing = empty). */
  datatype Topic = Topic(title: Option<string>, children: Children,
                         properties: map<string, string>, markers: seq<Marker>)
  {
    /** The title as PHP reads it: a missing property reads as null and behaves as "". */
    function Text(): string {
      title.GetOr("")
    }

    /** The `attached` children in render order (none when the list is missing). */
    function Kids(): seq<Topic> {
      if children.Attached? then children.attached else []
    }

    /** `$node->children->attached[0]->title` read with PHP's null propagation. */
    function FirstChildTitle(): string {
      if |Kids()| > 0 then Kids()[0].Text() else ""
    }
  }
}

/** The data model shared by both tool sets: the outcome of one request to the
    local Zotero API, the value a tool hands back to the agent, and the typed
    view of an item record as the API returns it. */
module Api {

  /** An optional value; stands for a JSON field that may be absent. */
  datatype Option<T> = None | Some(value: T) {

    /** Python's `d.get(key, fallback)`: the field's value when present,
        `fallback` otherwise. */
    function Get(fallback: T): T {
      if Some? then value else fallback
    }
  }

  /** What one GET against the API yields: the decoded JSON body, or the
      description of whatever went wrong (connection failure, HTTP error
      status, undecodable body), flattened into one error channel. */
  datatype ApiResult<T> = Err(msg: string) | Ok(value: T)

  /** What a tool returns to the calling agent: either a plain text message or
      the decoded API data passed through unchanged. */
  datatype Reply<T> = Message(text: string) | Data(value: T)

  /** One element of an item's `tags` list; its `tag` field may be absent. */
  datatype TagEntry = TagEntry(tag: Option<string>)

  /** The `data` mapping of an item, restricted to the fields the tools read.
      An absent `tags` list is the empty sequence. */
  datatype ItemData = ItemData(
    itemType: Option<string>,
    contentType: Option<string>,
    title: Option<string>,
    tags: seq<TagEntry>,
    path: Option<string>,
    url: Option<string>)

  /** An item (or child item) record: its key, its data, and the
      `links.enclosure.href` value if there is one. */
  datatype Item = Item(key: string, data: ItemData, href: Option<string>)

  /** Python truthiness of an optional string: present and non-empty. */
  predicate Truthy(o: Option<string>) {
    o.Some? && o.value != ""
  }

  /** The data describes a PDF attachment: both tools test exactly this. */
  predicate IsPdfAttachment(d: ItemData) {
    d.itemType == Some("attachment") && d.contentType == Some("application/pdf")
  }
}

/** The two tools of the Japanese-language server, which both request the
    `items` listing: list every item as "title (key: K)", and select the paths
    of PDF attachments matching optional filters. Every request to the API is
    a parameter `fetch` from endpoint to outcome. */
module Listing {
  import opened Api
  import opened Strings

  const ApiErrorPrefix: string := "Zotero APIエラー: "
  const NoItemsMessage: string := "アイテムが見つからなかった。"
  const NoMatchMessage: string := "条件に合致するPDFが見つからなかった。"

  /** The endpoint both tools request: the whole library's items. */
  const ItemsEndpoint: string := "items"

  /** The title shown for an item; only an absent title is replaced. */
  function DisplayTitle(title: Option<string>): string {
    title.Get("No Title")
  }

  /** The line listing one item. */
  function ItemLine(item: Item): string {
    DisplayTitle(item.data.title) + " (key: " + item.key + ")"
  }

  /** One line per item, in the order listed. */
  function ItemLines(items: seq<Item>): (lines: seq<string>)
    ensures |lines| == |items|
    ensures forall i :: 0 <= i < |items| ==> lines[i] == ItemLine(items[i])
  {
    seq(|items|, i requires 0 <= i < |items| => ItemLine(items[i]))
  }

  /** The list-all tool. */
  function GetAllItems(fetch: string -> ApiResult<seq<Item>>): (r: string)
    ensures fetch(ItemsEndpoint).Err? ==> r == ApiErrorPrefix + fetch(ItemsEndpoint).msg
    ensures fetch(ItemsEndpoint) == Ok([]) ==> r == NoItemsMessage
  {
    match fetch(ItemsEndpoint)
    case Err(msg) => ApiErrorPrefix + msg
    case Ok(items) =>
      if |items| == 0 then NoItemsMessage
      else Join("\n", ItemLines(items))
  }

  /** Neither the title nor the key of any item contains a line break. */
  predicate SingleLineItems(items: seq<Item>) {
    forall i :: 0 <= i < |items| ==>
      '\n' !in DisplayTitle(items[i].data.title) && '\n' !in items[i].key
  }

  /** When no title or key spans lines, the listing splits back into exactly
      one line per item, in order, each the title (or "No Title" when it is
      absent) followed by the key. */
  lemma GetAllItemsLines(items: seq<Item>, fetch: string -> ApiResult<seq<Item>>)
    requires fetch(ItemsEndpoint) == Ok(items)
    requires |items| > 0
    ensures GetAllItems(fetch) == Join("\n", ItemLines(items))
    ensures SingleLineItems(items) ==>
      var lines := SplitLines(GetAllItems(fetch));
      |lines| == |items|
      && forall i :: 0 <= i < |items| ==>
        lines[i] == DisplayTitle(items[i].data.title) + " (key: " + items[i].key + ")"
        && (items[i].data.title.None? ==> StartsWith(lines[i], "No Title (key: "))
        && (items[i].data.title == Some("") ==> StartsWith(lines[i], " (key: "))
  {
    if SingleLineItems(items) {
      SingleLineItemsLines(items);
    }
  }

  /** With no title or key spanning lines, the joined item lines split back
      into exactly one line per item. */
  lemma SingleLineItemsLines(items: seq<Item>)
    requires |items| > 0 && SingleLineItems(items)
    ensures SplitLines(Join("\n", ItemLines(items))) == ItemLines(items)
  {
    var lines := ItemLines(items);
    assert NoNewlines(lines) by {
      forall k | 0 <= k < |lines| ensures '\n' !in lines[k] {
        var t := DisplayTitle(items[k].data.title);
        assert lines[k] == t + " (key: " + items[k].key + ")";
        assert '\n' !in " (key: " && '\n' !in ")";
      }
    }
    SplitJoinLines(lines);
  }

  /** The optional arguments of the filter tool. */
  datatype Filters = Filters(itemType: Option<string>, tag: Option<string>, titleContains: Option<string>)

  /** No argument given. */
  const NoFilters := Filters(None, None, None)

  /** Some element of `tags` carries exactly the tag `t`. */
  predicate HasTag(tags: seq<TagEntry>, t: string) {
    exists k :: 0 <= k < |tags| && tags[k].tag == Some(t)
  }

  /** The item data passes the filter tool's checks: it is a PDF attachment,
      and each argument that is given (non-empty) constrains it. */
  predicate Matches(f: Filters, d: ItemData) {
    && IsPdfAttachment(d)
    && (Truthy(f.itemType) ==> d.itemType == f.itemType)
    && (Truthy(f.tag) ==> HasTag(d.tags, f.tag.value))
    && (Truthy(f.titleContains) ==> IsSubstring(f.titleContains.value, d.title.Get("")))
  }

  /** The value an item contributes: `path` when non-empty, else `url` when
      non-empty, else nothing. */
  function Location(d: ItemData): (loc: Option<string>)
    ensures loc.Some? ==> loc.value != ""
    ensures loc.Some? <==> Truthy(d.path) || Truthy(d.url)
    ensures Truthy(d.path) ==> loc == d.path
    ensures !Truthy(d.path) ==> loc == (if Truthy(d.url) then d.url else None)
  {
    if Truthy(d.path) then d.path
    else if Truthy(d.url) then d.url
    else None
  }

  /** The values emitted for the items matching `f`, in item order. */
  function MatchingLocations(items: seq<Item>, f: Filters): (locs: seq<string>)
    ensures |locs| <= |items|
    decreases |items|
  {
    if |items| == 0 then []
    else
      var d := items[0].data;
      var rest := MatchingLocations(items[1..], f);
      if Matches(f, d) && Location(d).Some? then [Location(d).value] + rest else rest
  }

  /** The filter tool. */
  function FilterItems(fetch: string -> ApiResult<seq<Item>>, f: Filters): (r: string)
    ensures fetch(ItemsEndpoint).Err? ==> r == ApiErrorPrefix + fetch(ItemsEndpoint).msg
    ensures fetch(ItemsEndpoint) == Ok([]) ==> r == NoItemsMessage
    ensures var res := fetch(ItemsEndpoint);
      res.Ok? && |res.value| > 0 && MatchingLocations(res.value, f) == [] ==> r == NoMatchMessage
  {
    match fetch(ItemsEndpoint)
    case Err(msg) => ApiErrorPrefix + msg
    case Ok(items) =>
      if |items| == 0 then NoItemsMessage
      else
        var locs := MatchingLocations(items, f);
        if |locs| == 0 then NoMatchMessage else Join("\n", locs)
  }

  /** A value is emitted exactly when some item matches the filters and
      contributes that value. */
  lemma {:induction false} MatchingLocationsMembership(items: seq<Item>, f: Filters, x: string)
    ensures x in MatchingLocations(items, f) <==>
      exists i :: 0 <= i < |items| && Matches(f, items[i].data) && Location(items[i].data) == Some(x)
    decreases |items|
  {
    if |items| > 0 {
      MatchingLocationsMembership(items[1..], f, x);
      if exists i :: 0 <= i < |items| && Matches(f, items[i].data) && Location(items[i].data) == Some(x) {
        var i :| 0 <= i < |items| && Matches(f, items[i].data) && Location(items[i].data) == Some(x);
        if i > 0 {
          assert items[1..][i - 1] == items[i];
        }
      }
      if exists i :: 0 <= i < |items| - 1 && Matches(f, items[1..][i].data) && Location(items[1..][i].data) == Some(x) {
        var i :| 0 <= i < |items| - 1 && Matches(f, items[1..][i].data) && Location(items[1..][i].data) == Some(x);
        assert items[i + 1] == items[1..][i];
      }
    }
  }

  /** Every value emitted is a non-empty path or url of a PDF attachment. */
  lemma OnlyPdfAttachments(items: seq<Item>, f: Filters, x: string)
    requires x in MatchingLocations(items, f)
    ensures x != ""
    ensures exists i ::
              && 0 <= i < |items|
              && IsPdfAttachment(items[i].data)
              && (items[i].data.path == Some(x) || items[i].data.url == Some(x))
  {
    MatchingLocationsMembership(items, f, x);
    var i :| 0 <= i < |items| && Matches(f, items[i].data) && Location(items[i].data) == Some(x);
    assert IsPdfAttachment(items[i].data);
  }

  /** An item-type argument other than "attachment" rules out every item. */
  lemma {:induction false} ForeignItemTypeMatchesNothing(items: seq<Item>, f: Filters)
    requires Truthy(f.itemType) && f.itemType != Some("attachment")
    ensures MatchingLocations(items, f) == []
    decreases |items|
  {
    if |items| > 0 {
      ForeignItemTypeMatchesNothing(items[1..], f);
    }
  }

  /** Each argument that is absent or empty imposes nothing, whatever the
      other arguments are: the selection is the one made without it. */
  lemma {:induction false} EmptyArgumentsIgnored(items: seq<Item>, f: Filters)
    ensures !Truthy(f.itemType) ==>
      MatchingLocations(items, f) == MatchingLocations(items, f.(itemType := None))
    ensures !Truthy(f.tag) ==>
      MatchingLocations(items, f) == MatchingLocations(items, f.(tag := None))
    ensures !Truthy(f.titleContains) ==>
      MatchingLocations(items, f) == MatchingLocations(items, f.(titleContains := None))
    decreases |items|
  {
    if |items| > 0 {
      EmptyArgumentsIgnored(items[1..], f);
    }
  }

  /** The selection over a listing split in two is the selection over the
      first part followed by the selection over the second: items are
      visited, and their values emitted, in listing order. */
  lemma {:induction false} MatchingLocationsAppend(a: seq<Item>, b: seq<Item>, f: Filters)
    ensures MatchingLocations(a + b, f) == MatchingLocations(a, f) + MatchingLocations(b, f)
    decreases |a|
  {
    if |a| == 0 {
      assert a + b == b;
    } else {
      assert (a + b)[0] == a[0];
      assert (a + b)[1..] == a[1..] + b;
      MatchingLocationsAppend(a[1..], b, f);
    }
  }

  /** A single item contributes its value exactly when it matches and has a
      path or url. */
  lemma SingleItemSelection(item: Item, f: Filters)
    ensures MatchingLocations([item], f) ==
      (if Matches(f, item.data) && Location(item.data).Some? then [Location(item.data).value] else [])
  {
  }

  /** `g` constrains at least as much as `f`: each argument of `f` that is
      given is given to `g` with the same value. */
  predicate Narrows(g: Filters, f: Filters) {
    && (Truthy(f.itemType) ==> g.itemType == f.itemType)
    && (Truthy(f.tag) ==> g.tag == f.tag)
    && (Truthy(f.titleContains) ==> g.titleContains == f.titleContains)
  }

  /** Adding filters never adds entries: the narrower selection is a
      subsequence, in order, of the wider one. */
  lemma {:induction false} NarrowerFiltersSelectSubsequence(items: seq<Item>, f: Filters, g: Filters)
    requires Narrows(g, f)
    ensures IsSubsequence(MatchingLocations(items, g), MatchingLocations(items, f))
    decreases |items|
  {
    if |items| == 0 {
    } else {
      NarrowerFiltersSelectSubsequence(items[1..], f, g);
      var d := items[0].data;
      var gs := MatchingLocations(items[1..], g);
      var fs := MatchingLocations(items[1..], f);
      if Matches(g, d) && Location(d).Some? {
        assert Matches(f, d);
        var e := [Location(d).value];
        assert (e + gs)[1..] == gs && (e + fs)[1..] == fs;
      } else if Matches(f, d) && Location(d).Some? {
        assert ([Location(d).value] + fs)[1..] == fs;
      }
    }
  }

  /** Every selection is an in-order subsequence of what the PDF attachments
      with a path or url would give with no arguments. */
  lemma SelectionWithinCandidates(items: seq<Item>, f: Filters)
    ensures IsSubsequence(MatchingLocations(items, f), MatchingLocations(items, NoFilters))
  {
    NarrowerFiltersSelectSubsequence(items, NoFilters, f);
  }

  /** A non-empty selection is output as its values joined by newlines,
      whatever they hold; when no value spans lines, that output splits back
      into exactly the selected values, in order. */
  lemma FilterItemsLines(items: seq<Item>, f: Filters, fetch: string -> ApiResult<seq<Item>>)
    requires fetch(ItemsEndpoint) == Ok(items)
    requires MatchingLocations(items, f) != []
    ensures FilterItems(fetch, f) == Join("\n", MatchingLocations(items, f))
    ensures NoNewlines(MatchingLocations(items, f)) ==>
      SplitLines(Join("\n", MatchingLocations(items, f))) == MatchingLocations(items, f)
  {
    if NoNewlines(MatchingLocations(items, f)) {
      SplitJoinLines(MatchingLocations(items, f));
    }
  }
}

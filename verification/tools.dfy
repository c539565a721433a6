/** The three tools of the English-language server: search, fetch one item,
    and read the first PDF attachment of an item. Every request to the API is
    a parameter `fetch` from endpoint to outcome; the platform test is the
    flag `isWindows`; percent-decoding is the parameter `unquote`; opening
    and parsing a PDF is the parameter `openPdf`. */
module Tools {
  import opened Api
  import opened Strings
  import FileUri
  import PdfText

  const ApiErrorPrefix: string := "Zotero API error: "
  const NoItemsMessage: string := "No items found."
  const NoPdfMessage: string := "No PDF attachment found."

  /** How every tool reports a failed request. */
  function ApiErrorText(msg: string): (text: string)
    ensures StartsWith(text, ApiErrorPrefix)
    ensures text[|ApiErrorPrefix|..] == msg
  {
    ApiErrorPrefix + msg
  }

  /** The fixed search parameters: leave attachments out, cap the count. */
  const ExcludeAttachments: string := "itemType=-attachment"
  const ResultLimit: string := "limit=30"

  /** The query parameters of a search, in their fixed order. */
  function SearchParams(q: string): seq<string> {
    [ExcludeAttachments, ResultLimit] + (if q != "" then ["q=" + q] else [])
  }

  /** The parameters joined with `&`. */
  lemma SearchParamsJoined(q: string)
    ensures q == "" ==> Join("&", SearchParams(q)) == ExcludeAttachments + "&" + ResultLimit
    ensures q != "" ==>
      Join("&", SearchParams(q)) == ExcludeAttachments + "&" + ResultLimit + "&" + "q=" + q
  {
    var last := if q != "" then ["q=" + q] else [];
    var tail := [ResultLimit] + last;
    assert SearchParams(q) == [ExcludeAttachments] + tail;
    JoinCons("&", ExcludeAttachments, tail);
    if q != "" {
      JoinCons("&", ResultLimit, last);
    }
  }

  /** The endpoint a search requests: attachments excluded, at most 30
      results, then the search term verbatim when there is one. */
  function SearchEndpoint(q: string): (endpoint: string)
    ensures q == "" ==> endpoint == "items?" + ExcludeAttachments + "&" + ResultLimit
    ensures q != "" ==>
      endpoint == "items?" + ExcludeAttachments + "&" + ResultLimit + "&" + "q=" + q
  {
    SearchParamsJoined(q);
    "items?" + Join("&", SearchParams(q))
  }

  /** Different search terms never request the same endpoint. */
  lemma SearchEndpointInjective(q1: string, q2: string)
    requires SearchEndpoint(q1) == SearchEndpoint(q2)
    ensures q1 == q2
  {
    var base := "items?" + ExcludeAttachments + "&" + ResultLimit;
    if q1 != "" && q2 != "" {
      assert SearchEndpoint(q1)[|base| + 3..] == q1;
      assert SearchEndpoint(q2)[|base| + 3..] == q2;
    }
  }

  /** The endpoint for one item. */
  function ItemEndpoint(itemKey: string): string {
    "items/" + itemKey
  }

  /** The endpoint for the children of one item. */
  function ChildrenEndpoint(itemKey: string): string {
    "items/" + itemKey + "/children"
  }

  /** The search tool: an error is reported, an empty result gets a message,
      anything else is handed back unchanged. */
  function SearchItems<T>(q: string, fetch: string -> ApiResult<seq<T>>): (r: Reply<seq<T>>)
    ensures fetch(SearchEndpoint(q)).Err? ==>
      r == Message(ApiErrorPrefix + fetch(SearchEndpoint(q)).msg)
    ensures fetch(SearchEndpoint(q)) == Ok([]) ==> r == Message(NoItemsMessage)
    ensures fetch(SearchEndpoint(q)).Ok? && |fetch(SearchEndpoint(q)).value| > 0 ==>
      r == Data(fetch(SearchEndpoint(q)).value)
  {
    match fetch(SearchEndpoint(q))
    case Err(msg) => Message(ApiErrorText(msg))
    case Ok(data) => if |data| == 0 then Message(NoItemsMessage) else Data(data)
  }

  /** The single-item tool: an error is reported, the record is handed back
      unchanged. */
  function GetItem<T>(itemKey: string, fetch: string -> ApiResult<T>): (r: Reply<T>)
    ensures fetch("items/" + itemKey).Err? ==>
      r == Message(ApiErrorPrefix + fetch("items/" + itemKey).msg)
    ensures fetch("items/" + itemKey).Ok? ==> r == Data(fetch("items/" + itemKey).value)
  {
    match fetch(ItemEndpoint(itemKey))
    case Err(msg) => Message(ApiErrorText(msg))
    case Ok(data) => Data(data)
  }

  /** The child links to a local file: its enclosure href is present,
      non-empty and starts with `file:///`. */
  predicate HasLocalHref(child: Item) {
    Truthy(child.href) && StartsWith(child.href.value, FileUri.LocalFilePrefix)
  }

  /** The child passes all three checks of the resolver. */
  predicate IsLocalPdf(child: Item) {
    IsPdfAttachment(child.data) && HasLocalHref(child)
  }

  /** Child `i` is the first, in the order returned, to pass all three checks. */
  predicate IsFirstLocalPdf(children: seq<Item>, i: int) {
    0 <= i < |children| && IsLocalPdf(children[i])
    && forall j :: 0 <= j < i ==> !IsLocalPdf(children[j])
  }

  /** There is at most one first match. */
  lemma FirstLocalPdfUnique(children: seq<Item>, i: int, j: int)
    requires IsFirstLocalPdf(children, i) && IsFirstLocalPdf(children, j)
    ensures i == j
  {
  }

  /** A child that fails any check, such as a PDF attachment whose href is
      missing or not local, only shifts the first match by one: the scan goes
      on past it. */
  lemma SkipsNonLocalChild(c: Item, rest: seq<Item>, i: int)
    requires !IsLocalPdf(c)
    ensures IsFirstLocalPdf([c] + rest, i + 1) <==> IsFirstLocalPdf(rest, i)
  {
    var all := [c] + rest;
    assert forall j :: 0 <= j < |rest| ==> all[j + 1] == rest[j];
    if IsFirstLocalPdf(rest, i) {
      forall j | 0 <= j < i + 1 ensures !IsLocalPdf(all[j]) {
        if j > 0 {
          assert all[j] == rest[j - 1];
        }
      }
    }
  }

  /** The local path a qualifying child's href decodes to. */
  function LocalPath(child: Item, isWindows: bool, unquote: string -> string): string
    requires HasLocalHref(child)
  {
    unquote(FileUri.PathPart(child.href.value, isWindows))
  }

  /** Models the scan over the children: the first child that is a PDF
      attachment with a local href stops the scan and gives the path; a PDF
      attachment without such an href does not stop it. */
  method ResolvePdfPath(children: seq<Item>, isWindows: bool, unquote: string -> string)
    returns (pdfPath: Option<string>)
    ensures pdfPath.None? <==> forall j :: 0 <= j < |children| ==> !IsLocalPdf(children[j])
    ensures forall i :: IsFirstLocalPdf(children, i) ==>
      pdfPath == Some(LocalPath(children[i], isWindows, unquote))
  {
    pdfPath := None;
    var i := 0;
    while i < |children|
      invariant 0 <= i <= |children|
      invariant forall j :: 0 <= j < i ==> !IsLocalPdf(children[j])
    {
      var child := children[i];
      if child.data.itemType == Some("attachment") && child.data.contentType == Some("application/pdf") {
        var href := child.href;
        if href.Some? && href.value != "" && StartsWith(href.value, "file:///") {
          pdfPath := Some(unquote(FileUri.PathPart(href.value, isWindows)));
          assert IsFirstLocalPdf(children, i);
          forall k | IsFirstLocalPdf(children, k) ensures k == i {
            FirstLocalPdfUnique(children, i, k);
          }
          return;
        }
      }
      i := i + 1;
    }
  }

  /** The read-PDF tool: report a failed children request; otherwise resolve
      the first local PDF attachment, and if there is none (or its path
      decodes to nothing) say so; otherwise extract the file's text. */
  method ReadPdf(itemKey: string, fetch: string -> ApiResult<seq<Item>>, isWindows: bool,
                 unquote: string -> string, openPdf: string -> PdfText.PdfFile)
    returns (r: string)
    ensures var res := fetch(ChildrenEndpoint(itemKey));
      res.Err? ==> r == ApiErrorPrefix + res.msg
    ensures var res := fetch(ChildrenEndpoint(itemKey));
      res.Ok? && (forall j :: 0 <= j < |res.value| ==> !IsLocalPdf(res.value[j])) ==>
      r == NoPdfMessage
    ensures var res := fetch(ChildrenEndpoint(itemKey));
      res.Ok? ==> forall i :: IsFirstLocalPdf(res.value, i) ==>
        var p := LocalPath(res.value[i], isWindows, unquote);
        (p == "" ==> r == NoPdfMessage)
        && (p != "" ==> r == PdfText.ExtractionText(openPdf(p), p))
  {
    var children := fetch(ChildrenEndpoint(itemKey));
    if children.Err? {
      return ApiErrorText(children.msg);
    }
    var pdfPath := ResolvePdfPath(children.value, isWindows, unquote);
    if pdfPath.None? || pdfPath.value == "" {
      return NoPdfMessage;
    }
    r := PdfText.ExtractText(openPdf(pdfPath.value), pdfPath.value);
  }
}

# zotero-mcp: tool logic over the local Zotero API

This project models, in Dafny, the pure logic of the two tool servers of
zotero-mcp. Both servers sit between an agent and the local Zotero HTTP API
(`http://localhost:23119/api/users/0/`).

- `main.py` has three tools:
  - `zotero_search_items` builds the search endpoint and renders the result.
  - `zotero_get_item` renders one item.
  - `zotero_read_pdf` resolves the first PDF attachment of an item, turns its
    `file:///` enclosure href into a local path, and concatenates the text of
    the PDF's pages.
- `zotero.py` has two tools:
  - `get_all_items` lists every item as `title (key: K)`.
  - `filter_items` selects the `path` or `url` of PDF attachments that match
    optional item-type, tag and title filters.

The I/O is passed in as parameters:

- every API request is a function `fetch` from endpoint to
  `ApiResult = Err(msg) | Ok(value)`, which stands for the `{"error": ...}`
  dictionary or the decoded JSON;
- the platform test `os.name == 'nt'` is the flag `isWindows`;
- `urllib.parse.unquote` is the function parameter `unquote`;
- opening and parsing a PDF is the function `openPdf`. It yields either
  `Unreadable(reason)` or the pages in order. Each page is
  `Extracted(Option<string>)` or `Raised(reason)`.

Modules:

- `Api` (api.dfy): the outcome, reply and item-record datatypes.
- `Strings` (strings.dfy): the Python string operations used, with
  round-trip lemmas for `"\n".join` and line splitting.
- `FileUri` (file_uri.dfy): the per-platform scheme strip of RFC 8089
  `file` URIs. It also holds a concrete decoder for the ASCII `%XX` escapes of
  section 2.1 of RFC 3986, with an encoder that decoding undoes.
- `PdfText` (pdf_text.dfy): page-text concatenation.
- `Tools` (tools.dfy): main.py.
- `Listing` (listing.dfy): zotero.py.

Behaviour of the resolver and extractor worth noting:

- The resolver accepts only hrefs starting with `file:///` (three slashes),
  not any `file://` href.
- A PDF attachment without such an href does not end the scan. The next
  child is examined.
- If the first qualifying child's path decodes to the empty string, the
  result is "No PDF attachment found.". Later children are not tried.
- A read failure is a returned string, not a raised error. A failure while
  extracting any one page aborts the whole read with that message.

## Model

| member | source | states |
|---|---|---|
| Tools.SearchEndpoint | main.py:33-40 | With no search term the endpoint is exactly `items?itemType=-attachment&limit=30`. With a term `q` it is that string followed by `&q=` and `q` verbatim. The order is always exclusion, limit, then term. |
| Tools.SearchEndpointInjective | main.py:37-40 | Since the term is appended unescaped and last, two different terms never request the same endpoint. |
| Tools.ApiErrorText | main.py:41-42 | An error is rendered as `Zotero API error: ` followed by the failure description, which can be read back verbatim after the prefix. |
| Tools.SearchItems | main.py:40-45 | The search tool requests the search endpoint. A failed request gives exactly `Zotero API error: <msg>`. An empty result gives exactly `No items found.`. A non-empty result is returned unchanged. |
| Tools.GetItem | main.py:50-53 | The item tool requests `items/<key>`. A failure gives exactly `Zotero API error: <msg>`. Otherwise the record is returned unchanged. |
| Tools.ResolvePdfPath | main.py:63-74 | The scan finds no path exactly when no child is an attachment with content type `application/pdf` and an href starting with `file:///`. Otherwise the path is the decoded href of the first such child in input order: 7 characters are stripped on POSIX and 8 on Windows. |
| Tools.SkipsNonLocalChild | main.py:64-74 | A child failing any of the three checks, such as a PDF attachment whose href is missing or not local, does not stop the scan. The first match is then the first match among the following children. |
| Tools.ReadPdf | main.py:56-86 | A failed children request gives exactly `Zotero API error: <msg>`. If no child qualifies, or the first qualifying child's path decodes to the empty string, the result is exactly `No PDF attachment found.`. Otherwise the result is the extraction result for that path. |
| FileUri.PathPart | main.py:70-73 | On Windows, `file:///` followed by the stripped part gives back the href. On POSIX, `file://` followed by it gives back the href, and the part begins with `/`. |
| FileUri.PlatformsDifferBySlash | main.py:70-73 | For the same href, the POSIX path part is the Windows path part with one leading `/`. |
| FileUri.HostHrefNotLocal | main.py:68 | An href with a host after `file://` (no third slash, e.g. `file://host/x.pdf`) fails the local-href check. |
| FileUri.LocalHrefWithEscapedSpace | main.py:70-73 | `file:///<a>%20<b>` decodes to `/<a> <b>` on POSIX and to `<a> <b>` on Windows. Examples: `file:///tmp/my%20paper.pdf` gives `/tmp/my paper.pdf`; `file:///C:/docs/my%20paper.pdf` gives `C:/docs/my paper.pdf`. |
| FileUri.DecodePlainPrefix | main.py:71-73 | Percent-decoding leaves text without `%` unchanged and decodes the rest independently. |
| FileUri.DecodeEncode | main.py:71-73 | Percent-decoding undoes percent-encoding of any string (ASCII escapes). |
| PdfText.ReadError | main.py:85-86 | The read-failure message starts with `Error reading PDF: `, ends with ` (Path: <path>)`, and holds the failure description verbatim in between. |
| PdfText.ExtractText | main.py:78-86 | An unreadable file gives the read-failure message for that path. A document whose pages all yield text (or none) gives the page texts concatenated in page order. A page that raises gives the read-failure message with its reason. |
| PdfText.AllPagesExtracted | main.py:81-84 | When no page raises, the text is the concatenation of the page texts in page order. A page with no text contributes `""`, so zero pages give `""`. |
| PdfText.FirstRaisedPageDecides | main.py:82-86 | The first page whose extraction raises decides the outcome: its reason, whatever later pages hold. |
| PdfText.PagesOutcomeAppend | main.py:82-83 | Reading a document split into two runs of pages gives the first run's text in front of the second run's outcome, unless the first run failed. |
| Strings.SplitJoinLines | zotero.py:36 | Joining strings without newlines by `"\n"` and splitting the result on newlines gives the strings back. |
| Strings.JoinSplitLines | zotero.py:36 | Splitting any string on newlines and joining the pieces with `"\n"` gives the string back. |
| Strings.ConcatAppend | main.py:81-83 | Concatenating two lists of page texts one after another is concatenating their concatenations. |
| Listing.GetAllItems | zotero.py:26-36 | The tool requests `items`. A failed request gives exactly `Zotero APIエラー: <msg>`. An empty listing gives exactly `アイテムが見つからなかった。`. |
| Listing.GetAllItemsLines | zotero.py:35-36 | A non-empty listing is output as the item lines joined by `"\n"`, in input order, whatever the titles hold. When no title or key contains a newline, the output splits into exactly one line per item, in input order. Each line is `title (key: K)`. A missing title shows as `No Title`; a present empty title stays empty. |
| Listing.Location | zotero.py:57-58 | The emitted value is `path` when it is non-empty, else `url` when it is non-empty, else nothing. An emitted value is never empty. |
| Listing.MatchingLocations | zotero.py:46-59 | The filter emits at most one value per item. |
| Listing.FilterItems | zotero.py:38-62 | The tool requests `items`. A failed request gives exactly `Zotero APIエラー: <msg>`. An empty listing gives exactly `アイテムが見つからなかった。`. No match gives exactly `条件に合致するPDFが見つからなかった。`. |
| Listing.MatchingLocationsMembership | zotero.py:47-59 | A value is emitted exactly when some item passes every check and contributes that value. The checks are: a PDF attachment; the item type if given; an exact tag match if given; a title substring if given, with a missing title read as `""`. |
| Listing.OnlyPdfAttachments | zotero.py:49-59 | Every emitted value is the non-empty `path` or `url` of an item whose `itemType` is `attachment` and whose `contentType` is `application/pdf`. |
| Listing.ForeignItemTypeMatchesNothing | zotero.py:49-52 | Any non-empty `item_type` other than `attachment` yields no entries. |
| Listing.EmptyArgumentsIgnored | zotero.py:51-56 | Each absent or empty filter argument imposes no constraint, whatever the other arguments are: the selection equals the one made with that argument dropped. |
| Listing.MatchingLocationsAppend | zotero.py:46-59 | Items are visited in listing order: the selection over a listing split in two is the first part's selection followed by the second part's. A value given by two items is emitted twice. |
| Listing.SingleItemSelection | zotero.py:47-59 | One item contributes exactly its `path`-or-`url` value when it passes every check and has one, and nothing otherwise. |
| Listing.NarrowerFiltersSelectSubsequence | zotero.py:46-59 | Supplying more filter arguments never adds entries. The narrower selection is an in-order subsequence of the wider one. |
| Listing.SelectionWithinCandidates | zotero.py:46-59 | Every selection is an in-order subsequence of the selection made with no arguments, the values of all PDF attachments with a path or url. |
| Listing.FilterItemsLines | zotero.py:60-62 | A non-empty selection is output as its values joined by `"\n"`, in order. When no selected value contains a newline, that output splits back into exactly the selected values. |

## Left out

- `make_zotero_request` (main.py:14-27, zotero.py:11-24) is left out: the HTTP
  GET, headers, 30-second timeout and JSON decoding are network I/O. Only its
  outcome is modelled, as `ApiResult`, through the `fetch` parameters.
- The FastMCP server, tool registration, `main()` and the stdio transport
  (main.py:9, 88-92; zotero.py:6, 64-65) are left out: they are framework
  plumbing.
- `open` and PyPDF2 parsing (main.py:79-83) are left out: they are file I/O
  and a foreign library. Their results are the `openPdf` parameter.
- The internals of `urllib.parse.unquote` are left out: it is the
  uninterpreted parameter `unquote`.
- FileUri.PercentDecode: decodes only `%XX` escapes of ASCII characters. An
  escape of a byte of 0x80 or above is kept as written, whereas Python decodes
  such bytes as UTF-8 with replacement characters.
- `os.name` is the parameter `isWindows`.
- The Python `KeyError` when an item lacks `data` (main.py:65, zotero.py:35)
  or `key` (zotero.py:35) is left out: records are typed, so both are always
  present. In `filter_items`, a missing `data` behaves like data with every
  field absent, which the typed record already covers.
- The `"error" in data` test is modelled by the `Err`/`Ok` split. A successful
  body that itself has an `error` key would be treated as an error by the code;
  this is not modelled, because item records have no such key.
- JSON values of unexpected types are not modelled: a `null` title rendered as
  `None`, a `null` enclosure, or a non-list children body. Fields are either
  absent or strings.
- Listing.GetAllItemsLines: states that the output splits back into one line
  per item only when no title or key contains a newline, since otherwise a
  title's own line breaks make the output's lines ambiguous. The joined output
  itself is stated for every non-empty listing.
- Listing.FilterItemsLines: states that the output splits back into the
  selected values only when none of them contains a newline, for the same
  reason; the joined output itself is stated for every non-empty selection.
- Listing.MatchingLocations: its own contract gives only the size bound. What
  it selects is stated by Listing.MatchingLocationsMembership, and its order and
  repetitions by Listing.MatchingLocationsAppend together with
  Listing.SingleItemSelection.

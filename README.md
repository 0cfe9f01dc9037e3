# rt-data-parser, modelled in Dafny

rt-data-parser exports tickets from a Request Tracker (RT) server as CSV. It
starts at a top ticket id and works downwards through a given number of ids.
For each ticket it fetches the ticket, its creator, its queue and its paged
transaction history. From the transactions of type `Comment` and `Correspond`
it takes the text attachments and renders them as one quoted field each. It
then builds a record with sixteen properties in a fixed order. Every record
is pushed onto `ticket_objs`, and the whole array is printed as CSV.
A ticket is dropped when any step for it throws.

The helper library `lib/functions.js` has two text sanitisers:
`strip_html_block`, which splices whole `<tag ...>...</tag>` blocks out of a
text by recursion, and `strip_html_tags`, which removes nine literal inline
tags. It also has `convert_date`.

The model is split into these modules:

- `Wrappers`: `Option`.
- `JsString`: the JavaScript string built-ins the code relies on, over
  `seq<char>`. These are `indexOf`, `includes`, `substring` with its clamping,
  `replaceAll(t, "")`, ASCII `toLowerCase`, the character-class removals
  `/\n+/g` and `/['"]+/g`, `join`, and `split` (the inverse of `join`, used
  in the round trip of the CSV text).
- `Functions`: `strip_html_block`, `strip_html_tags` and `convert_date`, as
  functions. The lemmas cover termination, the step taken by each branch,
  the fixed points and idempotence.
- `FunctionsExamples`: the outputs pinned by `test/tests.js`, proved as
  lemmas.
- `RtTypes`: the JSON shapes read from the REST 2.0 interface, and the
  `Server`, whose answers are injected as total functions returning `Option`.
  A rejected request is `None`, and so is a body whose missing property
  makes the source throw before its next request (see "## Left out").
- `RtClient`: the `axios` instance, as a class. Every request goes through it
  and is appended to its `log`, so that request order can be stated.
- `Collecting`: the loop pattern "visit in order, keep what succeeds, skip
  what fails", as `Collect`, and concatenation of per-step outputs, as
  `Flatten`, with their lemmas.
- `RtHistory`: `get_ticket_transactions_history_data`.
- `RtByType`: `get_ticket_transactions_history_data_by_type` and
  `is_content_type_text`.
- `RtRecord`: `get_ticket_custom_field_value`, the record literal of
  `create_ticket_obj`, and `convert_to_csv`.
- `RtDriver`: `create_ticket_obj`, `parse_ticket`, `get_tickets_data` and the
  main promise chain.

The loops of `rt_data_parser.js` are methods with loop invariants. Each is
proved against a specification function of the server's answers (`History`,
`ByType`, `ParsedTicket`, `Export`), and each also states the method's exact
request log (`HistoryTrace`, `ByTypeTrace`, `TicketTrace`, `TicketsTrace`).
The module-level `ticket_objs` is the field of the class
`RtDriver.Exporter`. The properties of the source are lemmas about those
functions.

Two details of the source the model keeps:

- In the history page loop, the `const ticket_history` declared inside the
  loop body shadows page 1's binding only inside the body. The loop
  condition still reads page 1's `pages`.
- The by-type loops use the undeclared globals `i` and `j`. This is
  harmless, because every call is awaited before the next one starts.

## Model

| member | source | states |
|---|---|---|
| JsString.IndexOf | lib/functions.js:9-10 | `indexOf` is -1 exactly when the pattern occurs nowhere; otherwise it is an occurrence with no earlier one |
| JsString.RemoveAll | lib/functions.js:51-59 | `replaceAll(t, "")` never lengthens the text, and for a non-empty `t` leaves it unchanged exactly when `t` does not occur |
| JsString.RemoveAllIsScan | lib/functions.js:51-59 | the `indexOf`-driven removal agrees with an independent character-by-character scan |
| JsString.ToLowerAscii | rt_data_parser.js:354-355 | lower-casing keeps the length and maps every character through ASCII case folding |
| JsString.ToLowerIdempotent | rt_data_parser.js:354-355 | lower-casing twice equals lower-casing once |
| JsString.RemoveChars | rt_data_parser.js:334 | removing a character class leaves none of its characters, keeps every other character with its multiplicity, changes nothing when none occur, and on one character drops it exactly when it is in the class |
| JsString.RemoveCharsAppend | rt_data_parser.js:334 | the removal keeps order: removing from `a + b` is removing from `a`, then from `b` |
| JsString.SplitJoin | rt_data_parser.js:213-217 | joining separator-free pieces and splitting at the separator gives the pieces back |
| Functions.StripHtmlBlock | lib/functions.js:8-40 | the result is never longer than the text; the recursion terminates on the text's length |
| Functions.SpliceBackShrinks | lib/functions.js:30-35 | in the open-after-close branch the two splices remove twice the tag's length plus 4 characters starting at the closing marker, so the recursive call is on a shorter text |
| Functions.FirstSpliceShrinks | lib/functions.js:17-25 | a first splice that leaves no marker is strictly shorter than the text |
| Functions.StripWithoutMarker | lib/functions.js:9-15 | with either marker missing, the text is returned unchanged |
| Functions.StripRegularStep | lib/functions.js:17-28 | with the opening marker first, the result is that of stripping the text with everything from the opening marker through the end of the closing marker cut out |
| Functions.StripBackStep | lib/functions.js:30-35 | with the closing marker first and a marker left after the first splice, the result is that of stripping the text with twice the tag's length plus 4 characters removed at the closing marker |
| Functions.StripFixedIff | lib/functions.js:13-38 | the text comes back unchanged exactly when a marker is missing, or when both markers are first found at the same index and the splice leaves one (the final `else`) |
| Functions.StripSettles | lib/functions.js:8-40 | every result is such a fixed point |
| Functions.StripIdempotent | lib/functions.js:8-40 | stripping the same tag twice equals stripping it once |
| Functions.RemoveEach | lib/functions.js:50-59 | the chain of removals never lengthens the text and leaves a text containing none of the tokens unchanged |
| Functions.StripHtmlTags | lib/functions.js:48-60 | a falsy input (`null` as `None`, and the empty string) is returned as it is; any other output is no longer than the input and equals it when none of the nine tokens occurs |
| Functions.StripHtmlTagsOrder | lib/functions.js:50-59 | the nine removals run in the listed order |
| Functions.ConvertDate | lib/functions.js:68-69 | an absent or empty date gives `undefined` (`None`); any other date is handed to the formatter |
| FunctionsExamples.NoTagExample | test/tests.js:9-13 | `"Hello world"` with `div` is unchanged |
| FunctionsExamples.SingleBlockExample | test/tests.js:15-19 | `"<div>Hello</div>"` with `div` gives `""` |
| FunctionsExamples.TwoBlocksExample | test/tests.js:21-25 | `"<div>Hello</div>return this<div>World</div>"` gives `"return this"` |
| FunctionsExamples.NestedOtherTagExample | test/tests.js:27-31 | `"<div><span>Hello</span></div>"` gives `""` |
| FunctionsExamples.SameTagNestedExample | test/tests.js:36-40 | the same tag nested gives `"before </div></div>"` |
| FunctionsExamples.NestedTagsExample | test/tests.js:42-46 | several nested tags give `"good text"` |
| FunctionsExamples.AttributesExample | test/tests.js:48-52 | an opening tag with attributes is matched: the result is `""` |
| FunctionsExamples.CloseBeforeOpenExample | lib/functions.js:30-35 | in `"</div><div>x</div>"` the open-after-close branch leaves `">x</div>"` |
| FunctionsExamples.ParagraphExample | test/tests.js:74-79 | `"<p>Hello, world!</p>"` gives `"Hello, world!"` |
| FunctionsExamples.BreakExample | test/tests.js:81-86 | `"Hello<br />world!"` gives `"Helloworld!"` |
| FunctionsExamples.StrongExample | test/tests.js:88-93 | `"<strong>Hello, world!</strong>"` gives `"Hello, world!"` |
| FunctionsExamples.MixedExample | test/tests.js:95-100 | `"<p><strong>Hello</strong>, <br />world!</p>"` gives `"Hello, world!"` |
| FunctionsExamples.NoTagsExample | test/tests.js:102-107 | a text without tags is returned unchanged |
| RtClient.Client.GetTicket | rt_data_parser.js:72-76 | answers with the server's ticket and appends the ticket request to the log |
| RtClient.Client.GetUser | rt_data_parser.js:78-82 | answers with the server's user and appends the user request to the log |
| RtClient.Client.GetQueue | rt_data_parser.js:84-88 | answers with the server's queue and appends the queue request to the log |
| RtClient.Client.GetHistoryPage | rt_data_parser.js:136-145 | answers with the server's history page and appends the page request to the log |
| RtClient.Client.GetTransaction | rt_data_parser.js:196-202 | answers with the server's transaction and appends the transaction request to the log |
| RtClient.Client.GetAttachment | rt_data_parser.js:318 | answers with the server's attachment and appends the URL request to the log |
| RtHistory.ParseItems | rt_data_parser.js:157-166 | the item loop returns the transactions whose fetch succeeded, in item order, and makes exactly the item requests |
| RtHistory.ParseLaterPages | rt_data_parser.js:168-185 | the page loop returns the transactions of pages 2..P, or rejects when a page fetch fails, and makes exactly the requests of `LaterTrace` |
| RtHistory.LaterStep | rt_data_parser.js:170-183 | one more page either fails, making the result a rejection, or appends its items' transactions and requests |
| RtHistory.GetTicketTransactionsHistoryData | rt_data_parser.js:131-188 | the method resolves to `History` (page 1's transactions, then those of pages 2..P) and makes exactly the requests of `HistoryTrace` |
| RtHistory.LaterPagesStopAt | rt_data_parser.js:168-171 | after a failed page no further page is requested, and the rejection propagates |
| RtHistory.ItemTxnsAppend | rt_data_parser.js:157-166 | the items of `a + b` give `a`'s transactions, then `b`'s; a failed fetch affects only its own item |
| RtHistory.ItemTxnsComplete | rt_data_parser.js:157-166 | nothing is lost exactly when every fetch succeeds, and then the result is each item's transaction, in order |
| RtHistory.LaterPagesRequested | rt_data_parser.js:168-171 | later pages are requested as 2, 3, ... up to P, or up to the first page that fails |
| RtHistory.HistoryPagesRequested | rt_data_parser.js:154-171 | pages are requested as 1, 2, ..., `max(1, P)` times when the history resolves; when it rejects, the last page requested is the one that failed |
| RtHistory.LaterPagesItems | rt_data_parser.js:168-185 | the transactions of pages 2..P are those of their items, concatenated in page order |
| RtHistory.HistoryIsAllItems | rt_data_parser.js:154-187 | a resolved history holds the transactions of all items of pages 1..P in order; it is no longer than the item count, and equally long exactly when no transaction fetch fails |
| RtByType.ContentTypeIgnoresCase | rt_data_parser.js:352-357 | the header test gives the same answer for the headers and their lower-cased form |
| RtByType.LowerCaseHeaderIsText | rt_data_parser.js:352-357 | headers containing `content-type: text/html` or `content-type: text/plain` are text |
| RtByType.OfType | rt_data_parser.js:297-299 | the filter keeps only transactions of the requested type, taken from the history |
| RtByType.OfTypeComplete | rt_data_parser.js:297-299 | every transaction of the requested type is kept |
| RtByType.OfTypeAppend | rt_data_parser.js:297-299 | the filter keeps the history's order |
| RtByType.OfTypeIdempotent | rt_data_parser.js:297-299 | filtering twice by the same type changes nothing |
| RtByType.QuotedField | rt_data_parser.js:343 | the returned field starts and ends with `"`, has no quote character in between, and in between is the JSON with its quote characters removed, in order |
| RtByType.ParseLinks | rt_data_parser.js:312-341 | the inner loop returns the fragments of the links, in order, and requests exactly the attachment links |
| RtByType.TxnStep | rt_data_parser.js:302-342 | one more transaction appends the fragments and requests of its links |
| RtByType.ParseTransactions | rt_data_parser.js:302-342 | the outer loop returns the fragments of all links of the transactions, transaction by transaction, and makes exactly their requests |
| RtByType.GetTicketTransactionsHistoryDataByType | rt_data_parser.js:293-344 | the method resolves to `ByType` and makes exactly the requests of `ByTypeTrace` |
| RtByType.LinkFragmentsAppend | rt_data_parser.js:312-341 | links are processed in order: the fragments of `x + y` are those of `x`, then those of `y` |
| RtByType.LinkFragmentsSkip | rt_data_parser.js:317-340 | a link that yields nothing (failed request, non-text headers, bad base64) drops out and leaves its siblings alone |
| RtByType.TxnFragmentsAppend | rt_data_parser.js:302-342 | transactions are processed in order, each contributing its links' fragments and requests |
| RtByType.NonAttachmentsIgnored | rt_data_parser.js:314-316 | links whose `ref` is not `"attachment"` are neither requested nor kept |
| RtByType.LinkFragmentsSound | rt_data_parser.js:317-337 | every kept fragment is the fragment of one of the links |
| RtByType.LinkFragmentKept | rt_data_parser.js:314-337 | a fragment is kept exactly for an attachment link whose response has text headers and whose content, with newlines removed, decodes; it carries the attachment's creation time, creator and decoded content |
| RtByType.ByTypeOnlyType | rt_data_parser.js:297-299 | only the transactions of the requested type affect the result and the requests |
| RtByType.ByTypeQuoted | rt_data_parser.js:343 | the result starts and ends with `"` and has no `'` or `"` in between |
| RtRecord.FindField | rt_data_parser.js:279-282 | `find` gives the index of the first field with exactly that name, or none when no field has it |
| RtRecord.GetTicketCustomFieldValue | rt_data_parser.js:278-284 | the lookup throws exactly when no field has the name; otherwise it is the first such field's values joined with `", "` |
| RtRecord.BuildRecord | rt_data_parser.js:245-268 | the record exists exactly when the three custom-field lookups succeed; its sixteen values, in `KEYS` order, are then each key's value of the object literal |
| RtRecord.CsvLinesShape | rt_data_parser.js:211-216 | the first line is the keys joined by commas, there is one line per record after it, and line k + 1 is record k's values joined by commas |
| RtRecord.ConvertToCsv | rt_data_parser.js:210-218 | `convert_to_csv` throws exactly on an empty array |
| RtRecord.KeysPlain | rt_data_parser.js:245-268 | no key contains a comma or a newline |
| RtRecord.HeaderSplits | rt_data_parser.js:211-217 | the header line splits back into the sixteen keys, in declaration order |
| RtRecord.CsvSplits | rt_data_parser.js:210-218 | when no value contains a newline, the CSV text splits back into the header and one row per record, in order; when no value contains a comma either, each row splits back into its record's values |
| RtDriver.VisitedIdsShape | rt_data_parser.js:116 | the driver loop visits `max(0, n)` ids: `top`, `top - 1`, ... |
| RtDriver.CreateTicketObj | rt_data_parser.js:229-269 | the method resolves to `TicketObj` and requests the comments' attachments, then the correspondence's |
| RtDriver.Exporter.constructor | rt_data_parser.js:57 | `ticket_objs` starts empty |
| RtDriver.Exporter.ParseTicket | rt_data_parser.js:70-103 | `parse_ticket` pushes the ticket's record when every step succeeds and nothing otherwise, and makes exactly the requests of `TicketTrace` |
| RtDriver.Exporter.GetTicketsData | rt_data_parser.js:112-123 | the loop appends the records of the visited ids, in visit order, and makes their requests in that order |
| RtDriver.Run | rt_data_parser.js:57-62 | the program prints `Export`: the CSV text of the records of the visited tickets |
| RtDriver.TicketsSnoc | rt_data_parser.js:116-121 | one more visit appends that id's record, if any, and its requests |
| RtDriver.ParsedTicketIff | rt_data_parser.js:70-103 | a ticket yields a record exactly when the ticket, creator, queue and history can be fetched and it has the three custom fields; the record's sixteen values, in `KEYS` order, are then the ticket's scalars, the creator's organization, the queue's name, the comments and correspondence of its history, and the three field values |
| RtDriver.TicketsAppend | rt_data_parser.js:116-121 | the records and requests of `x + y` are those of `x`, then those of `y` |
| RtDriver.ExportedRecords | rt_data_parser.js:116-121 | every exported record is that of a visited id; there are at most `n`, and exactly `n` when every visited ticket yields one |
| RtDriver.ExportFails | rt_data_parser.js:57-62 | nothing is printed (`convert_to_csv` throws) exactly when no visited ticket yields a record |
| RtDriver.MissingOutcomeDrops | rt_data_parser.js:93-102 | a ticket without an `Outcome` custom field is never exported |
| RtDriver.TicketRequestedOnce | rt_data_parser.js:70-91 | `parse_ticket(id)` requests ticket `id` once, and first |
| RtDriver.TicketsRequested | rt_data_parser.js:116-121 | the tickets requested are exactly the visited ids, each once, in visit order |

## Left out

- The command line, the progress bars and the basic-auth headers are left
  out (rt_data_parser.js:1-55, 113-119, 122, 149-151, 155-156). They are user
  interface and configuration.
- `axios` is replaced by the injected `Server`. URLs are reduced to the ids
  they carry, and HTTP and JSON decoding are not modelled.
- `async`/`await` is modelled as sequential execution, because every call is
  awaited before the next one starts.
- `atob` and `JSON.stringify` are opaque functions, the fields of
  `Builtins`. Base64 decoding and the JSON text are not modelled.
- `toLowerCase` only folds ASCII letters (`JsString.ToLowerAscii`). Unicode
  case mapping is not modelled.
- `convert_date` keeps only its falsy guard. The `en-GB` formatting in the
  `Europe/London` time zone is the injected `render` function.
- The arguments `--ticket-id` and `--numbers` are modelled as integers. The
  source reads them as strings and relies on JavaScript's coercion, and a
  non-numeric value is not modelled.
- The property values of tickets, users, queues and attachments are modelled
  as strings. JavaScript's rendering of numbers, `null` and `undefined` by
  `toString` is not modelled.
- A body that lacks a property the code reads is folded into the `None`
  answer of the request that returned it only where the source then throws
  before it makes its next request: a ticket without `Creator`
  (rt_data_parser.js:79), and an attachment without `Headers`, `Creator` or
  `Content` (rt_data_parser.js:327-335), which the inner `try` skips.
- A transaction of the filtered type without `_hyperlinks`
  (rt_data_parser.js:303-311), or a history page without `items`
  (rt_data_parser.js:157, 172), throws inside `parse_ticket`'s `try`
  (rt_data_parser.js:71-102), after the requests made so far, and drops the
  ticket. Such bodies cannot be represented in `RtTypes`. A transaction of
  another type is never read past its `Type`.
- Missing scalar properties are not modelled: a ticket without `Resolved`,
  `Created`, `Started`, `Told`, `Status` or `Subject`, a user without
  `Organization`, or a queue without `Name` (rt_data_parser.js:249-263) is
  still exported, with `undefined` rendered as an empty cell; an attachment
  without `Created` (rt_data_parser.js:332) is still kept, and
  `JSON.stringify` leaves the key out. `RtTypes` gives every such property a
  string value.
- A history page without `pages` (rt_data_parser.js:168) is not modelled:
  `undefined > 1` is false, so the source resolves with page 1's
  transactions only. `HistoryPage.pages` is always an integer.
- The late throws are not modelled with their request trace: a ticket
  without `Queue` throws after the user request (rt_data_parser.js:84-88),
  and one without `Owner`, `EffectiveId` or `CustomFields` throws only in the
  object literal (rt_data_parser.js:245-268), after every history and
  attachment request. Modelling them as the ticket's `None` would stop
  `TicketTrace` at the ticket request, so `TicketData` gives those
  properties a value instead and such tickets are not representable.
- Characters are Unicode code points, while JavaScript indexes strings in
  UTF-16 code units. `substring(open + tag.length + 1)` (lib/functions.js:32)
  cuts elsewhere than `Functions.StripHtmlBlock` when a character outside the
  Basic Multilingual Plane falls within the `tag.length + 1` units after the
  closing marker; `indexOf` positions and lengths differ likewise.
- The `Server` is a fixed function, so a repeated request always gets the
  same answer (for example a transaction id listed on two history pages).
  A server whose answers change between requests is not modelled.
- The `total` of a history page and the message of a caught error are left
  out. They only feed a progress bar, and the catch blocks are empty.
- `Object.keys(arr[0])` is the fixed key list `RtRecord.KEYS`. Every record
  is built by the same object literal, so the keys are always the same.

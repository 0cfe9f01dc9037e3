/** The JSON shapes that rt_data_parser.js reads from the REST 2.0 interface of
    Request Tracker (RT), reduced to the properties it uses, and the responses
    of the server, injected as total functions. */
module RtTypes {
  import opened Wrappers

  /** One entry of a history page's `items`: only its `id` is read. */
  datatype HistoryItem = HistoryItem(id: int)

  /** A page of `/ticket/{id}/history?page={n}`: the declared page count and
      the items of this page (`total` only drives a progress bar). */
  datatype HistoryPage = HistoryPage(pages: int, items: seq<HistoryItem>)

  /** An entry of a transaction's `_hyperlinks`: its `ref` and its `_url`. */
  datatype Hyperlink = Hyperlink(ref: string, url: string)

  /** A transaction of `/transaction/{id}`: `id`, `Type` and `_hyperlinks`. */
  datatype Transaction = Transaction(id: int, txnType: string, hyperlinks: seq<Hyperlink>)

  /** An attachment fetched from a hyperlink's `_url`: `Headers`, `Created`,
      `Creator.id` and the base64 `Content`. */
  datatype Attachment = Attachment(headers: string, created: string, creator: string, content: string)

  /** The object pushed for a text attachment: `{created, creator, content}`,
      with `content` already decoded. */
  datatype Fragment = Fragment(created: string, creator: string, content: string)

  /** An entry of a ticket's `CustomFields`: its `name` and its `values`. */
  datatype CustomField = CustomField(name: string, values: seq<string>)

  /** A ticket of `/ticket/{id}`: the properties `create_ticket_obj` and
      `parse_ticket` read (`EffectiveId.id`, `Creator.id`, `Queue.id`,
      `Owner.id` and the scalar ones), rendered as text. */
  datatype TicketData = TicketData(
    effectiveId: string, creator: string, queue: string, owner: string,
    subject: string, status: string, resolved: string, created: string,
    started: string, told: string, customFields: seq<CustomField>)

  /** A user of `/user/{id}`: only `Organization` is read. */
  datatype User = User(organization: string)

  /** A queue of `/queue/{id}`: only `Name` is read. */
  datatype Queue = Queue(name: string)

  /** The object `create_ticket_obj` builds; its sixteen properties are listed
      in the order in which the object literal declares them. */
  datatype TicketRecord = TicketRecord(
    id: string, allOtherCorrespondence: string, anyComment: string, closed: string,
    created: string, customer: string, customerGroup: string, firstCorrespondence: string,
    lastCorrespondence: string, outcome: string, owner: string, queue: string,
    securityIncident: string, status: string, subject: string, ticketType: string)

  /** One GET request, identified by the URL path it asks for. */
  datatype Request =
    | TicketReq(ticket: int)                 // `/ticket/{id}`
    | UserReq(user: string)                  // `/user/{id}`
    | QueueReq(queue: string)                // `/queue/{id}`
    | HistoryReq(ticket: int, page: int)     // `/ticket/{id}/history?page={n}`
    | TransactionReq(txn: int)               // `/transaction/{id}`
    | UrlReq(url: string)                    // a hyperlink's `_url`

  /** What the server answers to each request; `None` is a rejected request
      (a network error, an error status, or a body whose missing property
      makes the caller throw before its next request). The answers are fixed:
      asking twice gives the same answer. */
  datatype Server = Server(
    ticket: int -> Option<TicketData>,
    user: string -> Option<User>,
    queue: string -> Option<Queue>,
    historyPage: (int, int) -> Option<HistoryPage>,
    transaction: int -> Option<Transaction>,
    attachment: string -> Option<Attachment>)

  /** The JavaScript built-ins the core calls but does not define: `atob`,
      which throws on input that is not base64 (`None`), and `JSON.stringify`
      of an array of fragments. */
  datatype Builtins = Builtins(
    atob: string -> Option<string>,
    stringify: seq<Fragment> -> string)
}

/** The `axios` instance rt_data_parser.js talks to: every `axios.get` goes
    through a `Client`, which answers from a fixed `Server` and records the
    request in `log`, so that the order of requests can be stated. */
module RtClient {
  import opened Wrappers
  import opened RtTypes

  class Client {
    const server: Server
    /** Every request made so far, oldest first. */
    var log: seq<Request>

    constructor (server: Server)
      ensures this.server == server && log == []
    {
      this.server := server;
      log := [];
    }

    /** `axios.get(`${RT_API_URL}/ticket/${id}`)`. */
    method GetTicket(id: int) returns (r: Option<TicketData>)
      modifies this
      ensures r == server.ticket(id)
      ensures log == old(log) + [TicketReq(id)]
    {
      r := server.ticket(id);
      log := log + [TicketReq(id)];
    }

    /** `axios.get(`${RT_API_URL}/user/${id}`)`. */
    method GetUser(id: string) returns (r: Option<User>)
      modifies this
      ensures r == server.user(id)
      ensures log == old(log) + [UserReq(id)]
    {
      r := server.user(id);
      log := log + [UserReq(id)];
    }

    /** `axios.get(`${RT_API_URL}/queue/${id}`)`. */
    method GetQueue(id: string) returns (r: Option<Queue>)
      modifies this
      ensures r == server.queue(id)
      ensures log == old(log) + [QueueReq(id)]
    {
      r := server.queue(id);
      log := log + [QueueReq(id)];
    }

    /** `get_ticket_history_page(page)`. */
    method GetHistoryPage(ticket: int, page: int) returns (r: Option<HistoryPage>)
      modifies this
      ensures r == server.historyPage(ticket, page)
      ensures log == old(log) + [HistoryReq(ticket, page)]
    {
      r := server.historyPage(ticket, page);
      log := log + [HistoryReq(ticket, page)];
    }

    /** `parse_transaction(id)`. */
    method GetTransaction(id: int) returns (r: Option<Transaction>)
      modifies this
      ensures r == server.transaction(id)
      ensures log == old(log) + [TransactionReq(id)]
    {
      r := server.transaction(id);
      log := log + [TransactionReq(id)];
    }

    /** `axios.get(hyperlink._url)`. */
    method GetAttachment(url: string) returns (r: Option<Attachment>)
      modifies this
      ensures r == server.attachment(url)
      ensures log == old(log) + [UrlReq(url)]
    {
      r := server.attachment(url);
      log := log + [UrlReq(url)];
    }
  }
}

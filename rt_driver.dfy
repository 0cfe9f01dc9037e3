/** `create_ticket_obj`, `parse_ticket`, `get_tickets_data` and the main
    promise chain (rt_data_parser.js:57-123, 229-269): tickets are visited from
    the top id downwards, each one that can be fetched and built is pushed onto
    `ticket_objs`, and the pushed records are printed as CSV. */
module RtDriver {
  import opened Wrappers
  import opened Collecting
  import opened RtTypes
  import opened RtClient
  import opened RtHistory
  import opened RtByType
  import opened RtRecord

  // ---------------------------------------------------------------------
  // Specification

  /** The resolved value of `create_ticket_obj`: comments, then correspondence,
      then the record; `None` when a custom-field lookup throws. */
  function TicketObj(srv: Server, b: Builtins, data: TicketData, user: User, queue: Queue, history: seq<Transaction>)
    : Option<TicketRecord>
  {
    BuildRecord(data, user, queue, ByType(srv, b, history, "Comment"), ByType(srv, b, history, "Correspond"))
  }

  /** The requests `create_ticket_obj` makes: those for the comments, then
      those for the correspondence. */
  function TicketObjTrace(history: seq<Transaction>): seq<Request>
  {
    ByTypeTrace(history, "Comment") + ByTypeTrace(history, "Correspond")
  }

  /** The record `parse_ticket(id)` pushes, or `None` when it pushes nothing
      because one of its steps throws and the `catch` swallows it. */
  function ParsedTicket(srv: Server, b: Builtins, id: int): Option<TicketRecord>
  {
    match srv.ticket(id)
    case None => None
    case Some(data) =>
      match srv.user(data.creator)
      case None => None
      case Some(user) =>
        match srv.queue(data.queue)
        case None => None
        case Some(queue) =>
          match History(srv, id)
          case None => None
          case Some(history) => TicketObj(srv, b, data, user, queue, history)
  }

  /** The requests `parse_ticket(id)` makes, in order, up to the first that fails. */
  function TicketTrace(srv: Server, b: Builtins, id: int): seq<Request>
  {
    if srv.ticket(id).None? then [TicketReq(id)]
    else
      var data := srv.ticket(id).value;
      var fetched := [TicketReq(id), UserReq(data.creator), QueueReq(data.queue)];
      if srv.user(data.creator).None? then fetched[..2]
      else if srv.queue(data.queue).None? then fetched
      else if History(srv, id).None? then fetched + HistoryTrace(srv, id)
      else fetched + HistoryTrace(srv, id) + TicketObjTrace(History(srv, id).value)
  }

  /** The ids `for (id = top; id > top - n; id--)` visits, in order. */
  function VisitedIds(top: int, n: int): seq<int>
    decreases n
  {
    if n <= 0 then [] else VisitedIds(top, n - 1) + [top - (n - 1)]
  }

  /** The loop visits `max(0, n)` ids, counting down from `top`. */
  lemma {:induction false} VisitedIdsShape(top: int, n: int)
    ensures |VisitedIds(top, n)| == if n <= 0 then 0 else n
    ensures forall k :: 0 <= k < |VisitedIds(top, n)| ==> VisitedIds(top, n)[k] == top - k
    decreases n
  {
    if n > 0 {
      VisitedIdsShape(top, n - 1);
    }
  }

  /** `ParsedTicket` as a function value, for `Collect`. */
  function Parse(srv: Server, b: Builtins): int -> Option<TicketRecord>
  {
    (id: int) => ParsedTicket(srv, b, id)
  }

  /** The records pushed while visiting `ids`, in visit order. */
  function ParsedTickets(srv: Server, b: Builtins, ids: seq<int>): seq<TicketRecord>
  {
    Collect(Parse(srv, b), ids)
  }

  /** `TicketTrace` as a function value, for `Flatten`. */
  function TraceOf(srv: Server, b: Builtins): int -> seq<Request>
  {
    (id: int) => TicketTrace(srv, b, id)
  }

  /** The requests made while visiting `ids`. */
  function TicketsTrace(srv: Server, b: Builtins, ids: seq<int>): seq<Request>
  {
    Flatten(TraceOf(srv, b), ids)
  }

  /** What the program prints: the CSV text of every record pushed for the
      tickets `top`, `top - 1`, ..., `top - n + 1`; `None` when no record was
      pushed, where `convert_to_csv` throws. */
  function Export(srv: Server, b: Builtins, top: int, n: int): Option<string>
  {
    ConvertToCsv(ParsedTickets(srv, b, VisitedIds(top, n)))
  }

  // ---------------------------------------------------------------------
  // The program

  /** `create_ticket_obj(ticket_data, ticket_user, ticket_queue, history)`. */
  method CreateTicketObj(client: Client, b: Builtins, data: TicketData, user: User, queue: Queue, history: seq<Transaction>)
    returns (r: Option<TicketRecord>)
    modifies client
    ensures r == TicketObj(client.server, b, data, user, queue, history)
    ensures client.log == old(client.log) + TicketObjTrace(history)
  {
    var comments := GetTicketTransactionsHistoryDataByType(client, b, history, "Comment");
    ghost var middle := client.log;
    var correspondence := GetTicketTransactionsHistoryDataByType(client, b, history, "Correspond");
    AppendAssoc(old(client.log), ByTypeTrace(history, "Comment"), ByTypeTrace(history, "Correspond"));
    r := BuildRecord(data, user, queue, comments, correspondence);
  }

  /** The module-level `ticket_objs` array and the functions that push onto it. */
  class Exporter {
    var ticketObjs: seq<TicketRecord>

    constructor ()
      ensures ticketObjs == []
    {
      ticketObjs := [];
    }

    /** `parse_ticket(id)`: fetch the ticket, its creator, its queue and its
        history, build its record and push it; a failure anywhere pushes
        nothing and stops the requests for this ticket. */
    method ParseTicket(client: Client, b: Builtins, id: int)
      modifies this, client
      ensures ticketObjs == old(ticketObjs) + Kept(ParsedTicket(client.server, b, id))
      ensures client.log == old(client.log) + TicketTrace(client.server, b, id)
    {
      ghost var start := client.log;
      var data := client.GetTicket(id);
      if data.None? {
        return;
      }
      ghost var fetched := [TicketReq(id), UserReq(data.value.creator), QueueReq(data.value.queue)];
      var user := client.GetUser(data.value.creator);
      AppendAssoc(start, [TicketReq(id)], [UserReq(data.value.creator)]);
      assert client.log == start + fetched[..2];
      if user.None? {
        return;
      }
      var queue := client.GetQueue(data.value.queue);
      AppendAssoc(start, fetched[..2], [QueueReq(data.value.queue)]);
      assert client.log == start + fetched;
      if queue.None? {
        return;
      }
      var history := GetTicketTransactionsHistoryData(client, id);
      AppendAssoc(start, fetched, HistoryTrace(client.server, id));
      if history.None? {
        return;
      }
      var obj := CreateTicketObj(client, b, data.value, user.value, queue.value, history.value);
      AppendAssoc(start, fetched + HistoryTrace(client.server, id), TicketObjTrace(history.value));
      if obj.None? {
        return;
      }
      ticketObjs := ticketObjs + [obj.value];
    }

    /** `get_tickets_data(top, n)`: `parse_ticket` on `top`, `top - 1`, ...
        while the id exceeds `top - n`. */
    method GetTicketsData(client: Client, b: Builtins, top: int, n: int)
      modifies this, client
      ensures ticketObjs == old(ticketObjs) + ParsedTickets(client.server, b, VisitedIds(top, n))
      ensures client.log == old(client.log) + TicketsTrace(client.server, b, VisitedIds(top, n))
    {
      var id := top;
      ghost var visited: seq<int> := [];
      ghost var m: nat := 0;
      while id > top - n
        invariant id == top - m && (id >= top - n || m == 0)
        invariant visited == VisitedIds(top, m)
        invariant ticketObjs == old(ticketObjs) + ParsedTickets(client.server, b, visited)
        invariant client.log == old(client.log) + TicketsTrace(client.server, b, visited)
        decreases id - (top - n)
      {
        NextVisited(top, m, id);
        TicketsSnoc(client.server, b, visited, id);
        ParseTicket(client, b, id);
        AppendAssoc(old(ticketObjs), ParsedTickets(client.server, b, visited), Kept(ParsedTicket(client.server, b, id)));
        AppendAssoc(old(client.log), TicketsTrace(client.server, b, visited), TicketTrace(client.server, b, id));
        visited := visited + [id];
        m := m + 1;
        id := id - 1;
      }
    }
  }

  /** The whole program: `get_tickets_data(top, n)` on a fresh `ticket_objs`,
      then `convert_to_csv(ticket_objs)`. */
  method Run(client: Client, b: Builtins, top: int, n: int) returns (csv: Option<string>)
    modifies client
    ensures csv == Export(client.server, b, top, n)
    ensures client.log == old(client.log) + TicketsTrace(client.server, b, VisitedIds(top, n))
  {
    var exporter := new Exporter();
    exporter.GetTicketsData(client, b, top, n);
    assert exporter.ticketObjs == ParsedTickets(client.server, b, VisitedIds(top, n));
    csv := ConvertToCsv(exporter.ticketObjs);
  }

  /** The loop's next id extends the visited ids. */
  lemma NextVisited(top: int, m: nat, id: int)
    requires id == top - m
    ensures VisitedIds(top, m + 1) == VisitedIds(top, m) + [id]
  {
  }

  /** One more visit appends that id's record and requests. */
  lemma TicketsSnoc(srv: Server, b: Builtins, ids: seq<int>, id: int)
    ensures ParsedTickets(srv, b, ids + [id]) == ParsedTickets(srv, b, ids) + Kept(ParsedTicket(srv, b, id))
    ensures TicketsTrace(srv, b, ids + [id]) == TicketsTrace(srv, b, ids) + TicketTrace(srv, b, id)
  {
    CollectSnoc(Parse(srv, b), ids, id);
    FlattenSnoc(TraceOf(srv, b), ids, id);
  }

  /** For any step `f`, each value collected over the visited ids comes from
      an id in `(top - n, top]`. */
  lemma CountdownSound<U>(f: int -> Option<U>, top: int, n: int)
    ensures forall k :: 0 <= k < |Collect(f, VisitedIds(top, n))| ==>
              exists id :: top - n < id <= top && f(id) == Some(Collect(f, VisitedIds(top, n))[k])
  {
    var ids := VisitedIds(top, n);
    VisitedIdsShape(top, n);
    var rs := Collect(f, ids);
    forall k | 0 <= k < |rs|
      ensures exists id :: top - n < id <= top && f(id) == Some(rs[k])
    {
      CollectSound(f, ids, k);
      var j :| 0 <= j < |ids| && f(ids[j]) == Some(rs[k]);
      assert top - n < ids[j] <= top;
    }
  }

  /** For any step `f`, at most `max(0, n)` values are collected over the
      visited ids, exactly that many when every step succeeds. */
  lemma CountdownComplete<U>(f: int -> Option<U>, top: int, n: int)
    ensures |Collect(f, VisitedIds(top, n))| <= if n <= 0 then 0 else n
    ensures |Collect(f, VisitedIds(top, n))| == (if n <= 0 then 0 else n) <==>
              forall id :: top - n < id <= top ==> f(id).Some?
  {
    var ids := VisitedIds(top, n);
    VisitedIdsShape(top, n);
    CollectComplete(f, ids);
    if forall id :: top - n < id <= top ==> f(id).Some? {
      forall j | 0 <= j < |ids| ensures f(ids[j]).Some? {
        assert top - n < ids[j] <= top;
      }
    }
    if forall j :: 0 <= j < |ids| ==> f(ids[j]).Some? {
      forall id | top - n < id <= top ensures f(id).Some? {
        assert ids[top - id] == id;
      }
    }
  }

  /** For any step `f`, nothing is collected over the visited ids exactly
      when every step fails. */
  lemma CountdownEmpty<U>(f: int -> Option<U>, top: int, n: int)
    ensures |Collect(f, VisitedIds(top, n))| == 0 <==>
              forall id :: top - n < id <= top ==> f(id).None?
  {
    var ids := VisitedIds(top, n);
    VisitedIdsShape(top, n);
    CollectEmpty(f, ids);
    if forall id :: top - n < id <= top ==> f(id).None? {
      forall j | 0 <= j < |ids| ensures f(ids[j]).None? {
        assert top - n < ids[j] <= top;
      }
    }
    if forall j :: 0 <= j < |ids| ==> f(ids[j]).None? {
      forall id | top - n < id <= top ensures f(id).None? {
        assert ids[top - id] == id;
      }
    }
  }

  // ---------------------------------------------------------------------
  // Properties

  /** A ticket yields a record exactly when the ticket, its creator, its queue
      and its history can all be fetched and it has the three custom fields
      `Outcome`, `Security Incident` and `TicketType`; the record then carries
      in each of its sixteen columns the value the object literal assigns to
      that key: the ticket's scalars, the creator's organization, the queue's
      name, the comments and the correspondence of its history, and the three
      field values. */
  lemma ParsedTicketIff(srv: Server, b: Builtins, id: int)
    ensures ParsedTicket(srv, b, id).Some? <==>
              && srv.ticket(id).Some?
              && srv.user(srv.ticket(id).value.creator).Some?
              && srv.queue(srv.ticket(id).value.queue).Some?
              && History(srv, id).Some?
              && GetTicketCustomFieldValue(srv.ticket(id).value.customFields, "Outcome").Some?
              && GetTicketCustomFieldValue(srv.ticket(id).value.customFields, "Security Incident").Some?
              && GetTicketCustomFieldValue(srv.ticket(id).value.customFields, "TicketType").Some?
    ensures ParsedTicket(srv, b, id).Some? ==>
              var data := srv.ticket(id).value;
              var history := History(srv, id).value;
              var r := ParsedTicket(srv, b, id).value;
              && r.id == data.effectiveId && r.customer == data.creator
              && r.anyComment == ByType(srv, b, history, "Comment")
              && r.allOtherCorrespondence == ByType(srv, b, history, "Correspond")
              && r.outcome == GetTicketCustomFieldValue(data.customFields, "Outcome").value
              && r.securityIncident == GetTicketCustomFieldValue(data.customFields, "Security Incident").value
              && r.ticketType == GetTicketCustomFieldValue(data.customFields, "TicketType").value
    ensures ParsedTicket(srv, b, id).Some? ==>
              var data := srv.ticket(id).value;
              var history := History(srv, id).value;
              Values(ParsedTicket(srv, b, id).value) == [
                data.effectiveId, ByType(srv, b, history, "Correspond"),
                ByType(srv, b, history, "Comment"), data.resolved, data.created,
                data.creator, srv.user(data.creator).value.organization, data.started,
                data.told, GetTicketCustomFieldValue(data.customFields, "Outcome").value,
                data.owner, srv.queue(data.queue).value.name,
                GetTicketCustomFieldValue(data.customFields, "Security Incident").value,
                data.status, data.subject,
                GetTicketCustomFieldValue(data.customFields, "TicketType").value]
  {
    if srv.ticket(id).Some? {
      var data := srv.ticket(id).value;
      if srv.user(data.creator).Some? && srv.queue(data.queue).Some? && History(srv, id).Some? {
        var history := History(srv, id).value;
        var comments := ByType(srv, b, history, "Comment");
        var correspondence := ByType(srv, b, history, "Correspond");
        assert ParsedTicket(srv, b, id) == BuildRecord(data, srv.user(data.creator).value, srv.queue(data.queue).value, comments, correspondence);
      }
    }
  }

  /** The tickets are visited in order: the records of `x + y` are those of
      `x` followed by those of `y`, and so are the requests. */
  lemma TicketsAppend(srv: Server, b: Builtins, x: seq<int>, y: seq<int>)
    ensures ParsedTickets(srv, b, x + y) == ParsedTickets(srv, b, x) + ParsedTickets(srv, b, y)
    ensures TicketsTrace(srv, b, x + y) == TicketsTrace(srv, b, x) + TicketsTrace(srv, b, y)
  {
    CollectAppend(Parse(srv, b), x, y);
    FlattenAppend(TraceOf(srv, b), x, y);
  }

  /** Every exported record is the record of one of the visited ids, and
      there are at most `n` of them, exactly `n` when every visited ticket
      yields one. A failing ticket is skipped and does not stop the export. */
  lemma ExportedRecords(srv: Server, b: Builtins, top: int, n: int)
    ensures var rs := ParsedTickets(srv, b, VisitedIds(top, n));
            forall k :: 0 <= k < |rs| ==>
              exists id :: top - n < id <= top && ParsedTicket(srv, b, id) == Some(rs[k])
    ensures |ParsedTickets(srv, b, VisitedIds(top, n))| <= if n <= 0 then 0 else n
    ensures |ParsedTickets(srv, b, VisitedIds(top, n))| == (if n <= 0 then 0 else n) <==>
              forall id :: top - n < id <= top ==> ParsedTicket(srv, b, id).Some?
  {
    CountdownSound(Parse(srv, b), top, n);
    CountdownComplete(Parse(srv, b), top, n);
    ParseIs(srv, b);
  }

  /** The program prints nothing (`convert_to_csv` throws) exactly when no
      visited ticket yields a record; in particular when `n <= 0`. */
  lemma ExportFails(srv: Server, b: Builtins, top: int, n: int)
    ensures Export(srv, b, top, n).None? <==> forall id :: top - n < id <= top ==> ParsedTicket(srv, b, id).None?
  {
    CountdownEmpty(Parse(srv, b), top, n);
    ParseIs(srv, b);
  }

  /** `Parse` applies `ParsedTicket`. */
  lemma ParseIs(srv: Server, b: Builtins)
    ensures forall id :: Parse(srv, b)(id) == ParsedTicket(srv, b, id)
  {
  }

  /** A ticket without an `Outcome` custom field is never exported, however
      much else of it can be fetched. */
  lemma MissingOutcomeDrops(srv: Server, b: Builtins, id: int)
    requires srv.ticket(id).Some?
    requires forall k :: 0 <= k < |srv.ticket(id).value.customFields| ==> srv.ticket(id).value.customFields[k].name != "Outcome"
    ensures ParsedTicket(srv, b, id).None?
  {
    ParsedTicketIff(srv, b, id);
  }

  /** The ticket ids requested, in order. */
  function TicketIdsOf(trace: seq<Request>): seq<int>
    decreases |trace|
  {
    if |trace| == 0 then []
    else TicketIdsOf(trace[..|trace| - 1]) + if trace[|trace| - 1].TicketReq? then [trace[|trace| - 1].ticket] else []
  }

  lemma {:induction false} TicketIdsOfAppend(x: seq<Request>, y: seq<Request>)
    ensures TicketIdsOf(x + y) == TicketIdsOf(x) + TicketIdsOf(y)
    decreases |y|
  {
    if |y| > 0 {
      var xy := x + y;
      assert xy[..|xy| - 1] == x + y[..|y| - 1];
      TicketIdsOfAppend(x, y[..|y| - 1]);
    } else {
      assert x + y == x;
    }
  }

  /** A trace with no ticket request. */
  predicate NoTicketReq(trace: seq<Request>)
  {
    forall k :: 0 <= k < |trace| ==> !trace[k].TicketReq?
  }

  lemma {:induction false} NoTicketIds(trace: seq<Request>)
    requires NoTicketReq(trace)
    ensures TicketIdsOf(trace) == []
    decreases |trace|
  {
    if |trace| > 0 {
      NoTicketIds(trace[..|trace| - 1]);
    }
  }

  lemma {:induction false} LaterTraceNoTicket(srv: Server, ticket: int, last: int)
    ensures NoTicketReq(LaterTrace(srv, ticket, last))
    decreases last
  {
    if last > 1 {
      LaterTraceNoTicket(srv, ticket, last - 1);
    }
  }

  lemma {:induction false} LinksTraceNoTicket(links: seq<Hyperlink>)
    ensures NoTicketReq(LinksTrace(links))
    decreases |links|
  {
    if |links| > 0 {
      LinksTraceNoTicket(links[..|links| - 1]);
    }
  }

  /** Fetching a ticket's history requests no ticket. */
  lemma HistoryNoTicket(srv: Server, ticket: int)
    ensures NoTicketReq(HistoryTrace(srv, ticket))
  {
    if srv.historyPage(ticket, 1).Some? {
      LaterTraceNoTicket(srv, ticket, srv.historyPage(ticket, 1).value.pages);
    }
  }

  /** Fetching the attachments of comments and correspondence requests no ticket. */
  lemma ObjTraceNoTicket(history: seq<Transaction>)
    ensures NoTicketReq(TicketObjTrace(history))
  {
    LinksTraceNoTicket(AllLinks(OfType(history, "Comment")));
    LinksTraceNoTicket(AllLinks(OfType(history, "Correspond")));
  }

  /** `parse_ticket(id)` requests ticket `id` once, first. */
  lemma TicketRequestedOnce(srv: Server, b: Builtins, id: int)
    ensures TicketIdsOf(TicketTrace(srv, b, id)) == [id]
    ensures TicketTrace(srv, b, id)[0] == TicketReq(id)
  {
    var trace := TicketTrace(srv, b, id);
    var head := [TicketReq(id)];
    assert TicketIdsOf(head) == [id] by {
      assert head[..0] == [];
    }
    if srv.ticket(id).None? {
      assert trace == head;
    } else {
      HistoryNoTicket(srv, id);
      if History(srv, id).Some? {
        ObjTraceNoTicket(History(srv, id).value);
      }
      var rest := trace[1..];
      assert trace == head + rest;
      assert NoTicketReq(rest);
      NoTicketIds(rest);
      TicketIdsOfAppend(head, rest);
    }
  }

  /** The tickets requested are exactly the visited ids, each once, in
      visit order; for `VisitedIds(top, n)` that is `top` downwards. */
  lemma {:induction false} TicketsRequested(srv: Server, b: Builtins, ids: seq<int>)
    ensures TicketIdsOf(TicketsTrace(srv, b, ids)) == ids
    decreases |ids|
  {
    if |ids| > 0 {
      var front := ids[..|ids| - 1];
      var last := ids[|ids| - 1];
      assert ids == front + [last];
      TicketsRequested(srv, b, front);
      TicketRequestedOnce(srv, b, last);
      FlattenSnoc(TraceOf(srv, b), front, last);
      TicketIdsOfAppend(TicketsTrace(srv, b, front), TicketTrace(srv, b, last));
    }
  }
}

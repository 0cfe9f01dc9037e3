/** `get_ticket_transactions_history_data` (rt_data_parser.js:131-188): the
    transactions of a ticket, collected page by page from the paged history. */
module RtHistory {
  import opened Wrappers
  import opened RtTypes
  import opened RtClient
  import opened Collecting

  /** The transaction request for one history item, as a function value. */
  function Fetch(srv: Server): HistoryItem -> Option<Transaction>
  {
    (item: HistoryItem) => srv.transaction(item.id)
  }

  /** The transactions fetched for `items`, in order; an item whose fetch fails
      is skipped. */
  function ItemTxns(srv: Server, items: seq<HistoryItem>): seq<Transaction>
  {
    Collect(Fetch(srv), items)
  }

  /** The requests the item loop makes: one transaction request per item. */
  function ItemTrace(items: seq<HistoryItem>): (r: seq<Request>)
    ensures |r| == |items|
    ensures forall k :: 0 <= k < |items| ==> r[k] == TransactionReq(items[k].id)
  {
    seq(|items|, k requires 0 <= k < |items| => TransactionReq(items[k].id))
  }

  /** The transactions of pages 2..`last`, or `None` when one of those page
      requests fails (the loop stops there and the rejection propagates). */
  function LaterPages(srv: Server, ticket: int, last: int): Option<seq<Transaction>>
    decreases last
  {
    if last <= 1 then Some([])
    else
      match LaterPages(srv, ticket, last - 1)
      case None => None
      case Some(xs) =>
        match srv.historyPage(ticket, last)
        case None => None
        case Some(pg) => Some(xs + ItemTxns(srv, pg.items))
  }

  /** The requests made while fetching pages 2..`last`. */
  function LaterTrace(srv: Server, ticket: int, last: int): seq<Request>
    decreases last
  {
    if last <= 1 then []
    else
      var before := LaterTrace(srv, ticket, last - 1);
      match LaterPages(srv, ticket, last - 1)
      case None => before
      case Some(_) =>
        before + [HistoryReq(ticket, last)]
        + match srv.historyPage(ticket, last)
          case None => []
          case Some(pg) => ItemTrace(pg.items)
  }

  /** The resolved value of `get_ticket_transactions_history_data(ticket)`,
      `None` when it rejects. The page loop is bounded by the `pages` of page 1:
      the `ticket_history` declared inside the loop shadows it only in the
      loop's body, never in its condition. */
  function History(srv: Server, ticket: int): Option<seq<Transaction>>
  {
    match srv.historyPage(ticket, 1)
    case None => None
    case Some(first) =>
      match LaterPages(srv, ticket, first.pages)
      case None => None
      case Some(rest) => Some(ItemTxns(srv, first.items) + rest)
  }

  /** The requests `get_ticket_transactions_history_data(ticket)` makes, in order. */
  function HistoryTrace(srv: Server, ticket: int): seq<Request>
  {
    [HistoryReq(ticket, 1)]
    + match srv.historyPage(ticket, 1)
      case None => []
      case Some(first) => ItemTrace(first.items) + LaterTrace(srv, ticket, first.pages)
  }

  /** The loops at rt_data_parser.js:157-166 and 172-183, which are the same:
      fetch each item's transaction in turn and keep it when the fetch succeeds. */
  method ParseItems(client: Client, items: seq<HistoryItem>) returns (ts: seq<Transaction>)
    modifies client
    ensures ts == ItemTxns(client.server, items)
    ensures client.log == old(client.log) + ItemTrace(items)
  {
    ts := [];
    var i := 0;
    while i < |items|
      invariant 0 <= i <= |items|
      invariant ts == ItemTxns(client.server, items[..i])
      invariant client.log == old(client.log) + ItemTrace(items[..i])
    {
      var t := client.GetTransaction(items[i].id);
      assert items[..i + 1][..i] == items[..i];
      if t.Some? {
        ts := ts + [t.value];
      }
      assert ItemTrace(items[..i + 1]) == ItemTrace(items[..i]) + [TransactionReq(items[i].id)];
      i := i + 1;
    }
    assert items[..i] == items;
  }

  /** The page loop at rt_data_parser.js:168-185: pages 2..`pages`, each
      fetched and then its items parsed; a failed page fetch rejects. */
  method ParseLaterPages(client: Client, ticket: int, pages: int) returns (r: Option<seq<Transaction>>)
    modifies client
    ensures r == LaterPages(client.server, ticket, pages)
    ensures client.log == old(client.log) + LaterTrace(client.server, ticket, pages)
  {
    var transactions := [];
    if pages > 1 {
      var page := 2;
      ghost var done := 1;
      while page <= pages
        invariant page == done + 1 && 2 <= page <= pages + 1
        invariant LaterPages(client.server, ticket, done) == Some(transactions)
        invariant client.log == old(client.log) + LaterTrace(client.server, ticket, done)
        decreases pages - page
      {
        var h := client.GetHistoryPage(ticket, page);
        LaterStep(client.server, ticket, done, page);
        if h.None? {
          LaterPagesStopAt(client.server, ticket, page, pages);
          return None;
        }
        AppendAssoc(old(client.log) + LaterTrace(client.server, ticket, done), [HistoryReq(ticket, page)], ItemTrace(h.value.items));
        AppendAssoc(old(client.log), LaterTrace(client.server, ticket, done), [HistoryReq(ticket, page)]);
        AppendAssoc(old(client.log), LaterTrace(client.server, ticket, done) + [HistoryReq(ticket, page)], ItemTrace(h.value.items));
        var ts := ParseItems(client, h.value.items);
        transactions := transactions + ts;
        done := page;
        page := page + 1;
      }
    }
    r := Some(transactions);
  }

  /** One more page after a run of pages that all succeeded: it is requested,
      and either fails or contributes its items' transactions and requests. */
  lemma LaterStep(srv: Server, ticket: int, done: int, page: int)
    requires page == done + 1 && page > 1 && LaterPages(srv, ticket, done).Some?
    ensures srv.historyPage(ticket, page).None? ==> LaterPages(srv, ticket, page).None?
    ensures srv.historyPage(ticket, page).None? ==>
              LaterTrace(srv, ticket, page) == LaterTrace(srv, ticket, done) + [HistoryReq(ticket, page)]
    ensures srv.historyPage(ticket, page).Some? ==>
              var items := srv.historyPage(ticket, page).value.items;
              && LaterPages(srv, ticket, page) == Some(LaterPages(srv, ticket, done).value + ItemTxns(srv, items))
              && LaterTrace(srv, ticket, page) == LaterTrace(srv, ticket, done) + [HistoryReq(ticket, page)] + ItemTrace(items)
  {
    if srv.historyPage(ticket, page).None? {
      assert LaterTrace(srv, ticket, done) + [HistoryReq(ticket, page)] + [] == LaterTrace(srv, ticket, done) + [HistoryReq(ticket, page)];
    }
  }

  /** `get_ticket_transactions_history_data(ticket)`. */
  method GetTicketTransactionsHistoryData(client: Client, ticket: int) returns (r: Option<seq<Transaction>>)
    modifies client
    ensures r == History(client.server, ticket)
    ensures client.log == old(client.log) + HistoryTrace(client.server, ticket)
  {
    var first := client.GetHistoryPage(ticket, 1);
    if first.None? {
      return None;
    }
    var transactions := ParseItems(client, first.value.items);
    var rest := ParseLaterPages(client, ticket, first.value.pages);
    if rest.None? {
      return None;
    }
    r := Some(transactions + rest.value);
  }

  /** Once a later page fails, no further page is requested and the result
      stays a rejection. */
  lemma {:induction false} LaterPagesStopAt(srv: Server, ticket: int, m: int, n: int)
    requires 1 <= m <= n && LaterPages(srv, ticket, m).None?
    ensures LaterPages(srv, ticket, n).None? && LaterTrace(srv, ticket, n) == LaterTrace(srv, ticket, m)
    decreases n
  {
    if n > m {
      LaterPagesStopAt(srv, ticket, m, n - 1);
    }
  }

  // ---------------------------------------------------------------------
  // Properties

  /** Fetching the items of `a + b` keeps `a`'s transactions before `b`'s: the
      order of the items is kept, and a failure affects only its own item. */
  lemma ItemTxnsAppend(srv: Server, a: seq<HistoryItem>, b: seq<HistoryItem>)
    ensures ItemTxns(srv, a + b) == ItemTxns(srv, a) + ItemTxns(srv, b)
  {
    CollectAppend(Fetch(srv), a, b);
  }

  /** No transaction is lost exactly when every fetch succeeds, and then the
      result is each item's transaction, in item order. */
  lemma ItemTxnsComplete(srv: Server, items: seq<HistoryItem>)
    ensures |ItemTxns(srv, items)| == |items| <==> forall k :: 0 <= k < |items| ==> srv.transaction(items[k].id).Some?
    ensures (forall k :: 0 <= k < |items| ==> srv.transaction(items[k].id).Some?) ==>
              forall k :: 0 <= k < |items| ==> ItemTxns(srv, items)[k] == srv.transaction(items[k].id).value
  {
    CollectComplete(Fetch(srv), items);
  }

  /** The history pages requested, in order. */
  function PagesOf(trace: seq<Request>): seq<int>
  {
    if |trace| == 0 then []
    else PagesOf(trace[..|trace| - 1]) + if trace[|trace| - 1].HistoryReq? then [trace[|trace| - 1].page] else []
  }

  lemma {:induction false} PagesOfAppend(a: seq<Request>, b: seq<Request>)
    ensures PagesOf(a + b) == PagesOf(a) + PagesOf(b)
    decreases |b|
  {
    if |b| > 0 {
      var ab := a + b;
      assert ab[..|ab| - 1] == a + b[..|b| - 1];
      PagesOfAppend(a, b[..|b| - 1]);
    } else {
      assert a + b == a;
    }
  }

  lemma {:induction false} PagesOfItems(items: seq<HistoryItem>)
    ensures PagesOf(ItemTrace(items)) == []
    decreases |items|
  {
    if |items| > 0 {
      assert ItemTrace(items)[..|items| - 1] == ItemTrace(items[..|items| - 1]);
      PagesOfItems(items[..|items| - 1]);
    }
  }

  /** `s` counts up by one from `start`. */
  predicate CountsFrom(s: seq<int>, start: int)
  {
    forall k :: 0 <= k < |s| ==> s[k] == start + k
  }

  /** The later pages are requested as 2, 3, ... up to `last`, or up to the
      first that fails. */
  lemma {:induction false} LaterPagesRequested(srv: Server, ticket: int, last: int)
    ensures CountsFrom(PagesOf(LaterTrace(srv, ticket, last)), 2)
    ensures LaterPages(srv, ticket, last).Some? ==> |PagesOf(LaterTrace(srv, ticket, last))| == if last <= 1 then 0 else last - 1
    ensures LaterPages(srv, ticket, last).None? ==>
              var ps := PagesOf(LaterTrace(srv, ticket, last));
              |ps| >= 1 && srv.historyPage(ticket, ps[|ps| - 1]).None?
    decreases last
  {
    if last > 1 {
      LaterPagesRequested(srv, ticket, last - 1);
      var before := LaterTrace(srv, ticket, last - 1);
      if LaterPages(srv, ticket, last - 1).Some? {
        var tail := match srv.historyPage(ticket, last) case None => [] case Some(pg) => ItemTrace(pg.items);
        assert LaterTrace(srv, ticket, last) == before + [HistoryReq(ticket, last)] + tail;
        PagesOfAppend(before + [HistoryReq(ticket, last)], tail);
        PagesOfAppend(before, [HistoryReq(ticket, last)]);
        assert PagesOf([HistoryReq(ticket, last)]) == [last] by {
          assert [HistoryReq(ticket, last)][..0] == [];
        }
        match srv.historyPage(ticket, last)
        case None =>
          assert tail == [];
        case Some(pg) =>
          PagesOfItems(pg.items);
      }
    }
  }

  /** Pages are requested as 1, 2, ..., counting up by one. When the history
      resolves, the count is `max(1, P)` for the `pages` value P of page 1;
      when it rejects, the last page requested is the one that failed. */
  lemma HistoryPagesRequested(srv: Server, ticket: int)
    ensures CountsFrom(PagesOf(HistoryTrace(srv, ticket)), 1)
    ensures History(srv, ticket).Some? ==>
              var p := srv.historyPage(ticket, 1).value.pages;
              |PagesOf(HistoryTrace(srv, ticket))| == if p <= 1 then 1 else p
    ensures History(srv, ticket).None? ==>
              var ps := PagesOf(HistoryTrace(srv, ticket));
              |ps| >= 1 && srv.historyPage(ticket, ps[|ps| - 1]).None?
  {
    var head := [HistoryReq(ticket, 1)];
    assert PagesOf(head) == [1] by {
      assert head[..0] == [];
    }
    match srv.historyPage(ticket, 1)
    case None =>
      assert HistoryTrace(srv, ticket) == head + [];
      PagesOfAppend(head, []);
    case Some(first) =>
      var later := LaterTrace(srv, ticket, first.pages);
      assert HistoryTrace(srv, ticket) == head + ItemTrace(first.items) + later;
      PagesOfAppend(head + ItemTrace(first.items), later);
      PagesOfAppend(head, ItemTrace(first.items));
      PagesOfItems(first.items);
      LaterPagesRequested(srv, ticket, first.pages);
  }

  /** The items of pages 2..`last`, concatenated in page order. */
  function LaterItems(srv: Server, ticket: int, last: int): seq<HistoryItem>
    decreases last
  {
    if last <= 1 then []
    else
      LaterItems(srv, ticket, last - 1)
      + match srv.historyPage(ticket, last)
        case None => []
        case Some(pg) => pg.items
  }

  /** The items of every page the history reads: page 1, then pages 2..P. */
  function AllItems(srv: Server, ticket: int): seq<HistoryItem>
  {
    match srv.historyPage(ticket, 1)
    case None => []
    case Some(first) => first.items + LaterItems(srv, ticket, first.pages)
  }

  lemma {:induction false} LaterPagesItems(srv: Server, ticket: int, last: int)
    ensures LaterPages(srv, ticket, last).Some? ==>
              LaterPages(srv, ticket, last).value == ItemTxns(srv, LaterItems(srv, ticket, last))
    decreases last
  {
    if last > 1 {
      LaterPagesItems(srv, ticket, last - 1);
      match srv.historyPage(ticket, last)
      case None =>
      case Some(pg) =>
        ItemTxnsAppend(srv, LaterItems(srv, ticket, last - 1), pg.items);
    }
  }

  /** A resolved history holds the transactions of the items of pages 1..P,
      in page order and item order, each item whose fetch failed left out;
      so it is never longer than the item count, and as long exactly when no
      transaction fetch failed. */
  lemma HistoryIsAllItems(srv: Server, ticket: int)
    ensures History(srv, ticket).Some? ==> History(srv, ticket).value == ItemTxns(srv, AllItems(srv, ticket))
    ensures History(srv, ticket).Some? ==> |History(srv, ticket).value| <= |AllItems(srv, ticket)|
    ensures History(srv, ticket).Some? ==>
              (|History(srv, ticket).value| == |AllItems(srv, ticket)| <==>
               forall k :: 0 <= k < |AllItems(srv, ticket)| ==> srv.transaction(AllItems(srv, ticket)[k].id).Some?)
  {
    if History(srv, ticket).Some? {
      var first := srv.historyPage(ticket, 1).value;
      LaterPagesItems(srv, ticket, first.pages);
      ItemTxnsAppend(srv, first.items, LaterItems(srv, ticket, first.pages));
      ItemTxnsComplete(srv, AllItems(srv, ticket));
    }
  }
}

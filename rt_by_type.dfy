/** `get_ticket_transactions_history_data_by_type` and `is_content_type_text`
    (rt_data_parser.js:293-357): the text attachments of the transactions of
    one type, rendered as one quoted CSV field. */
module RtByType {
  import opened Wrappers
  import opened JsString
  import opened RtTypes
  import opened RtClient
  import opened Collecting

  const HTML_HEADER := "content-type: text/html"
  const PLAIN_HEADER := "content-type: text/plain"

  /** `is_content_type_text(headers)`: the headers name an HTML or plain-text
      body, compared without regard to (ASCII) case. */
  predicate IsContentTypeText(headers: string)
  {
    Includes(ToLowerAscii(headers), HTML_HEADER) || Includes(ToLowerAscii(headers), PLAIN_HEADER)
  }

  /** `history.filter((obj) => obj.Type === txnType)`. */
  function OfType(history: seq<Transaction>, txnType: string): (r: seq<Transaction>)
    ensures |r| <= |history|
    ensures forall k :: 0 <= k < |r| ==> r[k].txnType == txnType && r[k] in history
    decreases |history|
  {
    if |history| == 0 then []
    else
      var front := OfType(history[..|history| - 1], txnType);
      var last := history[|history| - 1];
      if last.txnType == txnType then front + [last] else front
  }

  /** The object pushed for one hyperlink, or `None` when nothing is pushed:
      the link is not an attachment, the request fails, the headers are not
      text, or `atob` throws on the content with its newlines removed. */
  function LinkFragment(srv: Server, b: Builtins, link: Hyperlink): Option<Fragment>
  {
    if link.ref != "attachment" then None
    else
      match srv.attachment(link.url)
      case None => None
      case Some(att) =>
        if !IsContentTypeText(att.headers) then None
        else
          match b.atob(RemoveChars(att.content, {'\n'}))
          case None => None
          case Some(text) => Some(Fragment(att.created, att.creator, text))
  }

  /** The requests made for one hyperlink: one, unless it is skipped as not an
      attachment. */
  function LinkTrace(link: Hyperlink): seq<Request>
  {
    if link.ref != "attachment" then [] else [UrlReq(link.url)]
  }

  /** `LinkFragment` as a function value, so that `Collect` can be reasoned
      about without unfolding it. */
  function Keep(srv: Server, b: Builtins): Hyperlink -> Option<Fragment>
  {
    link => LinkFragment(srv, b, link)
  }

  /** The objects pushed for `links`, in order. */
  function LinkFragments(srv: Server, b: Builtins, links: seq<Hyperlink>): seq<Fragment>
  {
    Collect(Keep(srv, b), links)
  }

  function LinksTrace(links: seq<Hyperlink>): seq<Request>
    decreases |links|
  {
    if |links| == 0 then [] else LinksTrace(links[..|links| - 1]) + LinkTrace(links[|links| - 1])
  }

  /** The hyperlinks of `txns`, transaction by transaction. */
  function AllLinks(txns: seq<Transaction>): seq<Hyperlink>
    decreases |txns|
  {
    if |txns| == 0 then [] else AllLinks(txns[..|txns| - 1]) + txns[|txns| - 1].hyperlinks
  }

  /** The objects pushed for `txns`: the nested loops visit the hyperlinks of
      each transaction in turn. */
  function TxnFragments(srv: Server, b: Builtins, txns: seq<Transaction>): seq<Fragment>
  {
    LinkFragments(srv, b, AllLinks(txns))
  }

  function TxnsTrace(txns: seq<Transaction>): seq<Request>
  {
    LinksTrace(AllLinks(txns))
  }

  /** `'"' + json.replace(/['"]+/g, "") + '"'`: every quote character removed,
      then the whole wrapped in double quotes. */
  function QuotedField(json: string): (r: string)
    ensures |r| >= 2 && r[0] == '"' && r[|r| - 1] == '"'
    ensures forall k :: 0 < k < |r| - 1 ==> r[k] != '"' && r[k] != '\''
    ensures forall c :: c != '"' && c != '\'' ==> multiset(r)[c] == multiset(json)[c]
    ensures |r| <= |json| + 2
    ensures r[1..|r| - 1] == RemoveChars(json, {'\'', '"'})
  {
    var inner := RemoveChars(json, {'\'', '"'});
    assert forall k :: 0 < k < |inner| + 1 ==> ("\"" + inner + "\"")[k] == inner[k - 1];
    "\"" + inner + "\""
  }

  /** The value `get_ticket_transactions_history_data_by_type` resolves to. */
  function ByType(srv: Server, b: Builtins, history: seq<Transaction>, txnType: string): string
  {
    QuotedField(b.stringify(TxnFragments(srv, b, OfType(history, txnType))))
  }

  /** The requests it makes, in order. */
  function ByTypeTrace(history: seq<Transaction>, txnType: string): seq<Request>
  {
    TxnsTrace(OfType(history, txnType))
  }

  /** The inner loop at rt_data_parser.js:312-341, over one transaction's hyperlinks. */
  method ParseLinks(client: Client, b: Builtins, links: seq<Hyperlink>) returns (fs: seq<Fragment>)
    modifies client
    ensures fs == LinkFragments(client.server, b, links)
    ensures client.log == old(client.log) + LinksTrace(links)
  {
    fs := [];
    var j := 0;
    while j < |links|
      invariant 0 <= j <= |links|
      invariant fs == LinkFragments(client.server, b, links[..j])
      invariant client.log == old(client.log) + LinksTrace(links[..j])
    {
      var link := links[j];
      assert links[..j + 1][..j] == links[..j];
      if link.ref != "attachment" {
        j := j + 1;
        continue;
      }
      var response := client.GetAttachment(link.url);
      if response.Some? && IsContentTypeText(response.value.headers) {
        var content := b.atob(RemoveChars(response.value.content, {'\n'}));
        if content.Some? {
          fs := fs + [Fragment(response.value.created, response.value.creator, content.value)];
        }
      }
      j := j + 1;
    }
    assert links[..j] == links;
  }

  lemma TxnStep(srv: Server, b: Builtins, txns: seq<Transaction>, i: nat)
    requires i < |txns|
    ensures TxnFragments(srv, b, txns[..i + 1]) == TxnFragments(srv, b, txns[..i]) + LinkFragments(srv, b, txns[i].hyperlinks)
    ensures TxnsTrace(txns[..i + 1]) == TxnsTrace(txns[..i]) + LinksTrace(txns[i].hyperlinks)
  {
    assert txns[..i + 1][..i] == txns[..i];
    assert AllLinks(txns[..i + 1]) == AllLinks(txns[..i]) + txns[i].hyperlinks;
    LinkFragmentsAppend(srv, b, AllLinks(txns[..i]), txns[i].hyperlinks);
    LinksTraceAppend(AllLinks(txns[..i]), txns[i].hyperlinks);
  }

  /** The outer loop at rt_data_parser.js:302-342, over the filtered transactions. */
  method ParseTransactions(client: Client, b: Builtins, transactions: seq<Transaction>) returns (fs: seq<Fragment>)
    modifies client
    ensures fs == TxnFragments(client.server, b, transactions)
    ensures client.log == old(client.log) + TxnsTrace(transactions)
  {
    fs := [];
    var i := 0;
    while i < |transactions|
      invariant 0 <= i <= |transactions|
      invariant fs == TxnFragments(client.server, b, transactions[..i])
      invariant client.log == old(client.log) + TxnsTrace(transactions[..i])
    {
      var links := ParseLinks(client, b, transactions[i].hyperlinks);
      TxnStep(client.server, b, transactions, i);
      AppendAssoc(old(client.log), TxnsTrace(transactions[..i]), LinksTrace(transactions[i].hyperlinks));
      fs := fs + links;
      i := i + 1;
    }
    assert transactions[..i] == transactions;
  }

  /** `get_ticket_transactions_history_data_by_type(history, txnType)`. */
  method GetTicketTransactionsHistoryDataByType(client: Client, b: Builtins, history: seq<Transaction>, txnType: string)
    returns (r: string)
    modifies client
    ensures r == ByType(client.server, b, history, txnType)
    ensures client.log == old(client.log) + ByTypeTrace(history, txnType)
  {
    var transactions := OfType(history, txnType);
    var returned := ParseTransactions(client, b, transactions);
    r := QuotedField(b.stringify(returned));
  }

  // ---------------------------------------------------------------------
  // Properties

  /** The header test ignores case: headers and their lower-cased form agree. */
  lemma ContentTypeIgnoresCase(headers: string)
    ensures IsContentTypeText(ToLowerAscii(headers)) == IsContentTypeText(headers)
  {
    ToLowerIdempotent(headers);
  }

  /** An occurrence of an already lower-case pattern survives lower-casing. */
  lemma LowerOccurrence(h: string, p: string, i: int)
    requires OccursAt(h, p, i) && forall k :: 0 <= k < |p| ==> LowerChar(p[k]) == p[k]
    ensures OccursAt(ToLowerAscii(h), p, i)
  {
    var l := ToLowerAscii(h);
    forall k | 0 <= k < |p| ensures l[i + k] == p[k] {
      assert h[i..i + |p|][k] == h[i + k];
    }
    assert l[i..i + |p|] == p;
  }

  /** Headers that name `text/html` or `text/plain` in lower case are text;
      by `ContentTypeIgnoresCase`, so are their upper- and mixed-case forms. */
  lemma LowerCaseHeaderIsText(h: string)
    requires Includes(h, HTML_HEADER) || Includes(h, PLAIN_HEADER)
    ensures IsContentTypeText(h)
  {
    HeadersLower();
    if Includes(h, HTML_HEADER) {
      LowerOccurrence(h, HTML_HEADER, IndexOf(h, HTML_HEADER));
    } else {
      LowerOccurrence(h, PLAIN_HEADER, IndexOf(h, PLAIN_HEADER));
    }
  }

  /** Both header patterns are already lower case. */
  lemma HeadersLower()
    ensures forall k :: 0 <= k < |HTML_HEADER| ==> LowerChar(HTML_HEADER[k]) == HTML_HEADER[k]
    ensures forall k :: 0 <= k < |PLAIN_HEADER| ==> LowerChar(PLAIN_HEADER[k]) == PLAIN_HEADER[k]
  {
  }

  /** Exactly the transactions of the requested type are kept, in their order. */
  lemma {:induction false} OfTypeAppend(a: seq<Transaction>, b: seq<Transaction>, txnType: string)
    ensures OfType(a + b, txnType) == OfType(a, txnType) + OfType(b, txnType)
    decreases |b|
  {
    if |b| > 0 {
      var ab := a + b;
      assert ab[..|ab| - 1] == a + b[..|b| - 1];
      OfTypeAppend(a, b[..|b| - 1], txnType);
    } else {
      assert a + b == a;
    }
  }

  /** Every transaction of the requested type is kept. */
  lemma {:induction false} OfTypeComplete(history: seq<Transaction>, txnType: string)
    ensures forall t :: t in history && t.txnType == txnType ==> t in OfType(history, txnType)
    decreases |history|
  {
    if |history| > 0 {
      var front := history[..|history| - 1];
      OfTypeComplete(front, txnType);
      forall t | t in history && t.txnType == txnType ensures t in OfType(history, txnType) {
        if t != history[|history| - 1] {
          var k :| 0 <= k < |history| && history[k] == t;
          assert front[k] == t;
        }
      }
    }
  }

  /** Filtering twice by the same type changes nothing. */
  lemma {:induction false} OfTypeIdempotent(history: seq<Transaction>, txnType: string)
    ensures OfType(OfType(history, txnType), txnType) == OfType(history, txnType)
    decreases |history|
  {
    if |history| > 0 {
      var front := history[..|history| - 1];
      OfTypeIdempotent(front, txnType);
      var last := history[|history| - 1];
      if last.txnType == txnType {
        OfTypeAppend(OfType(front, txnType), [last], txnType);
        assert OfType([last], txnType) == [last] by {
          assert [last][..0] == [];
        }
      }
    }
  }

  /** Links are processed in order: the objects of `a + b` are those of `a`
      followed by those of `b`, so a link that pushes nothing (a failed
      request, non-text headers, bad base64) leaves its siblings alone. */
  lemma LinkFragmentsAppend(srv: Server, b: Builtins, x: seq<Hyperlink>, y: seq<Hyperlink>)
    ensures LinkFragments(srv, b, x + y) == LinkFragments(srv, b, x) + LinkFragments(srv, b, y)
  {
    CollectAppend(Keep(srv, b), x, y);
  }

  lemma {:induction false} LinksTraceAppend(x: seq<Hyperlink>, y: seq<Hyperlink>)
    ensures LinksTrace(x + y) == LinksTrace(x) + LinksTrace(y)
    decreases |y|
  {
    if |y| > 0 {
      var xy := x + y;
      assert xy[..|xy| - 1] == x + y[..|y| - 1];
      LinksTraceAppend(x, y[..|y| - 1]);
    } else {
      assert x + y == x;
    }
  }

  /** A link that pushes nothing drops out without disturbing its siblings. */
  lemma LinkFragmentsSkip(srv: Server, b: Builtins, x: seq<Hyperlink>, link: Hyperlink, y: seq<Hyperlink>)
    requires LinkFragment(srv, b, link).None?
    ensures LinkFragments(srv, b, x + [link] + y) == LinkFragments(srv, b, x) + LinkFragments(srv, b, y)
  {
    assert Keep(srv, b)(link).None?;
    CollectSkip(Keep(srv, b), x, link, y);
  }

  lemma {:induction false} AllLinksAppend(x: seq<Transaction>, y: seq<Transaction>)
    ensures AllLinks(x + y) == AllLinks(x) + AllLinks(y)
    decreases |y|
  {
    if |y| > 0 {
      var xy := x + y;
      assert xy[..|xy| - 1] == x + y[..|y| - 1];
      AllLinksAppend(x, y[..|y| - 1]);
    } else {
      assert x + y == x;
    }
  }

  /** Transactions are processed in order, each contributing its links' objects. */
  lemma TxnFragmentsAppend(srv: Server, b: Builtins, x: seq<Transaction>, y: seq<Transaction>)
    ensures TxnFragments(srv, b, x + y) == TxnFragments(srv, b, x) + TxnFragments(srv, b, y)
    ensures TxnsTrace(x + y) == TxnsTrace(x) + TxnsTrace(y)
  {
    AllLinksAppend(x, y);
    LinkFragmentsAppend(srv, b, AllLinks(x), AllLinks(y));
    LinksTraceAppend(AllLinks(x), AllLinks(y));
  }

  /** A hyperlink whose `ref` is not `"attachment"` is neither requested nor kept. */
  lemma {:induction false} NonAttachmentsIgnored(srv: Server, b: Builtins, links: seq<Hyperlink>)
    requires forall k :: 0 <= k < |links| ==> links[k].ref != "attachment"
    ensures LinkFragments(srv, b, links) == [] && LinksTrace(links) == []
    decreases |links|
  {
    if |links| > 0 {
      NonAttachmentsIgnored(srv, b, links[..|links| - 1]);
    }
  }

  /** Every kept object comes from an attachment link whose response had text
      headers, and its content is the `atob` of the response body with its
      newlines removed. */
  lemma LinkFragmentsSound(srv: Server, b: Builtins, links: seq<Hyperlink>, k: nat)
    requires k < |LinkFragments(srv, b, links)|
    ensures exists j :: 0 <= j < |links| && LinkFragment(srv, b, links[j]) == Some(LinkFragments(srv, b, links)[k])
  {
    CollectSound(Keep(srv, b), links, k);
  }

  /** What `LinkFragment` keeps, spelled out: a fragment is kept exactly for an
      attachment link whose text response decodes. */
  lemma LinkFragmentKept(srv: Server, b: Builtins, link: Hyperlink)
    ensures LinkFragment(srv, b, link).Some? <==>
              link.ref == "attachment" && srv.attachment(link.url).Some?
              && IsContentTypeText(srv.attachment(link.url).value.headers)
              && b.atob(RemoveChars(srv.attachment(link.url).value.content, {'\n'})).Some?
    ensures LinkFragment(srv, b, link).Some? ==>
              var att := srv.attachment(link.url).value;
              LinkFragment(srv, b, link).value
              == Fragment(att.created, att.creator, b.atob(RemoveChars(att.content, {'\n'})).value)
  {
  }

  /** Only the transactions of the requested type matter. */
  lemma ByTypeOnlyType(srv: Server, b: Builtins, history: seq<Transaction>, txnType: string)
    ensures ByType(srv, b, OfType(history, txnType), txnType) == ByType(srv, b, history, txnType)
    ensures ByTypeTrace(OfType(history, txnType), txnType) == ByTypeTrace(history, txnType)
  {
    OfTypeIdempotent(history, txnType);
  }

  /** The returned field starts and ends with `"` and has no quote inside. */
  lemma ByTypeQuoted(srv: Server, b: Builtins, history: seq<Transaction>, txnType: string)
    ensures var r := ByType(srv, b, history, txnType);
            |r| >= 2 && r[0] == '"' && r[|r| - 1] == '"'
            && forall k :: 0 < k < |r| - 1 ==> r[k] != '"' && r[k] != '\''
  {
  }
}

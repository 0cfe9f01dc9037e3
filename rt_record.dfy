/** `get_ticket_custom_field_value`, the object literal of `create_ticket_obj`
    and `convert_to_csv` (rt_data_parser.js:210-284): one exported row per
    ticket, and the CSV text of all rows. */
module RtRecord {
  import opened Wrappers
  import opened JsString
  import opened RtTypes

  /** The index of the first custom field named `name`, or -1. */
  function FindField(fields: seq<CustomField>, name: string): (r: int)
    ensures -1 <= r < |fields|
    ensures r == -1 <==> forall k :: 0 <= k < |fields| ==> fields[k].name != name
    ensures r >= 0 ==> fields[r].name == name && forall k :: 0 <= k < r ==> fields[k].name != name
    decreases |fields|
  {
    if |fields| == 0 then -1
    else if fields[0].name == name then 0
    else
      var r := FindField(fields[1..], name);
      if r == -1 then -1 else r + 1
  }

  /** `get_ticket_custom_field_value(fields, name)`: the `values` of the first
      field named exactly `name`, joined with `", "`. With no such field
      `find` yields `undefined` and reading `.values` throws: `None`. */
  function GetTicketCustomFieldValue(fields: seq<CustomField>, name: string): (r: Option<string>)
    ensures r.None? <==> forall k :: 0 <= k < |fields| ==> fields[k].name != name
    ensures forall k :: 0 <= k < |fields| && fields[k].name == name
                        && (forall j :: 0 <= j < k ==> fields[j].name != name)
                        ==> r == Some(Join(fields[k].values, ", "))
  {
    var k := FindField(fields, name);
    if k == -1 then None else Some(Join(fields[k].values, ", "))
  }

  /** The property names of a record, in declaration order. */
  const KEYS: seq<string> := [
    "id", "all_other_correspondence", "any_comment", "closed", "created",
    "customer", "customer_group", "first_correspondence", "last_correspondence",
    "outcome", "owner", "queue", "security_incident", "status", "subject", "tickettype"]

  /** `Object.values(record)`: the values in declaration order. */
  function Values(r: TicketRecord): (v: seq<string>)
    ensures |v| == |KEYS|
  {
    [r.id, r.allOtherCorrespondence, r.anyComment, r.closed, r.created,
     r.customer, r.customerGroup, r.firstCorrespondence, r.lastCorrespondence,
     r.outcome, r.owner, r.queue, r.securityIncident, r.status, r.subject, r.ticketType]
  }

  /** The object literal of `create_ticket_obj`, given the two by-type
      fields; `None` when one of the three custom-field lookups throws. */
  function BuildRecord(data: TicketData, user: User, queue: Queue, comments: string, correspondence: string)
    : (r: Option<TicketRecord>)
    ensures r.Some? <==>
              GetTicketCustomFieldValue(data.customFields, "Outcome").Some?
              && GetTicketCustomFieldValue(data.customFields, "Security Incident").Some?
              && GetTicketCustomFieldValue(data.customFields, "TicketType").Some?
    ensures r.Some? ==>
              && r.value.outcome == GetTicketCustomFieldValue(data.customFields, "Outcome").value
              && r.value.securityIncident == GetTicketCustomFieldValue(data.customFields, "Security Incident").value
              && r.value.ticketType == GetTicketCustomFieldValue(data.customFields, "TicketType").value
              && r.value.anyComment == comments && r.value.allOtherCorrespondence == correspondence
              && r.value.id == data.effectiveId && r.value.customer == data.creator
    // Each value sits in its key's column, as `convert_to_csv` prints it.
    ensures r.Some? ==>
              Values(r.value) == [
                data.effectiveId, correspondence, comments, data.resolved,
                data.created, data.creator, user.organization, data.started,
                data.told, GetTicketCustomFieldValue(data.customFields, "Outcome").value,
                data.owner, queue.name,
                GetTicketCustomFieldValue(data.customFields, "Security Incident").value,
                data.status, data.subject,
                GetTicketCustomFieldValue(data.customFields, "TicketType").value]
  {
    var outcome := GetTicketCustomFieldValue(data.customFields, "Outcome");
    var security := GetTicketCustomFieldValue(data.customFields, "Security Incident");
    var ticketType := GetTicketCustomFieldValue(data.customFields, "TicketType");
    if outcome.None? || security.None? || ticketType.None? then None
    else
      Some(TicketRecord(
        data.effectiveId, correspondence, comments, data.resolved,
        data.created, data.creator, user.organization, data.started,
        data.told, outcome.value, data.owner, queue.name,
        security.value, data.status, data.subject, ticketType.value))
  }

  /** `Object.values(it).toString()`: the values joined by commas. */
  function Row(r: TicketRecord): string
  {
    Join(Values(r), ",")
  }

  /** The header line: the keys of the first record joined by commas. */
  function Header(): string
  {
    Join(KEYS, ",")
  }

  /** The lines of the CSV text: the header, then one row per record. */
  function CsvLines(records: seq<TicketRecord>): seq<string>
  {
    [Header()] + seq(|records|, k requires 0 <= k < |records| => Row(records[k]))
  }

  /** The header line in front of the rows; this and `RowsBehindHeader` are
      proved apart, since the solver does poorly with both facts at once. */
  lemma HeaderInFront(records: seq<TicketRecord>)
    ensures CsvLines(records)[0] == Header()
  {
  }

  /** The rows behind the header, one per record in order. */
  lemma RowsBehindHeader(records: seq<TicketRecord>)
    ensures |CsvLines(records)| == |records| + 1
    ensures forall k :: 0 <= k < |records| ==> CsvLines(records)[k + 1] == Row(records[k])
  {
  }

  /** There is one line per record after the header, line k + 1 is the row of
      record k, and the first line is the header. */
  lemma CsvLinesShape(records: seq<TicketRecord>)
    ensures |CsvLines(records)| == |records| + 1
    ensures forall k :: 0 <= k < |records| ==> CsvLines(records)[k + 1] == Row(records[k])
    ensures CsvLines(records)[0] == Header()
  {
    HeaderInFront(records);
    RowsBehindHeader(records);
  }

  /** `convert_to_csv(records)`. Reading `Object.keys(arr[0])` of an empty
      array throws: `None`. */
  function ConvertToCsv(records: seq<TicketRecord>): (r: Option<string>)
    ensures r.None? <==> |records| == 0
  {
    if |records| == 0 then None else Some(Join(CsvLines(records), "\n"))
  }

  /** No key contains a comma or a newline. */
  lemma KeysPlain()
    ensures forall k :: 0 <= k < |KEYS| ==> ',' !in KEYS[k] && '\n' !in KEYS[k]
  {
  }

  /** The header line splits back into the keys. */
  lemma HeaderSplits()
    ensures Split(Header(), ',') == KEYS
  {
    KeysPlain();
    SplitJoin(KEYS, ',');
  }

  /** When no value holds a newline, the CSV text splits back into the header
      and one row per record, in record order; when no value holds a comma
      either, each row splits back into the record's values. */
  lemma CsvSplits(records: seq<TicketRecord>)
    requires |records| > 0
    requires forall k, i :: 0 <= k < |records| && 0 <= i < |KEYS| ==> '\n' !in Values(records[k])[i]
    ensures Split(ConvertToCsv(records).value, '\n') == CsvLines(records)
    ensures (forall k, i :: 0 <= k < |records| && 0 <= i < |KEYS| ==> ',' !in Values(records[k])[i]) ==>
              forall k :: 0 <= k < |records| ==> Split(CsvLines(records)[k + 1], ',') == Values(records[k])
  {
    var lines := CsvLines(records);
    CsvLinesShape(records);
    KeysPlain();
    forall j | 0 <= j < |lines| ensures '\n' !in lines[j] {
      if j == 0 {
        JoinAvoids(KEYS, ",", '\n');
      } else {
        JoinAvoids(Values(records[j - 1]), ",", '\n');
      }
    }
    SplitJoin(lines, '\n');
    if forall k, i :: 0 <= k < |records| && 0 <= i < |KEYS| ==> ',' !in Values(records[k])[i] {
      forall k | 0 <= k < |records| ensures Split(lines[k + 1], ',') == Values(records[k]) {
        SplitJoin(Values(records[k]), ',');
      }
    }
  }

  /** Joining pieces that avoid `c` with a separator that avoids `c` avoids `c`. */
  lemma {:induction false} JoinAvoids(xs: seq<string>, sep: string, c: char)
    requires c !in sep && forall k :: 0 <= k < |xs| ==> c !in xs[k]
    ensures c !in Join(xs, sep)
    decreases |xs|
  {
    if |xs| > 1 {
      JoinAvoids(xs[1..], sep, c);
    }
  }
}

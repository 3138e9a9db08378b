/** The scheduled flush: reads every unsent outbox row oldest first, folds
    them into one summary and one CSV file, posts one message, and marks
    the rows it read as sent. The HTTP POST and the store's failures are
    parameters. */
module Flush {
  import opened Wrappers
  import opened Checker
  import opened Webhook
  import opened Outbox
  import Text

  /** The merged counts of the rows read. */
  datatype Summary = Summary(totalBatches: int, totalDomains: int, blocked: int, notBlocked: int, errors: int)

  const CsvHeader: string := "timestamp,ip,domain,status,flag"
  const FlagBlocked: string := "BLOCKED"
  const FlagError: string := "ERROR"
  const FlagNotBlocked: string := "NOT_BLOCKED"

  /** The CSV flag tests `blocked` before `error`. */
  function Flag(r: DomainResult): (f: string)
    ensures f == FlagBlocked <==> r.blocked
    ensures f == FlagError <==> !r.blocked && r.error
    ensures f == FlagNotBlocked <==> !r.blocked && !r.error
  {
    if r.blocked then FlagBlocked else if r.error then FlagError else FlagNotBlocked
  }

  function CsvLine(row: Row, r: DomainResult): string {
    Text.Join([Text.Decimal(row.createdAt), row.ip, r.originalUrl, r.status, Flag(r)], ',')
  }

  /** The CSV lines of one row: one per stored result, in order. */
  function RowLines(row: Row): (lines: seq<string>)
    ensures |lines| == |row.payload.results|
    ensures forall i :: 0 <= i < |lines| ==> lines[i] == CsvLine(row, row.payload.results[i])
  {
    seq(|row.payload.results|, i requires 0 <= i < |row.payload.results| => CsvLine(row, row.payload.results[i]))
  }

  /** Number of stored results over the rows. */
  function ResultCount(rows: seq<Row>): nat
    decreases |rows|
  {
    if |rows| == 0 then 0 else ResultCount(rows[..|rows| - 1]) + |rows[|rows| - 1].payload.results|
  }

  /** The CSV body: row order, then result order within a row. */
  function CsvLines(rows: seq<Row>): (lines: seq<string>)
    ensures |lines| == ResultCount(rows)
    decreases |rows|
  {
    if |rows| == 0 then [] else CsvLines(rows[..|rows| - 1]) + RowLines(rows[|rows| - 1])
  }

  /** `meta?.field || 0` for the four summed fields. */
  function MetaCounts(meta: Option<BatchMeta>): Summary {
    match meta
    case None => Summary(0, 0, 0, 0, 0)
    case Some(m) => Summary(0, m.total, m.blocked, m.notBlocked, m.errors)
  }

  function Merge(a: Summary, b: Summary): Summary {
    Summary(a.totalBatches + b.totalBatches, a.totalDomains + b.totalDomains, a.blocked + b.blocked,
            a.notBlocked + b.notBlocked, a.errors + b.errors)
  }

  /** The summary fold: one batch per row, the rest summed from the rows' metas. */
  function Summarize(rows: seq<Row>): (s: Summary)
    ensures s.totalBatches == |rows|
    decreases |rows|
  {
    if |rows| == 0 then Summary(0, 0, 0, 0, 0)
    else Merge(Summarize(rows[..|rows| - 1]), Contribution(rows[|rows| - 1]))
  }

  /** What one row adds to the summary. */
  function Contribution(row: Row): Summary {
    MetaCounts(row.payload.meta).(totalBatches := 1)
  }

  lemma SummarizeSnoc(rows: seq<Row>, row: Row)
    ensures Summarize(rows + [row]) == Merge(Summarize(rows), Contribution(row))
  {
    assert (rows + [row])[..|rows|] == rows;
  }

  /** The fold is a homomorphism: summarising in two parts and merging is summarising at once. */
  lemma {:induction false} SummarizeAppend(a: seq<Row>, b: seq<Row>)
    ensures Summarize(a + b) == Merge(Summarize(a), Summarize(b))
    decreases |b|
  {
    if |b| == 0 {
      assert a + b == a;
    } else {
      var b' := b[..|b| - 1];
      var row := b[|b| - 1];
      assert b == b' + [row];
      assert a + b == (a + b') + [row];
      calc {
        Summarize(a + b);
        { SummarizeSnoc(a + b', row); }
        Merge(Summarize(a + b'), Contribution(row));
        { SummarizeAppend(a, b'); }
        Merge(Merge(Summarize(a), Summarize(b')), Contribution(row));
        Merge(Summarize(a), Merge(Summarize(b'), Contribution(row)));
        { SummarizeSnoc(b', row); }
        Merge(Summarize(a), Summarize(b));
      }
    }
  }

  lemma CsvLinesSnoc(rows: seq<Row>, row: Row)
    ensures CsvLines(rows + [row]) == CsvLines(rows) + RowLines(row)
  {
    assert (rows + [row])[..|rows|] == rows;
  }

  /** The CSV body of two parts is the two bodies one after the other. */
  lemma {:induction false} CsvLinesAppend(a: seq<Row>, b: seq<Row>)
    ensures CsvLines(a + b) == CsvLines(a) + CsvLines(b)
    decreases |b|
  {
    if |b| == 0 {
      assert a + b == a;
    } else {
      var b' := b[..|b| - 1];
      var row := b[|b| - 1];
      assert b == b' + [row];
      assert a + b == (a + b') + [row];
      calc {
        CsvLines(a + b);
        { CsvLinesSnoc(a + b', row); }
        CsvLines(a + b') + RowLines(row);
        { CsvLinesAppend(a, b'); }
        CsvLines(a) + CsvLines(b') + RowLines(row);
        { CsvLinesSnoc(b', row); }
        CsvLines(a) + CsvLines(b);
      }
    }
  }

  function FileContent(rows: seq<Row>): string {
    Text.Join([CsvHeader] + CsvLines(rows), '\n')
  }

  /** The one message of a flush. */
  function Compose(rows: seq<Row>): (m: Message)
    ensures var s := Summarize(rows);
      && m.embed.color == SeverityColor(s.errors, s.blocked)
      && m.embed.fields == [Field("Blocked", Text.Decimal(s.blocked), true),
                            Field("Not Blocked", Text.Decimal(s.notBlocked), true),
                            Field("Errors", Text.Decimal(s.errors), true)]
      && m.attachment == Some(Attachment("domain-batch.csv", "text/csv", FileContent(rows)))
      // the batch and domain totals appear only in the description and the content line
      && m.embed.title == "Domain Check Batch Summary" && m.embed.footer.None?
      && m.embed.description ==
           "Batches: " + Text.Decimal(s.totalBatches) + ", Total Domains: " + Text.Decimal(s.totalDomains)
      && m.content == Some("Batch domain check result for " + Text.Decimal(s.totalDomains) + " domains in "
                           + Text.Decimal(s.totalBatches) + " batches. See attachment for details.")
  {
    var s := Summarize(rows);
    var embed := Embed("Domain Check Batch Summary",
                       "Batches: " + Text.Decimal(s.totalBatches) + ", Total Domains: " + Text.Decimal(s.totalDomains),
                       [Field("Blocked", Text.Decimal(s.blocked), true),
                        Field("Not Blocked", Text.Decimal(s.notBlocked), true),
                        Field("Errors", Text.Decimal(s.errors), true)],
                       None, SeverityColor(s.errors, s.blocked));
    Message(embed,
            Some("Batch domain check result for " + Text.Decimal(s.totalDomains) + " domains in "
                 + Text.Decimal(s.totalBatches) + " batches. See attachment for details."),
            Some(Attachment("domain-batch.csv", "text/csv", FileContent(rows))))
  }

  predicate RowFreeOfNewlines(row: Row) {
    && Text.FreeOf(row.ip, '\n')
    && forall i :: 0 <= i < |row.payload.results| ==> NoNewline(row.payload.results[i])
  }

  lemma JoinFreeOf(parts: seq<string>, sep: char, c: char)
    requires c != sep
    requires forall i :: 0 <= i < |parts| ==> Text.FreeOf(parts[i], c)
    ensures Text.FreeOf(Text.Join(parts, sep), c)
    decreases |parts|
  {
    if |parts| > 1 {
      JoinFreeOf(parts[1..], sep, c);
    }
  }

  lemma DigitsFreeOfNewline(n: nat)
    ensures Text.FreeOf(Text.NatDigits(n), '\n')
  {
  }

  lemma {:induction false} CsvLinesFreeOfNewlines(rows: seq<Row>)
    requires forall j :: 0 <= j < |rows| ==> RowFreeOfNewlines(rows[j])
    ensures forall i :: 0 <= i < |CsvLines(rows)| ==> Text.FreeOf(CsvLines(rows)[i], '\n')
    decreases |rows|
  {
    if |rows| > 0 {
      var init := rows[..|rows| - 1];
      var row := rows[|rows| - 1];
      CsvLinesFreeOfNewlines(init);
      forall i | 0 <= i < |row.payload.results|
        ensures Text.FreeOf(CsvLine(row, row.payload.results[i]), '\n')
      {
        var r := row.payload.results[i];
        assert NoNewline(r);
        if row.createdAt < 0 {
          DigitsFreeOfNewline(-row.createdAt);
        } else {
          DigitsFreeOfNewline(row.createdAt);
        }
        JoinFreeOf([Text.Decimal(row.createdAt), row.ip, r.originalUrl, r.status, Flag(r)], ',', '\n');
      }
    }
  }

  lemma HeaderFreeOfNewline()
    ensures Text.FreeOf(CsvHeader, '\n')
  {
  }

  /** The attached file reads back as the header and then one line per
      stored result, when no client id, domain or status holds a line break. */
  lemma FileReadsBack(rows: seq<Row>)
    requires forall j :: 0 <= j < |rows| ==> RowFreeOfNewlines(rows[j])
    ensures Text.Split(FileContent(rows), '\n') == [CsvHeader] + CsvLines(rows)
    ensures |Text.Split(FileContent(rows), '\n')| == 1 + ResultCount(rows)
  {
    var lines := CsvLines(rows);
    CsvLinesFreeOfNewlines(rows);
    HeaderFreeOfNewline();
    HeadedLinesSplit(CsvHeader, lines);
  }

  lemma HeadedLinesSplit(header: string, lines: seq<string>)
    requires Text.FreeOf(header, '\n')
    requires forall i :: 0 <= i < |lines| ==> Text.FreeOf(lines[i], '\n')
    ensures Text.Split(Text.Join([header] + lines, '\n'), '\n') == [header] + lines
  {
    var parts := [header] + lines;
    forall i | 0 <= i < |parts|
      ensures Text.FreeOf(parts[i], '\n')
    {
      if i > 0 { assert parts[i] == lines[i - 1]; }
    }
    Text.SplitJoin(parts, '\n');
  }

  /** How the POST ended: it raised (network failure), or a response came back. */
  datatype SendOutcome = Threw | Responded(ok: bool)

  datatype Faults = Faults(readFails: bool, send: SendOutcome, markFails: bool)

  /** What was posted (if anything) and the outbox afterwards. */
  datatype Run = Run(posted: Option<Message>, rows: seq<Row>)

  /** The flush as written: only a raised POST stops the marking, so an
      error response still marks the rows sent. */
  function ScheduledAsWritten(rows: seq<Row>, webhookUrl: string, faults: Faults): (r: Run)
    ensures r.posted.None? <==> webhookUrl == "" || faults.readFails || Pending(rows) == []
    ensures r.posted.Some? ==> r.posted.value == Compose(Pending(rows))
    ensures r.rows == rows || r.rows == MarkSent(rows, Ids(Pending(rows)))
    ensures r.rows != rows ==> r.posted.Some? && faults.send.Responded? && !faults.markFails
    // any response, ok or not, followed by a successful marking marks exactly the rows read
    ensures r.posted.Some? && faults.send.Responded? && !faults.markFails ==>
      r.rows == MarkSent(rows, Ids(Pending(rows))) && Pending(r.rows) == []
  {
    MarkingClearsPending(rows);
    if webhookUrl == "" || faults.readFails then Run(None, rows)
    else
      var batches := Pending(rows);
      if |batches| == 0 then Run(None, rows)
      else
        var message := Compose(batches);
        if faults.send.Threw? || faults.markFails then Run(Some(message), rows)
        else Run(Some(message), MarkSent(rows, Ids(batches)))
  }

  /** A rejected post marks the rows anyway: every pending row is lost
      although the channel refused the message. */
  lemma AsWrittenDropsRejectedBatch(rows: seq<Row>, webhookUrl: string)
    requires webhookUrl != "" && Pending(rows) != []
    ensures var r := ScheduledAsWritten(rows, webhookUrl, Faults(false, Responded(false), false));
      r.posted.Some? && Pending(r.rows) == []
  {
    MarkingClearsPending(rows);
  }

  /** The flush with the intended send check: rows are marked only after
      the channel accepted the post. */
  function Scheduled(rows: seq<Row>, webhookUrl: string, faults: Faults): (r: Run)
    // nothing is posted without a URL, after a failed read, or with nothing pending
    ensures r.posted.None? <==> webhookUrl == "" || faults.readFails || Pending(rows) == []
    // the post carries the fold of exactly the pending rows, oldest first
    ensures r.posted.Some? ==> r.posted.value == Compose(Pending(rows))
    // at-least-once: unless the post was accepted and the marking went through, nothing changes
    ensures !(r.posted.Some? && faults.send == Responded(true) && !faults.markFails) ==> r.rows == rows
    // on success exactly the rows read are marked
    ensures r.posted.Some? && faults.send == Responded(true) && !faults.markFails ==>
      r.rows == MarkSent(rows, Ids(Pending(rows))) && Pending(r.rows) == []
  {
    MarkingClearsPending(rows);
    if webhookUrl == "" || faults.readFails then Run(None, rows)
    else
      var batches := Pending(rows);
      if |batches| == 0 then Run(None, rows)
      else
        var message := Compose(batches);
        if faults.send != Responded(true) || faults.markFails then Run(Some(message), rows)
        else Run(Some(message), MarkSent(rows, Ids(batches)))
  }

  /** The same situation under the intended flush keeps every row pending. */
  lemma RejectedBatchStaysPending(rows: seq<Row>, webhookUrl: string)
    requires webhookUrl != "" && Pending(rows) != []
    ensures var r := Scheduled(rows, webhookUrl, Faults(false, Responded(false), false));
      r.posted.Some? && Pending(r.rows) == Pending(rows)
  {
  }

  /** A successful flush followed by another with nothing new posts nothing the second time. */
  lemma FlushIsIdempotent(rows: seq<Row>, webhookUrl: string, faults: Faults, again: Faults)
    requires !faults.readFails && faults.send == Responded(true) && !faults.markFails
    ensures Scheduled(Scheduled(rows, webhookUrl, faults).rows, webhookUrl, again).posted.None?
  {
  }
}

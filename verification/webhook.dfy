/** sendDiscordWebhookBatch and the message vocabulary it shares with the
    scheduled flush: a summary embed coloured by severity, with the results
    either inline as embed fields (at most five) or as a text attachment.
    The HTTP POST is left abstract: the function yields the message it
    posts, since a failed post is swallowed and changes nothing. */
module Webhook {
  import opened Wrappers
  import opened Checker
  import Text

  /** `BatchMeta`: who asked, and the outcome counts of one check request. */
  datatype BatchMeta = BatchMeta(ip: string, total: int, blocked: int, notBlocked: int, errors: int)

  datatype Field = Field(name: string, value: string, inline: bool)
  datatype Embed = Embed(title: string, description: string, fields: seq<Field>, footer: Option<string>, color: int)
  datatype Attachment = Attachment(fileName: string, mimeType: string, text: string)
  /** One webhook post: the embed, the optional `content` text, the optional file. */
  datatype Message = Message(embed: Embed, content: Option<string>, attachment: Option<Attachment>)

  const ColorWarning: int := 0xEAB308
  const ColorAlert: int := 0xEF4444
  const ColorSuccess: int := 0x22C55E

  /** Errors outrank blocked domains, which outrank success. */
  function SeverityColor(errors: int, blocked: int): (c: int)
    ensures c == ColorWarning <==> errors > 0
    ensures c == ColorAlert <==> errors <= 0 && blocked > 0
    ensures c == ColorSuccess <==> errors <= 0 && blocked <= 0
  {
    if errors > 0 then ColorWarning else if blocked > 0 then ColorAlert else ColorSuccess
  }

  /** Up to this many results travel as embed fields; more go in a file. */
  const InlineLimit: nat := 5

  function Footer(meta: BatchMeta): string {
    "Total: " + Text.Decimal(meta.total) + ", Blocked: " + Text.Decimal(meta.blocked)
    + ", Not Blocked: " + Text.Decimal(meta.notBlocked) + ", Errors: " + Text.Decimal(meta.errors)
  }

  /** One line of the attachment: `url: status`. */
  function ResultLine(r: DomainResult): string {
    r.originalUrl + ": " + r.status
  }

  function ResultLines(results: seq<DomainResult>): (lines: seq<string>)
    ensures |lines| == |results|
    ensures forall i :: 0 <= i < |results| ==> lines[i] == ResultLine(results[i])
  {
    seq(|results|, i requires 0 <= i < |results| => ResultLine(results[i]))
  }

  function ResultField(r: DomainResult): Field {
    Field(r.originalUrl, r.status, false)
  }

  /** sendDiscordWebhookBatch: nothing without a URL; otherwise the summary
      embed, with inline fields or an attachment depending on the count. */
  function SendBatch(results: seq<DomainResult>, meta: BatchMeta, webhookUrl: string): (m: Option<Message>)
    ensures m.None? <==> webhookUrl == ""
    ensures m.Some? ==>
      && m.value.embed.color == SeverityColor(meta.errors, meta.blocked)
      && m.value.embed.footer == Some(Footer(meta))
      && m.value.embed.description == "Requested by IP: " + meta.ip
    // few results: one field per result, in order, and no file
    ensures m.Some? && |results| <= InlineLimit ==>
      && m.value.attachment.None?
      && |m.value.embed.fields| == |results|
      && forall i :: 0 <= i < |results| ==>
           m.value.embed.fields[i].name == results[i].originalUrl
           && m.value.embed.fields[i].value == results[i].status
    // many results: no fields, a file that lists every result
    ensures m.Some? && |results| > InlineLimit ==>
      && m.value.embed.fields == []
      && m.value.attachment.Some?
      && m.value.attachment.value.text == Text.Join(ResultLines(results), '\n')
  {
    if webhookUrl == "" then None
    else
      var embed := Embed("Domain Check Batch Result", "Requested by IP: " + meta.ip, [],
                         Some(Footer(meta)), SeverityColor(meta.errors, meta.blocked));
      if |results| <= InlineLimit then
        var fields := seq(|results|, i requires 0 <= i < |results| => ResultField(results[i]));
        Some(Message(embed.(fields := fields), None, None))
      else
        Some(Message(embed,
                     Some("Domain check result for " + Text.Decimal(meta.total) + " domains. See attachment for details."),
                     Some(Attachment("domain-check.txt", "text/plain", Text.Join(ResultLines(results), '\n')))))
  }

  predicate NoNewline(r: DomainResult) {
    Text.FreeOf(r.originalUrl, '\n') && Text.FreeOf(r.status, '\n')
  }

  /** The attachment reads back as one line per result, in order, when no
      domain or status holds a line break. */
  lemma AttachmentListsResults(results: seq<DomainResult>, meta: BatchMeta, webhookUrl: string)
    requires webhookUrl != "" && |results| > InlineLimit
    requires forall i :: 0 <= i < |results| ==> NoNewline(results[i])
    ensures var m := SendBatch(results, meta, webhookUrl);
      var lines := Text.Split(m.value.attachment.value.text, '\n');
      |lines| == |results| && forall i :: 0 <= i < |results| ==> lines[i] == ResultLine(results[i])
  {
    var lines := ResultLines(results);
    forall i | 0 <= i < |lines|
      ensures Text.FreeOf(lines[i], '\n')
    {
      assert NoNewline(results[i]);
    }
    Text.SplitJoin(lines, '\n');
  }
}

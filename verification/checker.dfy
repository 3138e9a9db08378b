/** checkBatch: one upstream lookup for a slice of domains, turned into one
    result per requested domain, in request order, with error fallbacks. */
module Checker {

  /** One line of a check response (`CheckResult` / `DomainResult`). */
  datatype DomainResult = DomainResult(originalUrl: string, status: string, blocked: bool, error: bool)

  const StatusBlocked: string := "Blocked"
  const StatusNotBlocked: string := "Not Blocked"
  const StatusInvalid: string := "Error: Invalid response"
  const StatusProcessingFailed: string := "Error: Processing failed"
  const StatusApiFailed: string := "Error: API request failed"

  /** What the reply body holds under one domain key, reduced to what
      checkBatch looks at: a falsy or non-object value, an object whose
      `blocked` member has the given truthiness, or an object whose
      inspection raises. */
  datatype Entry = NotAnObject | Verdict(blocked: bool) | Unreadable

  /** Outcome of the upstream GET: the request raised, the status was not
      ok, or the body was not a non-null object (all one failure); or a
      parsed body keyed by domain. */
  datatype Reply = CallFailed | Parsed(entries: map<string, Entry>)

  /** A result is never both an error and blocked. */
  predicate Consistent(r: DomainResult) {
    !(r.error && r.blocked)
  }

  function ErrorResult(domain: string, status: string): (r: DomainResult)
    ensures r.originalUrl == domain && r.status == status
    ensures r.error && !r.blocked
  {
    DomainResult(domain, status, false, true)
  }

  /** The result for one domain of a parsed reply. */
  function Resolve(domain: string, entries: map<string, Entry>): (r: DomainResult)
    ensures r.originalUrl == domain && Consistent(r)
    ensures r.error <==> !(domain in entries && entries[domain].Verdict?)
    ensures !r.error ==> r.blocked == entries[domain].blocked
    ensures r.status == StatusBlocked <==> r.blocked
    ensures r.status == StatusNotBlocked <==> !r.error && !r.blocked
    ensures (domain !in entries || entries[domain].NotAnObject?) ==> r.status == StatusInvalid
    ensures domain in entries && entries[domain].Unreadable? ==> r.status == StatusProcessingFailed
  {
    if domain !in entries then ErrorResult(domain, StatusInvalid)
    else match entries[domain]
      case NotAnObject => ErrorResult(domain, StatusInvalid)
      case Unreadable => ErrorResult(domain, StatusProcessingFailed)
      case Verdict(b) =>
        DomainResult(domain, if b then StatusBlocked else StatusNotBlocked, b, false)
  }

  /** The result for one domain given the whole reply. */
  function Answer(domain: string, reply: Reply): DomainResult {
    match reply
    case CallFailed => ErrorResult(domain, StatusApiFailed)
    case Parsed(entries) => Resolve(domain, entries)
  }

  /** checkBatch: one result per input domain, in input order. */
  function CheckBatch(domains: seq<string>, reply: Reply): (rs: seq<DomainResult>)
    ensures |rs| == |domains|
    ensures forall i :: 0 <= i < |rs| ==> rs[i].originalUrl == domains[i] && Consistent(rs[i])
    ensures reply.CallFailed? ==>
      forall i :: 0 <= i < |rs| ==> rs[i].error && !rs[i].blocked && rs[i].status == StatusApiFailed
    ensures reply.Parsed? ==>
      forall i :: 0 <= i < |rs| ==>
        (rs[i].error <==> !(domains[i] in reply.entries && reply.entries[domains[i]].Verdict?))
    ensures reply.Parsed? ==>
      forall i :: 0 <= i < |rs| && !rs[i].error ==> rs[i].blocked == reply.entries[domains[i]].blocked
    // each parsed entry is read on its own, with the statuses `Resolve` states
    ensures reply.Parsed? ==> forall i :: 0 <= i < |rs| ==> rs[i] == Resolve(domains[i], reply.entries)
    decreases |domains|
  {
    if |domains| == 0 then []
    else [Answer(domains[0], reply)] + CheckBatch(domains[1..], reply)
  }

  /** Checking a list in two parts against the same reply is checking it
      at once: the result for a domain depends on nothing but that domain. */
  lemma {:induction false} CheckBatchSplits(a: seq<string>, b: seq<string>, reply: Reply)
    ensures CheckBatch(a + b, reply) == CheckBatch(a, reply) + CheckBatch(b, reply)
    decreases |a|
  {
    if |a| > 0 {
      assert (a + b)[1..] == a[1..] + b;
      CheckBatchSplits(a[1..], b, reply);
    } else {
      assert a + b == b;
    }
  }
}

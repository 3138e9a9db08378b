/** The POST /check handler: validation, rate limiting, checking in slices
    of 30, outcome counts, stats, and the outbox row. The clock, today's
    UTC date, the fresh row id, the upstream replies and the store's
    failures come in through `Env`. */
module CheckHandler {
  import opened Wrappers
  import opened Checker
  import RateLimiter
  import Stats
  import opened Webhook
  import Outbox

  const MaxDomains: nat := 1000
  const WindowMinutes: nat := 10
  const MaxDomainsPerRequest: nat := 100
  const BatchSize: nat := 30

  const MsgNotArray: string := "Invalid request: domains must be an array"
  const MsgTooMany: string := "Maximum 100 domains per request"

  /** The `domains` member of the request body: missing or falsy (read as
      an empty list), truthy but not an array, or a list of domains. A
      body that is JSON but not an object (a number, a string, a boolean,
      an array) has no `domains` member, so it arrives as `Falsy`. */
  datatype DomainsField = Falsy | NotAList | List(items: seq<string>)

  /** `body` is None when the body is not valid JSON or is `null`: reading
      its `domains` member raises before the handler's try block.
      `clientHeader` is the CF-Connecting-IP header, empty when absent. */
  datatype Request = Request(body: Option<DomainsField>, clientHeader: string)

  datatype Response =
    | Unhandled                                                   // raised outside the try block
    | BadRequest(message: string)                                 // 400
    | RateLimited(remaining: int, resetTime: int)                 // 429
    | InternalError                                               // 500
    | Checked(results: seq<DomainResult>, remaining: int, resetTime: int)  // 200

  function StatusCode(r: Response): int {
    match r
    case Unhandled => 500
    case BadRequest(_) => 400
    case RateLimited(_, _) => 429
    case InternalError => 500
    case Checked(_, _, _) => 200
  }

  /** The three tables the handler writes. */
  datatype Store = Store(limits: RateLimiter.Table, accounts: Stats.Accounts, outbox: seq<Outbox.Row>)

  datatype Faults = Faults(limiter: RateLimiter.Fault, stats: Stats.Fault, outboxFails: bool)

  /** `upstream(k)` is the reply to the k-th slice's lookup. */
  datatype Env = Env(now: int, today: string, freshId: string, upstream: nat -> Reply, faults: Faults)

  datatype Handled = Handled(response: Response, store: Store)

  /** The client id: the header, or "unknown" when it is missing or empty. */
  function ClientId(header: string): (ip: string)
    ensures ip != ""
    ensures header != "" ==> ip == header
    ensures header == "" ==> ip == Stats.UnknownClient
  {
    if header == "" then Stats.UnknownClient else header
  }

  /** The running counts of the handler's loop. */
  datatype Tally = Tally(processed: nat, blocked: nat, notBlocked: nat, errors: nat)

  /** Counts one result: an error first, else blocked, else not blocked. */
  function Count(t: Tally, r: DomainResult): Tally {
    if r.error then t.(processed := t.processed + 1, errors := t.errors + 1)
    else if r.blocked then t.(processed := t.processed + 1, blocked := t.blocked + 1)
    else t.(processed := t.processed + 1, notBlocked := t.notBlocked + 1)
  }

  function AddTally(a: Tally, b: Tally): Tally {
    Tally(a.processed + b.processed, a.blocked + b.blocked, a.notBlocked + b.notBlocked, a.errors + b.errors)
  }

  /** The counts of a list of results. */
  function TallyOf(rs: seq<DomainResult>): (t: Tally)
    ensures t.processed == |rs| == t.blocked + t.notBlocked + t.errors
    ensures t.errors <= |rs| && t.blocked <= |rs|
    decreases |rs|
  {
    if |rs| == 0 then Tally(0, 0, 0, 0) else Count(TallyOf(rs[..|rs| - 1]), rs[|rs| - 1])
  }

  lemma TallyOfSnoc(rs: seq<DomainResult>, r: DomainResult)
    ensures TallyOf(rs + [r]) == Count(TallyOf(rs), r)
  {
    assert (rs + [r])[..|rs|] == rs;
  }

  lemma CountShift(x: Tally, y: Tally, r: DomainResult)
    ensures Count(AddTally(x, y), r) == AddTally(x, Count(y, r))
  {
  }

  /** Counting is additive over concatenation. */
  lemma {:induction false} TallyOfAppend(a: seq<DomainResult>, b: seq<DomainResult>)
    ensures TallyOf(a + b) == AddTally(TallyOf(a), TallyOf(b))
    decreases |b|
  {
    if |b| == 0 {
      assert a + b == a;
      assert TallyOf(b) == Tally(0, 0, 0, 0);
    } else {
      var b' := b[..|b| - 1];
      var r := b[|b| - 1];
      assert b == b' + [r];
      assert a + b == (a + b') + [r];
      calc {
        TallyOf(a + b);
        { TallyOfSnoc(a + b', r); }
        Count(TallyOf(a + b'), r);
        { TallyOfAppend(a, b'); }
        Count(AddTally(TallyOf(a), TallyOf(b')), r);
        { CountShift(TallyOf(a), TallyOf(b'), r); }
        AddTally(TallyOf(a), Count(TallyOf(b'), r));
        { TallyOfSnoc(b', r); }
        AddTally(TallyOf(a), TallyOf(b));
      }
    }
  }

  /** The remainder of the list from position `i`, empty past the end
      (`domains.slice(i)`). */
  function Rest(domains: seq<string>, i: nat): seq<string> {
    if i >= |domains| then [] else domains[i..]
  }

  function Min(a: nat, b: nat): nat { if a <= b then a else b }

  /** The handler's loop: slices of BatchSize, the k-th slice checked against
      `upstream(k)`, results concatenated in slice order. */
  function CheckSlices(domains: seq<string>, k: nat, upstream: nat -> Reply): (rs: seq<DomainResult>)
    ensures |rs| == |domains|
    ensures forall i :: 0 <= i < |rs| ==> rs[i].originalUrl == domains[i] && Consistent(rs[i])
    decreases |domains|
  {
    if |domains| == 0 then []
    else
      var n := Min(BatchSize, |domains|);
      CheckBatch(domains[..n], upstream(k)) + CheckSlices(domains[n..], k + 1, upstream)
  }

  /** When every lookup gives the same reply, slicing changes nothing: the
      concatenated slice results are the results of checking all at once. */
  lemma {:induction false} SlicingIsTransparent(domains: seq<string>, k: nat, reply: Reply)
    ensures CheckSlices(domains, k, _ => reply) == CheckBatch(domains, reply)
    decreases |domains|
  {
    if |domains| > 0 {
      var n := Min(BatchSize, |domains|);
      SlicingIsTransparent(domains[n..], k + 1, reply);
      CheckBatchSplits(domains[..n], domains[n..], reply);
      assert domains[..n] + domains[n..] == domains;
      assert CheckSlices(domains, k, _ => reply) == CheckBatch(domains[..n], reply) + CheckSlices(domains[n..], k + 1, _ => reply);
    }
  }

  lemma SliceStep(domains: seq<string>, i: nat, k: nat, upstream: nat -> Reply)
    requires i < |domains|
    ensures CheckSlices(Rest(domains, i), k, upstream)
      == CheckBatch(domains[i..Min(i + BatchSize, |domains|)], upstream(k))
         + CheckSlices(Rest(domains, i + BatchSize), k + 1, upstream)
  {
    var r := Rest(domains, i);
    var n := Min(BatchSize, |r|);
    assert r[..n] == domains[i..Min(i + BatchSize, |domains|)];
    assert r[n..] == Rest(domains, i + BatchSize);
  }

  /** The inner loop: counts a slice's results on top of the counts so far. */
  method CountResults(tally: Tally, counted: seq<DomainResult>, batchResults: seq<DomainResult>) returns (t: Tally)
    requires tally == TallyOf(counted)
    ensures t == TallyOf(counted + batchResults)
  {
    t := tally;
    var j := 0;
    assert counted + batchResults[..0] == counted;
    while j < |batchResults|
      invariant 0 <= j <= |batchResults|
      invariant t == TallyOf(counted + batchResults[..j])
    {
      assert counted + batchResults[..j + 1] == (counted + batchResults[..j]) + [batchResults[j]];
      TallyOfSnoc(counted + batchResults[..j], batchResults[j]);
      t := Count(t, batchResults[j]);
      j := j + 1;
    }
    assert batchResults[..|batchResults|] == batchResults;
  }

  /** What the loop still has to produce from position `i`, slice `k` on. */
  ghost predicate SlicesLeft(domains: seq<string>, upstream: nat -> Reply, results: seq<DomainResult>, i: nat, k: nat) {
    results + CheckSlices(Rest(domains, i), k, upstream) == CheckSlices(domains, 0, upstream)
  }

  lemma SlicesAdvance(domains: seq<string>, upstream: nat -> Reply, results: seq<DomainResult>, i: nat, k: nat)
    requires i < |domains| && SlicesLeft(domains, upstream, results, i, k)
    ensures SlicesLeft(domains, upstream,
                       results + CheckBatch(domains[i..Min(i + BatchSize, |domains|)], upstream(k)),
                       i + BatchSize, k + 1)
  {
    SliceStep(domains, i, k, upstream);
  }

  /** The handler's loop as written: `for (i = 0; i < n; i += 30)` over
      slices, counting each result before appending the slice's results. */
  method ProcessDomains(domains: seq<string>, upstream: nat -> Reply) returns (results: seq<DomainResult>, tally: Tally)
    ensures results == CheckSlices(domains, 0, upstream)
    ensures tally == TallyOf(results)
  {
    results := [];
    tally := Tally(0, 0, 0, 0);
    var i: nat := 0;
    var k: nat := 0;
    while i < |domains|
      invariant SlicesLeft(domains, upstream, results, i, k)
      invariant tally == TallyOf(results)
      decreases |domains| - i
    {
      var batchResults := CheckBatch(domains[i..Min(i + BatchSize, |domains|)], upstream(k));
      SlicesAdvance(domains, upstream, results, i, k);
      tally := CountResults(tally, results, batchResults);
      results := results + batchResults;
      i := i + BatchSize;
      k := k + 1;
    }
    assert Rest(domains, i) == [];
    assert results + [] == results;
  }

  /** The stats increment of one served request. */
  function Delta(t: Tally): (d: Stats.Counters)
    ensures Stats.Balanced(d) <==> t.processed == t.blocked + t.notBlocked + t.errors
    ensures Stats.NonNegative(d) && d.requests == 1
  {
    Stats.Counters(1, t.processed, t.blocked, t.notBlocked, t.errors)
  }

  /** The meta stored with the outbox row. */
  function MetaOf(ip: string, results: seq<DomainResult>): (m: BatchMeta)
    ensures m.total == |results| == m.blocked + m.notBlocked + m.errors
  {
    var t := TallyOf(results);
    BatchMeta(ip, |results|, t.blocked, t.notBlocked, t.errors)
  }

  /** The outbox row and the stats increment of one request carry the same
      counts: the row's total is the increment's checked domains, and the
      three outcome counts are equal. */
  lemma MetaAgreesWithDelta(ip: string, results: seq<DomainResult>)
    ensures var d := Delta(TallyOf(results));
      var m := MetaOf(ip, results);
      && m.ip == ip
      && d.domainsChecked == m.total
      && d.blocked == m.blocked && d.notBlocked == m.notBlocked && d.errors == m.errors
  {
  }

  /** The domains of a request that passed the array check. */
  function DomainsOf(field: DomainsField): seq<string> {
    if field.List? then field.items else []
  }

  /** The limiter's verdict on a validated request. */
  function Limit(store: Store, ip: string, domains: seq<string>, env: Env): RateLimiter.Admission {
    RateLimiter.CheckRateLimit(store.limits, ip, |domains|, MaxDomains, WindowMinutes, env.now, env.faults.limiter)
  }

  /** POST /check. */
  function HandleCheck(store: Store, req: Request, env: Env): (h: Handled)
    // validation precedes everything and consults nothing
    ensures h.response.BadRequest? <==>
      req.body.Some? && (req.body.value.NotAList? || |DomainsOf(req.body.value)| > MaxDomainsPerRequest)
    ensures h.response.BadRequest? || h.response.Unhandled? ==> h.store == store
    // the status codes: 400 for validation, 429 for the limiter, 200 only for a served request
    ensures StatusCode(h.response) == 400 <==>
      req.body.Some? && (req.body.value.NotAList? || |DomainsOf(req.body.value)| > MaxDomainsPerRequest)
    ensures StatusCode(h.response) == 429 ==> h.store == store
    ensures StatusCode(h.response) == 200 ==> req.body.Some? && |h.response.results| == |DomainsOf(req.body.value)|
    // a denial reports the limiter's numbers and writes nothing
    ensures h.response.RateLimited? ==> h.store == store
    // stats and the outbox only ever change for an admitted request
    ensures !(h.response.Checked? || h.response.InternalError?) ==>
      h.store.accounts == store.accounts && h.store.outbox == store.outbox
    // a stats failure ends the request before the outbox
    ensures h.response.InternalError? ==> h.store.outbox == store.outbox
    // a served request returns one result per domain, in order
    ensures h.response.Checked? && req.body.Some? ==>
      var domains := DomainsOf(req.body.value);
      && |h.response.results| == |domains|
      && (forall i :: 0 <= i < |domains| ==> h.response.results[i].originalUrl == domains[i])
      && (h.store.outbox == store.outbox
          || h.store.outbox == store.outbox + [Outbox.Row(env.freshId, env.now, ClientId(req.clientHeader),
                Outbox.Payload(Some(MetaOf(ClientId(req.clientHeader), h.response.results)), h.response.results), false)])
    // the outbox row is appended exactly when its insert succeeds
    ensures h.response.Checked? ==>
      (h.store.outbox != store.outbox <==> !env.faults.outboxFails && !Outbox.HasId(store.outbox, env.freshId))
  {
    match req.body
    case None => Handled(Unhandled, store)
    case Some(field) =>
      var ip := ClientId(req.clientHeader);
      if field.NotAList? then Handled(BadRequest(MsgNotArray), store)
      else
        var domains := DomainsOf(field);
        if |domains| > MaxDomainsPerRequest then Handled(BadRequest(MsgTooMany), store)
        else
          var a := Limit(store, ip, domains, env);
          var s1 := store.(limits := a.table);
          if !a.decision.allowed then Handled(RateLimited(a.decision.remaining, a.decision.resetTime), s1)
          else
            var results := CheckSlices(domains, 0, env.upstream);
            var e := Stats.IncrementStats(s1.accounts, Delta(TallyOf(results)), env.today, env.now, env.faults.stats);
            var s2 := s1.(accounts := e.accounts);
            if e.threw then Handled(InternalError, s2)
            else
              var row := Outbox.Row(env.freshId, env.now, ip, Outbox.Payload(Some(MetaOf(ip, results)), results), false);
              Handled(Checked(results, a.decision.remaining, a.decision.resetTime),
                      s2.(outbox := Outbox.Insert(s2.outbox, row, env.faults.outboxFails)))
  }

  /** The limiter decides between 429 and the rest, and its numbers are what
      the client sees. */
  lemma LimiterDecides(store: Store, req: Request, env: Env)
    requires req.body.Some? && !req.body.value.NotAList?
    requires |DomainsOf(req.body.value)| <= MaxDomainsPerRequest
    ensures var a := Limit(store, ClientId(req.clientHeader), DomainsOf(req.body.value), env);
      var h := HandleCheck(store, req, env);
      && (h.response.RateLimited? <==> !a.decision.allowed)
      && (h.response.RateLimited? ==> h.response == RateLimited(a.decision.remaining, a.decision.resetTime))
      && (h.response.Checked? ==> h.response.remaining == a.decision.remaining
                                  && h.response.resetTime == a.decision.resetTime)
      && h.store.limits == a.table
  {
    var ip := ClientId(req.clientHeader);
    var domains := DomainsOf(req.body.value);
    var a := Limit(store, ip, domains, env);
    var h := HandleCheck(store, req, env);
    var s1 := store.(limits := a.table);
    if !a.decision.allowed {
      assert h == Handled(RateLimited(a.decision.remaining, a.decision.resetTime), s1);
    } else {
      var results := CheckSlices(domains, 0, env.upstream);
      var e := Stats.IncrementStats(s1.accounts, Delta(TallyOf(results)), env.today, env.now, env.faults.stats);
      var s2 := s1.(accounts := e.accounts);
      if e.threw {
        assert h == Handled(InternalError, s2);
      } else {
        var row := Outbox.Row(env.freshId, env.now, ip, Outbox.Payload(Some(MetaOf(ip, results)), results), false);
        assert h == Handled(Checked(results, a.decision.remaining, a.decision.resetTime),
                            s2.(outbox := Outbox.Insert(s2.outbox, row, env.faults.outboxFails)));
      }
    }
  }

  /** An admitted request adds a balanced increment of one request and
      its domain counts: each result is counted exactly once. */
  lemma AdmittedIncrement(store: Store, req: Request, env: Env)
    requires req.body.Some? && !req.body.value.NotAList?
    requires |DomainsOf(req.body.value)| <= MaxDomainsPerRequest
    requires Limit(store, ClientId(req.clientHeader), DomainsOf(req.body.value), env).decision.allowed
    ensures var results := CheckSlices(DomainsOf(req.body.value), 0, env.upstream);
      var d := Delta(TallyOf(results));
      var h := HandleCheck(store, req, env);
      && d.requests == 1 && d.domainsChecked == |DomainsOf(req.body.value)|
      && Stats.Balanced(d)
      && h.store.accounts == Stats.IncrementStats(store.accounts, d, env.today, env.now, env.faults.stats).accounts
      && (h.response.InternalError? <==> env.faults.stats != Stats.NoFault)
      && (h.response.Checked? ==> h.response.results == results)
      // the appended outbox row carries the increment's counts
      && (h.store.outbox != store.outbox ==>
            && h.store.outbox == store.outbox + [Outbox.Row(env.freshId, env.now, ClientId(req.clientHeader),
                 Outbox.Payload(Some(MetaOf(ClientId(req.clientHeader), results)), results), false)]
            && MetaOf(ClientId(req.clientHeader), results).total == d.domainsChecked
            && MetaOf(ClientId(req.clientHeader), results).blocked == d.blocked
            && MetaOf(ClientId(req.clientHeader), results).notBlocked == d.notBlocked
            && MetaOf(ClientId(req.clientHeader), results).errors == d.errors)
  {
    var ip := ClientId(req.clientHeader);
    var domains := DomainsOf(req.body.value);
    var a := Limit(store, ip, domains, env);
    var h := HandleCheck(store, req, env);
    var s1 := store.(limits := a.table);
    var results := CheckSlices(domains, 0, env.upstream);
    var d := Delta(TallyOf(results));
    var e := Stats.IncrementStats(s1.accounts, d, env.today, env.now, env.faults.stats);
    var s2 := s1.(accounts := e.accounts);
    MetaAgreesWithDelta(ip, results);
    if e.threw {
      assert h == Handled(InternalError, s2);
    } else {
      var row := Outbox.Row(env.freshId, env.now, ip, Outbox.Payload(Some(MetaOf(ip, results)), results), false);
      assert h == Handled(Checked(results, a.decision.remaining, a.decision.resetTime),
                          s2.(outbox := Outbox.Insert(s2.outbox, row, env.faults.outboxFails)));
    }
  }

  /** Three results, one of each outcome, give a meta of 3 / 1 / 1 / 1. */
  lemma MetaScenario()
    ensures MetaOf("1.2.3.4", [DomainResult("a.com", StatusNotBlocked, false, false),
                               DomainResult("b.com", StatusBlocked, true, false),
                               DomainResult("c.com", StatusInvalid, false, true)])
            == BatchMeta("1.2.3.4", 3, 1, 1, 1)
  {
    var a := DomainResult("a.com", StatusNotBlocked, false, false);
    var b := DomainResult("b.com", StatusBlocked, true, false);
    var c := DomainResult("c.com", StatusInvalid, false, true);
    TallyOfSnoc([], a);
    TallyOfSnoc([a], b);
    TallyOfSnoc([a, b], c);
    assert [a, b] + [c] == [a, b, c];
  }
}

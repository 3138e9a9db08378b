/** The store as a whole, under sequential request handling and flushes:
    the invariants every handled request and every flush preserve, and
    what the flush reports about rows the handler wrote. */
module System {
  import opened Wrappers
  import opened Checker
  import opened Outbox
  import Flush
  import opened CheckHandler
  import RateLimiter
  import Stats
  import Text

  /** An outbox row as the handler writes it: its meta is the tally of its
      own results, and no result is both an error and blocked. */
  predicate WellFormedRow(row: Row) {
    && row.payload.meta == Some(MetaOf(row.ip, row.payload.results))
    && forall i :: 0 <= i < |row.payload.results| ==> Consistent(row.payload.results[i])
  }

  predicate Invariant(s: Store) {
    && RateLimiter.WithinQuota(s.limits, MaxDomains)
    && Stats.AllBalanced(s.accounts)
    && Stats.AllNonNegative(s.accounts)
    && UniqueIds(s.outbox)
    && Ascending(s.outbox)
    && forall i :: 0 <= i < |s.outbox| ==> WellFormedRow(s.outbox[i])
  }

  /** The clock has not gone back since the last outbox row. */
  predicate NotBefore(outbox: seq<Row>, now: int) {
    forall i :: 0 <= i < |outbox| ==> outbox[i].createdAt <= now
  }

  lemma AppendKeepsOutbox(outbox: seq<Row>, row: Row, fails: bool)
    requires UniqueIds(outbox) && Ascending(outbox) && NotBefore(outbox, row.createdAt)
    requires forall i :: 0 <= i < |outbox| ==> WellFormedRow(outbox[i])
    requires WellFormedRow(row)
    ensures var o := Insert(outbox, row, fails);
      UniqueIds(o) && Ascending(o) && forall i :: 0 <= i < |o| ==> WellFormedRow(o[i])
  {
  }

  /** Every handled request, whatever its outcome and faults, keeps the
      store invariant. */
  lemma HandlePreservesInvariant(store: Store, req: Request, env: Env)
    requires Invariant(store) && NotBefore(store.outbox, env.now)
    ensures Invariant(HandleCheck(store, req, env).store)
  {
    var h := HandleCheck(store, req, env);
    if req.body.Some? && !req.body.value.NotAList? && |DomainsOf(req.body.value)| <= MaxDomainsPerRequest {
      var ip := ClientId(req.clientHeader);
      var domains := DomainsOf(req.body.value);
      var a := Limit(store, ip, domains, env);
      RateLimiter.QuotaInvariant(store.limits, ip, |domains|, MaxDomains, WindowMinutes, env.now, env.faults.limiter);
      if a.decision.allowed {
        var results := CheckSlices(domains, 0, env.upstream);
        var d := Delta(TallyOf(results));
        Stats.IncrementKeepsBalance(store.accounts, d, env.today, env.now, env.faults.stats);
        Stats.IncrementIsMonotone(store.accounts, d, env.today, env.now, env.faults.stats);
        var e := Stats.IncrementStats(store.accounts, d, env.today, env.now, env.faults.stats);
        if !e.threw {
          var row := Row(env.freshId, env.now, ip, Payload(Some(MetaOf(ip, results)), results), false);
          AppendKeepsOutbox(store.outbox, row, env.faults.outboxFails);
          assert h.store == Store(a.table, e.accounts, Insert(store.outbox, row, env.faults.outboxFails));
        }
      }
    }
  }

  /** `s` differs from `store` at most in the `sent` flags of its outbox rows. */
  predicate SentFlagsOnly(store: Store, s: Store) {
    && s.limits == store.limits && s.accounts == store.accounts
    && |s.outbox| == |store.outbox|
    && forall i :: 0 <= i < |s.outbox| ==> s.outbox[i].(sent := store.outbox[i].sent) == store.outbox[i]
  }

  /** Changing only `sent` flags keeps the invariant. */
  lemma SentFlagsKeepInvariant(store: Store, s: Store)
    requires Invariant(store) && SentFlagsOnly(store, s)
    ensures Invariant(s)
  {
    assert forall i :: 0 <= i < |s.outbox| ==>
      (&& s.outbox[i].payload == store.outbox[i].payload
       && s.outbox[i].id == store.outbox[i].id
       && s.outbox[i].ip == store.outbox[i].ip
       && s.outbox[i].createdAt == store.outbox[i].createdAt);
  }

  /** The intended flush applied to the store: it touches the outbox only. */
  function FlushStore(store: Store, webhookUrl: string, faults: Flush.Faults): (s: Store)
    ensures SentFlagsOnly(store, s)
  {
    store.(outbox := Flush.Scheduled(store.outbox, webhookUrl, faults).rows)
  }

  /** The flush as written applied to the store: it too touches only `sent` flags. */
  function FlushStoreAsWritten(store: Store, webhookUrl: string, faults: Flush.Faults): (s: Store)
    ensures SentFlagsOnly(store, s)
  {
    store.(outbox := Flush.ScheduledAsWritten(store.outbox, webhookUrl, faults).rows)
  }

  lemma FlushPreservesInvariant(store: Store, webhookUrl: string, faults: Flush.Faults)
    requires Invariant(store)
    ensures Invariant(FlushStore(store, webhookUrl, faults))
  {
    SentFlagsKeepInvariant(store, FlushStore(store, webhookUrl, faults));
  }

  /** The invariant survives the flush as written too, rejected posts included:
      losing a batch breaks delivery, not the store's shape. */
  lemma FlushAsWrittenPreservesInvariant(store: Store, webhookUrl: string, faults: Flush.Faults)
    requires Invariant(store)
    ensures Invariant(FlushStoreAsWritten(store, webhookUrl, faults))
  {
    SentFlagsKeepInvariant(store, FlushStoreAsWritten(store, webhookUrl, faults));
  }

  /** What a stats read yields, and the store afterwards. */
  datatype StatsRead = StatsRead(view: Option<Stats.StatsView>, store: Store)

  /** getStats over the whole store: the users it counts are the clients that
      own a `rate_limits` row, leaving out the placeholder id. */
  function ReadStats(store: Store, now: int, fails: bool): (r: StatsRead)
    ensures fails ==> r == StatsRead(None, store)
    ensures r.store.limits == store.limits && r.store.outbox == store.outbox
    ensures !fails ==>
      && r.view.Some?
      && Text.ParseInt(r.view.value.uniqueUsers) == Some(|store.limits.Keys - {Stats.UnknownClient}| as int)
  {
    var g := Stats.GetStats(store.accounts, store.limits.Keys, now, fails);
    StatsRead(g.view, store.(accounts := g.accounts))
  }

  lemma ReadStatsPreservesInvariant(store: Store, now: int, fails: bool)
    requires Invariant(store)
    ensures Invariant(ReadStats(store, now, fails).store)
  {
    var r := ReadStats(store, now, fails);
    assert r.store.limits == store.limits && r.store.outbox == store.outbox;
    Stats.GetStatsKeepsBalance(store.accounts, store.limits.Keys, now, fails);
    Stats.GetStatsKeepsNonNegative(store.accounts, store.limits.Keys, now, fails);
    assert r.store.accounts == Stats.GetStats(store.accounts, store.limits.Keys, now, fails).accounts;
  }

  /** A limiter call whose store works registers its client when it admits:
      the users a later stats read reports grow by one exactly when the
      client is new and is not the placeholder. (`LimiterDecides` gives that
      the handler stores exactly this table.) */
  lemma AdmissionRegistersClient(limits: RateLimiter.Table, ip: string, domainCount: nat, now: int)
    ensures var a := RateLimiter.CheckRateLimit(limits, ip, domainCount, MaxDomains, WindowMinutes,
                                                now, RateLimiter.NoFault);
      var before := Stats.UniqueUsers(limits.Keys);
      Stats.UniqueUsers(a.table.Keys) ==
        if !a.decision.allowed || ip == Stats.UnknownClient || ip in limits then before else before + 1
  {
    RateLimiter.AdmissionKeys(limits, ip, domainCount, MaxDomains, WindowMinutes, now, RateLimiter.NoFault);
    Stats.UniqueUsersAdd(limits.Keys, ip);
  }

  /** How many results carry a given CSV flag. */
  function FlagCount(rs: seq<DomainResult>, flag: string): nat
    decreases |rs|
  {
    if |rs| == 0 then 0
    else FlagCount(rs[..|rs| - 1], flag) + (if Flush.Flag(rs[|rs| - 1]) == flag then 1 else 0)
  }

  /** On consistent results the blocked-first flags and the error-first
      counts agree. */
  lemma {:induction false} FlagsAgreeWithTally(rs: seq<DomainResult>)
    requires forall i :: 0 <= i < |rs| ==> Consistent(rs[i])
    ensures FlagCount(rs, Flush.FlagBlocked) == TallyOf(rs).blocked
    ensures FlagCount(rs, Flush.FlagError) == TallyOf(rs).errors
    ensures FlagCount(rs, Flush.FlagNotBlocked) == TallyOf(rs).notBlocked
    decreases |rs|
  {
    if |rs| > 0 {
      FlagsAgreeWithTally(rs[..|rs| - 1]);
    }
  }

  /** Flag occurrences over all rows, in CSV order. */
  function RowsFlagCount(rows: seq<Row>, flag: string): nat
    decreases |rows|
  {
    if |rows| == 0 then 0
    else RowsFlagCount(rows[..|rows| - 1], flag) + FlagCount(rows[|rows| - 1].payload.results, flag)
  }

  /** For rows the handler wrote, the flush's summary counts are the
      tallies of the CSV lines it attaches: one domain per line, and each
      outcome count equals the number of lines with that flag. */
  lemma {:induction false} SummaryMatchesLines(rows: seq<Row>)
    requires forall i :: 0 <= i < |rows| ==> WellFormedRow(rows[i])
    ensures var s := Flush.Summarize(rows);
      && s.totalDomains == |Flush.CsvLines(rows)|
      && s.blocked == RowsFlagCount(rows, Flush.FlagBlocked)
      && s.errors == RowsFlagCount(rows, Flush.FlagError)
      && s.notBlocked == RowsFlagCount(rows, Flush.FlagNotBlocked)
    decreases |rows|
  {
    if |rows| > 0 {
      var init := rows[..|rows| - 1];
      var row := rows[|rows| - 1];
      SummaryMatchesLines(init);
      assert WellFormedRow(row);
      FlagsAgreeWithTally(row.payload.results);
    }
  }

  /** What a flush posts for a store the handler built: the pending rows,
      oldest first, with a summary that agrees with the attached lines. */
  lemma FlushReportsPending(store: Store, webhookUrl: string, faults: Flush.Faults)
    requires Invariant(store)
    ensures var r := Flush.Scheduled(store.outbox, webhookUrl, faults);
      var p := Pending(store.outbox);
      && Ascending(p)
      && (r.posted.Some? ==>
            && Flush.Summarize(p).totalBatches == |p|
            && Flush.Summarize(p).totalDomains == |Flush.CsvLines(p)|
            && Flush.Summarize(p).blocked == RowsFlagCount(p, Flush.FlagBlocked)
            && Flush.Summarize(p).errors == RowsFlagCount(p, Flush.FlagError)
            && Flush.Summarize(p).notBlocked == RowsFlagCount(p, Flush.FlagNotBlocked))
  {
    var p := Pending(store.outbox);
    PendingAscending(store.outbox);
    SummaryMatchesLines(p);
  }
}

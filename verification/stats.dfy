/** incrementStats and getStats: the singleton `global` stats row, the
    per-UTC-date `daily_stats` rows, and the unique-user recount taken from
    the rate-limit rows. The clock, today's date and the store's failures
    are parameters. */
module Stats {
  import opened Wrappers
  import Text

  /** The five counters shared by the global row, a daily row, and an increment. */
  datatype Counters = Counters(requests: int, domainsChecked: int, blocked: int, notBlocked: int, errors: int)

  const Zero: Counters := Counters(0, 0, 0, 0, 0)

  function Add(a: Counters, b: Counters): Counters {
    Counters(a.requests + b.requests, a.domainsChecked + b.domainsChecked, a.blocked + b.blocked,
             a.notBlocked + b.notBlocked, a.errors + b.errors)
  }

  /** Every checked domain falls in exactly one outcome. */
  predicate Balanced(c: Counters) {
    c.domainsChecked == c.blocked + c.notBlocked + c.errors
  }

  predicate NonNegative(c: Counters) {
    c.requests >= 0 && c.domainsChecked >= 0 && c.blocked >= 0 && c.notBlocked >= 0 && c.errors >= 0
  }

  /** No counter of `b` is below the same counter of `a`. */
  predicate Dominates(b: Counters, a: Counters) {
    b.requests >= a.requests && b.domainsChecked >= a.domainsChecked && b.blocked >= a.blocked
    && b.notBlocked >= a.notBlocked && b.errors >= a.errors
  }

  /** An increment in which every field is zero (or absent) is no update at all. */
  predicate IsEmpty(d: Counters) {
    d.requests == 0 && d.domainsChecked == 0 && d.blocked == 0 && d.notBlocked == 0 && d.errors == 0
  }

  /** The `global` row. `uniqueUsers` is the stored text; empty stands for
      an empty or NULL column, which getStats treats as corrupt. */
  datatype GlobalRow = GlobalRow(counters: Counters, lastReset: int, uniqueUsers: string)

  /** The part of the store the stats functions own. */
  datatype Accounts = Accounts(global: Option<GlobalRow>, daily: map<string, Counters>)

  /** The row incrementStats creates when the global row is missing. */
  function FreshGlobal(now: int): GlobalRow {
    GlobalRow(Zero, now, "[]")
  }

  /** Which statement of incrementStats raises: the SELECT or INSERT that
      ensures the global row exists, the UPDATE of its counters, or the daily upsert. */
  datatype Fault = NoFault | FailsBeforeGlobal | FailsAtGlobalUpdate | FailsAtDaily

  /** The accounts after a call and whether the call raised. */
  datatype Effect = Effect(accounts: Accounts, threw: bool)

  /** The UPDATE built from the non-zero fields only: adding the present
      fields alone is adding the whole increment. */
  function ApplySparse(c: Counters, d: Counters): (r: Counters)
    ensures r == Add(c, d)
  {
    Counters(
      if d.requests != 0 then c.requests + d.requests else c.requests,
      if d.domainsChecked != 0 then c.domainsChecked + d.domainsChecked else c.domainsChecked,
      if d.blocked != 0 then c.blocked + d.blocked else c.blocked,
      if d.notBlocked != 0 then c.notBlocked + d.notBlocked else c.notBlocked,
      if d.errors != 0 then c.errors + d.errors else c.errors)
  }

  function CountersOf(global: Option<GlobalRow>): Counters {
    if global.Some? then global.value.counters else Zero
  }

  function DayOf(daily: map<string, Counters>, today: string): Counters {
    if today in daily then daily[today] else Zero
  }

  /** incrementStats. */
  function IncrementStats(acc: Accounts, delta: Counters, today: string, now: int, fault: Fault): (e: Effect)
    // an empty increment touches nothing and cannot fail
    ensures IsEmpty(delta) ==> e == Effect(acc, false)
    // a completed increment adds the delta to the global row and to today's row, nothing else
    ensures !e.threw && !IsEmpty(delta) ==>
      && e.accounts.global.Some?
      && e.accounts.global.value.counters == Add(CountersOf(acc.global), delta)
      && e.accounts.global.value == acc.global.GetOr(FreshGlobal(now)).(counters := e.accounts.global.value.counters)
      && e.accounts.daily == acc.daily[today := Add(DayOf(acc.daily, today), delta)]
    // a failed increment never reaches the daily row
    ensures e.threw ==> !IsEmpty(delta) && e.accounts.daily == acc.daily
    // a failed SELECT or INSERT leaves everything as it was
    ensures e.threw && fault.FailsBeforeGlobal? ==> e.accounts == acc
    // a failed global UPDATE leaves the global row only created
    ensures e.threw && fault.FailsAtGlobalUpdate? ==>
      e.accounts.global == Some(acc.global.GetOr(FreshGlobal(now)))
    // a failed daily upsert leaves the global row incremented and the daily rows behind
    ensures e.threw && fault.FailsAtDaily? ==>
      e.accounts.global == Some(acc.global.GetOr(FreshGlobal(now)).(counters := Add(CountersOf(acc.global), delta)))
    ensures e.threw <==> !IsEmpty(delta) && fault != NoFault
  {
    if IsEmpty(delta) then Effect(acc, false)
    else if fault.FailsBeforeGlobal? then Effect(acc, true)
    else
      var g := if acc.global.Some? then acc.global.value else FreshGlobal(now);
      if fault.FailsAtGlobalUpdate? then Effect(acc.(global := Some(g)), true)
      else
        var g' := g.(counters := ApplySparse(g.counters, delta));
        if fault.FailsAtDaily? then Effect(acc.(global := Some(g')), true)
        else
          // INSERT ... ON CONFLICT(date) DO UPDATE: a new row starts from the delta itself
          var day := if today in acc.daily then Add(acc.daily[today], delta) else delta;
          Effect(Accounts(Some(g'), acc.daily[today := day]), false)
  }

  /** Every stored row is balanced. */
  predicate AllBalanced(acc: Accounts) {
    && (acc.global.Some? ==> Balanced(acc.global.value.counters))
    && forall d :: d in acc.daily ==> Balanced(acc.daily[d])
  }

  /** Every stored counter is non-negative. */
  predicate AllNonNegative(acc: Accounts) {
    && (acc.global.Some? ==> NonNegative(acc.global.value.counters))
    && forall d :: d in acc.daily ==> NonNegative(acc.daily[d])
  }

  /** A balanced increment keeps every row balanced, whichever statement fails. */
  lemma IncrementKeepsBalance(acc: Accounts, delta: Counters, today: string, now: int, fault: Fault)
    requires AllBalanced(acc) && Balanced(delta)
    ensures AllBalanced(IncrementStats(acc, delta, today, now, fault).accounts)
  {
  }

  /** A non-negative increment never lowers a counter, whichever statement fails. */
  lemma IncrementIsMonotone(acc: Accounts, delta: Counters, today: string, now: int, fault: Fault)
    requires AllNonNegative(acc) && NonNegative(delta)
    ensures var after := IncrementStats(acc, delta, today, now, fault).accounts;
      && AllNonNegative(after)
      && Dominates(CountersOf(after.global), CountersOf(acc.global))
      && forall d :: d in acc.daily ==> d in after.daily && Dominates(after.daily[d], acc.daily[d])
  {
  }

  /** The placeholder client id that is not counted as a user. */
  const UnknownClient: string := "unknown"

  /** COUNT(DISTINCT ip) over the rate-limit rows, leaving out the placeholder. */
  function UniqueUsers(clients: set<string>): nat {
    |clients - {UnknownClient}|
  }

  /** Adding a client's row counts one more user exactly when the client is
      new and is not the placeholder. */
  lemma UniqueUsersAdd(clients: set<string>, ip: string)
    ensures UniqueUsers(clients + {ip}) ==
      if ip == UnknownClient || ip in clients then UniqueUsers(clients) else UniqueUsers(clients) + 1
  {
    if ip in clients {
      assert clients + {ip} == clients;
    } else if ip == UnknownClient {
      assert (clients + {ip}) - {UnknownClient} == clients - {UnknownClient};
    } else {
      assert (clients + {ip}) - {UnknownClient} == (clients - {UnknownClient}) + {ip};
    }
  }

  /** What getStats returns. */
  datatype StatsView = StatsView(id: string, counters: Counters, lastReset: int, uniqueUsers: string)

  /** The view (None when the call raised) and the accounts afterwards. */
  datatype Reading = Reading(view: Option<StatsView>, accounts: Accounts)

  /** The global row is present and its unique_users text is non-empty. */
  predicate Healthy(global: Option<GlobalRow>) {
    global.Some? && global.value.uniqueUsers != ""
  }

  /** getStats: recounts users from the rate-limit clients, then reports
      the global row, or resets it when it is missing or corrupt. */
  function GetStats(acc: Accounts, clients: set<string>, now: int, fails: bool): (r: Reading)
    ensures fails ==> r == Reading(None, acc)
    ensures !fails ==>
      && r.view.Some?
      && r.view.value.id == "global"
      && Text.ParseInt(r.view.value.uniqueUsers) == Some(UniqueUsers(clients) as int)
      && r.accounts.daily == acc.daily
      && r.accounts.global.Some?
      && r.accounts.global.value.uniqueUsers == r.view.value.uniqueUsers
    // a healthy row keeps its counters and is reported as stored
    ensures !fails && Healthy(acc.global) ==>
      && r.view.value.counters == acc.global.value.counters
      && r.accounts.global.value.counters == acc.global.value.counters
      && r.accounts.global.value.lastReset == acc.global.value.lastReset
      && r.view.value.lastReset == (if acc.global.value.lastReset == 0 then now else acc.global.value.lastReset)
    // a missing or corrupt row is replaced by a zeroed one reset now
    ensures !fails && !Healthy(acc.global) ==>
      && r.view.value.counters == Zero && r.view.value.lastReset == now
      && r.accounts.global.value.counters == Zero && r.accounts.global.value.lastReset == now
  {
    var users := Text.Decimal(UniqueUsers(clients));
    Text.DecimalRoundTrip(UniqueUsers(clients));
    if fails then Reading(None, acc)
    else if acc.global.None? || acc.global.value.uniqueUsers == "" then
      Reading(Some(StatsView("global", Zero, now, users)),
              acc.(global := Some(GlobalRow(Zero, now, users))))
    else
      var row := acc.global.value;
      // `Number(x) || default`: a stored 0 reads as the default, which for the
      // counters is 0 again and for last_reset is the current time
      Reading(Some(StatsView("global", row.counters, if row.lastReset == 0 then now else row.lastReset, users)),
              acc.(global := Some(row.(uniqueUsers := users))))
  }

  /** Reading the stats never unbalances them: a reset writes zeros. */
  lemma GetStatsKeepsBalance(acc: Accounts, clients: set<string>, now: int, fails: bool)
    requires AllBalanced(acc)
    ensures AllBalanced(GetStats(acc, clients, now, fails).accounts)
    ensures var r := GetStats(acc, clients, now, fails);
      r.view.Some? ==> Balanced(r.view.value.counters)
  {
  }

  /** Nor does it make a counter negative. */
  lemma GetStatsKeepsNonNegative(acc: Accounts, clients: set<string>, now: int, fails: bool)
    requires AllNonNegative(acc)
    ensures AllNonNegative(GetStats(acc, clients, now, fails).accounts)
  {
  }
}

/** checkRateLimit: per-client admission over one `rate_limits` row per
    client (`count`, `timestamp`). The clock and the store's failures are
    parameters; the table is a map from client id to its row. */
module RateLimiter {

  /** A `rate_limits` row. */
  datatype Usage = Usage(count: int, timestamp: int)

  /** What the limiter reports to its caller. */
  datatype Decision = Decision(allowed: bool, remaining: int, resetTime: int)

  /** Which store statement raises: the initial SELECT, or the INSERT/UPDATE. */
  datatype Fault = NoFault | ReadFails | WriteFails

  /** The decision together with the table as it is afterwards. */
  datatype Admission = Admission(decision: Decision, table: map<string, Usage>)

  type Table = map<string, Usage>

  function WindowMs(windowMinutes: int): int {
    windowMinutes * 60 * 1000
  }

  /** The stored row is older than the window: strictly before `now - window`. */
  predicate Expired(u: Usage, now: int, windowMinutes: int) {
    u.timestamp < now - WindowMs(windowMinutes)
  }

  /** The call opens a new window: no row, or an expired one. */
  predicate FreshWindow(table: Table, ip: string, now: int, windowMinutes: int) {
    ip !in table || Expired(table[ip], now, windowMinutes)
  }

  /** Units already spent in the current window. */
  function Used(table: Table, ip: string, now: int, windowMinutes: int): int {
    if FreshWindow(table, ip, now, windowMinutes) then 0 else table[ip].count
  }

  /** Every stored count lies within the quota. */
  predicate WithinQuota(table: Table, maxDomains: int) {
    forall ip :: ip in table ==> 0 <= table[ip].count <= maxDomains
  }

  /** checkRateLimit, branch for branch. */
  function CheckRateLimit(table: Table, ip: string, domainCount: nat, maxDomains: int,
                          windowMinutes: int, now: int, fault: Fault): (a: Admission)
    // admission: a store fault on the read admits; otherwise the request fits in what is left
    ensures a.decision.allowed <==>
      fault == ReadFails || Used(table, ip, now, windowMinutes) + domainCount <= maxDomains
    // a denial writes nothing and reports what is left and when the window closes
    ensures !a.decision.allowed ==>
      && a.table == table
      && a.decision.remaining == maxDomains - Used(table, ip, now, windowMinutes)
      && a.decision.resetTime ==
           (if FreshWindow(table, ip, now, windowMinutes) then now else table[ip].timestamp)
           + WindowMs(windowMinutes)
    // an admission without faults charges the request and slides the window to now
    ensures a.decision.allowed && fault == NoFault ==>
      && a.table == table[ip := Usage(Used(table, ip, now, windowMinutes) + domainCount, now)]
      && a.decision.remaining == maxDomains - a.table[ip].count
      && a.decision.resetTime == now + WindowMs(windowMinutes)
    // fail-open: the store is left alone and the estimate ignores earlier use
    ensures a.decision.allowed && fault != NoFault ==>
      && a.table == table
      && a.decision.remaining == maxDomains - domainCount
      && a.decision.resetTime == now + WindowMs(windowMinutes)
  {
    var resetTime := now + WindowMs(windowMinutes);
    var failOpen := Admission(Decision(true, maxDomains - domainCount, resetTime), table);
    if fault.ReadFails? then failOpen
    else if ip !in table || Expired(table[ip], now, windowMinutes) then
      // no row yet, or the window has elapsed: the request is judged alone
      if domainCount > maxDomains then Admission(Decision(false, maxDomains, resetTime), table)
      else if fault.WriteFails? then failOpen
      else Admission(Decision(true, maxDomains - domainCount, resetTime),
                     table[ip := Usage(domainCount, now)])
    else
      var usage := table[ip];
      var totalCount := usage.count + domainCount;
      if totalCount > maxDomains then
        Admission(Decision(false, maxDomains - usage.count, usage.timestamp + WindowMs(windowMinutes)), table)
      else if fault.WriteFails? then failOpen
      else Admission(Decision(true, maxDomains - totalCount, resetTime),
                     table[ip := Usage(totalCount, now)])
  }

  /** The clients with a row afterwards: the caller joins them exactly when a
      request is admitted and its write goes through. */
  lemma AdmissionKeys(table: Table, ip: string, domainCount: nat, maxDomains: int,
                      windowMinutes: int, now: int, fault: Fault)
    ensures var a := CheckRateLimit(table, ip, domainCount, maxDomains, windowMinutes, now, fault);
      a.table.Keys == if a.decision.allowed && fault == NoFault then table.Keys + {ip} else table.Keys
  {
  }

  /** No branch stores a count above the quota, and only the caller's row can change. */
  lemma QuotaInvariant(table: Table, ip: string, domainCount: nat, maxDomains: int,
                       windowMinutes: int, now: int, fault: Fault)
    requires WithinQuota(table, maxDomains)
    ensures WithinQuota(CheckRateLimit(table, ip, domainCount, maxDomains, windowMinutes, now, fault).table, maxDomains)
    ensures CheckRateLimit(table, ip, domainCount, maxDomains, windowMinutes, now, fault).table - {ip} == table - {ip}
  {
    var a := CheckRateLimit(table, ip, domainCount, maxDomains, windowMinutes, now, fault);
    if a.table != table {
      assert forall k :: k in a.table && k != ip ==> k in table && a.table[k] == table[k];
    }
  }

  /** After the window has elapsed, a request for the whole quota is admitted
      and leaves nothing. */
  lemma QuotaResetsAfterWindow(table: Table, ip: string, maxDomains: nat, windowMinutes: int, now: int)
    requires ip in table && table[ip].timestamp < now - WindowMs(windowMinutes)
    ensures CheckRateLimit(table, ip, maxDomains, maxDomains, windowMinutes, now, NoFault).decision
            == Decision(true, 0, now + WindowMs(windowMinutes))
  {
  }

  /** Quota 10, window 10 minutes: a new client checks 4 domains (admitted,
      6 left), then 7 more a second later (denied, still 6 left). */
  lemma QuotaScenario()
    ensures var first := CheckRateLimit(map[], "1.2.3.4", 4, 10, 10, 1000, NoFault);
      var second := CheckRateLimit(first.table, "1.2.3.4", 7, 10, 10, 2000, NoFault);
      && first.decision == Decision(true, 6, 1000 + 600000)
      && second.decision == Decision(false, 6, 1000 + 600000)
      && second.table == first.table
  {
  }
}

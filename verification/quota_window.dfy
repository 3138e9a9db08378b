/** What the limiter guarantees over a run of sequential, fault-free calls
    from one client that starts without a row: in every closed stretch of
    time one window long, the units it admits add up to at most the quota.
    The window slides because an admitted in-window request moves the
    row's timestamp to `now`, and it expires strictly. */
module QuotaWindow {
  import opened RateLimiter

  /** One call of the client: when it happened and how many domains it asked for. */
  datatype Call = Call(now: int, domainCount: nat)

  /** What one call was granted: its time and the units admitted (0 when denied). */
  datatype Grant = Grant(at: int, units: nat)

  /** The table after a run, and the grants of the run, call by call. */
  datatype Trace = Trace(table: Table, grants: seq<Grant>)

  /** Calls are issued one after another on a clock that does not go back. */
  predicate Chronological(calls: seq<Call>) {
    forall i, j :: 0 <= i < j < |calls| ==> calls[i].now <= calls[j].now
  }

  /** Runs the limiter over the calls, in order, without store faults. */
  function Replay(table: Table, ip: string, calls: seq<Call>, maxDomains: int, windowMinutes: int): (r: Trace)
    ensures |r.grants| == |calls|
    ensures forall i :: 0 <= i < |calls| ==>
      r.grants[i].at == calls[i].now && r.grants[i].units <= calls[i].domainCount
    decreases |calls|
  {
    if |calls| == 0 then Trace(table, [])
    else
      var prev := Replay(table, ip, calls[..|calls| - 1], maxDomains, windowMinutes);
      var c := calls[|calls| - 1];
      var a := CheckRateLimit(prev.table, ip, c.domainCount, maxDomains, windowMinutes, c.now, NoFault);
      Trace(a.table, prev.grants + [Grant(c.now, if a.decision.allowed then c.domainCount else 0)])
  }

  /** Units granted over the whole list. */
  function Total(gs: seq<Grant>): nat
    decreases |gs|
  {
    if |gs| == 0 then 0 else Total(gs[..|gs| - 1]) + gs[|gs| - 1].units
  }

  /** Units granted at times within `[start, start + width]`. */
  function InWindow(gs: seq<Grant>, start: int, width: int): nat
    decreases |gs|
  {
    if |gs| == 0 then 0
    else
      var g := gs[|gs| - 1];
      InWindow(gs[..|gs| - 1], start, width) + (if start <= g.at <= start + width then g.units else 0)
  }

  /** The row's count is what was granted from index `k` on, the grants
      before `k` lie more than a window before grant `k`, and the row's
      timestamp is the time of the latest grant or later. */
  ghost predicate OpenedAt(u: Usage, gs: seq<Grant>, k: int, width: int) {
    && 0 <= k < |gs|
    && Total(gs[k..]) == u.count
    && (forall i :: 0 <= i < k && gs[i].units > 0 ==> gs[i].at < gs[k].at - width)
    && gs[k].at <= u.timestamp <= gs[|gs| - 1].at
    && (forall i :: 0 <= i < |gs| && gs[i].units > 0 ==> gs[i].at <= u.timestamp)
  }

  /** The invariant of a run: the row accounts for the grants, and no
      window has been over-granted. */
  ghost predicate Charged(table: Table, ip: string, gs: seq<Grant>, maxDomains: int, width: int) {
    && (ip !in table ==> forall i :: 0 <= i < |gs| ==> gs[i].units == 0)
    && (ip in table ==> exists k :: OpenedAt(table[ip], gs, k, width))
    && forall start :: InWindow(gs, start, width) <= maxDomains
  }

  lemma AppendedPrefix(gs: seq<Grant>, g: Grant, k: nat)
    requires k <= |gs|
    ensures (gs + [g])[..|gs|] == gs
    ensures (gs + [g])[k..] == gs[k..] + [g]
  {
  }

  /** A window that starts after every earlier grant holds none of them. */
  lemma {:induction false} NothingBefore(gs: seq<Grant>, start: int, width: int)
    requires forall i :: 0 <= i < |gs| && gs[i].units > 0 ==> gs[i].at < start
    ensures InWindow(gs, start, width) == 0
    decreases |gs|
  {
    if |gs| > 0 {
      NothingBefore(gs[..|gs| - 1], start, width);
    }
  }

  /** A window that starts after the grants before `k` holds at most what was granted from `k` on. */
  lemma {:induction false} WindowWithinSuffix(gs: seq<Grant>, k: nat, start: int, width: int)
    requires k <= |gs|
    requires forall i :: 0 <= i < k && gs[i].units > 0 ==> gs[i].at < start
    ensures InWindow(gs, start, width) <= Total(gs[k..])
    decreases |gs|
  {
    if |gs| == k {
      NothingBefore(gs, start, width);
    } else {
      var init := gs[..|gs| - 1];
      WindowWithinSuffix(init, k, start, width);
      AppendedPrefix(init, gs[|gs| - 1], k);
      assert init + [gs[|gs| - 1]] == gs;
    }
  }

  lemma WindowAppend(gs: seq<Grant>, g: Grant, start: int, width: int)
    ensures InWindow(gs + [g], start, width)
            == InWindow(gs, start, width) + (if start <= g.at <= start + width then g.units else 0)
  {
    AppendedPrefix(gs, g, 0);
  }

  /** Appending a grant over-fills no window, provided a positive grant fits
      on top of what was granted from `k` on and everything before `k` lies
      more than a window earlier. */
  lemma ExtendWindows(gs: seq<Grant>, g: Grant, width: int, maxDomains: int, k: nat)
    requires k <= |gs|
    requires forall start :: InWindow(gs, start, width) <= maxDomains
    requires g.units > 0 ==> Total(gs[k..]) + g.units <= maxDomains
    requires g.units > 0 ==> forall i :: 0 <= i < k && gs[i].units > 0 ==> gs[i].at < g.at - width
    ensures forall start :: InWindow(gs + [g], start, width) <= maxDomains
  {
    forall start
      ensures InWindow(gs + [g], start, width) <= maxDomains
    {
      WindowAppend(gs, g, start, width);
      if g.units > 0 && start <= g.at <= start + width {
        WindowWithinSuffix(gs, k, start, width);
      }
    }
  }

  /** A denied call leaves the row's account as it was. */
  lemma KeepOpened(u: Usage, gs: seq<Grant>, g: Grant, k: int, width: int)
    requires OpenedAt(u, gs, k, width)
    requires g.units == 0 && u.timestamp <= g.at
    ensures OpenedAt(u, gs + [g], k, width)
  {
    AppendedPrefix(gs, g, k);
  }

  /** A call that opens a new window accounts for itself alone. */
  lemma OpenFresh(gs: seq<Grant>, g: Grant, width: int)
    requires forall i :: 0 <= i < |gs| && gs[i].units > 0 ==> gs[i].at < g.at - width
    requires forall i :: 0 <= i < |gs| ==> gs[i].at <= g.at
    ensures OpenedAt(Usage(g.units, g.at), gs + [g], |gs|, width)
  {
    AppendedPrefix(gs, g, |gs|);
    assert (gs + [g])[|gs|..] == [g];
    assert [g][..0] == [];
  }

  /** An admitted call within the window adds to the row and moves its timestamp. */
  lemma Continue(u: Usage, gs: seq<Grant>, g: Grant, k: int, width: int)
    requires OpenedAt(u, gs, k, width)
    requires u.timestamp <= g.at
    ensures OpenedAt(Usage(u.count + g.units, g.at), gs + [g], k, width)
  {
    AppendedPrefix(gs, g, k);
  }

  /** One more call keeps the invariant. */
  lemma Step(table: Table, ip: string, gs: seq<Grant>, c: Call, maxDomains: nat, windowMinutes: int)
    requires Charged(table, ip, gs, maxDomains, WindowMs(windowMinutes))
    requires forall i :: 0 <= i < |gs| ==> gs[i].at <= c.now
    ensures
      var a := CheckRateLimit(table, ip, c.domainCount, maxDomains, windowMinutes, c.now, NoFault);
      Charged(a.table, ip, gs + [Grant(c.now, if a.decision.allowed then c.domainCount else 0)],
              maxDomains, WindowMs(windowMinutes))
  {
    var w := WindowMs(windowMinutes);
    var a := CheckRateLimit(table, ip, c.domainCount, maxDomains, windowMinutes, c.now, NoFault);
    var g := Grant(c.now, if a.decision.allowed then c.domainCount else 0);
    if !a.decision.allowed {
      ExtendWindows(gs, g, w, maxDomains, |gs|);
      if ip in table {
        var k :| OpenedAt(table[ip], gs, k, w);
        KeepOpened(table[ip], gs, g, k, w);
      }
    } else if FreshWindow(table, ip, c.now, windowMinutes) {
      assert a.table[ip] == Usage(c.domainCount, c.now);
      if ip in table {
        var k :| OpenedAt(table[ip], gs, k, w);
      }
      assert forall i :: 0 <= i < |gs| && gs[i].units > 0 ==> gs[i].at < g.at - w;
      ExtendWindows(gs, g, w, maxDomains, |gs|);
      OpenFresh(gs, g, w);
    } else {
      var u := table[ip];
      var k :| OpenedAt(u, gs, k, w);
      assert a.table[ip] == Usage(u.count + g.units, c.now);
      ExtendWindows(gs, g, w, maxDomains, k);
      Continue(u, gs, g, k, w);
    }
  }

  /** The invariant holds after every run that starts without a row. */
  lemma {:induction false} ReplayCharged(table: Table, ip: string, calls: seq<Call>, maxDomains: nat, windowMinutes: int)
    requires ip !in table
    requires Chronological(calls)
    ensures
      var r := Replay(table, ip, calls, maxDomains, windowMinutes);
      Charged(r.table, ip, r.grants, maxDomains, WindowMs(windowMinutes))
    decreases |calls|
  {
    if |calls| > 0 {
      var init := calls[..|calls| - 1];
      ReplayCharged(table, ip, init, maxDomains, windowMinutes);
      var prev := Replay(table, ip, init, maxDomains, windowMinutes);
      Step(prev.table, ip, prev.grants, calls[|calls| - 1], maxDomains, windowMinutes);
    }
  }

  /** The sliding-window quota: for a client that starts without a row, the
      units admitted in any closed interval one window long never exceed
      the quota. */
  lemma SlidingWindowQuota(table: Table, ip: string, calls: seq<Call>, maxDomains: nat, windowMinutes: int)
    requires ip !in table
    requires Chronological(calls)
    ensures forall start ::
      InWindow(Replay(table, ip, calls, maxDomains, windowMinutes).grants, start, WindowMs(windowMinutes)) <= maxDomains
  {
    ReplayCharged(table, ip, calls, maxDomains, windowMinutes);
  }
}

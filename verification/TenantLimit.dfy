/**
 * The per-tenant counter of src/middleware/tenant-auth.ts: a window opens with the
 * first call after the last one ran out, and lasts fifteen minutes.
 */
module TenantLimit {
  import opened JsText
  import opened Numbers
  import opened RateLimit

  const WINDOW_MS := 15 * 60 * 1000

  datatype Window = Window(count: nat, windowStart: int)
  type Windows = map<string, Window>

  /** An absent window, or one that is over, gives way to a new one. */
  predicate Fresh(ws: Windows, tenant: string, now: int) {
    tenant !in ws || now - ws[tenant].windowStart > WINDOW_MS
  }

  function Counted(ws: Windows, tenant: string, now: int): (w: Window) {
    if Fresh(ws, tenant, now) then Window(1, now) else ws[tenant].(count := ws[tenant].count + 1)
  }

  /** None: the call goes on. Some(s): refused, with s as `retryAfterSeconds`. */
  function Verdict(w: Window, limit: int, now: int): (retryAfter: Option<int>) {
    if w.count > limit then Some(CeilSeconds(w.windowStart + WINDOW_MS - now)) else None
  }

  /**
   * A call more than fifteen minutes after the window began begins a new one, any
   * other is counted in it; and one above the limit is told the seconds that are
   * left of it, rounded up.
   */
  predicate CallAnswers(windows: Windows, tenant: string, limit: int, now: int, retryAfter: Option<int>,
                        windows': Windows) {
    var w := if tenant in windows && now <= windows[tenant].windowStart + 900_000
             then Window(windows[tenant].count + 1, windows[tenant].windowStart) else Window(1, now);
    && windows' == windows[tenant := w]
    && match retryAfter
       case None => w.count <= limit
       case Some(wait) => w.count > limit && 1000 * (wait - 1) < w.windowStart + 900_000 - now <= 1000 * wait
  }

  class TenantWindows {
    var windows: Windows

    constructor ()
      ensures windows == map[]
    {
      windows := map[];
    }

    method Call(tenant: string, limit: int, now: int) returns (retryAfter: Option<int>)
      modifies this
      ensures windows == old(windows)[tenant := Counted(old(windows), tenant, now)]
      ensures retryAfter == Verdict(Counted(old(windows), tenant, now), limit, now)
      ensures CallAnswers(old(windows), tenant, limit, now, retryAfter, windows)
    {
      if tenant !in windows || now - windows[tenant].windowStart > WINDOW_MS {
        windows := windows[tenant := Window(0, now)];
      }
      windows := windows[tenant := windows[tenant].(count := windows[tenant].count + 1)];
      var window := windows[tenant];
      if window.count > limit {
        return Some(CeilSeconds(window.windowStart + WINDOW_MS - now));
      }
      return None;
    }
  }

  // ---- runs ------------------------------------------------------------------

  /** One call; the limit is read from the tenant's row each time. */
  datatype Call = Call(tenant: string, limit: int, at: int)

  predicate InOrder(calls: seq<Call>) {
    forall i, j :: 0 <= i < j < |calls| ==> calls[i].at <= calls[j].at
  }

  function After(calls: seq<Call>): (ws: Windows)
    decreases |calls|
  {
    if calls == [] then map[]
    else
      var ws, c := After(calls[..|calls| - 1]), calls[|calls| - 1];
      ws[c.tenant := Counted(ws, c.tenant, c.at)]
  }

  predicate Admits(before: seq<Call>, c: Call) {
    Verdict(Counted(After(before), c.tenant, c.at), c.limit, c.at) == None
  }

  /** Calls of a tenant admitted from `lo` to `hi`. */
  function AdmittedCalls(calls: seq<Call>, tenant: string, lo: int, hi: int): (n: nat)
    decreases |calls|
  {
    if calls == [] then 0
    else
      var before, c := calls[..|calls| - 1], calls[|calls| - 1];
      AdmittedCalls(before, tenant, lo, hi)
      + (if c.tenant == tenant && lo <= c.at <= hi && Admits(before, c) then 1 else 0)
  }

  /** No call of the tenant carries a higher limit. */
  predicate LimitedBy(calls: seq<Call>, tenant: string, limit: nat) {
    forall i :: 0 <= i < |calls| && calls[i].tenant == tenant ==> calls[i].limit <= limit
  }

  lemma OneCallFewer(calls: seq<Call>, tenant: string, limit: nat)
    requires calls != [] && InOrder(calls) && LimitedBy(calls, tenant, limit)
    ensures InOrder(calls[..|calls| - 1]) && LimitedBy(calls[..|calls| - 1], tenant, limit)
    ensures |calls| > 1 ==> calls[|calls| - 2].at <= calls[|calls| - 1].at
  {
  }

  /** The tenant's window was opened by one of its calls, and none is later than the last call. */
  lemma {:induction false} WindowBegins(calls: seq<Call>, tenant: string)
    requires InOrder(calls) && tenant in After(calls)
    ensures calls != [] && After(calls)[tenant].windowStart <= calls[|calls| - 1].at && After(calls)[tenant].count >= 1
    decreases |calls|
  {
    var before := calls[..|calls| - 1];
    if tenant in After(before) {
      WindowBegins(before, tenant);
    }
  }

  // ---- how many are admitted ---------------------------------------------------

  /** Most that the current window can have let through when its opening call counts, or when it does not. */
  function FromWindow(count: nat, limit: nat, whole: bool): (n: int) {
    if whole then Min(count, limit) else Max(0, Min(count, limit) - 1)
  }

  /** What has been let through from `lo` to `lo + WINDOW_MS`, by where the current window stands. */
  ghost predicate Let(calls: seq<Call>, tenant: string, limit: nat, lo: int) {
    var n, ws := AdmittedCalls(calls, tenant, lo, lo + WINDOW_MS), After(calls);
    if tenant !in ws || calls == [] || calls[|calls| - 1].at < lo then n == 0
    else
      var s, c := ws[tenant].windowStart, ws[tenant].count;
      if s < lo then n <= FromWindow(c, limit, false)
      else if s <= lo + WINDOW_MS then n <= Max(0, limit - 1) + FromWindow(c, limit, true)
      else n <= Max(0, 2 * limit - 1)
  }

  lemma {:induction false} LetThrough(calls: seq<Call>, tenant: string, limit: nat, lo: int)
    requires InOrder(calls) && LimitedBy(calls, tenant, limit)
    ensures Let(calls, tenant, limit, lo)
    decreases |calls|
  {
    if calls != [] {
      var before, c := calls[..|calls| - 1], calls[|calls| - 1];
      OneCallFewer(calls, tenant, limit);
      LetThrough(before, tenant, limit, lo);
      if tenant in After(before) {
        WindowBegins(before, tenant);
      }
    }
  }

  /** In any closed interval of window length, fewer than twice the limit is admitted. */
  lemma FewerThanTwice(calls: seq<Call>, tenant: string, limit: nat, lo: int)
    requires InOrder(calls) && LimitedBy(calls, tenant, limit)
    ensures AdmittedCalls(calls, tenant, lo, lo + WINDOW_MS) <= Max(0, 2 * limit - 1)
  {
    LetThrough(calls, tenant, limit, lo);
  }

  /** Calls of a tenant admitted in the window that opened at `s`. */
  function AdmittedInWindow(calls: seq<Call>, tenant: string, s: int): (n: nat)
    decreases |calls|
  {
    if calls == [] then 0
    else
      var before, c := calls[..|calls| - 1], calls[|calls| - 1];
      AdmittedInWindow(before, tenant, s)
      + (if c.tenant == tenant && Admits(before, c) && Counted(After(before), tenant, c.at).windowStart == s
         then 1 else 0)
  }

  /** Each window admits at most the limit, and none has a window that opens later than its last. */
  lemma {:induction false} PerWindow(calls: seq<Call>, tenant: string, limit: nat, s: int)
    requires InOrder(calls) && LimitedBy(calls, tenant, limit)
    ensures AdmittedInWindow(calls, tenant, s) <= limit
    ensures tenant !in After(calls) || After(calls)[tenant].windowStart < s ==> AdmittedInWindow(calls, tenant, s) == 0
    ensures tenant in After(calls) && After(calls)[tenant].windowStart == s ==>
              AdmittedInWindow(calls, tenant, s) <= After(calls)[tenant].count
    decreases |calls|
  {
    if calls != [] {
      var before := calls[..|calls| - 1];
      OneCallFewer(calls, tenant, limit);
      PerWindow(before, tenant, limit, s);
      if tenant in After(before) {
        WindowBegins(before, tenant);
      }
    }
  }

  // ---- the bound is reached ------------------------------------------------------

  function Repeated(tenant: string, limit: nat, at: int, n: nat): (calls: seq<Call>)
    ensures |calls| == n && forall i :: 0 <= i < n ==> calls[i] == Call(tenant, limit, at)
  {
    seq(n, _ => Call(tenant, limit, at))
  }

  /** The windows and the count after one more call. */
  lemma OneCallMore(calls: seq<Call>, c: Call, lo: int)
    ensures After(calls + [c]) == After(calls)[c.tenant := Counted(After(calls), c.tenant, c.at)]
    ensures AdmittedCalls(calls + [c], c.tenant, lo, lo + WINDOW_MS)
            == AdmittedCalls(calls, c.tenant, lo, lo + WINDOW_MS)
               + (if lo <= c.at <= lo + WINDOW_MS && Admits(calls, c) then 1 else 0)
  {
    assert (calls + [c])[..|calls|] == calls;
  }

  /** Calls within an open window are admitted while the limit lasts. */
  lemma {:induction false} RepeatedAdmitted(start: seq<Call>, tenant: string, limit: nat, at: int, n: nat, lo: int,
                                            w: Window)
    requires lo <= at <= lo + WINDOW_MS && tenant in After(start) && After(start)[tenant] == w
    requires 0 <= at - w.windowStart <= WINDOW_MS && w.count + n <= limit
    ensures var calls := start + Repeated(tenant, limit, at, n);
            && tenant in After(calls) && After(calls)[tenant] == Window(w.count + n, w.windowStart)
            && AdmittedCalls(calls, tenant, lo, lo + WINDOW_MS) == AdmittedCalls(start, tenant, lo, lo + WINDOW_MS) + n
  {
    var calls := start + Repeated(tenant, limit, at, n);
    if n == 0 {
      assert calls == start;
    } else {
      var before := start + Repeated(tenant, limit, at, n - 1);
      RepeatedAdmitted(start, tenant, limit, at, n - 1, lo, w);
      OneCallMore(before, Call(tenant, limit, at), lo);
      assert calls == before + [Call(tenant, limit, at)];
    }
  }

  /** A new window opens, and its first call is admitted. */
  lemma OpeningCall(start: seq<Call>, tenant: string, limit: nat, at: int, lo: int)
    requires Fresh(After(start), tenant, at) && limit > 0
    ensures var calls := start + [Call(tenant, limit, at)];
            && tenant in After(calls) && After(calls)[tenant] == Window(1, at)
            && AdmittedCalls(calls, tenant, lo, lo + WINDOW_MS)
               == AdmittedCalls(start, tenant, lo, lo + WINDOW_MS) + (if lo <= at <= lo + WINDOW_MS then 1 else 0)
  {
    OneCallMore(start, Call(tenant, limit, at), lo);
  }

  /** One call at `t`, and the rest of the limit at the last instant of that window. */
  function Late(tenant: string, limit: nat, t: int): (calls: seq<Call>)
    requires limit > 0
  {
    [Call(tenant, limit, t)] + Repeated(tenant, limit, t + WINDOW_MS, limit - 1)
  }

  /** After that, the whole limit again, one millisecond later. */
  function Straddle(tenant: string, limit: nat, t: int): (calls: seq<Call>)
    requires limit > 0
  {
    Late(tenant, limit, t) + [Call(tenant, limit, t + WINDOW_MS + 1)]
    + Repeated(tenant, limit, t + WINDOW_MS + 1, limit - 1)
  }

  lemma StraddleInOrder(tenant: string, limit: nat, t: int)
    requires limit > 0
    ensures InOrder(Straddle(tenant, limit, t)) && LimitedBy(Straddle(tenant, limit, t), tenant, limit)
  {
  }

  lemma {:induction false} LateAdmitted(tenant: string, limit: nat, t: int)
    requires limit > 0
    ensures var calls := Late(tenant, limit, t);
            && tenant in After(calls) && After(calls)[tenant].windowStart == t
            && AdmittedCalls(calls, tenant, t + WINDOW_MS, t + WINDOW_MS + WINDOW_MS) == limit - 1
  {
    var lo, first := t + WINDOW_MS, [Call(tenant, limit, t)];
    assert [] + first == first;
    OpeningCall([], tenant, limit, t, lo);
    RepeatedAdmitted(first, tenant, limit, lo, limit - 1, lo, Window(1, t));
  }

  /** The bound is reached, within two milliseconds. */
  lemma {:induction false} AlmostTwiceAtOnce(tenant: string, limit: nat, t: int)
    requires limit > 0
    ensures InOrder(Straddle(tenant, limit, t)) && LimitedBy(Straddle(tenant, limit, t), tenant, limit)
    ensures AdmittedCalls(Straddle(tenant, limit, t), tenant, t + WINDOW_MS, t + WINDOW_MS + WINDOW_MS) == 2 * limit - 1
  {
    var lo, late := t + WINDOW_MS, Late(tenant, limit, t);
    StraddleInOrder(tenant, limit, t);
    LateAdmitted(tenant, limit, t);
    OpeningCall(late, tenant, limit, lo + 1, lo);
    RepeatedAdmitted(late + [Call(tenant, limit, lo + 1)], tenant, limit, lo + 1, limit - 1, lo, Window(1, lo + 1));
  }

  // ---- the advice to a refused caller ----------------------------------------------

  /** A refused call's retry time, waited exactly, opens a new window unless the rest of the window is a whole number of
      seconds: then the next call falls on the window's last instant and is refused again. */
  lemma {:induction false} RetryAfterIfFractional(before: seq<Call>, c: Call)
    requires InOrder(before + [c]) && c.limit > 0 && !Admits(before, c)
    ensures var w := Counted(After(before), c.tenant, c.at);
            var wait := Verdict(w, c.limit, c.at).value;
            && 0 <= wait <= 900
            && (Admits(before + [c], c.(at := c.at + 1000 * wait)) <==> (w.windowStart + WINDOW_MS - c.at) % 1000 != 0)
            && Admits(before + [c], c.(at := c.at + 1000 * wait + 1))
  {
    var w := Counted(After(before), c.tenant, c.at);
    OneCallMore(before, c, 0);
    if c.tenant in After(before) {
      assert InOrder(before) by {
        assert forall i :: 0 <= i < |before| ==> before[i] == (before + [c])[i];
      }
      WindowBegins(before, c.tenant);
      assert (before + [c])[|before| - 1].at <= (before + [c])[|before|].at;
    }
    assert After(before + [c])[c.tenant] == w;
  }
}

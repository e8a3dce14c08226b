/**
 * The fixed-window limiter of src/middleware/rate-limit.ts: one bucket table, shared
 * by every route.
 */
module RateLimit {
  import opened JsText
  import opened Numbers

  /** `Math.ceil(ms / 1000)`. */
  function CeilSeconds(ms: int): (s: int)
    ensures 1000 * (s - 1) < ms <= 1000 * s
  {
    (ms + 999) / 1000
  }

  // ---- windows and keys ------------------------------------------------------

  /** The start of the window that contains `now`. */
  function WindowStart(now: nat, w: nat): (f: nat)
    requires w > 0
  {
    now / w * w
  }

  /** Every instant lies in its window, and windows do not overlap. */
  lemma WindowHolds(now: nat, f: nat, w: nat)
    requires w > 0
    ensures WindowStart(now, w) <= now < WindowStart(now, w) + w
    ensures f == WindowStart(f, w) && f <= now < f + w ==> WindowStart(now, w) == f
    ensures WindowStart(WindowStart(now, w), w) == WindowStart(now, w)
  {
    assert now == now / w * w + now % w;
    var start := WindowStart(now, w);
    assert start == start / w * w + start % w;
    DivModUnique(start / w, start % w, now / w, 0, w);
    if f == WindowStart(f, w) && f <= now < f + w {
      DivModUnique(f / w, now - f, now / w, now % w, w);
    }
  }

  lemma NextWindow(now: nat, w: nat)
    requires w > 0
    ensures WindowStart(WindowStart(now, w) + w, w) == WindowStart(now, w) + w
  {
    var next := WindowStart(now, w) + w;
    assert next == (now / w + 1) * w;
    assert next == next / w * w + next % w;
    DivModUnique(next / w, next % w, now / w + 1, 0, w);
  }

  /** A closed interval of window length meets two windows. */
  lemma TwoWindows(lo: nat, at: nat, w: nat)
    requires w > 0 && lo <= at <= lo + w
    ensures WindowStart(at, w) == WindowStart(lo, w) || WindowStart(at, w) == WindowStart(lo, w) + w
  {
    var f := WindowStart(lo, w);
    WindowHolds(lo, f, w);
    NextWindow(lo, w);
    WindowHolds(f, f, w);
    if at < f + w {
      WindowHolds(at, f, w);
    } else {
      WindowHolds(at, f + w, w);
    }
  }

  function Subject(route: string, identity: string): (l: string) { route + ":" + identity }

  function BucketKey(subject: string, f: nat): (k: string) { subject + ":" + Render(f, 10) }

  /** Only digits follow the colon after the subject. */
  lemma {:induction false} LastColon(subject: string, f: nat)
    ensures var s := BucketKey(subject, f);
            && s[..|subject|] == subject && s[|subject|] == ':' && s[|subject| + 1..] == Render(f, 10)
            && forall j :: |subject| < j < |s| ==> IsDigit(s[j])
  {
    RenderDecimal(f);
  }

  /** The window is found after the last colon, so identities such as IPv6 addresses do not confuse keys. */
  lemma BucketKeyInjective(l: string, f: nat, m: string, g: nat)
    requires BucketKey(l, f) == BucketKey(m, g)
    ensures l == m && f == g
  {
    LastColon(l, f);
    LastColon(m, g);
    assert |l| == |m|;
    RenderValue(f, 10);
    RenderValue(g, 10);
  }

  /** Two requests of one route share a bucket exactly when they share identity and window. */
  lemma SameBucket(route: string, i: string, t: nat, j: string, u: nat, w: nat)
    requires w > 0
    ensures BucketKey(Subject(route, i), WindowStart(t, w)) == BucketKey(Subject(route, j), WindowStart(u, w))
            <==> i == j && WindowStart(t, w) == WindowStart(u, w)
  {
    if BucketKey(Subject(route, i), WindowStart(t, w)) == BucketKey(Subject(route, j), WindowStart(u, w)) {
      BucketKeyInjective(Subject(route, i), WindowStart(t, w), Subject(route, j), WindowStart(u, w));
      assert Subject(route, i)[|route| + 1..] == i && Subject(route, j)[|route| + 1..] == j;
    }
  }

  // ---- the bucket table ------------------------------------------------------

  datatype Bucket = Bucket(count: nat, expiresAt: nat)
  type Buckets = map<string, Bucket>

  /** Headers of the answer; `retryAfter` is present on a refusal only. */
  datatype Answer = Answer(remaining: nat, reset: int, retryAfter: Option<int>)

  function CountIn(buckets: Buckets, key: string): (n: nat) { if key in buckets then buckets[key].count else 0 }

  function Bumped(buckets: Buckets, key: string, expiresAt: nat): (b: Buckets) {
    buckets[key := Bucket(CountIn(buckets, key) + 1, if key in buckets then buckets[key].expiresAt else expiresAt)]
  }

  function AnswerFor(count: nat, max: nat, expiresAt: nat, now: nat): (a: Answer) {
    Answer(Max(0, max - count), CeilSeconds(expiresAt),
           if count > max then Some(Max(1, CeilSeconds(expiresAt - now))) else None)
  }

  function Cleaned(buckets: Buckets, now: nat): (b: Buckets) {
    map key | key in buckets && buckets[key].expiresAt >= now :: buckets[key]
  }

  /**
   * The bucket of the window that began at the last multiple of its length gets one
   * request more, and is made for that window if it is not there; the answer says
   * how many are left, in which second the window is over, and when there were more
   * than `max`, after how many seconds, at least one, that is.
   */
  predicate Answers(buckets: Buckets, subject: string, windowMs: nat, max: nat, now: nat, answer: Answer,
                    buckets': Buckets)
    requires windowMs > 0
  {
    var start := now - now % windowMs;
    var key, end := subject + ":" + Render(start, 10), start + windowMs;
    var n := if key in buckets then buckets[key].count + 1 else 1;
    && buckets' == buckets[key := Bucket(n, if key in buckets then buckets[key].expiresAt else end)]
    && answer.remaining == (if n < max then max - n else 0)
    && 1000 * (answer.reset - 1) < end <= 1000 * answer.reset
    && match answer.retryAfter
       case None => n <= max
       case Some(wait) => n > max && wait >= 1 && 1000 * (wait - 1) < end - now <= 1000 * wait
  }

  lemma StartIs(now: nat, windowMs: nat)
    requires windowMs > 0
    ensures WindowStart(now, windowMs) == now - now % windowMs
  {
    assert now == now / windowMs * windowMs + now % windowMs;
  }

  class BucketTable {
    var buckets: Buckets

    constructor ()
      ensures buckets == map[]
    {
      buckets := map[];
    }

    /** One request to `pgRateLimit`; `subject` is the route and the resolved identity. */
    method Request(subject: string, windowMs: nat, max: nat, now: nat) returns (answer: Answer)
      requires windowMs > 0
      modifies this
      ensures buckets == Bumped(old(buckets), BucketKey(subject, WindowStart(now, windowMs)),
                                WindowStart(now, windowMs) + windowMs)
      ensures answer == AnswerFor(CountIn(old(buckets), BucketKey(subject, WindowStart(now, windowMs))) + 1, max,
                                  WindowStart(now, windowMs) + windowMs, now)
      ensures Answers(old(buckets), subject, windowMs, max, now, answer, buckets)
    {
      StartIs(now, windowMs);
      var floor := WindowStart(now, windowMs);
      var key := BucketKey(subject, floor);
      var expiresAt := floor + windowMs;
      if key in buckets {
        var bucket := buckets[key];
        buckets := buckets[key := bucket.(count := bucket.count + 1)];
      } else {
        buckets := buckets[key := Bucket(1, expiresAt)];
      }
      var count := buckets[key].count;
      var remaining := Max(0, max - count);
      if count > max {
        return Answer(remaining, CeilSeconds(expiresAt), Some(Max(1, CeilSeconds(expiresAt - now))));
      }
      return Answer(remaining, CeilSeconds(expiresAt), None);
    }

    /** `cleanupRateLimitBuckets`: one DELETE statement. */
    method Cleanup(now: nat)
      modifies this
      ensures buckets == Cleaned(old(buckets), now)
      ensures forall key :: key in buckets <==> key in old(buckets) && old(buckets)[key].expiresAt >= now
      ensures forall key :: key in buckets ==> buckets[key] == old(buckets)[key]
      ensures forall key :: key in old(buckets) && old(buckets)[key].expiresAt > now ==>
                CountIn(buckets, key) == CountIn(old(buckets), key)
    {
      buckets := map key | key in buckets && buckets[key].expiresAt >= now :: buckets[key];
    }
  }

  // ---- runs of the bucket table -----------------------------------------------

  datatype Action =
    | Request(route: string, identity: string, at: nat)
    | Cleanup(at: nat)

  /** All routes use one window length; each has its own maximum. */
  datatype Limits = Limits(windowMs: nat, max: string -> nat)

  predicate Monotone(acts: seq<Action>) {
    forall i, j :: 0 <= i < j < |acts| ==> acts[i].at <= acts[j].at
  }

  function Next(lim: Limits, b: Buckets, a: Action): (b': Buckets)
    requires lim.windowMs > 0
  {
    match a
    case Request(route, identity, at) =>
      var f := WindowStart(at, lim.windowMs);
      Bumped(b, BucketKey(Subject(route, identity), f), f + lim.windowMs)
    case Cleanup(at) => Cleaned(b, at)
  }

  function Run(lim: Limits, acts: seq<Action>): (b: Buckets)
    requires lim.windowMs > 0
    decreases |acts|
  {
    if acts == [] then map[] else Next(lim, Run(lim, acts[..|acts| - 1]), acts[|acts| - 1])
  }

  /** What a request gets when it comes after `acts`. */
  function Reply(lim: Limits, acts: seq<Action>, route: string, identity: string, at: nat): (a: Answer)
    requires lim.windowMs > 0
  {
    var f := WindowStart(at, lim.windowMs);
    AnswerFor(CountIn(Run(lim, acts), BucketKey(Subject(route, identity), f)) + 1, lim.max(route), f + lim.windowMs, at)
  }

  predicate Hits(lim: Limits, a: Action, subject: string, f: nat)
    requires lim.windowMs > 0
  {
    a.Request? && Subject(a.route, a.identity) == subject && WindowStart(a.at, lim.windowMs) == f
  }

  /** Requests made under a subject within one window. */
  function Requests(lim: Limits, acts: seq<Action>, subject: string, f: nat): (n: nat)
    requires lim.windowMs > 0
    decreases |acts|
  {
    if acts == [] then 0
    else Requests(lim, acts[..|acts| - 1], subject, f) + (if Hits(lim, acts[|acts| - 1], subject, f) then 1 else 0)
  }

  /** A bucket counts the requests of its window; one that is missing had none or is over. */
  ghost predicate BucketOk(lim: Limits, acts: seq<Action>, subject: string, f: nat)
    requires lim.windowMs > 0
  {
    var b, key := Run(lim, acts), BucketKey(subject, f);
    if key in b then b[key] == Bucket(Requests(lim, acts, subject, f), f + lim.windowMs)
    else Requests(lim, acts, subject, f) == 0 || (acts != [] && f + lim.windowMs < acts[|acts| - 1].at)
  }

  lemma {:induction false} BucketsCount(lim: Limits, acts: seq<Action>, subject: string, f: nat)
    requires lim.windowMs > 0 && Monotone(acts)
    ensures BucketOk(lim, acts, subject, f)
    decreases |acts|
  {
    if acts != [] {
      var before, a := acts[..|acts| - 1], acts[|acts| - 1];
      BucketsCount(lim, before, subject, f);
      if a.Request? {
        var g := WindowStart(a.at, lim.windowMs);
        WindowHolds(a.at, g, lim.windowMs);
        if BucketKey(subject, f) == BucketKey(Subject(a.route, a.identity), g) {
          BucketKeyInjective(subject, f, Subject(a.route, a.identity), g);
        }
      }
    }
  }

  /** With a clock that does not run backwards, cleanups included, a request is admitted exactly when fewer than `max`
      requests came before it under its subject in its window, and it is told how many are left. */
  lemma {:induction false} AdmittedIffEarly(lim: Limits, acts: seq<Action>, route: string, identity: string, at: nat)
    requires lim.windowMs > 0 && Monotone(acts + [Request(route, identity, at)])
    ensures var earlier := Requests(lim, acts, Subject(route, identity), WindowStart(at, lim.windowMs));
            var answer := Reply(lim, acts, route, identity, at);
            && (answer.retryAfter == None <==> earlier < lim.max(route))
            && answer.remaining == Max(0, lim.max(route) - earlier - 1)
  {
    var f := WindowStart(at, lim.windowMs);
    var longer := acts + [Request(route, identity, at)];
    WindowHolds(at, f, lim.windowMs);
    assert Monotone(acts) by {
      assert forall i :: 0 <= i < |acts| ==> longer[i] == acts[i];
    }
    BucketsCount(lim, acts, Subject(route, identity), f);
    if acts != [] {
      assert longer[|acts| - 1].at <= longer[|acts|].at;
    }
  }

  // ---- how many are admitted ---------------------------------------------------

  predicate Counts(a: Action, route: string, identity: string, lo: nat, hi: nat) {
    a.Request? && a.route == route && a.identity == identity && lo <= a.at <= hi
  }

  /** Requests of an identity on a route admitted from `lo` to `hi`. */
  function Admitted(lim: Limits, acts: seq<Action>, route: string, identity: string, lo: nat, hi: nat): (n: nat)
    requires lim.windowMs > 0
    decreases |acts|
  {
    if acts == [] then 0
    else
      var before, a := acts[..|acts| - 1], acts[|acts| - 1];
      Admitted(lim, before, route, identity, lo, hi)
      + (if Counts(a, route, identity, lo, hi) && Reply(lim, before, route, identity, a.at).retryAfter == None
         then 1 else 0)
  }

  lemma MonotonePrefix(acts: seq<Action>)
    requires Monotone(acts) && acts != []
    ensures Monotone(acts[..|acts| - 1])
    ensures acts == acts[..|acts| - 1] + [acts[|acts| - 1]]
  {
  }

  /** At most `max` requests are admitted in a window. */
  lemma {:induction false} WindowBound(lim: Limits, acts: seq<Action>, route: string, identity: string, f: nat)
    requires lim.windowMs > 0 && Monotone(acts) && f == WindowStart(f, lim.windowMs)
    ensures Admitted(lim, acts, route, identity, f, f + lim.windowMs - 1)
            <= Min(lim.max(route), Requests(lim, acts, Subject(route, identity), f))
    decreases |acts|
  {
    if acts != [] {
      var before, a := acts[..|acts| - 1], acts[|acts| - 1];
      MonotonePrefix(acts);
      WindowBound(lim, before, route, identity, f);
      if Counts(a, route, identity, f, f + lim.windowMs - 1) {
        WindowHolds(a.at, f, lim.windowMs);
        AdmittedIffEarly(lim, before, route, identity, a.at);
      }
    }
  }

  lemma {:induction false} IntervalSplits(lim: Limits, acts: seq<Action>, route: string, identity: string, lo: nat)
    requires lim.windowMs > 0
    ensures var w, f := lim.windowMs, WindowStart(lo, lim.windowMs);
            Admitted(lim, acts, route, identity, lo, lo + w)
            <= Admitted(lim, acts, route, identity, f, f + w - 1)
               + Admitted(lim, acts, route, identity, f + w, f + w + w - 1)
    decreases |acts|
  {
    if acts != [] {
      var a := acts[|acts| - 1];
      IntervalSplits(lim, acts[..|acts| - 1], route, identity, lo);
      if Counts(a, route, identity, lo, lo + lim.windowMs) {
        TwoWindows(lo, a.at, lim.windowMs);
        WindowHolds(a.at, a.at, lim.windowMs);
      }
    }
  }

  /** In any closed interval of window length at most twice the maximum is admitted. */
  lemma IntervalBound(lim: Limits, acts: seq<Action>, route: string, identity: string, lo: nat)
    requires lim.windowMs > 0 && Monotone(acts)
    ensures Admitted(lim, acts, route, identity, lo, lo + lim.windowMs) <= 2 * lim.max(route)
  {
    var f := WindowStart(lo, lim.windowMs);
    IntervalSplits(lim, acts, route, identity, lo);
    WindowHolds(lo, f, lim.windowMs);
    NextWindow(lo, lim.windowMs);
    WindowBound(lim, acts, route, identity, f);
    WindowBound(lim, acts, route, identity, f + lim.windowMs);
  }

  /** `n` requests at one instant. */
  function Burst(route: string, identity: string, at: nat, n: nat): (acts: seq<Action>)
    ensures |acts| == n && forall i :: 0 <= i < n ==> acts[i] == Request(route, identity, at)
  {
    seq(n, _ => Request(route, identity, at))
  }

  lemma {:induction false} BurstAdmitted(lim: Limits, start: seq<Action>, route: string, identity: string, at: nat,
                                         n: nat, lo: nat, hi: nat)
    requires lim.windowMs > 0 && Monotone(start + Burst(route, identity, at, n))
    requires Requests(lim, start, Subject(route, identity), WindowStart(at, lim.windowMs)) == 0
    requires n <= lim.max(route) && lo <= at <= hi
    ensures var acts := start + Burst(route, identity, at, n);
            && Requests(lim, acts, Subject(route, identity), WindowStart(at, lim.windowMs)) == n
            && Admitted(lim, acts, route, identity, lo, hi) == Admitted(lim, start, route, identity, lo, hi) + n
  {
    var acts := start + Burst(route, identity, at, n);
    if n == 0 {
      assert acts == start;
    } else {
      var before := start + Burst(route, identity, at, n - 1);
      assert acts[..|acts| - 1] == before;
      MonotonePrefix(acts);
      BurstAdmitted(lim, start, route, identity, at, n - 1, lo, hi);
      AdmittedIffEarly(lim, before, route, identity, at);
    }
  }

  lemma {:induction false} BurstElsewhere(lim: Limits, route: string, identity: string, at: nat, n: nat, f: nat)
    requires lim.windowMs > 0 && WindowStart(at, lim.windowMs) != f
    ensures Requests(lim, Burst(route, identity, at, n), Subject(route, identity), f) == 0
  {
    if n > 0 {
      assert Burst(route, identity, at, n)[..n - 1] == Burst(route, identity, at, n - 1);
      BurstElsewhere(lim, route, identity, at, n - 1, f);
    }
  }

  lemma BurstsMonotone(route: string, identity: string, t: nat, u: nat, n: nat)
    requires t <= u
    ensures Monotone(Burst(route, identity, t, n))
    ensures Monotone(Burst(route, identity, t, n) + Burst(route, identity, u, n))
  {
  }

  lemma JustBefore(f: nat, w: nat)
    requires w > 0 && f > 0 && WindowStart(f, w) == f
    ensures WindowStart(f - 1, w) != f
  {
    WindowHolds(f - 1, f, w);
  }

  lemma {:induction false} FirstBurst(lim: Limits, route: string, identity: string, at: nat, n: nat, hi: nat)
    requires lim.windowMs > 0 && n <= lim.max(route) && at <= hi
    ensures Admitted(lim, Burst(route, identity, at, n), route, identity, at, hi) == n
  {
    BurstsMonotone(route, identity, at, at, n);
    assert [] + Burst(route, identity, at, n) == Burst(route, identity, at, n);
    BurstAdmitted(lim, [], route, identity, at, n, at, hi);
  }

  /** The bound is reached within two milliseconds: the window does not slide. */
  lemma TwiceWithinTwoMilliseconds(lim: Limits, route: string, identity: string, f: nat)
    requires lim.windowMs > 0 && f > 0 && WindowStart(f, lim.windowMs) == f
    ensures var acts := Burst(route, identity, f - 1, lim.max(route)) + Burst(route, identity, f, lim.max(route));
            Monotone(acts) && Admitted(lim, acts, route, identity, f - 1, f) == 2 * lim.max(route)
  {
    var n := lim.max(route);
    var first := Burst(route, identity, f - 1, n);
    JustBefore(f, lim.windowMs);
    FirstBurst(lim, route, identity, f - 1, n, f);
    BurstElsewhere(lim, route, identity, f - 1, n, f);
    BurstsMonotone(route, identity, f - 1, f, n);
    BurstAdmitted(lim, first, route, identity, f, n, f - 1, f);
  }

  /** How long until the next window, in whole seconds. */
  function Wait(at: nat, w: nat): (s: int)
    requires w > 0
  {
    Max(1, CeilSeconds(WindowStart(at, w) + w - at))
  }

  lemma WaitIsLeast(at: nat, w: nat, s: nat)
    requires w > 0
    ensures Wait(at, w) >= 1
    ensures WindowStart(at + 1000 * s, w) == WindowStart(at, w) || s >= Wait(at, w)
    ensures s >= Wait(at, w) ==> WindowStart(at + 1000 * s, w) > at
  {
    var f := WindowStart(at, w);
    WindowHolds(at, f, w);
    WindowHolds(at + 1000 * s, f, w);
    NextWindow(at, w);
    if s >= Wait(at, w) && WindowStart(at + 1000 * s, w) < f + w {
      StartsApart(at + 1000 * s, f + w, w);
    }
  }

  /** An instant at or after a window's start is not in an earlier window. */
  lemma StartsApart(at: nat, f: nat, w: nat)
    requires w > 0 && f == WindowStart(f, w) && f <= at
    ensures WindowStart(at, w) >= f
  {
    WindowHolds(at, f, w);
    WindowHolds(f, WindowStart(at, w), w);
  }

  lemma AppendMonotone(acts: seq<Action>, at: nat, a: Action)
    requires Monotone(acts) && a.at >= at && forall i :: 0 <= i < |acts| ==> acts[i].at <= at
    ensures Monotone(acts + [a])
  {
  }

  /** The Retry-After of a refusal is the least number of seconds that ends in a later window, and a request made after
      exactly that wait is admitted, whatever other traffic and cleanups came before the refusal. */
  lemma RetryAfterIsExact(lim: Limits, acts: seq<Action>, route: string, identity: string, at: nat)
    requires lim.windowMs > 0 && Monotone(acts + [Request(route, identity, at)]) && lim.max(route) > 0
    requires Reply(lim, acts, route, identity, at).retryAfter.Some?
    ensures var wait := Reply(lim, acts, route, identity, at).retryAfter.value;
            && wait >= 1
            && Reply(lim, acts + [Request(route, identity, at)], route, identity, at + 1000 * wait).retryAfter == None
            && forall s :: 0 <= s < wait ==> WindowStart(at + 1000 * s, lim.windowMs) == WindowStart(at, lim.windowMs)
  {
    var w := lim.windowMs;
    var wait := Wait(at, w);
    assert Reply(lim, acts, route, identity, at).retryAfter.value == wait;
    WaitIsLeast(at, w, wait);
    forall s | 0 <= s < wait ensures WindowStart(at + 1000 * s, w) == WindowStart(at, w) {
      WaitIsLeast(at, w, s);
    }
    LaterIsAdmitted(lim, acts + [Request(route, identity, at)], route, identity, at, at + 1000 * wait);
  }

  /** A request in a window later than everything before it is admitted. */
  lemma LaterIsAdmitted(lim: Limits, acts: seq<Action>, route: string, identity: string, at: nat, later: nat)
    requires lim.windowMs > 0 && lim.max(route) > 0 && Monotone(acts) && acts != [] && acts[|acts| - 1].at == at
    requires at < WindowStart(later, lim.windowMs)
    ensures Reply(lim, acts, route, identity, later).retryAfter == None
  {
    WindowHolds(later, later, lim.windowMs);
    assert forall i :: 0 <= i < |acts| ==> acts[i].at <= at;
    AppendMonotone(acts, at, Request(route, identity, later));
    NothingLater(lim, acts, Subject(route, identity), WindowStart(later, lim.windowMs), at);
    AdmittedIffEarly(lim, acts, route, identity, later);
  }

  lemma {:induction false} NothingLater(lim: Limits, acts: seq<Action>, subject: string, f: nat, until: nat)
    requires lim.windowMs > 0 && until < f && forall i :: 0 <= i < |acts| ==> acts[i].at <= until
    ensures Requests(lim, acts, subject, f) == 0
    decreases |acts|
  {
    if acts != [] {
      NothingLater(lim, acts[..|acts| - 1], subject, f, until);
      WindowHolds(acts[|acts| - 1].at, f, lim.windowMs);
    }
  }
}

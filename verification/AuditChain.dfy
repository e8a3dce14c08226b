/**
 * The per-tenant audit hash chain of src/services/audit.ts: how a row is hashed,
 * what replay accepts, and what it reports about a changed log. SHA-256 is the
 * parameter `sha`; results that rest on collision freedom say `Injective(sha)`.
 */
module AuditChain {
  import opened JsText
  import opened Json
  import opened Runtime
  import opened Sequences

  const GENESIS_PREVIOUS_HASH := "genesis"

  /** The fields that contribute to the event hash. */
  datatype Payload = Payload(
    tenantId: string, environment: Option<string>, actorType: string, actorId: Option<string>,
    action: string, entityType: string, entityId: Option<string>, status: string, summary: string,
    metadata: Js)

  /** A row of audit_events; both hash columns are NULL on rows older than the chain. */
  datatype Row = Row(id: nat, payload: Payload, previousHash: Option<string>, eventHash: Option<string>)

  datatype Reason = PreviousHashMismatch | EventHashMismatch
  datatype Verdict = Intact | BrokenAt(id: nat, reason: Reason)

  predicate ValidPayload(p: Payload) { p.metadata.Obj? && Valid(p.metadata) }

  /**
   * Equal in everything the hash covers: metadata compares as a value, not as a
   * text, with `[undefined]` read as `[]`.
   */
  predicate SamePayload(p: Payload, q: Payload) {
    p.(metadata := Null) == q.(metadata := Null) && Reading(p.metadata) == Reading(q.metadata)
  }

  /** Equal as values. */
  predicate EqualPayload(p: Payload, q: Payload) {
    p.(metadata := Null) == q.(metadata := Null) && Denote(p.metadata) == Denote(q.metadata)
  }

  /** Where no array is `[undefined]` the hash covers the whole value; what a JSONB column returns is such a value. */
  lemma SamePayloadIsEqual(p: Payload, q: Payload)
    requires NoLone(p.metadata) && NoLone(q.metadata)
    ensures SamePayload(p, q) <==> EqualPayload(p, q)
  {
    SquashNothing(p.metadata);
    SquashNothing(q.metadata);
  }

  predicate SameRow(r: Row, s: Row) {
    SamePayload(r.payload, s.payload) && r.previousHash == s.previousHash && r.eventHash == s.eventHash
  }

  // ---- hashing -------------------------------------------------------------

  function NullableStr(o: Option<string>): (v: Js) {
    match o case None => Null case Some(s) => Str(s)
  }

  const PAYLOAD_NAMES := ["tenant_id", "environment", "actor_type", "actor_id", "action",
                          "entity_type", "entity_id", "status", "summary", "metadata"]

  function PayloadColumns(p: Payload): (values: seq<Js>) {
    [Str(p.tenantId), NullableStr(p.environment), Str(p.actorType), NullableStr(p.actorId), Str(p.action),
     Str(p.entityType), NullableStr(p.entityId), Str(p.status), Str(p.summary), p.metadata]
  }

  function PayloadJs(p: Payload): (v: Js)
    ensures v.Obj? && (ValidPayload(p) ==> Valid(v))
  {
    Record(PAYLOAD_NAMES, PayloadColumns(p))
  }

  function EventHash(sha: HashFunction, p: Payload, previousHash: string): (hash: string) {
    "0x" + sha(Canonicalize(PayloadJs(p)) + "|" + previousHash)
  }

  lemma NullableReading(a: Option<string>, b: Option<string>)
    ensures Reading(NullableStr(a)) == Reading(NullableStr(b)) <==> a == b
  {
  }

  lemma PayloadNamesDistinct()
    ensures DistinctNames(PAYLOAD_NAMES)
  {
  }

  lemma StrReading(a: string, b: string)
    ensures Reading(Str(a)) == Reading(Str(b)) <==> a == b
  {
  }

  lemma ColumnsReading(p: Payload, q: Payload)
    ensures Readings(PayloadColumns(p)) == Readings(PayloadColumns(q)) <==> SamePayload(p, q)
  {
    var xs, ys := PayloadColumns(p), PayloadColumns(q);
    TenReadings(xs, ys);
    StrReading(p.tenantId, q.tenantId);
    NullableReading(p.environment, q.environment);
    StrReading(p.actorType, q.actorType);
    NullableReading(p.actorId, q.actorId);
    StrReading(p.action, q.action);
    StrReading(p.entityType, q.entityType);
    NullableReading(p.entityId, q.entityId);
    StrReading(p.status, q.status);
    StrReading(p.summary, q.summary);
  }

  lemma TenReadings(xs: seq<Js>, ys: seq<Js>)
    requires |xs| == |ys| == 10
    ensures Readings(xs) == Readings(ys) <==>
            && Reading(xs[0]) == Reading(ys[0]) && Reading(xs[1]) == Reading(ys[1]) && Reading(xs[2]) == Reading(ys[2])
            && Reading(xs[3]) == Reading(ys[3]) && Reading(xs[4]) == Reading(ys[4]) && Reading(xs[5]) == Reading(ys[5])
            && Reading(xs[6]) == Reading(ys[6]) && Reading(xs[7]) == Reading(ys[7]) && Reading(xs[8]) == Reading(ys[8])
            && Reading(xs[9]) == Reading(ys[9])
  {
    TenEqual(Readings(xs), Readings(ys));
  }

  lemma TenEqual<T>(a: seq<T>, b: seq<T>)
    requires |a| == |b| == 10
    ensures a == b <==>
            && a[0] == b[0] && a[1] == b[1] && a[2] == b[2] && a[3] == b[3] && a[4] == b[4]
            && a[5] == b[5] && a[6] == b[6] && a[7] == b[7] && a[8] == b[8] && a[9] == b[9]
  {
  }

  lemma PayloadReading(p: Payload, q: Payload)
    requires ValidPayload(p) && ValidPayload(q)
    ensures Reading(PayloadJs(p)) == Reading(PayloadJs(q)) <==> SamePayload(p, q)
  {
    PayloadNamesDistinct();
    RecordReading(PAYLOAD_NAMES, PayloadColumns(p), PayloadColumns(q));
    ColumnsReading(p, q);
  }

  /** Equal hashes mean equal framed texts. */
  lemma HashedTexts(sha: HashFunction, s: string, t: string, prev: string, prev': string)
    requires Injective(sha)
    ensures "0x" + sha(s + "|" + prev) == "0x" + sha(t + "|" + prev') <==> s + ("|" + prev) == t + ("|" + prev')
  {
    Associative(s, "|", prev);
    Associative(t, "|", prev');
    if "0x" + sha(s + "|" + prev) == "0x" + sha(t + "|" + prev') {
      ConstantPrefix("0x", sha(s + "|" + prev), sha(t + "|" + prev'));
    }
  }

  /** Canonical text, separator and previous hash can be read back from the hash in one way. */
  lemma {:induction false} FrameBinds(sha: HashFunction, v: Js, w: Js, prev: string, prev': string)
    requires Injective(sha) && Valid(v) && Valid(w) && v.Obj? && w.Obj?
    ensures "0x" + sha(Canonicalize(v) + "|" + prev) == "0x" + sha(Canonicalize(w) + "|" + prev')
            <==> Reading(v) == Reading(w) && prev == prev'
  {
    CanonicalizeExact(v, w);
    HashedTexts(sha, Canonicalize(v), Canonicalize(w), prev, prev');
    if Canonicalize(v) + ("|" + prev) == Canonicalize(w) + ("|" + prev') {
      FramingDecodable(v, w, "|" + prev, "|" + prev');
      ConstantPrefix("|", prev, prev');
    }
  }

  /** How a payload and the previous hash make the hash of a row. */
  type Link = (Payload, string) -> string

  function EventLink(sha: HashFunction): (link: Link) {
    (p: Payload, prev: string) => EventHash(sha, p, prev)
  }

  /**
   * What the chain needs of its link: it binds the payload as a value and the
   * previous hash, whatever characters either contains, and is never 'genesis'.
   */
  ghost predicate Binding(link: Link) {
    && (forall p, prev, q, prev' {:trigger link(p, prev), link(q, prev')} :: ValidPayload(p) && ValidPayload(q) ==>
          (link(p, prev) == link(q, prev') <==> SamePayload(p, q) && prev == prev'))
    && (forall p, prev {:trigger link(p, prev)} :: link(p, prev) != GENESIS_PREVIOUS_HASH)
  }

  /** The event hash of the source has both properties as soon as SHA-256 has no collisions. */
  lemma EventLinkBinds(sha: HashFunction)
    requires Injective(sha)
    ensures Binding(EventLink(sha))
  {
    forall p, prev, q, prev' | ValidPayload(p) && ValidPayload(q)
      ensures EventLink(sha)(p, prev) == EventLink(sha)(q, prev') <==> SamePayload(p, q) && prev == prev'
    {
      PayloadReading(p, q);
      FrameBinds(sha, PayloadJs(p), PayloadJs(q), prev, prev');
    }
    forall p, prev ensures EventLink(sha)(p, prev) != GENESIS_PREVIOUS_HASH {
      assert EventHash(sha, p, prev)[0] == '0' && GENESIS_PREVIOUS_HASH[0] == 'g';
    }
  }

  // ---- replay --------------------------------------------------------------

  predicate Chained(r: Row) { r.previousHash.Some? && r.eventHash.Some? }

  /** The loop of `verifyAuditChain` from an expected previous hash on. */
  function Replay(link: Link, rows: seq<Row>, expected: Option<string>): (v: Verdict) {
    if rows == [] then Intact
    else
      var row := rows[0];
      if !Chained(row) then Replay(link, rows[1..], None)
      else if expected.Some? && row.previousHash != expected then BrokenAt(row.id, PreviousHashMismatch)
      else if link(row.payload, row.previousHash.value) != row.eventHash.value then
        BrokenAt(row.id, EventHashMismatch)
      else Replay(link, rows[1..], row.eventHash)
  }

  predicate InChain(r: Row, tenantId: string, environment: Option<string>) {
    r.payload.tenantId == tenantId && r.payload.environment == environment
  }

  /** Rows of one chain with an id of at least startId, in table (id) order. */
  function ChainFrom(table: seq<Row>, tenantId: string, environment: Option<string>, startId: nat): (rows: seq<Row>) {
    if table == [] then []
    else
      (if InChain(table[0], tenantId, environment) && table[0].id >= startId then [table[0]] else [])
      + ChainFrom(table[1..], tenantId, environment, startId)
  }

  function Limited(rows: seq<Row>, limit: nat): (r: seq<Row>) {
    if |rows| <= limit then rows else rows[..limit]
  }

  method VerifyAuditChain(sha: HashFunction, table: seq<Row>, tenantId: string, environment: Option<string>,
                          startId: nat, limit: nat)
    returns (verdict: Verdict)
    ensures verdict == Replay(EventLink(sha), Limited(ChainFrom(table, tenantId, environment, startId), limit), None)
    ensures IdsAscend(table) ==>
              exists window :: IsWindow(table, tenantId, environment, startId, limit, window)
                               && verdict == Replay(EventLink(sha), window, None)
  {
    if IdsAscend(table) {
      WindowRows(table, tenantId, environment, startId, limit);
    }
    var rows := Limited(ChainFrom(table, tenantId, environment, startId), limit);
    var expectedPreviousHash: Option<string> := None;
    var i := 0;
    while i < |rows|
      invariant 0 <= i <= |rows|
      invariant Replay(EventLink(sha), rows, None) == Replay(EventLink(sha), rows[i..], expectedPreviousHash)
    {
      var row := rows[i];
      assert rows[i..][0] == row && rows[i..][1..] == rows[i + 1..];
      if !Chained(row) {
        expectedPreviousHash := None;
      } else {
        if expectedPreviousHash.Some? && row.previousHash != expectedPreviousHash {
          return BrokenAt(row.id, PreviousHashMismatch);
        }
        var recomputed := EventHash(sha, row.payload, row.previousHash.value);
        if recomputed != row.eventHash.value {
          return BrokenAt(row.id, EventHashMismatch);
        }
        expectedPreviousHash := row.eventHash;
      }
      i := i + 1;
    }
    assert rows[i..] == [];
    return Intact;
  }

  // ---- what replay accepts, without a loop ---------------------------------

  /** Row k names the hash of the row before it, where both are hashed. */
  predicate NamesPrevious(rows: seq<Row>, k: nat)
    requires k < |rows|
  {
    Chained(rows[k]) && k > 0 && Chained(rows[k - 1]) ==> rows[k].previousHash == rows[k - 1].eventHash
  }

  predicate Recomputes(link: Link, r: Row) {
    Chained(r) ==> r.eventHash.value == link(r.payload, r.previousHash.value)
  }

  predicate Sound(link: Link, rows: seq<Row>, k: nat)
    requires k < |rows|
  {
    NamesPrevious(rows, k) && Recomputes(link, rows[k])
  }

  ghost predicate AllSound(link: Link, rows: seq<Row>) {
    forall k :: 0 <= k < |rows| ==> Sound(link, rows, k)
  }

  predicate NamesExpected(rows: seq<Row>, expected: Option<string>, k: nat)
    requires k < |rows|
  {
    NamesPrevious(rows, k) && (k == 0 && Chained(rows[0]) && expected.Some? ==> rows[0].previousHash == expected)
  }

  predicate SoundFrom(link: Link, rows: seq<Row>, expected: Option<string>, k: nat)
    requires k < |rows|
  {
    NamesExpected(rows, expected, k) && Recomputes(link, rows[k])
  }

  /** The report on row k: the previous hash is looked at first. */
  function Report(rows: seq<Row>, expected: Option<string>, k: nat): (v: Verdict)
    requires k < |rows|
  {
    BrokenAt(rows[k].id, if NamesExpected(rows, expected, k) then EventHashMismatch else PreviousHashMismatch)
  }

  lemma {:induction false} ReplayReport(link: Link, rows: seq<Row>, expected: Option<string>, k: nat)
    requires k <= |rows|
    requires forall j :: 0 <= j < k ==> SoundFrom(link, rows, expected, j)
    requires k < |rows| ==> !SoundFrom(link, rows, expected, k)
    ensures Replay(link, rows, expected) == if k == |rows| then Intact else Report(rows, expected, k)
  {
    if rows != [] && k > 0 {
      assert SoundFrom(link, rows, expected, 0);
      var next := if Chained(rows[0]) then rows[0].eventHash else None;
      forall j | 0 <= j < |rows| - 1
        ensures NamesExpected(rows[1..], next, j) <==> NamesExpected(rows, expected, j + 1)
        ensures SoundFrom(link, rows[1..], next, j) <==> SoundFrom(link, rows, expected, j + 1)
      {
        assert rows[1..][j] == rows[j + 1];
        assert j > 0 ==> rows[1..][j - 1] == rows[j];
      }
      ReplayReport(link, rows[1..], next, k - 1);
    }
  }

  /** Replay passes exactly the sound logs, and otherwise reports the first unsound row, and why. */
  lemma {:induction false} ReplayExact(link: Link, rows: seq<Row>)
    ensures Replay(link, rows, None) == Intact <==> AllSound(link, rows)
    ensures forall k :: 0 <= k < |rows| && !Sound(link, rows, k) && (forall j :: 0 <= j < k ==> Sound(link, rows, j))
              ==> Replay(link, rows, None) == Report(rows, None, k)
  {
    var k := 0;
    while k < |rows| && Sound(link, rows, k)
      invariant 0 <= k <= |rows|
      invariant forall j :: 0 <= j < k ==> Sound(link, rows, j)
    {
      k := k + 1;
    }
    assert forall j :: 0 <= j < |rows| ==> (SoundFrom(link, rows, None, j) <==> Sound(link, rows, j));
    ReplayReport(link, rows, None, k);
  }

  lemma {:induction false} FirstUnsoundReported(link: Link, rows: seq<Row>, k: nat)
    requires k < |rows| && !Sound(link, rows, k) && forall j :: 0 <= j < k ==> Sound(link, rows, j)
    ensures Replay(link, rows, None) == Report(rows, None, k)
  {
    assert forall j :: 0 <= j < |rows| ==> (SoundFrom(link, rows, None, j) <==> Sound(link, rows, j));
    ReplayReport(link, rows, None, k);
  }

  // ---- logs written by append ----------------------------------------------

  /** The hash a new row of the chain is linked to: `fetchPreviousHash`. */
  function HeadHash(rows: seq<Row>): (hash: string) {
    if rows == [] then GENESIS_PREVIOUS_HASH
    else if rows[|rows| - 1].eventHash.Some? then rows[|rows| - 1].eventHash.value
    else HeadHash(rows[..|rows| - 1])
  }

  /** The row `appendAuditEvent` commits: hashed as given, read back as stored. */
  function CommittedRow(link: Link, id: nat, p: Payload, previousHash: string): (r: Row) {
    Row(id, p.(metadata := Stored(p.metadata)), Some(previousHash), Some(link(p, previousHash)))
  }

  /** The event each id was committed for, as the caller gave it. */
  type Given = map<nat, Payload>

  function LinkedHash(rows: seq<Row>, legacy: nat, i: nat): (hash: string)
    requires legacy <= i <= |rows|
  {
    if i > legacy && rows[i - 1].eventHash.Some? then rows[i - 1].eventHash.value else GENESIS_PREVIOUS_HASH
  }

  /** Row i is what append commits for its event behind the row before it. */
  predicate LinkedAt(link: Link, given: Given, rows: seq<Row>, legacy: nat, i: nat)
    requires legacy <= i < |rows|
  {
    && rows[i].id in given
    && ValidPayload(given[rows[i].id])
    && rows[i] == CommittedRow(link, rows[i].id, given[rows[i].id], LinkedHash(rows, legacy, i))
  }

  /** `legacy` rows from before the chain, then rows each linked to the one before, the first to 'genesis'. */
  ghost predicate Genuine(link: Link, given: Given, rows: seq<Row>, legacy: nat) {
    && legacy <= |rows|
    && (forall i :: 0 <= i < legacy ==> rows[i].previousHash.None? && rows[i].eventHash.None?)
    && (forall i :: legacy <= i < |rows| ==> LinkedAt(link, given, rows, legacy, i))
  }

  lemma {:induction false} HeadOfGenuine(link: Link, given: Given, rows: seq<Row>, legacy: nat)
    requires Genuine(link, given, rows, legacy)
    ensures HeadHash(rows) == LinkedHash(rows, legacy, |rows|)
    decreases |rows|
  {
    if rows != [] {
      if |rows| == legacy {
        HeadOfGenuine(link, given, rows[..|rows| - 1], legacy - 1);
      } else {
        assert LinkedAt(link, given, rows, legacy, |rows| - 1);
      }
    }
  }

  predicate NewId(rows: seq<Row>, id: nat) { forall i :: 0 <= i < |rows| ==> rows[i].id != id }

  /** A chain is as genuine as it was when an event of another id is noted. */
  lemma NotedElsewhere(link: Link, given: Given, rows: seq<Row>, legacy: nat, id: nat, p: Payload)
    requires Genuine(link, given, rows, legacy) && NewId(rows, id)
    ensures Genuine(link, given[id := p], rows, legacy)
  {
    var noted := given[id := p];
    forall i | legacy <= i < |rows| ensures LinkedAt(link, noted, rows, legacy, i) {
      assert LinkedAt(link, given, rows, legacy, i);
    }
  }

  /** Committing any event, whatever its metadata, behind the head of its chain. */
  lemma {:induction false} AppendKeepsChain(link: Link, given: Given, rows: seq<Row>, legacy: nat, id: nat, p: Payload)
    requires Genuine(link, given, rows, legacy) && NewId(rows, id) && ValidPayload(p)
    ensures Genuine(link, given[id := p], rows + [CommittedRow(link, id, p, HeadHash(rows))], legacy)
  {
    HeadOfGenuine(link, given, rows, legacy);
    var noted, longer := given[id := p], rows + [CommittedRow(link, id, p, HeadHash(rows))];
    forall i | legacy <= i < |longer| ensures LinkedAt(link, noted, longer, legacy, i) {
      if i < |rows| {
        assert LinkedAt(link, given, rows, legacy, i);
      }
    }
  }

  predicate IdsAscend(rows: seq<Row>) {
    forall i, j :: 0 <= i < j < |rows| ==> rows[i].id < rows[j].id
  }

  /**
   * The rows `verifyAuditChain` is to walk: those of the tenant and the environment
   * with an id of at least startId, in id order, and of them the first `limit`.
   */
  ghost predicate IsWindow(table: seq<Row>, tenantId: string, environment: Option<string>, startId: nat, limit: nat,
                           window: seq<Row>) {
    && |window| <= limit && IdsAscend(window)
    && (forall r :: r in window ==>
          r in table && r.payload.tenantId == tenantId && r.payload.environment == environment && r.id >= startId)
    && (forall r :: r in table && r.payload.tenantId == tenantId && r.payload.environment == environment
                    && r.id >= startId && r !in window ==>
          |window| == limit && forall x :: x in window ==> x.id < r.id)
  }

  lemma {:induction false} ChainMembers(table: seq<Row>, tenantId: string, environment: Option<string>, startId: nat)
    ensures forall r :: r in ChainFrom(table, tenantId, environment, startId) <==>
              r in table && r.payload.tenantId == tenantId && r.payload.environment == environment && r.id >= startId
  {
    if table != [] {
      ChainMembers(table[1..], tenantId, environment, startId);
      assert table == [table[0]] + table[1..];
    }
  }

  lemma {:induction false} ChainAscends(table: seq<Row>, tenantId: string, environment: Option<string>, startId: nat)
    requires IdsAscend(table)
    ensures IdsAscend(ChainFrom(table, tenantId, environment, startId))
  {
    if table != [] {
      ChainAscends(table[1..], tenantId, environment, startId);
      ChainMembers(table[1..], tenantId, environment, startId);
      var rest := ChainFrom(table[1..], tenantId, environment, startId);
      forall j | 0 <= j < |rest| ensures table[0].id < rest[j].id {
        assert rest[j] in rest && rest[j] in table[1..];
      }
    }
  }

  lemma {:induction false} WindowRows(table: seq<Row>, tenantId: string, environment: Option<string>, startId: nat,
                                      limit: nat)
    requires IdsAscend(table)
    ensures IsWindow(table, tenantId, environment, startId, limit,
                     Limited(ChainFrom(table, tenantId, environment, startId), limit))
  {
    ChainMembers(table, tenantId, environment, startId);
    ChainAscends(table, tenantId, environment, startId);
    var rows := ChainFrom(table, tenantId, environment, startId);
    var window := Limited(rows, limit);
    assert forall k :: 0 <= k < |window| ==> window[k] == rows[k];
    forall r | r in rows && r !in window ensures |window| == limit && forall x :: x in window ==> x.id < r.id {
      var k :| 0 <= k < |rows| && rows[k] == r;
    }
  }

  /** A row of the tenant and the environment that has an event hash. */
  predicate Hashed(r: Row, tenantId: string, environment: Option<string>) {
    r.payload.tenantId == tenantId && r.payload.environment == environment && r.eventHash.Some?
  }

  /** What `fetchPreviousHash` is to return: the event hash of the last such row, or 'genesis' if there is none. */
  ghost predicate IsHead(rows: seq<Row>, tenantId: string, environment: Option<string>, hash: string) {
    || (hash == "genesis" && forall j :: 0 <= j < |rows| ==> !Hashed(rows[j], tenantId, environment))
    || exists j :: && 0 <= j < |rows| && Hashed(rows[j], tenantId, environment) && rows[j].eventHash == Some(hash)
                   && forall m :: j < m < |rows| ==> !Hashed(rows[m], tenantId, environment)
  }

  lemma {:induction false} ChainFromLast(front: seq<Row>, last: Row, tenantId: string, environment: Option<string>)
    ensures ChainFrom(front + [last], tenantId, environment, 0)
         == ChainFrom(front, tenantId, environment, 0) + (if InChain(last, tenantId, environment) then [last] else [])
  {
    if front == [] {
      assert front + [last] == [last] && [last][1..] == [];
    } else {
      assert (front + [last])[1..] == front[1..] + [last];
      ChainFromLast(front[1..], last, tenantId, environment);
      Associative(if InChain(front[0], tenantId, environment) then [front[0]] else [],
                  ChainFrom(front[1..], tenantId, environment, 0),
                  if InChain(last, tenantId, environment) then [last] else []);
    }
  }

  /** Any table, rows of other chains and rows without a hash in between included. */
  lemma {:induction false} HeadIs(rows: seq<Row>, tenantId: string, environment: Option<string>)
    ensures IsHead(rows, tenantId, environment, HeadHash(ChainFrom(rows, tenantId, environment, 0)))
    decreases |rows|
  {
    if rows != [] {
      var front, last := rows[..|rows| - 1], rows[|rows| - 1];
      assert rows == front + [last];
      HeadIs(front, tenantId, environment);
      ChainFromLast(front, last, tenantId, environment);
      HeadOfLonger(ChainFrom(front, tenantId, environment, 0), last);
      if !Hashed(last, tenantId, environment) {
        HeadStays(front, last, tenantId, environment, HeadHash(ChainFrom(front, tenantId, environment, 0)));
      }
    }
  }

  lemma {:induction false} HeadOfLonger(chain: seq<Row>, last: Row)
    ensures HeadHash(chain + [last]) == if last.eventHash.Some? then last.eventHash.value else HeadHash(chain)
    ensures HeadHash(chain + []) == HeadHash(chain)
  {
    assert (chain + [last])[..|chain|] == chain && chain + [] == chain;
  }

  lemma HeadStays(front: seq<Row>, last: Row, tenantId: string, environment: Option<string>, hash: string)
    requires IsHead(front, tenantId, environment, hash) && !Hashed(last, tenantId, environment)
    ensures IsHead(front + [last], tenantId, environment, hash)
  {
    var rows := front + [last];
    if j :| 0 <= j < |front| && Hashed(front[j], tenantId, environment) && front[j].eventHash == Some(hash)
            && forall m :: j < m < |front| ==> !Hashed(front[m], tenantId, environment)
    {
      assert rows[j] == front[j];
    }
  }

  /** A startId in an id-ordered chain cuts off a prefix of it. */
  lemma {:induction false} ChainFromIsSuffix(table: seq<Row>, tenantId: string, environment: Option<string>,
                                             startId: nat)
    returns (a: nat)
    requires IdsAscend(table)
    ensures a <= |ChainFrom(table, tenantId, environment, 0)|
    ensures ChainFrom(table, tenantId, environment, startId) == ChainFrom(table, tenantId, environment, 0)[a..]
    ensures table != [] && table[0].id >= startId ==> a == 0
  {
    if table == [] {
      a := 0;
    } else {
      assert table[1..] != [] ==> table[1..][0] == table[1];
      a := ChainFromIsSuffix(table[1..], tenantId, environment, startId);
      if InChain(table[0], tenantId, environment) && table[0].id < startId {
        a := a + 1;
      }
    }
  }

  lemma GenuineAt(link: Link, given: Given, rows: seq<Row>, legacy: nat, k: nat)
    requires Genuine(link, given, rows, legacy) && legacy <= k < |rows|
    ensures Chained(rows[k]) && rows[k].id in given && ValidPayload(given[rows[k].id])
    ensures rows[k].eventHash.value == link(given[rows[k].id], rows[k].previousHash.value)
    ensures k == legacy ==> rows[k].previousHash.value == GENESIS_PREVIOUS_HASH
    ensures k > legacy ==> rows[k].previousHash == rows[k - 1].eventHash
  {
    assert LinkedAt(link, given, rows, legacy, k);
    assert k > legacy ==> LinkedAt(link, given, rows, legacy, k - 1);
  }

  /** The row came back from the JSONB column as something other than what was hashed. */
  predicate Lossy(given: Given, r: Row) { r.id in given && Chained(r) && HasUndefined(given[r.id].metadata) }

  /** A committed row recomputes exactly when it is not lossy. */
  lemma CommittedRecomputes(link: Link, id: nat, p: Payload, previousHash: string)
    requires Binding(link) && ValidPayload(p)
    ensures Recomputes(link, CommittedRow(link, id, p, previousHash)) <==> !HasUndefined(p.metadata)
  {
    StoredReading(p.metadata);
    var stored := p.(metadata := Stored(p.metadata));
    assert link(stored, previousHash) == link(p, previousHash) <==> SamePayload(stored, p);
  }

  lemma GenuineRecomputes(link: Link, given: Given, rows: seq<Row>, legacy: nat, i: nat)
    requires Binding(link) && Genuine(link, given, rows, legacy) && i < |rows|
    ensures Recomputes(link, rows[i]) <==> !Lossy(given, rows[i])
  {
    if i >= legacy {
      var r, hash := rows[i], LinkedHash(rows, legacy, i);
      assert LinkedAt(link, given, rows, legacy, i);
      CommittedRecomputes(link, r.id, given[r.id], hash);
    }
  }

  lemma GenuineNamesPrevious(link: Link, given: Given, rows: seq<Row>, legacy: nat, i: nat)
    requires Genuine(link, given, rows, legacy) && i < |rows|
    ensures NamesPrevious(rows, i)
  {
    if i >= legacy {
      GenuineAt(link, given, rows, legacy, i);
    }
  }

  /** In any window of a genuine chain each row names its predecessor, and it recomputes unless it is lossy. */
  lemma WindowRow(link: Link, given: Given, rows: seq<Row>, legacy: nat, a: nat, b: nat, k: nat)
    requires Binding(link) && Genuine(link, given, rows, legacy) && a + k < b <= |rows|
    ensures NamesPrevious(rows[a..b], k)
    ensures Recomputes(link, rows[a + k]) <==> !Lossy(given, rows[a + k])
  {
    GenuineRecomputes(link, given, rows, legacy, a + k);
    GenuineNamesPrevious(link, given, rows, legacy, a + k);
  }

  /** Intact exactly without a lossy row, and else broken at the first one, for its event hash. */
  predicate VerdictIs(given: Given, window: seq<Row>, v: Verdict) {
    && (v == Intact <==> forall k :: 0 <= k < |window| ==> !Lossy(given, window[k]))
    && (forall k :: 0 <= k < |window| && Lossy(given, window[k])
                    && (forall j :: 0 <= j < k ==> !Lossy(given, window[j])) ==>
          v == BrokenAt(window[k].id, EventHashMismatch))
  }

  /**
   * What replay says of the window rows[a..b] of a chain written by append: intact
   * exactly when none of its events was given an `undefined`, and otherwise the
   * first such row is reported, for its event hash.
   */
  lemma {:induction false} WindowVerdict(link: Link, given: Given, rows: seq<Row>, legacy: nat, a: nat, b: nat)
    requires Binding(link) && Genuine(link, given, rows, legacy) && a <= b <= |rows|
    ensures VerdictIs(given, rows[a..b], Replay(link, rows[a..b], None))
  {
    var window := rows[a..b];
    forall k | 0 <= k < |window|
      ensures NamesPrevious(window, k) && (Sound(link, window, k) <==> !Lossy(given, window[k]))
    {
      WindowRow(link, given, rows, legacy, a, b, k);
    }
    ReplayExact(link, window);
  }

  /** The window a startId and a limit select is a slice of the chain. */
  lemma {:induction false} WindowIsSlice(table: seq<Row>, tenantId: string, environment: Option<string>, startId: nat,
                                         limit: nat)
    returns (a: nat, b: nat)
    requires IdsAscend(table)
    ensures a <= b <= |ChainFrom(table, tenantId, environment, 0)|
    ensures Limited(ChainFrom(table, tenantId, environment, startId), limit)
         == ChainFrom(table, tenantId, environment, 0)[a..b]
  {
    a := ChainFromIsSuffix(table, tenantId, environment, startId);
    var chain := ChainFrom(table, tenantId, environment, 0);
    b := if |chain| - a <= limit then |chain| else a + limit;
  }

  /** The same verdict for every startId and limit. */
  lemma {:induction false} WindowsVerdict(link: Link, given: Given, table: seq<Row>, tenantId: string,
                                          environment: Option<string>, legacy: nat, startId: nat, limit: nat)
    requires Binding(link) && IdsAscend(table)
    requires Genuine(link, given, ChainFrom(table, tenantId, environment, 0), legacy)
    ensures var window := Limited(ChainFrom(table, tenantId, environment, startId), limit);
            VerdictIs(given, window, Replay(link, window, None))
  {
    var a, b := WindowIsSlice(table, tenantId, environment, startId, limit);
    WindowVerdict(link, given, ChainFrom(table, tenantId, environment, 0), legacy, a, b);
  }

  /**
   * Event hashes of a chain never repeat, whatever was logged: a repeat would lead
   * back to 'genesis' being a hash.
   */
  lemma {:induction false} HashesDistinct(link: Link, given: Given, rows: seq<Row>, legacy: nat, i: nat, j: nat)
    requires Binding(link) && Genuine(link, given, rows, legacy) && legacy <= i < j < |rows|
    ensures rows[i].eventHash != rows[j].eventHash
    decreases i
  {
    GenuineAt(link, given, rows, legacy, i);
    GenuineAt(link, given, rows, legacy, j);
    GenuineAt(link, given, rows, legacy, j - 1);
    if i > legacy {
      GenuineAt(link, given, rows, legacy, i - 1);
      HashesDistinct(link, given, rows, legacy, i - 1, j - 1);
    }
    var r, s := rows[i], rows[j];
    assert r.previousHash.value != s.previousHash.value;
    assert link(given[r.id], r.previousHash.value) != link(given[s.id], s.previousHash.value);
  }

  // ---- tamper evidence -----------------------------------------------------

  predicate AllChained(rows: seq<Row>) {
    forall i :: 0 <= i < |rows| ==> Chained(rows[i]) && ValidPayload(rows[i].payload)
  }

  /** Counting back from the end, the two logs agree as far as both go. */
  ghost predicate AgreeAtEnd(rows: seq<Row>, other: seq<Row>) {
    forall i, j :: 0 <= i < |rows| && 0 <= j < |other| && |rows| - i == |other| - j ==> SameRow(rows[i], other[j])
  }

  lemma {:induction false} AgreeBack(link: Link, rows: seq<Row>, other: seq<Row>, i: nat, j: nat)
    requires Binding(link) && AllChained(rows) && AllChained(other)
    requires AllSound(link, rows) && AllSound(link, other)
    requires i < |rows| && j < |other| && |rows| - i == |other| - j
    requires rows[|rows| - 1].eventHash == other[|other| - 1].eventHash
    ensures SameRow(rows[i], other[j])
    decreases |rows| - i
  {
    assert Sound(link, rows, i) && Sound(link, other, j);
    if i + 1 < |rows| {
      AgreeBack(link, rows, other, i + 1, j + 1);
      assert Sound(link, rows, i + 1) && Sound(link, other, j + 1);
    }
    assert rows[i].eventHash == other[j].eventHash;
  }

  /**
   * Two logs that both pass replay and end in the same event hash agree row by
   * row from the end; if both begin at 'genesis' they have the same length, so
   * they are the same log.
   */
  lemma {:induction false} TamperEvidence(link: Link, rows: seq<Row>, other: seq<Row>)
    requires Binding(link) && AllChained(rows) && AllChained(other)
    requires Replay(link, rows, None) == Intact && Replay(link, other, None) == Intact
    requires rows != [] && other != [] && rows[|rows| - 1].eventHash == other[|other| - 1].eventHash
    ensures AgreeAtEnd(rows, other)
    ensures rows[0].previousHash == other[0].previousHash == Some(GENESIS_PREVIOUS_HASH) ==>
              |rows| == |other| && forall i :: 0 <= i < |rows| ==> SameRow(rows[i], other[i])
  {
    ReplayExact(link, rows);
    ReplayExact(link, other);
    forall i, j | 0 <= i < |rows| && 0 <= j < |other| && |rows| - i == |other| - j
      ensures SameRow(rows[i], other[j])
    {
      AgreeBack(link, rows, other, i, j);
    }
    if rows[0].previousHash == other[0].previousHash == Some(GENESIS_PREVIOUS_HASH) {
      GenesisIsFirst(link, rows);
      GenesisIsFirst(link, other);
      var n, m := |rows|, |other|;
      assert n >= m ==> SameRow(rows[n - m], other[0]);
      assert m >= n ==> SameRow(rows[0], other[m - n]);
    }
  }

  /** Nothing in the log's metadata is `[undefined]`, as in every log read back from the table. */
  predicate AsRead(rows: seq<Row>) { forall i :: 0 <= i < |rows| ==> NoLone(rows[i].payload.metadata) }

  predicate EqualRow(r: Row, s: Row) {
    r.previousHash == s.previousHash && r.eventHash == s.eventHash && EqualPayload(r.payload, s.payload)
  }

  /** The same statement for the hash of the source; on logs as read it says equality of values. */
  lemma {:induction false} AuditTamperEvidence(sha: HashFunction, rows: seq<Row>, other: seq<Row>)
    requires Injective(sha) && AllChained(rows) && AllChained(other)
    requires Replay(EventLink(sha), rows, None) == Intact && Replay(EventLink(sha), other, None) == Intact
    requires rows != [] && other != [] && rows[|rows| - 1].eventHash == other[|other| - 1].eventHash
    ensures AgreeAtEnd(rows, other)
    ensures rows[0].previousHash == other[0].previousHash == Some(GENESIS_PREVIOUS_HASH) ==>
              |rows| == |other| && forall i :: 0 <= i < |rows| ==> SameRow(rows[i], other[i])
    ensures AsRead(rows) && AsRead(other) ==>
              forall i, j :: 0 <= i < |rows| && 0 <= j < |other| && |rows| - i == |other| - j ==>
                  EqualRow(rows[i], other[j])
  {
    EventLinkBinds(sha);
    TamperEvidence(EventLink(sha), rows, other);
    if AsRead(rows) && AsRead(other) {
      forall i, j | 0 <= i < |rows| && 0 <= j < |other| && |rows| - i == |other| - j
        ensures EqualRow(rows[i], other[j])
      {
        SamePayloadIsEqual(rows[i].payload, other[j].payload);
      }
    }
  }

  /** No later row of an intact log is linked to 'genesis'. */
  lemma GenesisIsFirst(link: Link, rows: seq<Row>)
    requires Binding(link) && AllChained(rows) && AllSound(link, rows)
    ensures forall k :: 0 < k < |rows| ==> rows[k].previousHash != Some(GENESIS_PREVIOUS_HASH)
  {
    forall k | 0 < k < |rows| ensures rows[k].previousHash != Some(GENESIS_PREVIOUS_HASH) {
      assert Sound(link, rows, k) && Sound(link, rows, k - 1);
    }
  }

  // ---- one row changed -----------------------------------------------------

  predicate Unhashed(r: Row) { !Chained(r) }

  /** The replacement recomputes and names the hash of the row before it, if that has one. */
  predicate SelfConsistent(link: Link, rows: seq<Row>, k: nat, r: Row)
    requires k < |rows|
  {
    && Chained(r)
    && r.eventHash.value == link(r.payload, r.previousHash.value)
    && (k > 0 && Chained(rows[k - 1]) ==> r.previousHash == rows[k - 1].eventHash)
  }

  /** The row after k, if there is one and it is hashed, names this hash. */
  predicate Followed(rows: seq<Row>, k: nat, hash: Option<string>)
    requires k < |rows|
  {
    k + 1 < |rows| && Chained(rows[k + 1]) ==> rows[k + 1].previousHash == hash
  }

  /**
   * Replay after row k of an intact window was replaced, for every window, rows
   * from before the chain included, and every replacement: reported at row k unless
   * the new row is self-consistent or lost its hashes; a self-consistent row whose
   * hash its successor does not name is reported there. Where row k was hashed, the
   * successor names the new hash exactly if it is the old one, or no hashed row
   * follows.
   */
  lemma ReplacedRowVerdict(link: Link, rows: seq<Row>, k: nat, r: Row)
    requires k < |rows| && Replay(link, rows, None) == Intact && r.id == rows[k].id
    ensures Replay(link, rows[k := r], None)
         == if Unhashed(r) then Intact
            else if !SelfConsistent(link, rows, k, r) then Report(rows[k := r], None, k)
            else if Followed(rows, k, r.eventHash) then Intact
            else BrokenAt(rows[k + 1].id, PreviousHashMismatch)
    ensures Chained(rows[k]) ==>
              (Followed(rows, k, r.eventHash) <==>
                 r.eventHash == rows[k].eventHash || k == |rows| - 1 || Unhashed(rows[k + 1]))
  {
    var changed := rows[k := r];
    ReplayExact(link, rows);
    forall j | 0 <= j < |rows| && j != k && j != k + 1 ensures Sound(link, changed, j) {
      assert Sound(link, rows, j);
    }
    assert k + 1 < |rows| ==> Sound(link, rows, k + 1);
    if Chained(r) && !SelfConsistent(link, rows, k, r) {
      FirstUnsoundReported(link, changed, k);
    } else if Chained(r) && !Followed(rows, k, r.eventHash) {
      FirstUnsoundReported(link, changed, k + 1);
    } else {
      ReplayExact(link, changed);
    }
  }

  /** Changing what the hash covers, and leaving the stored hash alone, is reported at that very row. */
  lemma AlteredRowReported(link: Link, rows: seq<Row>, k: nat, r: Row)
    requires Binding(link) && k < |rows| && Replay(link, rows, None) == Intact
    requires Chained(rows[k]) && ValidPayload(rows[k].payload)
    requires r.id == rows[k].id && Chained(r) && ValidPayload(r.payload)
    requires r.eventHash == rows[k].eventHash && !SameRow(r, rows[k])
    ensures Replay(link, rows[k := r], None).BrokenAt? && Replay(link, rows[k := r], None).id == rows[k].id
  {
    ReplayExact(link, rows);
    assert Sound(link, rows, k);
    ReplacedRowVerdict(link, rows, k, r);
  }

  /**
   * Deleting row k from any intact window: reported at the next surviving row, for
   * its previous hash, exactly when its two neighbours are there, are hashed, and
   * do not happen to fit each other.
   */
  lemma {:induction false} DeletedRowVerdict(link: Link, rows: seq<Row>, k: nat)
    requires k < |rows| && Replay(link, rows, None) == Intact
    ensures Replay(link, rows[..k] + rows[k + 1..], None)
         == if k > 0 && Chained(rows[k - 1]) && !Followed(rows, k, rows[k - 1].eventHash)
            then BrokenAt(rows[k + 1].id, PreviousHashMismatch) else Intact
  {
    var kept := rows[..k] + rows[k + 1..];
    ReplayExact(link, rows);
    forall j | 0 <= j < |kept| && j != k ensures Sound(link, kept, j) {
      var i := if j < k then j else j + 1;
      assert kept[j] == rows[i] && (j > 0 ==> kept[j - 1] == rows[i - 1]);
      assert Sound(link, rows, i);
    }
    assert k + 1 < |rows| ==> kept[k] == rows[k + 1] && Sound(link, rows, k + 1);
    if k > 0 && Chained(rows[k - 1]) && !Followed(rows, k, rows[k - 1].eventHash) {
      FirstUnsoundReported(link, kept, k);
    } else {
      ReplayExact(link, kept);
    }
  }

  /**
   * In an intact window of a chain written by append that is to say: exactly when
   * the deleted row was neither first nor last of the window nor first of the chain.
   */
  lemma DeletedChainRowVerdict(link: Link, given: Given, rows: seq<Row>, legacy: nat, a: nat, b: nat, k: nat)
    requires Binding(link) && Genuine(link, given, rows, legacy) && a <= k < b <= |rows|
    requires Replay(link, rows[a..b], None) == Intact
    ensures Replay(link, rows[a..k] + rows[k + 1..b], None)
         == if a < k < b - 1 && legacy < k then BrokenAt(rows[k + 1].id, PreviousHashMismatch) else Intact
  {
    var window := rows[a..b];
    assert rows[a..k] == window[..k - a] && rows[k + 1..b] == window[k - a + 1..];
    DeletedRowVerdict(link, window, k - a);
    if a < k < b - 1 && legacy < k {
      HashesDistinct(link, given, rows, legacy, k - 1, k);
      GenuineAt(link, given, rows, legacy, k + 1);
      GenuineAt(link, given, rows, legacy, k - 1);
    }
  }

  // ---- the store round trip ------------------------------------------------

  /** Some property or item below the value is `undefined`. */
  predicate HasUndefined(v: Js) {
    match v
    case Undefined => true
    case Arr(items) => exists i :: 0 <= i < |items| && HasUndefined(items[i])
    case Obj(fields) => exists i :: 0 <= i < |fields| && HasUndefined(fields[i].value)
    case _ => false
  }

  /**
   * What a later SELECT returns for a value written with `JSON.stringify` into a
   * JSONB column: undefined properties are omitted, undefined items become null.
   */
  function Stored(v: Js): (r: Js)
    ensures v.Obj? <==> r.Obj?
  {
    match v
    case Undefined => Null
    case Arr(items) => Arr(StoredItems(items))
    case Obj(fields) => Obj(StoredFields(fields))
    case _ => v
  }

  function StoredItems(items: seq<Js>): (r: seq<Js>)
    ensures |r| == |items| && forall i :: 0 <= i < |items| ==> r[i] == Stored(items[i])
  {
    if items == [] then [] else [Stored(items[0])] + StoredItems(items[1..])
  }

  function StoredFields(fields: seq<Entry<Js>>): (r: seq<Entry<Js>>)
    ensures forall e :: e in r <==>
              exists i :: 0 <= i < |fields| && !fields[i].value.Undefined?
                          && e == Entry(fields[i].key, Stored(fields[i].value))
  {
    if fields == [] then []
    else
      var f := fields[0];
      var rest := StoredFields(fields[1..]);
      assert fields == [f] + fields[1..];
      if f.value.Undefined? then rest else [Entry(f.key, Stored(f.value))] + rest
  }

  lemma {:induction false} StoredKeysDistinct(fields: seq<Entry<Js>>)
    requires DistinctKeys(fields)
    ensures DistinctKeys(StoredFields(fields))
  {
    if fields != [] {
      StoredKeysDistinct(fields[1..]);
      var rest := StoredFields(fields[1..]);
      forall j | 0 <= j < |rest| ensures rest[j].key != fields[0].key {
        assert rest[j] in rest;
        var i :| 0 <= i < |fields[1..]| && rest[j].key == fields[1..][i].key;
        assert fields[1..][i] == fields[i + 1];
      }
    }
  }

  lemma {:induction false} StoredMeaning(v: Js)
    requires Valid(v)
    ensures Valid(Stored(v))
    ensures Denote(Stored(v)) == Denote(v) <==> !HasUndefined(v)
  {
    match v
    case Arr(items) =>
      forall i | 0 <= i < |items|
        ensures Valid(Stored(items[i])) && (Denote(Stored(items[i])) == Denote(items[i]) <==> !HasUndefined(items[i]))
      {
        StoredMeaning(items[i]);
      }
      var m, n := DenoteItems(StoredItems(items)), DenoteItems(items);
      assert m == n <==> forall i :: 0 <= i < |items| ==> m[i] == n[i];
    case Obj(fields) =>
      forall i | 0 <= i < |fields| ensures ValueStored(fields[i].value) {
        StoredMeaning(fields[i].value);
      }
      StoredKeysDistinct(fields);
      StoredFieldsMeaning(fields);
    case _ =>
  }

  /** Storing keeps the meaning of each value that holds no `undefined`, and of no other. */
  ghost predicate ValuesStored(fields: seq<Entry<Js>>) {
    forall i :: 0 <= i < |fields| ==> ValueStored(fields[i].value)
  }

  predicate ValueStored(v: Js) { Valid(Stored(v)) && (Denote(Stored(v)) == Denote(v) <==> !HasUndefined(v)) }

  lemma {:induction false} StoredFieldsMeaning(fields: seq<Entry<Js>>)
    requires DistinctKeys(fields) && DistinctKeys(StoredFields(fields)) && ValuesStored(fields)
    ensures Valid(Obj(StoredFields(fields)))
    ensures DenoteFields(StoredFields(fields)) == DenoteFields(fields) <==>
            forall i :: 0 <= i < |fields| ==> !HasUndefined(fields[i].value)
  {
    StoredFieldsValid(fields);
    var m, n := DenoteFields(StoredFields(fields)), DenoteFields(fields);
    assert m.Keys <= n.Keys;
    MapsEqual(m, n);
    forall i | 0 <= i < |fields| ensures !HasUndefined(fields[i].value) <==> AgreeOn(m, n, fields[i].key) {
      StoredFieldAgrees(fields, i);
    }
    KeysAreFields(m, n, fields);
  }

  predicate AgreeOn(m: map<string, Value>, n: map<string, Value>, k: string)
    requires k in n
  {
    k in m && m[k] == n[k]
  }

  lemma MapsEqual(m: map<string, Value>, n: map<string, Value>)
    requires m.Keys <= n.Keys
    ensures m == n <==> forall k :: k in n ==> AgreeOn(m, n, k)
  {
  }

  lemma KeysAreFields(m: map<string, Value>, n: map<string, Value>, fields: seq<Entry<Js>>)
    requires n.Keys == set i | 0 <= i < |fields| :: fields[i].key
    ensures (forall k :: k in n ==> AgreeOn(m, n, k)) <==>
            forall i :: 0 <= i < |fields| ==> AgreeOn(m, n, fields[i].key)
  {
    forall k | k in n ensures exists i :: 0 <= i < |fields| && fields[i].key == k {
      assert k in n.Keys;
    }
  }

  lemma {:induction false} StoredFieldsValid(fields: seq<Entry<Js>>)
    requires DistinctKeys(StoredFields(fields)) && ValuesStored(fields)
    ensures Valid(Obj(StoredFields(fields)))
    ensures DenoteFields(StoredFields(fields)).Keys <= DenoteFields(fields).Keys
  {
    var gs := StoredFields(fields);
    forall j | 0 <= j < |gs| ensures Valid(gs[j].value) && gs[j].key in DenoteFields(fields) {
      assert gs[j] in gs;
      var i :| 0 <= i < |fields| && gs[j] == Entry(fields[i].key, Stored(fields[i].value));
      assert ValueStored(fields[i].value);
    }
  }

  lemma {:induction false} StoredFieldAgrees(fields: seq<Entry<Js>>, i: nat)
    requires DistinctKeys(fields) && DistinctKeys(StoredFields(fields)) && i < |fields| && ValueStored(fields[i].value)
    ensures !HasUndefined(fields[i].value) <==>
            AgreeOn(DenoteFields(StoredFields(fields)), DenoteFields(fields), fields[i].key)
  {
    StoredKey(fields, i);
  }

  lemma {:induction false} StoredKey(fields: seq<Entry<Js>>, i: nat)
    requires DistinctKeys(fields) && DistinctKeys(StoredFields(fields)) && i < |fields|
    ensures var m := DenoteFields(StoredFields(fields));
            if fields[i].value.Undefined? then fields[i].key !in m
            else fields[i].key in m && m[fields[i].key] == Denote(Stored(fields[i].value))
  {
    if fields[i].value.Undefined? {
      StoredKeyAbsent(fields, i);
    } else {
      var gs := StoredFields(fields);
      var e := Entry(fields[i].key, Stored(fields[i].value));
      assert e in gs;
      var j :| 0 <= j < |gs| && gs[j] == e;
    }
  }

  lemma {:induction false} StoredKeyAbsent(fields: seq<Entry<Js>>, i: nat)
    requires DistinctKeys(fields) && i < |fields| && fields[i].value.Undefined?
    ensures fields[i].key !in DenoteFields(StoredFields(fields))
  {
    var gs := StoredFields(fields);
    forall j | 0 <= j < |gs| ensures gs[j].key != fields[i].key {
      assert gs[j] in gs;
    }
  }

  /**
   * `JSON.stringify` and back on values: a property that is undefined is not there,
   * an undefined item is null, and all else is as it was.
   */
  function RoundTripped(v: Value): (r: Value) {
    match v
    case VUndefined => VNull
    case VArr(items) => VArr(seq(|items|, i requires 0 <= i < |items| => RoundTripped(items[i])))
    case VObj(m) => VObj(map k | k in m && m[k] != VUndefined :: RoundTripped(m[k]))
    case _ => v
  }

  lemma {:induction false} StoredValue(v: Js)
    requires Valid(v)
    ensures Denote(Stored(v)) == RoundTripped(Denote(v))
  {
    match v
    case Arr(items) =>
      forall i | 0 <= i < |items| ensures Denote(Stored(items[i])) == RoundTripped(Denote(items[i])) {
        StoredValue(items[i]);
      }
      assert DenoteItems(StoredItems(items))
          == seq(|items|, i requires 0 <= i < |items| => RoundTripped(DenoteItems(items)[i]));
    case Obj(fields) =>
      StoredKeysDistinct(fields);
      var m, n := DenoteFields(StoredFields(fields)), DenoteFields(fields);
      forall i | 0 <= i < |fields|
        ensures if n[fields[i].key] == VUndefined then fields[i].key !in m
                else fields[i].key in m && m[fields[i].key] == RoundTripped(n[fields[i].key])
      {
        StoredValue(fields[i].value);
        StoredKey(fields, i);
        OnlyUndefined(fields[i].value);
      }
      var gs := StoredFields(fields);
      forall k | k in m ensures k in n {
        var j :| 0 <= j < |gs| && gs[j].key == k;
        assert gs[j] in gs;
      }
      SameAsRoundTripped(fields, m, n);
    case _ =>
  }

  lemma {:induction false} OnlyUndefined(v: Js)
    ensures Denote(v) == VUndefined <==> v == Undefined
  {
  }

  lemma SameAsRoundTripped(fields: seq<Entry<Js>>, m: map<string, Value>, n: map<string, Value>)
    requires n.Keys == (set i | 0 <= i < |fields| :: fields[i].key) && m.Keys <= n.Keys
    requires forall i :: 0 <= i < |fields| ==>
               if n[fields[i].key] == VUndefined then fields[i].key !in m
               else fields[i].key in m && m[fields[i].key] == RoundTripped(n[fields[i].key])
    ensures VObj(m) == RoundTripped(VObj(n))
  {
    var r := map k | k in n && n[k] != VUndefined :: RoundTripped(n[k]);
    forall k | k in n ensures k in m <==> k in r {
      var i :| 0 <= i < |fields| && fields[i].key == k;
    }
    forall k | k in m ensures m[k] == r[k] {
      var i :| 0 <= i < |fields| && fields[i].key == k;
    }
    assert m == r;
  }

  lemma {:induction false} StoredNoLone(v: Js)
    ensures NoLone(Stored(v))
  {
    match v
    case Arr(items) =>
      forall i | 0 <= i < |items| ensures NoLone(Stored(items[i])) {
        StoredNoLone(items[i]);
      }
      assert items != [] ==> StoredItems(items)[0] != Undefined;
    case Obj(fields) =>
      var gs := StoredFields(fields);
      forall j | 0 <= j < |gs| ensures NoLone(gs[j].value) {
        assert gs[j] in gs;
        var i :| 0 <= i < |fields| && gs[j] == Entry(fields[i].key, Stored(fields[i].value));
        StoredNoLone(fields[i].value);
      }
    case _ =>
  }

  /** What the text of a value with `undefined` shows is never what the text of the stored value shows. */
  lemma {:induction false} StoredReadsDifferently(v: Js)
    requires Valid(v) && HasUndefined(v)
    ensures Reading(Stored(v)) != Reading(v)
  {
    match v
    case Undefined =>
    case Arr(items) =>
      var i :| 0 <= i < |items| && HasUndefined(items[i]);
      StoredReadsDifferently(items[i]);
      ItemReadsDifferently(items, i);
    case Obj(fields) =>
      var i :| 0 <= i < |fields| && HasUndefined(fields[i].value);
      StoredReadsDifferently(fields[i].value);
      StoredKeysDistinct(fields);
      FieldReadsDifferently(fields, i);
  }

  lemma {:induction false} ItemReadsDifferently(items: seq<Js>, i: nat)
    requires i < |items| && Reading(Stored(items[i])) != Reading(items[i])
    ensures Reading(Arr(StoredItems(items))) != Reading(Arr(items))
  {
    ArrReading(items);
    ArrReading(StoredItems(items));
    assert StoredItems(items)[0] != Undefined;
    if items != [Undefined] {
      assert Readings(StoredItems(items))[i] != Readings(items)[i];
    }
  }

  lemma ArrReading(items: seq<Js>)
    ensures Reading(Arr(items)) == VArr(if items == [Undefined] then [] else Readings(items))
  {
  }

  lemma {:induction false} FieldReadsDifferently(fields: seq<Entry<Js>>, i: nat)
    requires DistinctKeys(fields) && DistinctKeys(StoredFields(fields)) && i < |fields|
    requires Reading(Stored(fields[i].value)) != Reading(fields[i].value)
    ensures Reading(Obj(StoredFields(fields))) != Reading(Obj(fields))
  {
    var key, gs := fields[i].key, StoredFields(fields);
    ObjReading(fields, i);
    if fields[i].value.Undefined? {
      StoredKeyAbsent(fields, i);
      ObjReadingKeys(gs);
    } else {
      var e := Entry(key, Stored(fields[i].value));
      assert e in gs;
      var j :| 0 <= j < |gs| && gs[j] == e;
      ObjReading(gs, j);
    }
  }

  lemma ObjReading(fields: seq<Entry<Js>>, i: nat)
    requires DistinctKeys(fields) && i < |fields|
    ensures Reading(Obj(fields)).VObj? && fields[i].key in Reading(Obj(fields)).m
    ensures Reading(Obj(fields)).m[fields[i].key] == Reading(fields[i].value)
  {
    assert SquashFields(fields)[i] == Entry(fields[i].key, Squash(fields[i].value));
  }

  lemma {:induction false} ObjReadingKeys(fields: seq<Entry<Js>>)
    ensures Reading(Obj(fields)).VObj? && Reading(Obj(fields)).m.Keys == DenoteFields(fields).Keys
  {
    var gs := SquashFields(fields);
    assert forall i :: 0 <= i < |fields| ==> gs[i].key == fields[i].key;
    assert (set i | 0 <= i < |gs| :: gs[i].key) == set i | 0 <= i < |fields| :: fields[i].key;
  }

  /** The hash of the stored metadata is that of the metadata given if and only if nothing in it was `undefined`. */
  lemma {:induction false} StoredReading(v: Js)
    requires Valid(v)
    ensures Valid(Stored(v))
    ensures Reading(Stored(v)) == Reading(v) <==> !HasUndefined(v)
  {
    StoredMeaning(v);
    if HasUndefined(v) {
      StoredReadsDifferently(v);
    } else {
      SameValueSameReading(Stored(v), v);
    }
  }

  /**
   * A freshly committed row passes replay if and only if nothing in the metadata
   * it was given is `undefined`.
   */
  lemma CommittedRowReplays(link: Link, id: nat, p: Payload, previousHash: string)
    requires Binding(link) && ValidPayload(p)
    ensures Replay(link, [CommittedRow(link, id, p, previousHash)], None) == Intact <==> !HasUndefined(p.metadata)
  {
    var row := CommittedRow(link, id, p, previousHash);
    CommittedRecomputes(link, id, p, previousHash);
    ReplayExact(link, [row]);
    assert Sound(link, [row], 0) <==> Recomputes(link, row);
  }

  const CLAIMED_NAMES := ["did_sha256", "proofMs", "platform", "playIntegrityVerdict", "correlationId"]

  /** The metadata of the `pairing.claimed` event; three of its values come from the client as they are. */
  function ClaimedMetadata(didHash: string, proofMs: Js, platform: Js, verdict: Js, correlationId: string): (v: Js)
    ensures v.Obj?
  {
    Record(CLAIMED_NAMES, [Str(didHash), proofMs, platform, verdict, Str(correlationId)])
  }

  /** A value of a JSON request body, or `undefined` for a property it lacks. */
  predicate FromBody(v: Js) { v == Undefined || (Valid(v) && !HasUndefined(v)) }

  lemma ClaimedMetadataValid(didHash: string, proofMs: Js, platform: Js, verdict: Js, correlationId: string)
    requires FromBody(proofMs) && FromBody(platform) && FromBody(verdict)
    ensures Valid(ClaimedMetadata(didHash, proofMs, platform, verdict, correlationId))
    ensures HasUndefined(ClaimedMetadata(didHash, proofMs, platform, verdict, correlationId)) <==>
            Undefined in [proofMs, platform, verdict]
  {
    var values := [Str(didHash), proofMs, platform, verdict, Str(correlationId)];
    ClaimedNamesDistinct();
    ValuesFromBody(values, proofMs, platform, verdict);
    RecordUndefined(CLAIMED_NAMES, values);
  }

  lemma ClaimedNamesDistinct()
    ensures DistinctNames(CLAIMED_NAMES)
  {
  }

  lemma ValuesFromBody(values: seq<Js>, proofMs: Js, platform: Js, verdict: Js)
    requires |values| == 5 && values[0].Str? && values[4].Str?
    requires values[1] == proofMs && values[2] == platform && values[3] == verdict
    requires FromBody(proofMs) && FromBody(platform) && FromBody(verdict)
    ensures forall i :: 0 <= i < 5 ==> Valid(values[i])
    ensures (exists i :: 0 <= i < |values| && HasUndefined(values[i])) <==> Undefined in [proofMs, platform, verdict]
  {
    FiveValues(values);
    assert forall v :: v in [proofMs, platform, verdict] <==> v == proofMs || v == platform || v == verdict;
  }

  lemma RecordUndefined(keys: seq<string>, values: seq<Js>)
    requires |keys| == |values|
    ensures HasUndefined(Record(keys, values)) <==> exists i :: 0 <= i < |values| && HasUndefined(values[i])
  {
    var fields := Record(keys, values).fields;
    assert forall i :: 0 <= i < |values| ==> fields[i].value == values[i];
  }

  lemma FiveValues(values: seq<Js>)
    requires |values| == 5
    ensures (exists i :: 0 <= i < |values| && HasUndefined(values[i])) <==>
            || HasUndefined(values[0]) || HasUndefined(values[1]) || HasUndefined(values[2])
            || HasUndefined(values[3]) || HasUndefined(values[4])
  {
  }

  lemma ClaimedMetadataIs(didHash: string, proofMs: Js, platform: Js, verdict: Js, correlationId: string)
    ensures ClaimedMetadata(didHash, proofMs, platform, verdict, correlationId)
         == Obj([Entry("did_sha256", Str(didHash)), Entry("proofMs", proofMs), Entry("platform", platform),
                 Entry("playIntegrityVerdict", verdict), Entry("correlationId", Str(correlationId))])
  {
  }

  /** The row of a successful login passes replay exactly when the client sent all three of its optional values. */
  lemma ClaimedRowReplays(link: Link, id: nat, p: Payload, previousHash: string,
                          didHash: string, proofMs: Js, platform: Js, verdict: Js, correlationId: string)
    requires Binding(link) && FromBody(proofMs) && FromBody(platform) && FromBody(verdict)
    requires p.metadata == Obj([Entry("did_sha256", Str(didHash)), Entry("proofMs", proofMs),
                                Entry("platform", platform), Entry("playIntegrityVerdict", verdict),
                                Entry("correlationId", Str(correlationId))])
    ensures Replay(link, [CommittedRow(link, id, p, previousHash)], None) == Intact <==>
            proofMs != Undefined && platform != Undefined && verdict != Undefined
  {
    ClaimedMetadataIs(didHash, proofMs, platform, verdict, correlationId);
    ClaimedMetadataValid(didHash, proofMs, platform, verdict, correlationId);
    CommittedRowReplays(link, id, p, previousHash);
  }

  /** Whatever the hash function: payloads that read the same have the same event hash. */
  lemma SamePayloadSameHash(sha: HashFunction, p: Payload, q: Payload, previousHash: string)
    requires ValidPayload(p) && ValidPayload(q) && SamePayload(p, q)
    ensures EventHash(sha, p, previousHash) == EventHash(sha, q, previousHash)
  {
    PayloadReading(p, q);
    CanonicalizeExact(PayloadJs(p), PayloadJs(q));
  }

  /** Two events the chain cannot tell apart: an array of one `undefined`, and an empty one. */
  lemma UndefinedItemUnseen(sha: HashFunction, p: Payload, q: Payload, key: string, previousHash: string)
    requires p.metadata == Obj([Entry(key, Arr([Undefined]))])
    requires q == p.(metadata := Obj([Entry(key, Arr([]))]))
    ensures EventHash(sha, p, previousHash) == EventHash(sha, q, previousHash)
    ensures !EqualPayload(p, q)
  {
    assert SquashFields(p.metadata.fields) == SquashFields(q.metadata.fields);
    SamePayloadSameHash(sha, p, q, previousHash);
    LoneUndefinedCollides();
    assert DenoteFields(p.metadata.fields)[key] == Denote(Arr([Undefined]));
    assert DenoteFields(q.metadata.fields)[key] == Denote(Arr([]));
  }
}

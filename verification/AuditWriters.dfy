/**
 * `appendAuditEvent` of src/services/audit.ts run by any number of writers at
 * once: begin, advisory lock, read of the chain head, insert, then commit or
 * abort, each a step of its own. Inserted rows are invisible to other writers
 * until they commit; an abort (rollback or crash) releases the lock and leaves a
 * gap in the ids.
 */
module AuditWriters {
  import opened JsText
  import opened AuditChain
  import opened Runtime
  import opened Sequences

  datatype Writer =
    | Begun(payload: Payload)
    | Locked(payload: Payload)
    | KnowsHead(payload: Payload, previousHash: string)
    | Inserted(payload: Payload, row: Row)

  /**
   * Committed rows in id order, the id sequence, the advisory locks and the open
   * transactions; and, for the statements only, the event each committed row was given.
   */
  datatype State = State(table: seq<Row>, nextId: nat, locks: map<int, nat>, writers: map<nat, Writer>, given: Given)

  datatype Action =
    | Begin(w: nat, payload: Payload)
    | Lock(w: nat)
    | ReadHead(w: nat)
    | Insert(w: nat)
    | Commit(w: nat)
    | Abort(w: nat)

  /** `hashtext(tenant_id)`: two tenants may share a key. */
  type LockKey = string -> int

  function Chain(table: seq<Row>, p: Payload): (rows: seq<Row>) {
    ChainFrom(table, p.tenantId, p.environment, 0)
  }

  function InsertById(table: seq<Row>, row: Row): (r: seq<Row>) {
    if table == [] || row.id < table[0].id then [row] + table else [table[0]] + InsertById(table[1..], row)
  }

  /** End of a transaction: the writer is gone and so is the lock it held. */
  function Finished(key: LockKey, s: State, w: nat): (s': State)
    requires w in s.writers
  {
    var k := key(s.writers[w].payload.tenantId);
    s.(writers := s.writers - {w}, locks := if k in s.locks && s.locks[k] == w then s.locks - {k} else s.locks)
  }

  /** One step; a step that is not enabled changes nothing. */
  function Next(link: Link, key: LockKey, s: State, a: Action): (s': State) {
    match a
    case Begin(w, p) =>
      if w in s.writers then s else s.(writers := s.writers[w := Begun(p)])
    case Lock(w) =>
      if w in s.writers && s.writers[w].Begun? && key(s.writers[w].payload.tenantId) !in s.locks then
        s.(locks := s.locks[key(s.writers[w].payload.tenantId) := w],
           writers := s.writers[w := Locked(s.writers[w].payload)])
      else s
    case ReadHead(w) =>
      if w in s.writers && s.writers[w].Locked? then
        var p := s.writers[w].payload;
        s.(writers := s.writers[w := KnowsHead(p, HeadHash(Chain(s.table, p)))])
      else s
    case Insert(w) =>
      if w in s.writers && s.writers[w].KnowsHead? then
        var row := CommittedRow(link, s.nextId, s.writers[w].payload, s.writers[w].previousHash);
        s.(nextId := s.nextId + 1, writers := s.writers[w := Inserted(s.writers[w].payload, row)])
      else s
    case Commit(w) =>
      if w in s.writers && s.writers[w].Inserted? then
        var row := s.writers[w].row;
        Finished(key, s.(table := InsertById(s.table, row), given := s.given[row.id := s.writers[w].payload]), w)
      else s
    case Abort(w) =>
      if w in s.writers then Finished(key, s, w) else s
  }

  function Run(link: Link, key: LockKey, s: State, acts: seq<Action>): (s': State)
    decreases |acts|
  {
    if acts == [] then s else Next(link, key, Run(link, key, s, acts[..|acts| - 1]), acts[|acts| - 1])
  }

  /** What callers pass: any metadata object, properties that are `undefined` included. */
  predicate Admissible(a: Action) { a.Begin? ==> ValidPayload(a.payload) }

  predicate Initial(s: State) {
    && IdsAscend(s.table)
    && (forall i :: 0 <= i < |s.table| ==>
          s.table[i].id < s.nextId && s.table[i].previousHash.None? && s.table[i].eventHash.None?)
    && s.locks == map[] && s.writers == map[] && s.given == map[]
  }

  // ---- the invariant -------------------------------------------------------

  predicate HoldsLock(key: LockKey, s: State, w: nat)
    requires w in s.writers
  {
    key(s.writers[w].payload.tenantId) in s.locks && s.locks[key(s.writers[w].payload.tenantId)] == w
  }

  predicate WriterOk(link: Link, key: LockKey, s: State, w: nat)
    requires w in s.writers
  {
    var writer := s.writers[w];
    && ValidPayload(writer.payload)
    && (!writer.Begun? ==> HoldsLock(key, s, w))
    && (writer.KnowsHead? ==> writer.previousHash == HeadHash(Chain(s.table, writer.payload)))
    && (writer.Inserted? ==>
          && writer.row.id < s.nextId
          && writer.row == CommittedRow(link, writer.row.id, writer.payload, HeadHash(Chain(s.table, writer.payload)))
          && forall i :: 0 <= i < |s.table| ==>
               && s.table[i].id != writer.row.id
               && (InChain(s.table[i], writer.payload.tenantId, writer.payload.environment) ==>
                     s.table[i].id < writer.row.id))
  }

  ghost predicate Inv(link: Link, key: LockKey, start: State, s: State) {
    && IdsAscend(s.table)
    && (forall i :: 0 <= i < |s.table| ==> s.table[i].id < s.nextId)
    && (forall w :: w in s.writers ==> WriterOk(link, key, s, w))
    && (forall w, w' :: w in s.writers && w' in s.writers && w != w'
                        && s.writers[w].Inserted? && s.writers[w'].Inserted? ==>
          s.writers[w].row.id != s.writers[w'].row.id)
    && ChainsGenuine(link, s.given, start, s.table)
  }

  /** Every chain is its rows from before the start, then rows each committed behind its predecessor. */
  ghost predicate ChainsGenuine(link: Link, given: Given, start: State, table: seq<Row>) {
    forall t, e ::
      Genuine(link, given, ChainFrom(table, t, e, 0), |ChainFrom(start.table, t, e, 0)|)
  }

  // ---- the table under a commit --------------------------------------------

  lemma {:induction false} InsertByIdMembers(table: seq<Row>, row: Row)
    ensures |InsertById(table, row)| == |table| + 1
    ensures forall r :: r in InsertById(table, row) <==> r == row || r in table
  {
    if !(table == [] || row.id < table[0].id) {
      InsertByIdMembers(table[1..], row);
      assert table == [table[0]] + table[1..];
    }
  }

  lemma {:induction false} InsertByIdAscends(table: seq<Row>, row: Row)
    requires IdsAscend(table) && forall i :: 0 <= i < |table| ==> table[i].id != row.id
    ensures IdsAscend(InsertById(table, row))
  {
    if !(table == [] || row.id < table[0].id) {
      InsertByIdAscends(table[1..], row);
      InsertByIdMembers(table[1..], row);
      var rest := InsertById(table[1..], row);
      forall j | 0 <= j < |rest| ensures table[0].id < rest[j].id {
        assert rest[j] in rest;
      }
    }
  }

  /** A committed row goes to the end of its own chain and leaves every other chain as it was. */
  lemma {:induction false} InsertByIdChain(table: seq<Row>, row: Row, t: string, e: Option<string>)
    requires IdsAscend(table)
    requires forall i :: 0 <= i < |table| && InChain(table[i], t, e) && InChain(row, t, e) ==> table[i].id < row.id
    ensures ChainFrom(InsertById(table, row), t, e, 0)
         == ChainFrom(table, t, e, 0) + (if InChain(row, t, e) then [row] else [])
  {
    if table == [] || row.id < table[0].id {
      ChainFromCons(row, table, t, e);
      if InChain(row, t, e) {
        NoneInChain(table, t, e);
      }
    } else {
      InsertByIdChain(table[1..], row, t, e);
      ChainFromCons(table[0], InsertById(table[1..], row), t, e);
      ChainFromCons(table[0], table[1..], t, e);
      assert table == [table[0]] + table[1..];
      Associative(if InChain(table[0], t, e) then [table[0]] else [], ChainFrom(table[1..], t, e, 0),
               if InChain(row, t, e) then [row] else []);
    }
  }

  lemma {:induction false} ChainFromCons(r: Row, rest: seq<Row>, t: string, e: Option<string>)
    ensures ChainFrom([r] + rest, t, e, 0) == (if InChain(r, t, e) then [r] else []) + ChainFrom(rest, t, e, 0)
  {
    assert ([r] + rest)[1..] == rest;
  }

  lemma {:induction false} NoneInChain(table: seq<Row>, t: string, e: Option<string>)
    requires forall i :: 0 <= i < |table| ==> !InChain(table[i], t, e)
    ensures ChainFrom(table, t, e, 0) == []
  {
    if table != [] {
      NoneInChain(table[1..], t, e);
    }
  }

  /** A row's commit as one chain sees it: its own chain grows at the end, any other stays. */
  lemma {:induction false} ChainUnderCommit(link: Link, given: Given, table: seq<Row>, row: Row, p: Payload,
                                            t: string, e: Option<string>, legacy: nat)
    requires IdsAscend(table) && NewId(table, row.id) && ValidPayload(p)
    requires row == CommittedRow(link, row.id, p, HeadHash(Chain(table, p)))
    requires forall i :: 0 <= i < |table| && InChain(table[i], p.tenantId, p.environment) ==> table[i].id < row.id
    requires Genuine(link, given, ChainFrom(table, t, e, 0), legacy)
    ensures Genuine(link, given[row.id := p], ChainFrom(InsertById(table, row), t, e, 0), legacy)
  {
    var chain := ChainFrom(table, t, e, 0);
    InsertByIdChain(table, row, t, e);
    ChainRowsFromTable(table, t, e);
    assert NewId(chain, row.id);
    if InChain(row, t, e) {
      AppendKeepsChain(link, given, chain, legacy, row.id, p);
    } else {
      NotedElsewhere(link, given, chain, legacy, row.id, p);
      assert chain + [] == chain;
    }
  }

  // ---- every step keeps the invariant ---------------------------------------

  /** Two writers past the lock never work on the same tenant. */
  lemma OneWriterPerTenant(link: Link, key: LockKey, start: State, s: State, w: nat, w': nat)
    requires Inv(link, key, start, s) && w in s.writers && w' in s.writers && w != w'
    requires !s.writers[w].Begun? && !s.writers[w'].Begun?
    ensures s.writers[w].payload.tenantId != s.writers[w'].payload.tenantId
  {
    assert WriterOk(link, key, s, w) && WriterOk(link, key, s, w');
  }

  /** A commit by another tenant leaves a writer's chain alone. */
  lemma {:induction false} CommitKeepsChain(table: seq<Row>, row: Row, p: Payload)
    requires IdsAscend(table) && row.payload.tenantId != p.tenantId
    ensures Chain(InsertById(table, row), p) == Chain(table, p)
  {
    InsertByIdChain(table, row, p.tenantId, p.environment);
  }

  /** Whatever the table, a writer is in order as long as its lock, its chain and the rows of its chain are. */
  lemma WriterStays(link: Link, key: LockKey, s: State, s': State, w: nat)
    requires w in s.writers && w in s'.writers && s'.writers[w] == s.writers[w] && WriterOk(link, key, s, w)
    requires s.nextId <= s'.nextId && (HoldsLock(key, s, w) ==> HoldsLock(key, s', w))
    requires var writer := s.writers[w];
             !writer.Begun? ==> Chain(s'.table, writer.payload) == Chain(s.table, writer.payload)
    requires forall r :: r in s'.table ==>
               r in s.table || (s.writers[w].Inserted? ==>
                 r.id != s.writers[w].row.id && r.payload.tenantId != s.writers[w].payload.tenantId)
    ensures WriterOk(link, key, s', w)
  {
    if s.writers[w].Inserted? {
      forall i | 0 <= i < |s'.table|
        ensures s'.table[i].id != s.writers[w].row.id
        ensures InChain(s'.table[i], s.writers[w].payload.tenantId, s.writers[w].payload.environment) ==>
                  s'.table[i].id < s.writers[w].row.id
      {
        assert s'.table[i] in s'.table;
      }
    }
  }

  /** What a commit leaves of another writer. */
  lemma CommitFrame(link: Link, key: LockKey, s: State, w: nat, w': nat)
    requires w in s.writers && s.writers[w].Inserted? && w' in s.writers && w' != w
    ensures var s' := Next(link, key, s, Commit(w));
            && s'.table == InsertById(s.table, s.writers[w].row) && s'.nextId == s.nextId
            && w' in s'.writers && s'.writers[w'] == s.writers[w']
            && (HoldsLock(key, s, w') ==> HoldsLock(key, s', w'))
  {
  }

  lemma CommitKeepsWriter(link: Link, key: LockKey, start: State, s: State, w: nat, w': nat)
    requires Inv(link, key, start, s) && w in s.writers && s.writers[w].Inserted?
    requires w' in s.writers && w' != w
    ensures WriterOk(link, key, Next(link, key, s, Commit(w)), w')
  {
    var s' := Next(link, key, s, Commit(w));
    var row, writer := s.writers[w].row, s.writers[w'];
    assert WriterOk(link, key, s, w) && WriterOk(link, key, s, w');
    CommitFrame(link, key, s, w, w');
    InsertByIdMembers(s.table, row);
    if !writer.Begun? {
      OneWriterPerTenant(link, key, start, s, w, w');
      CommitKeepsChain(s.table, row, writer.payload);
    }
    WriterStays(link, key, s, s', w');
  }

  lemma CommitKeepsTable(link: Link, key: LockKey, start: State, s: State, w: nat)
    requires Inv(link, key, start, s) && w in s.writers && s.writers[w].Inserted?
    ensures var s' := Next(link, key, s, Commit(w));
            && IdsAscend(s'.table)
            && (forall i :: 0 <= i < |s'.table| ==> s'.table[i].id < s.nextId)
            && ChainsGenuine(link, s'.given, start, s'.table)
  {
    var s', row, p := Next(link, key, s, Commit(w)), s.writers[w].row, s.writers[w].payload;
    assert WriterOk(link, key, s, w);
    InsertByIdAscends(s.table, row);
    InsertByIdMembers(s.table, row);
    forall i | 0 <= i < |s'.table| ensures s'.table[i].id < s.nextId {
      assert s'.table[i] in s'.table;
    }
    forall t, e ensures Genuine(link, s'.given, ChainFrom(s'.table, t, e, 0), |ChainFrom(start.table, t, e, 0)|) {
      ChainUnderCommit(link, s.given, s.table, row, p, t, e, |ChainFrom(start.table, t, e, 0)|);
    }
  }

  lemma CommitKeepsInv(link: Link, key: LockKey, start: State, s: State, w: nat)
    requires Inv(link, key, start, s) && w in s.writers && s.writers[w].Inserted?
    ensures Inv(link, key, start, Next(link, key, s, Commit(w)))
  {
    var s' := Next(link, key, s, Commit(w));
    CommitKeepsTable(link, key, start, s, w);
    forall w' | w' in s'.writers ensures WriterOk(link, key, s', w') {
      CommitKeepsWriter(link, key, start, s, w, w');
    }
  }

  /** A writer's own step, other than the commit. */
  lemma OwnStepKeepsWriter(link: Link, key: LockKey, s: State, a: Action)
    requires Admissible(a) && !a.Commit? && a.w in Next(link, key, s, a).writers
    requires a.w in s.writers ==> WriterOk(link, key, s, a.w)
    requires forall i :: 0 <= i < |s.table| ==> s.table[i].id < s.nextId
    ensures WriterOk(link, key, Next(link, key, s, a), a.w)
  {
  }

  /** What a step other than a commit leaves as it was. */
  lemma StepFrame(link: Link, key: LockKey, s: State, a: Action, w: nat)
    requires !a.Commit?
    ensures var s' := Next(link, key, s, a);
            && s'.table == s.table && s'.given == s.given && s.nextId <= s'.nextId
            && (w in s'.writers && w != a.w ==>
                  w in s.writers && s'.writers[w] == s.writers[w] && (HoldsLock(key, s, w) ==> HoldsLock(key, s', w)))
            && (w in s'.writers && s'.writers[w].Inserted? && !(w in s.writers && s'.writers[w] == s.writers[w]) ==>
                  w == a.w && s'.writers[w].row.id == s.nextId)
  {
  }

  lemma WriterStepKeepsInv(link: Link, key: LockKey, start: State, s: State, a: Action)
    requires Inv(link, key, start, s) && Admissible(a) && !a.Commit?
    ensures Inv(link, key, start, Next(link, key, s, a))
  {
    var s' := Next(link, key, s, a);
    StepFrame(link, key, s, a, a.w);
    forall w | w in s'.writers ensures WriterOk(link, key, s', w) {
      if w == a.w {
        OwnStepKeepsWriter(link, key, s, a);
      } else {
        StepFrame(link, key, s, a, w);
        WriterStays(link, key, s, s', w);
      }
    }
    forall w, w' | w in s'.writers && w' in s'.writers && w != w' && s'.writers[w].Inserted? && s'.writers[w'].Inserted?
      ensures s'.writers[w].row.id != s'.writers[w'].row.id
    {
      StepFrame(link, key, s, a, w);
      StepFrame(link, key, s, a, w');
      assert w in s.writers ==> WriterOk(link, key, s, w);
      assert w' in s.writers ==> WriterOk(link, key, s, w');
    }
  }

  lemma InitialInv(link: Link, key: LockKey, s: State)
    requires Initial(s)
    ensures Inv(link, key, s, s)
  {
    forall t, e ensures Genuine(link, s.given, ChainFrom(s.table, t, e, 0), |ChainFrom(s.table, t, e, 0)|) {
      ChainRowsFromTable(s.table, t, e);
    }
  }

  lemma {:induction false} ChainRowsFromTable(table: seq<Row>, t: string, e: Option<string>)
    ensures forall i :: 0 <= i < |ChainFrom(table, t, e, 0)| ==> ChainFrom(table, t, e, 0)[i] in table
  {
    if table != [] {
      ChainRowsFromTable(table[1..], t, e);
    }
  }

  lemma {:induction false} RunKeepsInv(link: Link, key: LockKey, s: State, acts: seq<Action>)
    requires Initial(s) && forall i :: 0 <= i < |acts| ==> Admissible(acts[i])
    ensures Inv(link, key, s, Run(link, key, s, acts))
    decreases |acts|
  {
    if acts == [] {
      InitialInv(link, key, s);
    } else {
      var before, a := acts[..|acts| - 1], acts[|acts| - 1];
      RunKeepsInv(link, key, s, before);
      var mid := Run(link, key, s, before);
      if a.Commit? && a.w in mid.writers && mid.writers[a.w].Inserted? {
        CommitKeepsInv(link, key, s, mid, a.w);
      } else if !a.Commit? {
        WriterStepKeepsInv(link, key, s, mid, a);
      }
    }
  }

  // ---- main results ---------------------------------------------------------

  /** Some event of the run was given this payload. */
  predicate Submitted(acts: seq<Action>, p: Payload) {
    exists i :: 0 <= i < |acts| && acts[i].Begin? && acts[i].payload == p
  }

  predicate AllSubmitted(acts: seq<Action>, s: State) {
    && (forall w :: w in s.writers ==> Submitted(acts, s.writers[w].payload))
    && (forall id :: id in s.given ==> Submitted(acts, s.given[id]))
  }

  lemma SubmittedBefore(acts: seq<Action>, p: Payload)
    requires acts != [] && Submitted(acts[..|acts| - 1], p)
    ensures Submitted(acts, p)
  {
    var before := acts[..|acts| - 1];
    var i :| 0 <= i < |before| && before[i].Begin? && before[i].payload == p;
    assert acts[i] == before[i];
  }

  /** What the state records as given comes from the calls of the run. */
  lemma {:induction false} GivenWasSubmitted(link: Link, key: LockKey, s: State, acts: seq<Action>)
    requires Initial(s)
    ensures AllSubmitted(acts, Run(link, key, s, acts))
    decreases |acts|
  {
    if acts != [] {
      var before, a := acts[..|acts| - 1], acts[|acts| - 1];
      GivenWasSubmitted(link, key, s, before);
      var mid := Run(link, key, s, before);
      var s' := Next(link, key, mid, a);
      forall w | w in s'.writers ensures Submitted(acts, s'.writers[w].payload) {
        if w in mid.writers {
          SubmittedBefore(acts, mid.writers[w].payload);
        } else {
          assert acts[|acts| - 1].Begin? && acts[|acts| - 1].payload == s'.writers[w].payload;
        }
      }
      forall id | id in s'.given ensures Submitted(acts, s'.given[id]) {
        SubmittedBefore(acts, if id in mid.given && s'.given[id] == mid.given[id] then mid.given[id]
                              else mid.writers[a.w].payload);
      }
    }
  }

  /**
   * No forks: after any interleaving of any number of writers, with crashes and
   * rollbacks at any point, whatever their events carry and whatever the hash, the
   * committed rows of each (tenant, environment) are in id order each what append
   * makes of its event behind its immediate predecessor, although the lock is per
   * tenant and its keys may collide.
   */
  lemma {:induction false} NoForks(sha: HashFunction, key: LockKey, s: State, acts: seq<Action>, t: string,
                                   e: Option<string>)
    requires Initial(s) && forall i :: 0 <= i < |acts| ==> Admissible(acts[i])
    ensures var s' := Run(EventLink(sha), key, s, acts);
            && IdsAscend(s'.table)
            && Genuine(EventLink(sha), s'.given, ChainFrom(s'.table, t, e, 0), |ChainFrom(s.table, t, e, 0)|)
  {
    RunKeepsInv(EventLink(sha), key, s, acts);
  }

  lemma {:induction false} ChainIndex(table: seq<Row>, i: nat, t: string, e: Option<string>)
    requires i < |table| && InChain(table[i], t, e)
    ensures var chain, k := ChainFrom(table, t, e, 0), |ChainFrom(table[..i], t, e, 0)|;
            k < |chain| && chain[k] == table[i] && chain[..k] == ChainFrom(table[..i], t, e, 0)
    decreases |table|
  {
    var n := |table| - 1;
    assert table == table[..n] + [table[n]];
    ChainFromLast(table[..n], table[n], t, e);
    if i < n {
      ChainIndex(table[..n], i, t, e);
      assert table[..n][..i] == table[..i];
    }
  }

  /** A hashed row names the head of the rows before it, and its hash is that of the event it was given. */
  predicate Committed(link: Link, given: Given, r: Row) {
    && r.id in given && r.previousHash.Some?
    && r.payload == given[r.id].(metadata := Stored(given[r.id].metadata))
    && r.eventHash == Some(link(given[r.id], r.previousHash.value))
  }

  lemma {:induction false} GenuineRow(link: Link, given: Given, table: seq<Row>, i: nat, t: string, e: Option<string>,
                                      legacy: nat)
    requires i < |table| && Hashed(table[i], t, e)
    requires Genuine(link, given, ChainFrom(table, t, e, 0), legacy)
    ensures Committed(link, given, table[i]) && IsHead(table[..i], t, e, table[i].previousHash.value)
  {
    var chain, k := ChainFrom(table, t, e, 0), |ChainFrom(table[..i], t, e, 0)|;
    ChainIndex(table, i, t, e);
    assert chain[k] == table[i];
    assert LinkedAt(link, given, chain, legacy, k);
    forall j | legacy <= j < k ensures LinkedAt(link, given, chain[..k], legacy, j) {
      assert LinkedAt(link, given, chain, legacy, j);
    }
    HeadOfGenuine(link, given, chain[..k], legacy);
    HeadIs(table[..i], t, e);
  }

  /**
   * Row by row, over the whole table and without speaking of chains: after any
   * run, each hashed row holds the event of some call, its hash is made of that
   * event and of its previous hash, and its previous hash is the event hash of the
   * hashed row with the greatest smaller id that has its own tenant and its own
   * environment, or 'genesis' if there is none.
   */
  lemma {:induction false} EachRowNamesItsPredecessor(sha: HashFunction, key: LockKey, s: State, acts: seq<Action>,
                                                      i: nat)
    requires Initial(s) && forall n :: 0 <= n < |acts| ==> Admissible(acts[n])
    requires i < |Run(EventLink(sha), key, s, acts).table|
    requires Run(EventLink(sha), key, s, acts).table[i].eventHash.Some?
    ensures var s' := Run(EventLink(sha), key, s, acts);
            var r := s'.table[i];
            && IdsAscend(s'.table)
            && Committed(EventLink(sha), s'.given, r) && Submitted(acts, s'.given[r.id])
            && IsHead(s'.table[..i], r.payload.tenantId, r.payload.environment, r.previousHash.value)
  {
    var s' := Run(EventLink(sha), key, s, acts);
    var r := s'.table[i];
    NoForks(sha, key, s, acts, r.payload.tenantId, r.payload.environment);
    GivenWasSubmitted(EventLink(sha), key, s, acts);
    GenuineRow(EventLink(sha), s'.given, s'.table, i, r.payload.tenantId, r.payload.environment,
               |ChainFrom(s.table, r.payload.tenantId, r.payload.environment, 0)|);
  }

  /**
   * What `verifyAuditChain` says of every window of every reachable table: intact
   * exactly when no event in it was given an `undefined`, and otherwise broken at
   * the first row whose event was, for its event hash.
   */
  lemma {:induction false} ReachableTablesReplay(sha: HashFunction, key: LockKey, s: State, acts: seq<Action>,
                                                 t: string, e: Option<string>, startId: nat, limit: nat)
    requires Injective(sha) && Initial(s) && forall i :: 0 <= i < |acts| ==> Admissible(acts[i])
    ensures var s' := Run(EventLink(sha), key, s, acts);
            var window := Limited(ChainFrom(s'.table, t, e, startId), limit);
            VerdictIs(s'.given, window, Replay(EventLink(sha), window, None))
  {
    EventLinkBinds(sha);
    NoForks(sha, key, s, acts, t, e);
    var s' := Run(EventLink(sha), key, s, acts);
    WindowsVerdict(EventLink(sha), s'.given, s'.table, t, e, |ChainFrom(s.table, t, e, 0)|, startId, limit);
  }

  /** In particular every window passes as long as no caller ever passes an `undefined`. */
  lemma {:induction false} CleanRunsReplay(sha: HashFunction, key: LockKey, s: State, acts: seq<Action>,
                                           t: string, e: Option<string>, startId: nat, limit: nat)
    requires Injective(sha) && Initial(s) && forall i :: 0 <= i < |acts| ==> Admissible(acts[i])
    requires forall i :: 0 <= i < |acts| && acts[i].Begin? ==> !HasUndefined(acts[i].payload.metadata)
    ensures var table := Run(EventLink(sha), key, s, acts).table;
            Replay(EventLink(sha), Limited(ChainFrom(table, t, e, startId), limit), None) == Intact
  {
    ReachableTablesReplay(sha, key, s, acts, t, e, startId, limit);
    GivenWasSubmitted(EventLink(sha), key, s, acts);
  }

  // ---- no lock outlives its transaction, and an append goes through ---------------

  /** Each lock is held by an open transaction that works on a tenant of that key. */
  ghost predicate LocksHeld(key: LockKey, s: State) {
    forall k :: k in s.locks ==>
      s.locks[k] in s.writers && !s.writers[s.locks[k]].Begun? && key(s.writers[s.locks[k]].payload.tenantId) == k
  }

  lemma StepKeepsLocksHeld(link: Link, key: LockKey, s: State, a: Action)
    requires LocksHeld(key, s)
    ensures LocksHeld(key, Next(link, key, s, a))
  {
  }

  /** After a commit, a rollback or a crash the lock is free for the next writer. */
  lemma {:induction false} NoStaleLocks(link: Link, key: LockKey, s: State, acts: seq<Action>)
    requires Initial(s)
    ensures LocksHeld(key, Run(link, key, s, acts))
    decreases |acts|
  {
    if acts != [] {
      NoStaleLocks(link, key, s, acts[..|acts| - 1]);
      StepKeepsLocksHeld(link, key, Run(link, key, s, acts[..|acts| - 1]), acts[|acts| - 1]);
    }
  }

  /** A call up to the insert, when its lock is free and nothing interrupts it. */
  function Written(link: Link, key: LockKey, s: State, w: nat, p: Payload): (s': State) {
    var locked := Next(link, key, Next(link, key, s, Begin(w, p)), Lock(w));
    Next(link, key, Next(link, key, locked, ReadHead(w)), Insert(w))
  }

  lemma WrittenIs(link: Link, key: LockKey, s: State, w: nat, p: Payload)
    requires w !in s.writers && key(p.tenantId) !in s.locks
    ensures var row := CommittedRow(link, s.nextId, p, HeadHash(Chain(s.table, p)));
            Written(link, key, s, w, p)
            == s.(nextId := s.nextId + 1, locks := s.locks[key(p.tenantId) := w],
                  writers := s.writers[w := Inserted(p, row)])
  {
    var begun := Next(link, key, s, Begin(w, p));
    var locked := Next(link, key, begun, Lock(w));
    var ready := Next(link, key, locked, ReadHead(w));
    assert begun.writers == s.writers[w := Begun(p)];
    assert locked.writers == s.writers[w := Locked(p)];
    assert ready.writers == s.writers[w := KnowsHead(p, HeadHash(Chain(s.table, p)))];
  }

  lemma {:induction false} CommitAlone(link: Link, key: LockKey, s: State, t: State, w: nat, p: Payload, row: Row)
    requires w !in s.writers && key(p.tenantId) !in s.locks
    requires t == s.(nextId := s.nextId + 1, locks := s.locks[key(p.tenantId) := w],
                     writers := s.writers[w := Inserted(p, row)])
    ensures Next(link, key, t, Commit(w))
         == s.(nextId := s.nextId + 1, table := InsertById(s.table, row), given := s.given[row.id := p])
  {
    assert t.writers - {w} == s.writers && t.locks - {key(p.tenantId)} == s.locks;
  }

  /**
   * One call whose lock is free and that nothing interrupts: its row is committed
   * under the next id, behind the head of its tenant and environment, and it leaves
   * nothing else behind.
   */
  lemma AppendAlone(link: Link, key: LockKey, s: State, w: nat, p: Payload) returns (hash: string)
    requires w !in s.writers && key(p.tenantId) !in s.locks
    ensures IsHead(s.table, p.tenantId, p.environment, hash)
    ensures var row := Row(s.nextId, p.(metadata := Stored(p.metadata)), Some(hash), Some(link(p, hash)));
            Next(link, key, Written(link, key, s, w, p), Commit(w))
            == s.(nextId := s.nextId + 1, table := InsertById(s.table, row), given := s.given[s.nextId := p])
  {
    hash := HeadHash(Chain(s.table, p));
    HeadIs(s.table, p.tenantId, p.environment);
    WrittenIs(link, key, s, w, p);
    CommitAlone(link, key, s, Written(link, key, s, w, p), w, p, CommittedRow(link, s.nextId, p, hash));
  }
}

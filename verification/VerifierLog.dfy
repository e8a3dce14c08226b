/**
 * The verifier's own hash-chained log, verifier/src/audit-log.ts: a SQLite table
 * that only grows, and two module variables that mirror its last row.
 */
module VerifierLog {
  import opened JsText
  import opened Json
  import opened Runtime

  const GENESIS_PREV_HASH: string := Zeros(64)

  /** All columns but entry_hash: what is serialised and hashed. */
  datatype Partial = Partial(
    id: string, sequence: nat, tenantId: string, environment: string, circuitVersion: string,
    correlationId: string, verified: nat, structuralFallback: nat, proofHash: string,
    pubSignalsHash: string, latencyUs: nat, createdAt: string, prevHash: string)

  datatype LogEntry = LogRow(partial: Partial, entryHash: string)

  datatype AppendInput = AppendInput(
    tenantId: string, environment: string, circuitVersion: string, correlationId: string,
    verified: bool, structuralFallback: bool, proofHash: string, pubSignalsHash: string, latencyUs: nat)

  datatype ChainResult = ChainOk(rowsChecked: nat) | ChainBroken(rowsChecked: nat, firstBadSequence: nat)

  // ---- serialisation -------------------------------------------------------

  /** Column names in the order `Object.keys(row).sort()` puts them. */
  const COLUMN_NAMES := ["circuit_version", "correlation_id", "created_at", "environment", "id", "latency_us",
                         "prev_hash", "proof_hash", "pub_signals_hash", "sequence", "structural_fallback",
                         "tenant_id", "verified"]

  function Columns(p: Partial): (values: seq<Js>) {
    [Str(p.circuitVersion), Str(p.correlationId), Str(p.createdAt), Str(p.environment), Str(p.id),
     Num(NumberOfNat(p.latencyUs)), Str(p.prevHash), Str(p.proofHash), Str(p.pubSignalsHash),
     Num(NumberOfNat(p.sequence)), Num(NumberOfNat(p.structuralFallback)), Str(p.tenantId),
     Num(NumberOfNat(p.verified))]
  }

  /** `JSON.stringify` of the row with its keys sorted; a row holds strings and integers only. */
  function CanonicalSerialize(p: Partial): (text: string) { Stringify(Record(COLUMN_NAMES, Columns(p))) }

  function ComputeEntryHash(sha: HashFunction, p: Partial, prevHash: string): (hash: string) {
    sha(CanonicalSerialize(p) + prevHash)
  }

  /** How a row and the previous hash make the row's own hash. */
  type EntryLink = (Partial, string) -> string

  function SerialLink(sha: HashFunction): (link: EntryLink) {
    (p: Partial, prevHash: string) => ComputeEntryHash(sha, p, prevHash)
  }

  /** The link binds the whole row and the previous hash, and never gives the genesis value. */
  ghost predicate BindingEntry(link: EntryLink) {
    && (forall p, h, q, h' {:trigger link(p, h), link(q, h')} :: link(p, h) == link(q, h') <==> p == q && h == h')
    && (forall p, h {:trigger link(p, h)} :: link(p, h) != GENESIS_PREV_HASH)
  }

  lemma ColumnsValid(p: Partial)
    ensures |Columns(p)| == |COLUMN_NAMES| == 13
    ensures Valid(Record(COLUMN_NAMES, Columns(p))) && NoLone(Record(COLUMN_NAMES, Columns(p)))
  {
    ColumnsFlat(p);
    NamesDistinct();
    FlatRecord(COLUMN_NAMES, Columns(p));
  }

  predicate Flat(v: Js) { (v.Str? || v.Num?) && Valid(v) }

  lemma ColumnsFlat(p: Partial)
    ensures forall i :: 0 <= i < |Columns(p)| ==> Flat(Columns(p)[i])
  {
    NumberOfNatValid(p.latencyUs);
    NumberOfNatValid(p.sequence);
    NumberOfNatValid(p.structuralFallback);
    NumberOfNatValid(p.verified);
  }

  /** Texts and numbers make a valid record. */
  lemma FlatRecord(keys: seq<string>, values: seq<Js>)
    requires DistinctNames(keys) && |keys| == |values|
    requires forall i :: 0 <= i < |values| ==> Flat(values[i])
    ensures Valid(Record(keys, values)) && NoLone(Record(keys, values))
  {
  }

  lemma NamesDistinct()
    ensures DistinctNames(COLUMN_NAMES)
  {
  }

  lemma ColumnsDetermineRow(p: Partial, q: Partial)
    requires Columns(p) == Columns(q)
    ensures p == q
  {
    var xs, ys := Columns(p), Columns(q);
    assert xs[0] == ys[0] && xs[1] == ys[1] && xs[2] == ys[2] && xs[3] == ys[3] && xs[4] == ys[4];
    assert xs[5] == ys[5] && xs[6] == ys[6] && xs[7] == ys[7] && xs[8] == ys[8] && xs[9] == ys[9];
    assert xs[10] == ys[10] && xs[11] == ys[11] && xs[12] == ys[12];
    NumberOfNatInjective(p.latencyUs, q.latencyUs);
    NumberOfNatInjective(p.sequence, q.sequence);
    NumberOfNatInjective(p.structuralFallback, q.structuralFallback);
    NumberOfNatInjective(p.verified, q.verified);
  }

  lemma RecordDeterminesValues(keys: seq<string>, xs: seq<Js>, ys: seq<Js>)
    requires |xs| == |ys| == |keys| && Record(keys, xs) == Record(keys, ys)
    ensures xs == ys
  {
    forall i | 0 <= i < |keys| ensures xs[i] == ys[i] {
      assert Record(keys, xs).fields[i] == Record(keys, ys).fields[i];
    }
  }

  /**
   * The serialised row and the previous hash are concatenated without a
   * separator; the row's text ends itself, so the hash still binds both.
   */
  lemma SerialLinkBinds(sha: HashFunction)
    requires Injective(sha) && forall x :: sha(x) != GENESIS_PREV_HASH
    ensures BindingEntry(SerialLink(sha))
  {
    forall p, h, q, h' ensures SerialLink(sha)(p, h) == SerialLink(sha)(q, h') <==> p == q && h == h' {
      if ComputeEntryHash(sha, p, h) == ComputeEntryHash(sha, q, h') {
        EntryHashBinds(sha, p, h, q, h', Record(COLUMN_NAMES, Columns(p)), Record(COLUMN_NAMES, Columns(q)));
      }
    }
  }

  lemma {:induction false} TextThenHashBinds(sha: HashFunction, v: Js, h: string, w: Js, h': string)
    requires Injective(sha) && Valid(v) && Valid(w) && NoLone(v) && NoLone(w) && v.Obj? && w.Obj?
    requires sha(Stringify(v) + h) == sha(Stringify(w) + h')
    ensures v == w && h == h'
  {
    StringifyPrefix(v, w, h, h');
  }

  lemma SameRecordSameRow(p: Partial, q: Partial)
    requires Record(COLUMN_NAMES, Columns(p)) == Record(COLUMN_NAMES, Columns(q))
    ensures p == q
  {
    RecordDeterminesValues(COLUMN_NAMES, Columns(p), Columns(q));
    ColumnsDetermineRow(p, q);
  }

  lemma {:induction false} EntryHashBinds(sha: HashFunction, p: Partial, h: string, q: Partial, h': string, v: Js,
                                          w: Js)
    requires Injective(sha) && v == Record(COLUMN_NAMES, Columns(p)) && w == Record(COLUMN_NAMES, Columns(q))
    requires sha(Stringify(v) + h) == sha(Stringify(w) + h')
    ensures p == q && h == h'
  {
    ColumnsValid(p);
    ColumnsValid(q);
    TextThenHashBinds(sha, v, h, w, h');
    SameRecordSameRow(p, q);
  }

  // ---- the chain -----------------------------------------------------------

  /** `verifyChain` from a previous hash on, over rows in sequence order. */
  function Walk(link: EntryLink, rows: seq<LogEntry>, prevHash: string, checked: nat): (r: ChainResult) {
    if rows == [] then ChainOk(checked)
    else if rows[0].partial.prevHash != prevHash || link(rows[0].partial, prevHash) != rows[0].entryHash then
      ChainBroken(checked, rows[0].partial.sequence)
    else Walk(link, rows[1..], rows[0].entryHash, checked + 1)
  }

  function LastHash(rows: seq<LogEntry>): (hash: string) {
    if rows == [] then GENESIS_PREV_HASH else rows[|rows| - 1].entryHash
  }

  /** Row k names the hash of the row before it, and its own hash recomputes. */
  predicate GoodEntry(link: EntryLink, rows: seq<LogEntry>, k: nat)
    requires k < |rows|
  {
    && rows[k].partial.prevHash == LastHash(rows[..k])
    && rows[k].entryHash == link(rows[k].partial, rows[k].partial.prevHash)
  }

  ghost predicate GoodChain(link: EntryLink, rows: seq<LogEntry>) {
    forall k :: 0 <= k < |rows| ==> GoodEntry(link, rows, k)
  }

  lemma {:induction false} WalkFrom(link: EntryLink, rows: seq<LogEntry>, i: nat, k: nat)
    requires i <= k <= |rows|
    requires forall j :: i <= j < k ==> GoodEntry(link, rows, j)
    requires k < |rows| ==> !GoodEntry(link, rows, k)
    ensures Walk(link, rows[i..], LastHash(rows[..i]), i)
         == if k == |rows| then ChainOk(|rows|) else ChainBroken(k, rows[k].partial.sequence)
    decreases k - i
  {
    if i < |rows| {
      assert rows[i..][0] == rows[i] && rows[i..][1..] == rows[i + 1..];
      if i < k {
        assert GoodEntry(link, rows, i);
        assert LastHash(rows[..i + 1]) == rows[i].entryHash;
        WalkFrom(link, rows, i + 1, k);
      }
    }
  }

  /** The walk accepts exactly the good chains, counting every row, and else stops at the first bad row. */
  lemma {:induction false} WalkExact(link: EntryLink, rows: seq<LogEntry>, k: nat)
    requires k <= |rows| && forall j :: 0 <= j < k ==> GoodEntry(link, rows, j)
    requires k < |rows| ==> !GoodEntry(link, rows, k)
    ensures Walk(link, rows, GENESIS_PREV_HASH, 0)
         == if k == |rows| then ChainOk(|rows|) else ChainBroken(k, rows[k].partial.sequence)
  {
    assert rows[0..] == rows && rows[..0] == [];
    WalkFrom(link, rows, 0, k);
  }

  lemma {:induction false} AcceptedIsGood(link: EntryLink, rows: seq<LogEntry>)
    ensures Walk(link, rows, GENESIS_PREV_HASH, 0).ChainOk? <==> GoodChain(link, rows)
  {
    var k := 0;
    while k < |rows| && GoodEntry(link, rows, k)
      invariant 0 <= k <= |rows| && forall j :: 0 <= j < k ==> GoodEntry(link, rows, j)
    {
      k := k + 1;
    }
    WalkExact(link, rows, k);
  }

  /** Accepted tables with the same last entry_hash are the same table, ids and timestamps included. */
  lemma {:induction false} LastHashDeterminesTable(link: EntryLink, rows: seq<LogEntry>, other: seq<LogEntry>)
    requires BindingEntry(link) && GoodChain(link, rows) && GoodChain(link, other)
    requires LastHash(rows) == LastHash(other)
    ensures rows == other
  {
    var n, m := |rows|, |other|;
    if n > 0 {
      assert GoodEntry(link, rows, n - 1);
    }
    if m > 0 {
      assert GoodEntry(link, other, m - 1);
    }
    if n > 0 && m > 0 {
      PrefixGood(link, rows, n - 1);
      PrefixGood(link, other, m - 1);
      LastHashDeterminesTable(link, rows[..n - 1], other[..m - 1]);
      assert rows == rows[..n - 1] + [rows[n - 1]] && other == other[..m - 1] + [other[m - 1]];
    }
  }

  lemma PrefixGood(link: EntryLink, rows: seq<LogEntry>, n: nat)
    requires GoodChain(link, rows) && n <= |rows|
    ensures GoodChain(link, rows[..n])
  {
    forall k | 0 <= k < n ensures GoodEntry(link, rows[..n], k) {
      assert GoodEntry(link, rows, k) && rows[..n][..k] == rows[..k];
    }
  }

  /** The main statement, for the hash of the source. */
  lemma {:induction false} AcceptedTablesEqual(sha: HashFunction, rows: seq<LogEntry>, other: seq<LogEntry>)
    requires Injective(sha) && forall x :: sha(x) != GENESIS_PREV_HASH
    requires Walk(SerialLink(sha), rows, GENESIS_PREV_HASH, 0).ChainOk?
    requires Walk(SerialLink(sha), other, GENESIS_PREV_HASH, 0).ChainOk?
    requires LastHash(rows) == LastHash(other)
    ensures rows == other
  {
    SerialLinkBinds(sha);
    AcceptedIsGood(SerialLink(sha), rows);
    AcceptedIsGood(SerialLink(sha), other);
    LastHashDeterminesTable(SerialLink(sha), rows, other);
  }

  // ---- the module, its table and its variables ------------------------------

  /** `MAX(sequence) + 1`, or 0 on an empty table, as `initAuditLog` computes it. */
  function SequenceAfter(rows: seq<LogEntry>): (n: nat) {
    if rows == [] then 0 else rows[|rows| - 1].partial.sequence + 1
  }

  /** Rows in sequence order, sequences 0, 1, 2, ..., and a good chain. */
  ghost predicate ValidTable(link: EntryLink, rows: seq<LogEntry>) {
    GoodChain(link, rows) && forall k :: 0 <= k < |rows| ==> rows[k].partial.sequence == k
  }

  lemma ExtendTable(link: EntryLink, rows: seq<LogEntry>, p: Partial)
    requires ValidTable(link, rows) && p.sequence == |rows| && p.prevHash == LastHash(rows)
    ensures ValidTable(link, rows + [LogRow(p, link(p, p.prevHash))])
  {
    var longer := rows + [LogRow(p, link(p, p.prevHash))];
    forall k | 0 <= k < |longer| ensures GoodEntry(link, longer, k) {
      if k < |rows| {
        assert GoodEntry(link, rows, k) && longer[..k] == rows[..k];
      } else {
        assert longer[..k] == rows;
      }
    }
  }

  /** Whether the engine refuses a row: the primary key and the unique hash. */
  predicate Refused(rows: seq<LogEntry>, row: LogEntry) {
    exists k :: 0 <= k < |rows| && (rows[k].partial.id == row.partial.id || rows[k].entryHash == row.entryHash)
  }

  /** The primary key and the unique hash of the table. */
  predicate KeysUnique(rows: seq<LogEntry>) {
    forall j, k :: 0 <= j < k < |rows| ==>
      rows[j].partial.id != rows[k].partial.id && rows[j].entryHash != rows[k].entryHash
  }

  /** The row holds exactly what the caller gave. */
  predicate Records(p: Partial, input: AppendInput, id: string, createdAt: string) {
    && p.id == id && p.createdAt == createdAt && p.tenantId == input.tenantId
    && p.environment == input.environment && p.circuitVersion == input.circuitVersion
    && p.correlationId == input.correlationId && p.latencyUs == input.latencyUs
    && p.proofHash == input.proofHash && p.pubSignalsHash == input.pubSignalsHash
    && (p.verified == 1 <==> input.verified) && p.verified <= 1
    && (p.structuralFallback == 1 <==> input.structuralFallback) && p.structuralFallback <= 1
  }

  /** The row an event becomes at the sequence and behind the hash that the memory holds. */
  predicate RowAt(link: EntryLink, sequence: nat, prevHash: string, row: LogEntry, input: AppendInput, id: string,
                  createdAt: string) {
    && Records(row.partial, input, id, createdAt)
    && row.partial.sequence == sequence && row.partial.prevHash == prevHash
    && row.entryHash == link(row.partial, row.partial.prevHash)
  }

  /** Behind these rows, if the memory fits them. */
  predicate RowFor(link: EntryLink, rows: seq<LogEntry>, row: LogEntry, input: AppendInput, id: string,
                   createdAt: string) {
    RowAt(link, |rows|, LastHash(rows), row, input, id, createdAt)
  }

  /** A table read with two rows at sequence 0, both first of a chain. */
  predicate StartsTwice(link: EntryLink, rows: seq<LogEntry>) {
    && |rows| >= 2
    && forall k :: 0 <= k < 2 ==>
         && rows[k].partial.sequence == 0 && rows[k].partial.prevHash == GENESIS_PREV_HASH
         && rows[k].entryHash == link(rows[k].partial, GENESIS_PREV_HASH)
  }

  /** Verification stops at the second of them, whatever follows. */
  lemma {:induction false} SecondStartIsCaught(link: EntryLink, rows: seq<LogEntry>)
    requires StartsTwice(link, rows) && rows[0].entryHash != GENESIS_PREV_HASH
    ensures Walk(link, rows, GENESIS_PREV_HASH, 0) == ChainBroken(1, 0)
  {
    assert rows[1..][0] == rows[1];
    assert Walk(link, rows[1..], rows[0].entryHash, 1) == ChainBroken(1, 0);
  }

  /**
   * So an append after a failed start over a filled table is found by the next
   * verification, whichever of the two rows at sequence 0 is read first.
   */
  lemma {:induction false} StaleAppendIsCaught(link: EntryLink, table: seq<LogEntry>, row: LogEntry,
                                               rows: seq<LogEntry>, input: AppendInput, id: string, createdAt: string)
    requires ValidTable(link, table) && table != [] && RowAt(link, 0, GENESIS_PREV_HASH, row, input, id, createdAt)
    requires rows == [row] + table || rows == [table[0], row] + table[1..]
    requires rows[0].entryHash != GENESIS_PREV_HASH
    ensures Walk(link, rows, GENESIS_PREV_HASH, 0) == ChainBroken(1, 0)
  {
    assert GoodEntry(link, table, 0) && table[..0] == [];
    SecondStartIsCaught(link, rows);
  }

  /** What can go wrong at start-up: the schema statement or a SELECT, or the insert of the genesis row. */
  datatype StartFault = NoFault | StatementFails | GenesisInsertFails

  class AuditLog {
    const sha: HashFunction
    /** The SQLite file, ordered by sequence; it survives a restart. */
    var table: seq<LogEntry>
    /** Module variables; they do not. */
    var open: bool
    var nextSequence: nat
    var lastEntryHash: string

    /** The table is a good chain; the memory may not fit it. */
    ghost predicate Stored()
      reads this
    {
      ValidTable(SerialLink(sha), table) && (!open ==> nextSequence == 0 && lastEntryHash == GENESIS_PREV_HASH)
    }

    /** And the in-memory position equals what re-reading the table would give, whenever the log is open. */
    ghost predicate Valid()
      reads this
    {
      Stored() && (open ==> nextSequence == SequenceAfter(table) && lastEntryHash == LastHash(table))
    }

    constructor (sha: HashFunction)
      ensures Valid() && !open && table == [] && this.sha == sha
    {
      this.sha := sha;
      table, open, nextSequence, lastEntryHash := [], false, 0, GENESIS_PREV_HASH;
    }

    /** A new process over the same file. */
    method Restart()
      requires Stored()
      modifies this`open, this`nextSequence, this`lastEntryHash
      ensures Valid() && !open
    {
      open, nextSequence, lastEntryHash := false, 0, GENESIS_PREV_HASH;
    }

    /** `insertRow`: `stored` is false when the engine refuses the row or fails for a reason of its own. */
    method InsertRow(row: LogEntry, ioError: bool) returns (stored: bool)
      modifies this`table
      ensures table == old(table) + [row] || table == old(table)
      ensures stored <==> table != old(table)
      ensures stored ==> !ioError && !Refused(old(table), row)
      ensures KeysUnique(old(table)) ==> KeysUnique(table)
      ensures !stored && !ioError ==> Refused(old(table), row)
      ensures ioError ==> !stored
    {
      stored := !ioError && !Refused(table, row);
      if stored {
        table := table + [row];
      }
    }

    method InsertGenesisRow(id: string, createdAt: string, ioError: bool) returns (ok: bool)
      requires Valid() && open && table == []
      modifies this`table, this`nextSequence, this`lastEntryHash
      ensures Valid()
      ensures ok == !ioError
      ensures ok ==>
                && |table| == 1
                && table[0].partial == Partial(id, 0, "system", "system", "genesis", id, 1, 0, Zeros(64), Zeros(64), 0,
                                               createdAt, Zeros(64))
                && table[0].entryHash == ComputeEntryHash(sha, table[0].partial, Zeros(64))
      ensures !ok ==> table == [] && nextSequence == 0
    {
      var partial := Partial(id, 0, "system", "system", "genesis", id, 1, 0, GENESIS_PREV_HASH,
                             GENESIS_PREV_HASH, 0, createdAt, GENESIS_PREV_HASH);
      var entryHash := ComputeEntryHash(sha, partial, GENESIS_PREV_HASH);
      ExtendTable(SerialLink(sha), table, partial);
      ok := InsertRow(LogRow(partial, entryHash), ioError);
      if ok {
        nextSequence := 1;
        lastEntryHash := entryHash;
      }
    }

    /**
     * `initAuditLog`: ignored when already open; writes the genesis row into an
     * empty table. The handle is set first, so a start that fails leaves the log
     * open: in order over an empty table, at sequence 0 over a filled one, and
     * ignoring every later call.
     */
    method Init(id: string, createdAt: string, fault: StartFault) returns (ok: bool)
      requires Stored()
      modifies this
      ensures Stored() && open
      ensures ok <==> old(open) || fault == NoFault || (fault == GenesisInsertFails && old(table) != [])
      ensures old(open) ==>
                table == old(table) && nextSequence == old(nextSequence) && lastEntryHash == old(lastEntryHash)
      ensures !old(open) ==> (Valid() <==> ok || old(table) == [])
      ensures old(table) != [] || !ok ==> table == old(table)
      ensures !old(open) && old(table) == [] && ok ==> |table| == 1 && table[0].partial.tenantId == "system"
      ensures !old(open) && !ok ==> nextSequence == 0 && lastEntryHash == GENESIS_PREV_HASH
    {
      ok := true;
      if open {
        return;
      }
      open := true;
      if fault == StatementFails {
        return false;
      }
      if |table| == 0 {
        ok := InsertGenesisRow(id, createdAt, fault == GenesisInsertFails);
      } else {
        nextSequence := table[|table| - 1].partial.sequence + 1;
        lastEntryHash := table[|table| - 1].entryHash;
      }
    }

    /** The row to append, without its own hash. */
    method BuildPartial(input: AppendInput, id: string, createdAt: string) returns (p: Partial)
      ensures Records(p, input, id, createdAt) && p.sequence == nextSequence && p.prevHash == lastEntryHash
    {
      p := Partial(id, nextSequence, input.tenantId, input.environment, input.circuitVersion,
                   input.correlationId, if input.verified then 1 else 0,
                   if input.structuralFallback then 1 else 0, input.proofHash, input.pubSignalsHash,
                   input.latencyUs, createdAt, lastEntryHash);
    }

    /** The row with its hash; it fits the chain if the memory does. */
    method NextRow(input: AppendInput, id: string, createdAt: string) returns (row: LogEntry)
      ensures RowAt(SerialLink(sha), nextSequence, lastEntryHash, row, input, id, createdAt)
      ensures Valid() && open ==> ValidTable(SerialLink(sha), table + [row])
    {
      var partial := BuildPartial(input, id, createdAt);
      row := LogRow(partial, ComputeEntryHash(sha, partial, lastEntryHash));
      if open {
        ghost var fits := Valid();
        if fits {
          ExtendTable(SerialLink(sha), table, partial);
        }
      }
    }

    /**
     * `appendEvent`: the event's row is added at the sequence and behind the hash
     * the memory holds, which are those of the table unless a failed start left
     * the log open; or nothing changes at all, and that only with a closed log, a
     * failing engine or a key already there.
     */
    method AppendEvent(input: AppendInput, id: string, createdAt: string, ioError: bool) returns (ok: bool)
      modifies this`table, this`nextSequence, this`lastEntryHash
      ensures old(Valid()) ==> Valid()
      ensures !old(open) || ioError ==> !ok
      ensures !ok ==> table == old(table) && nextSequence == old(nextSequence) && lastEntryHash == old(lastEntryHash)
      ensures !ok && old(open) && !ioError ==>
                exists row :: RowAt(SerialLink(sha), old(nextSequence), old(lastEntryHash), row, input, id, createdAt)
                              && Refused(old(table), row)
      ensures ok ==>
                && |table| == |old(table)| + 1 && table[..|old(table)|] == old(table)
                && var row := table[|table| - 1];
                   && RowAt(SerialLink(sha), old(nextSequence), old(lastEntryHash), row, input, id, createdAt)
                   && !Refused(old(table), row)
                   && nextSequence == old(nextSequence) + 1 && lastEntryHash == row.entryHash
      ensures ok && old(Valid()) ==> RowFor(SerialLink(sha), old(table), table[|table| - 1], input, id, createdAt)
    {
      if !open {
        return false;
      }
      var row := NextRow(input, id, createdAt);
      ok := InsertRow(row, ioError);
      if ok {
        nextSequence := nextSequence + 1;
        lastEntryHash := row.entryHash;
      }
    }

    /** `verifyChain` always accepts the table this module wrote, and counts all of it; it throws on a closed log. */
    method VerifyChain() returns (r: Option<ChainResult>)
      requires Stored()
      ensures r == if open then Some(ChainOk(|table|)) else None
    {
      if !open {
        return None;
      }
      var result := VerifyRows(sha, table);
      WalkExact(SerialLink(sha), table, |table|);
      return Some(result);
    }
  }

  /** The loop of `verifyChain` over any rows, altered ones included. */
  method VerifyRows(sha: HashFunction, rows: seq<LogEntry>) returns (r: ChainResult)
    ensures r == Walk(SerialLink(sha), rows, GENESIS_PREV_HASH, 0)
  {
    var prevHash := GENESIS_PREV_HASH;
    var checked := 0;
    assert rows[0..] == rows;
    while checked < |rows|
      invariant 0 <= checked <= |rows|
      invariant Walk(SerialLink(sha), rows, GENESIS_PREV_HASH, 0)
             == Walk(SerialLink(sha), rows[checked..], prevHash, checked)
    {
      var row := rows[checked];
      assert rows[checked..][0] == row && rows[checked..][1..] == rows[checked + 1..];
      if row.partial.prevHash != prevHash {
        return ChainBroken(checked, row.partial.sequence);
      }
      var computed := ComputeEntryHash(sha, row.partial, prevHash);
      if computed != row.entryHash {
        return ChainBroken(checked, row.partial.sequence);
      }
      prevHash := row.entryHash;
      checked := checked + 1;
    }
    return ChainOk(checked);
  }
}

/**
 * The two texts that are hashed, column by column: that of an audit event,
 * src/services/audit.ts, and that of a row of the verifier's log,
 * verifier/src/audit-log.ts.
 */
module HashedText {
  import opened JsText
  import opened Json
  import opened JsonText
  import opened Runtime
  import opened Sequences
  import AuditChain
  import VerifierLog

  // ---- an audit event ------------------------------------------------------------

  function Nullable(o: Option<string>): (v: Js) { if o == None then Null else Str(o.value) }

  /** Properties under these names, in this order. */
  function Named(names: seq<string>, values: seq<Js>): (order: seq<Entry<Js>>)
    requires |names| == |values|
    ensures |order| == |names| && forall i :: 0 <= i < |names| ==> order[i] == Entry(names[i], values[i])
  {
    seq(|names|, i requires 0 <= i < |names| => Entry(names[i], values[i]))
  }

  const EVENT_NAMES: seq<string> :=
    ["action", "actor_id", "actor_type", "entity_id", "entity_type", "environment", "metadata", "status",
     "summary", "tenant_id"]

  function EventValues(p: AuditChain.Payload): (values: seq<Js>)
    ensures |values| == 10
  {
    [Str(p.action), Nullable(p.actorId), Str(p.actorType),
     Nullable(p.entityId), Str(p.entityType), Nullable(p.environment), p.metadata, Str(p.status),
     Str(p.summary), Str(p.tenantId)]
  }

  /** The properties of an event's text, in key order. */
  function EventProperties(p: AuditChain.Payload): (order: seq<Entry<Js>>) { Named(EVENT_NAMES, EventValues(p)) }

  lemma EventNamesAscend(names: seq<string>, i: nat)
    requires names == EVENT_NAMES && 0 <= i < 9
    ensures Before(Units(names[i]), Units(names[i + 1]))
  {
    var at := [3, 6, 0, 7, 2, 0, 0, 1, 0];
    AsciiBefore(names[i], names[i + 1], at[i]);
  }

  /** Keys that ascend one by one. */
  lemma Ascend(order: seq<Entry<Js>>, names: seq<string>)
    requires |order| == |names| && forall i :: 0 <= i < |order| ==> order[i].key == names[i]
    requires forall i :: 0 <= i < |names| - 1 ==> Before(Units(names[i]), Units(names[i + 1]))
    ensures KeysAscend(order)
  {
  }

  lemma EventKeysAscend(p: AuditChain.Payload)
    ensures KeysAscend(EventProperties(p))
  {
    var names := EVENT_NAMES;
    forall i | 0 <= i < |names| - 1 ensures Before(Units(names[i]), Units(names[i + 1])) {
      EventNamesAscend(names, i);
    }
    Ascend(EventProperties(p), names);
  }

  /** One list holds what the other holds, at other places. */
  lemma Rearranged<T>(x: seq<T>, y: seq<T>, at: seq<int>, from: seq<int>)
    requires |x| == |y| == |at| == |from|
    requires forall i :: 0 <= i < |y| ==> 0 <= at[i] < |x| && y[i] == x[at[i]]
    requires forall i :: 0 <= i < |x| ==> 0 <= from[i] < |y| && x[i] == y[from[i]]
    ensures forall e :: e in y <==> e in x
  {
    forall e | e in y ensures e in x {
      var i :| 0 <= i < |y| && y[i] == e;
      assert x[at[i]] == e;
    }
    forall e | e in x ensures e in y {
      var i :| 0 <= i < |x| && x[i] == e;
      assert y[from[i]] == e;
    }
  }

  /** Where each property stands in the order the source lists them, and the other way round. */
  const LISTED := [4, 3, 2, 6, 5, 1, 9, 7, 8, 0]
  const SORTED := [9, 5, 2, 1, 0, 4, 3, 7, 8, 6]

  lemma EventNamesListed()
    ensures |AuditChain.PAYLOAD_NAMES| == |EVENT_NAMES| == |LISTED| == |SORTED| == 10
    ensures forall i :: 0 <= i < 10 ==> 0 <= LISTED[i] < 10 && EVENT_NAMES[i] == AuditChain.PAYLOAD_NAMES[LISTED[i]]
    ensures forall i :: 0 <= i < 10 ==> 0 <= SORTED[i] < 10 && LISTED[SORTED[i]] == i
  {
  }

  lemma EventValuesListed(p: AuditChain.Payload)
    ensures forall i :: 0 <= i < 10 ==>
              0 <= LISTED[i] < 10 && EventValues(p)[i] == AuditChain.PayloadColumns(p)[LISTED[i]]
  {
  }

  lemma EventFields(p: AuditChain.Payload)
    ensures var x := AuditChain.PayloadJs(p).fields;
            DistinctKeys(x) && forall e :: e in EventProperties(p) <==> e in x
  {
    var x, y := AuditChain.PayloadJs(p).fields, EventProperties(p);
    AuditChain.PayloadNamesDistinct();
    EventNamesListed();
    EventValuesListed(p);
    forall i | 0 <= i < 10 ensures x[i] == y[SORTED[i]] {
      assert y[SORTED[i]] == Entry(EVENT_NAMES[SORTED[i]], EventValues(p)[SORTED[i]]);
    }
    Rearranged(x, y, LISTED, SORTED);
  }

  /**
   * What is hashed for an event: its ten columns as JSON in key order, a bar, and
   * the previous hash; and the hash is written with 0x before it.
   */
  lemma EventHashIs(sha: HashFunction, p: AuditChain.Payload, previousHash: string)
    ensures AuditChain.EventHash(sha, p, previousHash)
         == "0x" + sha("{" + Members(EventProperties(p)) + "}" + "|" + previousHash)
    ensures KeysAscend(EventProperties(p))
  {
    EventFields(p);
    EventKeysAscend(p);
    ObjectTextIs(AuditChain.PayloadJs(p).fields, EventProperties(p));
  }

  // ---- a row of the verifier's log -------------------------------------------------

  function Number(n: nat): (v: Js) { Num(NumberOfNat(n)) }

  function RowValues(p: VerifierLog.Partial): (values: seq<Js>)
    ensures |values| == 13
  {
    [Str(p.circuitVersion), Str(p.correlationId), Str(p.createdAt), Str(p.environment), Str(p.id),
     Number(p.latencyUs), Str(p.prevHash),
     Str(p.proofHash), Str(p.pubSignalsHash),
     Number(p.sequence), Number(p.structuralFallback), Str(p.tenantId), Number(p.verified)]
  }

  /** The properties of a row's text, in key order. */
  function RowProperties(p: VerifierLog.Partial): (order: seq<Entry<Js>>) { Named(ROW_NAMES, RowValues(p)) }

  const ROW_NAMES: seq<string> :=
    ["circuit_version", "correlation_id", "created_at", "environment", "id", "latency_us", "prev_hash",
     "proof_hash", "pub_signals_hash", "sequence", "structural_fallback", "tenant_id", "verified"]

  lemma RowNamesAscend(names: seq<string>, i: nat)
    requires names == ROW_NAMES && 0 <= i < 6
    ensures Before(Units(names[i]), Units(names[i + 1]))
  {
    var at := [1, 1, 0, 0, 0, 0];
    AsciiBefore(names[i], names[i + 1], at[i]);
  }

  lemma LaterRowNamesAscend(names: seq<string>, i: nat)
    requires names == ROW_NAMES && 6 <= i < 12
    ensures Before(Units(names[i]), Units(names[i + 1]))
  {
    var at := [2, 1, 0, 1, 0, 0];
    AsciiBefore(names[i], names[i + 1], at[i - 6]);
  }

  lemma RowKeysAscend(p: VerifierLog.Partial)
    ensures KeysAscend(RowProperties(p))
  {
    var names := ROW_NAMES;
    forall i | 0 <= i < |names| - 1 ensures Before(Units(names[i]), Units(names[i + 1])) {
      if i < 6 {
        RowNamesAscend(names, i);
      } else {
        LaterRowNamesAscend(names, i);
      }
    }
    Ascend(RowProperties(p), names);
  }

  predicate Leaf(v: Js) { !v.Arr? && !v.Obj? }

  predicate Leaves(fields: seq<Entry<Js>>) { forall i :: 0 <= i < |fields| ==> Leaf(fields[i].value) }

  lemma {:induction false} LeafText(v: Js)
    requires Leaf(v)
    ensures Stringify(v) == Canonicalize(v)
  {
  }

  lemma OneMember(field: Entry<Js>)
    requires Leaf(field.value)
    ensures Members([field]) == Quote(field.key) + ":" + Stringify(field.value)
  {
    LeafText(field.value);
  }

  lemma {:induction false} LeavesText(fields: seq<Entry<Js>>)
    requires Leaves(fields)
    ensures StringifyFields(fields) == Members(fields)
  {
    if fields != [] {
      FieldsFirst(fields);
      OneMember(fields[0]);
      if |fields| > 1 {
        LeavesText(fields[1..]);
        MembersFront(fields);
        Associative(Members([fields[0]]), ",", Members(fields[1..]));
      } else {
        assert fields == [fields[0]];
      }
    }
  }

  lemma {:induction false} FieldsFirst(fields: seq<Entry<Js>>)
    requires fields != []
    ensures StringifyFields(fields)
         == Quote(fields[0].key) + ":" + Stringify(fields[0].value)
            + (if |fields| == 1 then "" else "," + StringifyFields(fields[1..]))
  {
  }

  lemma RowFields(p: VerifierLog.Partial)
    ensures Record(VerifierLog.COLUMN_NAMES, VerifierLog.Columns(p)).fields == RowProperties(p)
  {
    assert VerifierLog.COLUMN_NAMES == ROW_NAMES;
    assert VerifierLog.Columns(p) == RowValues(p);
  }

  lemma SerializedIs(p: VerifierLog.Partial)
    ensures VerifierLog.CanonicalSerialize(p) == "{" + Members(RowProperties(p)) + "}"
  {
    RowFields(p);
    RowLeaves(p);
    LeavesText(RowProperties(p));
    ObjectIsFields(Record(VerifierLog.COLUMN_NAMES, VerifierLog.Columns(p)));
  }

  lemma {:induction false} ObjectIsFields(v: Js)
    requires v.Obj?
    ensures Stringify(v) == "{" + StringifyFields(v.fields) + "}"
  {
  }

  lemma RowLeaves(p: VerifierLog.Partial)
    ensures Leaves(RowProperties(p))
  {
    RowFields(p);
    VerifierLog.ColumnsFlat(p);
    assert forall i :: 0 <= i < 13 ==> VerifierLog.Flat(VerifierLog.Columns(p)[i]);
  }

  /** What is hashed for a row: its thirteen columns as JSON in key order, and the previous hash right behind. */
  lemma EntryHashIs(sha: HashFunction, p: VerifierLog.Partial, prevHash: string)
    ensures VerifierLog.ComputeEntryHash(sha, p, prevHash) == sha("{" + Members(RowProperties(p)) + "}" + prevHash)
    ensures KeysAscend(RowProperties(p))
  {
    SerializedIs(p);
    RowKeysAscend(p);
  }

  /** A natural number below 10^21 is written as its decimal numeral. */
  lemma {:induction false} NaturalText(n: nat)
    requires |Render(n, 10)| <= 21
    ensures NumberText(NumberOfNat(n)) == Render(n, 10)
  {
    if n > 0 {
      DigitsFilledUp(n, NumberOfNat(n));
    }
  }
}

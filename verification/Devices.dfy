/**
 * The devices table under all of its writers: the trusted create, the
 * enrollment-code functions of src/services/platform.ts and the upsert the
 * registration ceremony does (src/services/registration.ts). A claim is a
 * transaction of three statements; its row lock keeps other writers off that
 * row, but its collision check can be stale when it writes.
 */
module Devices {
  import opened JsText
  import opened Runtime
  import opened EnrollmentCode
  import opened Tenancy

  datatype EnrollmentState = Pending | Enrolled | Revoked
  datatype Status = Active | Inactive | Retired

  datatype Device = Device(
    tenant: string, env: Environment, externalId: string, enrollment: EnrollmentState, status: Status,
    codeHash: Option<string>, codeExpiresAt: int, fingerprintHash: Option<string>, details: Details)

  /** The columns no other rule depends on; metadata as its JSON text. */
  datatype Details = Details(
    name: string, location: Option<string>, battery: Option<int>, metadata: string, lastSeen: Option<int>)

  /** What `updateDevice` is asked to change; None leaves a column alone. */
  datatype Change = Change(
    name: Option<string>, location: Option<string>, battery: Option<int>, status: Option<Status>,
    metadata: Option<string>, lastSeen: Option<int>)

  /** An open claim: the row it holds locked, and whether it has checked for collisions. */
  datatype Claim = Claim(id: string, fpHash: string, checked: bool)

  datatype Table = Table(rows: map<string, Device>, claims: map<nat, Claim>, now: int)

  datatype Action =
    | CreateDevice(id: string, tenant: string, env: Environment, externalId: Option<string>, suffix: string,
                   given: Details)
    | IssueCode(id: string, tenant: string, env: Environment, suffix: string, code: string, given: Details)
    | Regenerate(id: string, tenant: string, env: Environment, code: string)
    | ClaimFind(c: nat, id: string, code: string, fingerprint: string)
    | ClaimCheck(c: nat)
    | ClaimWrite(c: nat)
    | RevokeDevice(id: string, tenant: string, env: Environment)
    | UpdateDevice(id: string, tenant: string, env: Environment, change: Change)
    | Upsert(id: string, tenant: string, env: Environment, fpHash: string, given: Details)
    | Tick(ms: nat)

  // ---- constraints and statements ------------------------------------------

  /** Some row other than `except` has this key: UNIQUE (tenant_id, environment, external_id). */
  predicate ExternalIdTaken(rows: map<string, Device>, tenant: string, env: Environment, ext: string, except: string) {
    exists id :: id in rows && id != except
                 && rows[id].tenant == tenant && rows[id].env == env && rows[id].externalId == ext
  }

  predicate FingerprintTaken(rows: map<string, Device>, tenant: string, env: Environment, fpHash: string,
                             except: string) {
    exists id :: id in rows && id != except
                 && rows[id].tenant == tenant && rows[id].env == env && rows[id].fingerprintHash == Some(fpHash)
  }

  predicate IsLocked(t: Table, id: string) { exists c :: c in t.claims && t.claims[c].id == id }

  /** `defaultExternalId`: a given id that is not blank, trimmed, else the prefix and a random suffix. */
  function DefaultExternalId(prefix: string, externalId: Option<string>, suffix: string): (ext: string) {
    if externalId.Some? && Trim(externalId.value) != "" then Trim(externalId.value) else prefix + "_" + suffix
  }

  /** INSERT, refused when the primary key or the unique constraint is violated. */
  function Inserted(t: Table, id: string, d: Device): (t': Table) {
    if id in t.rows || ExternalIdTaken(t.rows, d.tenant, d.env, d.externalId, id) then t
    else t.(rows := t.rows[id := d])
  }

  predicate Owned(t: Table, id: string, tenant: string, env: Environment) {
    id in t.rows && t.rows[id].tenant == tenant && t.rows[id].env == env
  }

  /** UPDATE … WHERE id, tenant and environment match; a row locked by a claim is not reached. */
  predicate Writable(t: Table, id: string, tenant: string, env: Environment) {
    Owned(t, id, tenant, env) && !IsLocked(t, id)
  }

  function Claimed(d: Device, fpHash: string, now: int): (d': Device) {
    d.(externalId := DerivedExternalId(fpHash), fingerprintHash := Some(fpHash), enrollment := Enrolled,
       codeHash := None, codeExpiresAt := 0, details := d.details.(lastSeen := Some(now)))
  }

  /** `x?.trim() || null`. */
  function NonBlank(x: Option<string>): (r: Option<string>) {
    if x.Some? && Trim(x.value) != "" then Some(Trim(x.value)) else None
  }

  /** `COALESCE(x, was)`. */
  function OrElse<T>(x: Option<T>, was: T): (r: T) { if x.Some? then x.value else was }

  /** The details a new row gets from what the caller gave. */
  function Cleaned(given: Details, battery: Option<int>, lastSeen: Option<int>): (d: Details) {
    Details(Trim(given.name), NonBlank(given.location), battery, given.metadata, lastSeen)
  }

  /** The CHECK constraint on battery_level. */
  predicate BatteryOk(battery: Option<int>) { battery.Some? ==> 0 <= battery.value <= 100 }

  function Changed(d: Device, change: Change): (d': Device) {
    var was := d.details;
    d.(status := OrElse(change.status, d.status),
       details := Details(OrElse(NonBlank(change.name), was.name),
                          if NonBlank(change.location).Some? then NonBlank(change.location) else was.location,
                          if change.battery.Some? then change.battery else was.battery,
                          OrElse(change.metadata, was.metadata),
                          if change.lastSeen.Some? then change.lastSeen else was.lastSeen))
  }

  /**
   * The upsert of `pairDeviceForRegistration`: on a conflict the existing row is
   * re-enrolled and its enrollment code columns are left as they are.
   */
  function Upserted(t: Table, id: string, tenant: string, env: Environment, fpHash: string,
                    given: Details): (t': Table) {
    var ext := DerivedExternalId(fpHash);
    if id in t.rows && t.rows[id].tenant == tenant && t.rows[id].env == env && t.rows[id].externalId == ext then
      if IsLocked(t, id) then t
      else
        var details := t.rows[id].details.(metadata := given.metadata, lastSeen := Some(t.now));
        t.(rows := t.rows[id := t.rows[id].(enrollment := Enrolled, fingerprintHash := Some(fpHash),
                                            details := details)])
    else
      Inserted(t, id, Device(tenant, env, ext, Enrolled, Active, None, 0, Some(fpHash),
                             given.(lastSeen := Some(t.now))))
  }

  function Next(host: Host, t: Table, a: Action): (t': Table) {
    match a
    case CreateDevice(id, tenant, env, externalId, suffix, given) =>
      if !BatteryOk(given.battery) then t
      else
        Inserted(t, id, Device(tenant, env, DefaultExternalId("device", externalId, suffix), Enrolled, Active,
                               None, 0, None, Cleaned(given, given.battery, Some(t.now))))
    case IssueCode(id, tenant, env, suffix, code, given) =>
      Inserted(t, id, Device(tenant, env, DefaultExternalId("pending", None, suffix), Pending, Active,
                             Some(host.sha(code)), t.now + ENROLLMENT_CODE_TTL_MS, None, Cleaned(given, None, None)))
    case Regenerate(id, tenant, env, code) =>
      if Writable(t, id, tenant, env) && t.rows[id].enrollment == Pending then
        t.(rows := t.rows[id := t.rows[id].(codeHash := Some(host.sha(code)),
                                            codeExpiresAt := t.now + ENROLLMENT_CODE_TTL_MS)])
      else t
    case ClaimFind(c, id, code, fingerprint) =>
      if c !in t.claims && IsValidFingerprint(fingerprint) && id in t.rows && !IsLocked(t, id)
         && t.rows[id].codeHash == Some(host.sha(NormaliseEnrollmentCode(host.upper, code)))
         && t.rows[id].enrollment == Pending && t.rows[id].codeExpiresAt > t.now
      then t.(claims := t.claims[c := Claim(id, host.sha(fingerprint), false)])
      else t
    case ClaimCheck(c) =>
      if c !in t.claims || t.claims[c].checked || t.claims[c].id !in t.rows then t
      else
        var claim := t.claims[c];
        if FingerprintTaken(t.rows, t.rows[claim.id].tenant, t.rows[claim.id].env, claim.fpHash, claim.id) then
          t.(claims := t.claims - {c})
        else t.(claims := t.claims[c := claim.(checked := true)])
    case ClaimWrite(c) =>
      if c !in t.claims || !t.claims[c].checked || t.claims[c].id !in t.rows then t
      else
        var claim := t.claims[c];
        var d := Claimed(t.rows[claim.id], claim.fpHash, t.now);
        var ended := t.(claims := t.claims - {c});
        if ExternalIdTaken(t.rows, d.tenant, d.env, d.externalId, claim.id) then ended
        else ended.(rows := t.rows[claim.id := d])
    case RevokeDevice(id, tenant, env) =>
      if Writable(t, id, tenant, env) then
        t.(rows := t.rows[id := t.rows[id].(enrollment := Revoked, status := Retired, codeHash := None,
                                            codeExpiresAt := 0)])
      else t
    case UpdateDevice(id, tenant, env, change) =>
      if Writable(t, id, tenant, env) && BatteryOk(change.battery) then
        t.(rows := t.rows[id := Changed(t.rows[id], change)])
      else t
    case Upsert(id, tenant, env, fpHash, given) => Upserted(t, id, tenant, env, fpHash, given)
    case Tick(ms) => t.(now := t.now + ms)
  }

  function Run(host: Host, t: Table, acts: seq<Action>): (t': Table)
    decreases |acts|
  {
    if acts == [] then t else Next(host, Run(host, t, acts[..|acts| - 1]), acts[|acts| - 1])
  }

  predicate Initial(t: Table) { t.rows == map[] && t.claims == map[] }

  // ---- the invariant -------------------------------------------------------

  predicate DeviceOk(d: Device) {
    && (d.fingerprintHash.Some? ==> d.externalId == DerivedExternalId(d.fingerprintHash.value))
    && (d.codeHash.Some? <==> d.enrollment == Pending)
    && (d.enrollment == Pending ==> d.fingerprintHash.None? && "pending_" <= d.externalId)
  }

  predicate ExternalIdsUnique(rows: map<string, Device>) {
    forall i, j ::
      i in rows && j in rows && i != j && rows[i].tenant == rows[j].tenant && rows[i].env == rows[j].env ==>
        rows[i].externalId != rows[j].externalId
  }

  ghost predicate Inv(t: Table) {
    && (forall id :: id in t.rows ==> DeviceOk(t.rows[id]))
    && ExternalIdsUnique(t.rows)
  }

  lemma InsertedKeepsInv(t: Table, id: string, d: Device)
    requires Inv(t) && DeviceOk(d)
    ensures Inv(Inserted(t, id, d))
  {
  }

  /** A pending row is never in the way of an upsert: its external id does not start with `dev_`. */
  lemma UpsertMissesPending(d: Device, fpHash: string)
    requires DeviceOk(d) && d.externalId == DerivedExternalId(fpHash)
    ensures d.enrollment != Pending
  {
    assert DerivedExternalId(fpHash)[0] == 'd';
    assert "pending_" <= d.externalId ==> d.externalId[0] == 'p';
  }

  lemma UpsertKeepsInv(t: Table, id: string, tenant: string, env: Environment, fpHash: string, given: Details)
    requires Inv(t)
    ensures Inv(Upserted(t, id, tenant, env, fpHash, given))
  {
    if id in t.rows {
      assert DeviceOk(t.rows[id]);
      if t.rows[id].externalId == DerivedExternalId(fpHash) {
        UpsertMissesPending(t.rows[id], fpHash);
      }
    }
  }

  lemma ClaimWriteKeepsInv(host: Host, t: Table, c: nat)
    requires Inv(t)
    ensures Inv(Next(host, t, ClaimWrite(c)))
  {
  }

  lemma WriteKeepsInv(t: Table, id: string, d: Device)
    requires Inv(t) && id in t.rows && DeviceOk(d)
    requires d.tenant == t.rows[id].tenant && d.env == t.rows[id].env && d.externalId == t.rows[id].externalId
    ensures Inv(t.(rows := t.rows[id := d]))
  {
  }

  lemma CreateKeepsInv(host: Host, t: Table, a: Action)
    requires Inv(t) && (a.CreateDevice? || a.IssueCode?)
    ensures Inv(Next(host, t, a))
  {
    match a {
      case CreateDevice(id, tenant, env, externalId, suffix, given) =>
        InsertedKeepsInv(t, id, Device(tenant, env, DefaultExternalId("device", externalId, suffix), Enrolled, Active,
                                       None, 0, None, Cleaned(given, given.battery, Some(t.now))));
      case IssueCode(id, tenant, env, suffix, code, given) =>
        assert "pending" + "_" + suffix == "pending_" + suffix;
        InsertedKeepsInv(t, id, Device(tenant, env, DefaultExternalId("pending", None, suffix), Pending, Active,
                                       Some(host.sha(code)), t.now + ENROLLMENT_CODE_TTL_MS, None,
                                       Cleaned(given, None, None)));
    }
  }

  lemma OwnRowKeepsInv(host: Host, t: Table, a: Action)
    requires Inv(t) && (a.Regenerate? || a.RevokeDevice? || a.UpdateDevice?)
    ensures Inv(Next(host, t, a))
  {
    if Writable(t, a.id, a.tenant, a.env) {
      var d := t.rows[a.id];
      assert DeviceOk(d);
      match a {
        case Regenerate(id, tenant, env, code) =>
          if d.enrollment == Pending {
            WriteKeepsInv(t, id, d.(codeHash := Some(host.sha(code)),
                                    codeExpiresAt := t.now + ENROLLMENT_CODE_TTL_MS));
          }
        case RevokeDevice(id, tenant, env) =>
          WriteKeepsInv(t, id, d.(enrollment := Revoked, status := Retired, codeHash := None, codeExpiresAt := 0));
        case UpdateDevice(id, tenant, env, change) => WriteKeepsInv(t, id, Changed(d, change));
      }
    }
  }

  lemma StepKeepsInv(host: Host, t: Table, a: Action)
    requires Inv(t)
    ensures Inv(Next(host, t, a))
  {
    match a {
      case CreateDevice(_, _, _, _, _, _) => CreateKeepsInv(host, t, a);
      case IssueCode(_, _, _, _, _, _) => CreateKeepsInv(host, t, a);
      case Regenerate(_, _, _, _) => OwnRowKeepsInv(host, t, a);
      case ClaimWrite(c) => ClaimWriteKeepsInv(host, t, c);
      case RevokeDevice(_, _, _) => OwnRowKeepsInv(host, t, a);
      case UpdateDevice(_, _, _, _) => OwnRowKeepsInv(host, t, a);
      case Upsert(id, tenant, env, fpHash, given) => UpsertKeepsInv(t, id, tenant, env, fpHash, given);
      case _ =>
    }
  }

  lemma {:induction false} RunKeepsInv(host: Host, t: Table, acts: seq<Action>)
    requires Inv(t)
    ensures Inv(Run(host, t, acts))
    decreases |acts|
  {
    if acts != [] {
      RunKeepsInv(host, t, acts[..|acts| - 1]);
      StepKeepsInv(host, Run(host, t, acts[..|acts| - 1]), acts[|acts| - 1]);
    }
  }

  // ---- main results ---------------------------------------------------------

  /** Two devices of one tenant and environment never share a fingerprint hash, however claims and upserts race. */
  lemma {:induction false} OneDevicePerFingerprint(host: Host, t: Table, acts: seq<Action>, i: string, j: string)
    requires Initial(t)
    requires var rows := Run(host, t, acts).rows;
             && i in rows && j in rows && rows[i].tenant == rows[j].tenant && rows[i].env == rows[j].env
             && rows[i].fingerprintHash.Some? && rows[i].fingerprintHash == rows[j].fingerprintHash
    ensures i == j
  {
    RunKeepsInv(host, t, acts);
    var rows := Run(host, t, acts).rows;
    assert DeviceOk(rows[i]) && DeviceOk(rows[j]);
  }

  /** An enrollment code hash is present exactly on pending rows, and a pending row has no fingerprint. */
  lemma {:induction false} CodeExactlyOnPending(host: Host, t: Table, acts: seq<Action>, id: string)
    requires Initial(t) && id in Run(host, t, acts).rows
    ensures var d := Run(host, t, acts).rows[id];
            (d.codeHash.Some? <==> d.enrollment == Pending) && (d.enrollment == Pending ==> d.fingerprintHash.None?)
  {
    RunKeepsInv(host, t, acts);
    assert DeviceOk(Run(host, t, acts).rows[id]);
  }

  /**
   * A fingerprint bound to any device, a revoked one included, cannot be claimed
   * for another slot of the same tenant and environment: whatever the collision
   * check saw, the write changes no row. (The comment at
   * src/services/platform.ts:513-516 says a revoked device's fingerprint can be
   * enrolled on a new slot.)
   */
  lemma {:induction false} BoundFingerprintNotClaimed(host: Host, t: Table, acts: seq<Action>, c: nat, other: string)
    requires Initial(t)
    requires var u := Run(host, t, acts);
             && c in u.claims && u.claims[c].id in u.rows && other in u.rows && other != u.claims[c].id
             && u.rows[other].tenant == u.rows[u.claims[c].id].tenant
             && u.rows[other].env == u.rows[u.claims[c].id].env
             && u.rows[other].fingerprintHash == Some(u.claims[c].fpHash)
    ensures var u := Run(host, t, acts);
            && Next(host, u, ClaimWrite(c)).rows == u.rows
            && (!u.claims[c].checked ==> c !in Next(host, u, ClaimCheck(c)).claims)
  {
    RunKeepsInv(host, t, acts);
    var u := Run(host, t, acts);
    assert DeviceOk(u.rows[other]);
    assert ExternalIdTaken(u.rows, u.rows[other].tenant, u.rows[other].env, u.rows[other].externalId, u.claims[c].id);
    assert FingerprintTaken(u.rows, u.rows[other].tenant, u.rows[other].env, u.claims[c].fpHash, u.claims[c].id);
  }

  /** The registration upsert, by contrast, re-enrolls that same device. */
  lemma {:induction false} UpsertReenrolls(host: Host, t: Table, acts: seq<Action>, id: string, fpHash: string,
                                           given: Details)
    requires Initial(t) && id in Run(host, t, acts).rows
    requires Run(host, t, acts).rows[id].fingerprintHash == Some(fpHash) && !IsLocked(Run(host, t, acts), id)
    ensures var u := Run(host, t, acts);
            var d := u.rows[id];
            Next(host, u, Upsert(id, d.tenant, d.env, fpHash, given)).rows
            == u.rows[id := d.(enrollment := Enrolled,
                               details := d.details.(metadata := given.metadata, lastSeen := Some(u.now)))]
  {
    RunKeepsInv(host, t, acts);
    assert DeviceOk(Run(host, t, acts).rows[id]);
  }

  // ---- the row lock of a claim -------------------------------------------------

  /** No two open claims hold one row. */
  predicate ClaimsApart(t: Table) {
    forall c, d :: c in t.claims && d in t.claims && c != d ==> t.claims[c].id != t.claims[d].id
  }

  lemma {:induction false} RunKeepsApart(host: Host, t: Table, acts: seq<Action>)
    requires Initial(t)
    ensures ClaimsApart(Run(host, t, acts))
    decreases |acts|
  {
    if acts != [] {
      RunKeepsApart(host, t, acts[..|acts| - 1]);
      StepKeepsApart(host, Run(host, t, acts[..|acts| - 1]), acts[|acts| - 1]);
    }
  }

  lemma StepKeepsApart(host: Host, t: Table, a: Action)
    requires ClaimsApart(t)
    ensures ClaimsApart(Next(host, t, a))
  {
  }

  /** From the find of a claim to its end nobody else changes the row it holds. */
  lemma {:induction false} LockedRowStays(host: Host, t: Table, acts: seq<Action>, a: Action, c: nat)
    requires Initial(t)
    requires var u := Run(host, t, acts);
             c in u.claims && u.claims[c].id in u.rows && a != ClaimWrite(c)
    ensures var u := Run(host, t, acts);
            var id, u' := u.claims[c].id, Next(host, u, a);
            id in u'.rows && u'.rows[id] == u.rows[id]
  {
    RunKeepsApart(host, t, acts);
    StepLeavesLocked(host, Run(host, t, acts), a, c);
  }

  lemma StepLeavesLocked(host: Host, t: Table, a: Action, c: nat)
    requires ClaimsApart(t) && c in t.claims && t.claims[c].id in t.rows && a != ClaimWrite(c)
    ensures var id, t' := t.claims[c].id, Next(host, t, a);
            id in t'.rows && t'.rows[id] == t.rows[id]
  {
    assert IsLocked(t, t.claims[c].id);
  }

  /** And no other row: a writer whose row no claim holds does what it would do without any claim. */
  lemma OthersGoOn(host: Host, t: Table, a: Action)
    requires a.CreateDevice? || a.IssueCode? || a.Regenerate? || a.RevokeDevice? || a.UpdateDevice? || a.Upsert?
    requires forall c :: c in t.claims ==> t.claims[c].id != a.id
    ensures Next(host, t, a).rows == Next(host, t.(claims := map[]), a).rows && Next(host, t, a).claims == t.claims
  {
    var alone := t.(claims := map[]);
    assert !IsLocked(t, a.id) && !IsLocked(alone, a.id);
  }
}

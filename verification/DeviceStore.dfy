/**
 * The functions of src/services/platform.ts over the devices table they update,
 * each run to its end, with the table invariant of Devices.dfy kept throughout.
 * A claim is one transaction; the last lemma says how it relates to the
 * three interleavable statements of Devices.dfy.
 */
module DeviceStore {
  import opened JsText
  import opened Runtime
  import opened EnrollmentCode
  import opened Tenancy
  import opened Devices

  datatype ClaimOutcome =
    | NowEnrolled(id: string)
    | InvalidFingerprint
    | CodeNotFoundOrExpired
    | FingerprintCollision
    | ConstraintViolated

  /** The rows the SELECT of `claimDeviceWithCode` finds. */
  predicate Found(host: Host, rows: map<string, Device>, now: int, id: string, typed: string) {
    && id in rows && rows[id].codeHash == Some(host.sha(NormaliseEnrollmentCode(host.upper, typed)))
    && rows[id].enrollment == Pending && rows[id].codeExpiresAt > now
  }

  /** Pending, its code is the one typed, and not over: what may be claimed. */
  predicate Claimable(host: Host, rows: map<string, Device>, now: int, id: string, typed: string) {
    && id in rows && rows[id].enrollment == Pending && now < rows[id].codeExpiresAt
    && rows[id].codeHash == Some(host.sha(NormaliseEnrollmentCode(host.upper, typed)))
  }

  /** Another device of the tenant and environment is bound to this fingerprint. */
  predicate BoundElsewhere(rows: map<string, Device>, id: string, fpHash: string)
    requires id in rows
  {
    exists other :: && other in rows && other != id && rows[other].tenant == rows[id].tenant
                    && rows[other].env == rows[id].env && rows[other].fingerprintHash == Some(fpHash)
  }

  /** Another device of the tenant and environment is called that. */
  predicate NamedElsewhere(rows: map<string, Device>, id: string, tenant: string, env: Environment, ext: string) {
    exists other :: && other in rows && other != id && rows[other].tenant == tenant && rows[other].env == env
                    && rows[other].externalId == ext
  }

  /** A text that is given and not blank, without the blanks around it. */
  function Given(x: Option<string>): (r: Option<string>) {
    match x
    case None => None
    case Some(text) => if Trim(text) == "" then None else Some(Trim(text))
  }

  /** A row that is there for that tenant and environment. */
  predicate OwnRow(rows: map<string, Device>, id: string, tenant: string, env: Environment) {
    id in rows && rows[id].tenant == tenant && rows[id].env == env
  }

  /** A column after an update: what was given, else what was there. */
  predicate Takes<T(==)>(given: Option<T>, was: T, now: T) { now == match given case Some(x) => x case None => was }

  /** A nullable column. */
  predicate TakesSome<T(==)>(given: Option<T>, was: Option<T>, now: Option<T>) {
    now == if given == None then was else given
  }

  class DeviceTable {
    const host: Host
    var rows: map<string, Device>
    var now: int

    ghost function Abs(): (t: Table)
      reads this
    {
      Table(rows, map[], now)
    }

    ghost predicate Valid()
      reads this
    {
      Inv(Abs())
    }

    constructor (host: Host, now: int)
      ensures Valid() && this.host == host && Abs() == Table(map[], map[], now)
    {
      this.host := host;
      rows := map[];
      this.now := now;
    }

    /** INSERT under the primary key and the unique constraint. */
    method Insert(id: string, d: Device) returns (ok: bool)
      requires Valid() && DeviceOk(d)
      modifies this`rows
      ensures Valid() && Abs() == Inserted(old(Abs()), id, d)
      ensures ok <==> id !in old(rows) && !ExternalIdTaken(old(rows), d.tenant, d.env, d.externalId, id)
    {
      InsertedKeepsInv(Abs(), id, d);
      ok := id !in rows && !ExternalIdTaken(rows, d.tenant, d.env, d.externalId, id);
      if ok {
        rows := rows[id := d];
      }
    }

    method CreateDevice(id: string, tenant: string, env: Environment, externalId: Option<string>, suffix: string,
                        given: Details)
      returns (ok: bool)
      requires Valid()
      modifies this`rows
      ensures Valid()
      ensures Abs() == Next(host, old(Abs()), Devices.CreateDevice(id, tenant, env, externalId, suffix, given))
      ensures var ext := match Given(externalId) case Some(text) => text case None => "device_" + suffix;
              && (ok <==> && (given.battery.Some? ==> 0 <= given.battery.value <= 100)
                          && id !in old(rows) && !NamedElsewhere(old(rows), id, tenant, env, ext))
              && (ok ==>
                    rows == old(rows)[id := Device(tenant, env, ext, Enrolled, Active, None, 0, None,
                                                   Details(Trim(given.name), Given(given.location), given.battery,
                                                           given.metadata, Some(now)))])
      ensures !ok ==> rows == old(rows)
    {
      assert "device" + "_" + suffix == "device_" + suffix;
      var ext := DefaultExternalId("device", externalId, suffix);
      if !BatteryOk(given.battery) {
        return false;
      }
      ok := Insert(id, Device(tenant, env, ext, Enrolled, Active, None, 0, None,
                              Cleaned(given, given.battery, Some(now))));
    }

    method IssueEnrollmentCode(id: string, tenant: string, env: Environment, suffix: string, code: string,
                               given: Details) returns (ok: bool)
      requires Valid()
      modifies this`rows
      ensures Valid() && Abs() == Next(host, old(Abs()), IssueCode(id, tenant, env, suffix, code, given))
      ensures ok <==> id !in old(rows) && !NamedElsewhere(old(rows), id, tenant, env, "pending_" + suffix)
      ensures ok ==>
                rows == old(rows)[id := Device(tenant, env, "pending_" + suffix, Pending, Active, Some(host.sha(code)),
                                               now + 900_000, None,
                                               Details(Trim(given.name), Given(given.location), None, given.metadata,
                                                       None))]
      ensures ok && IsGenerated(code) && UpperCases(host.upper) ==> Claimable(host, rows, now, id, code)
      ensures !ok ==> rows == old(rows)
    {
      var ext := DefaultExternalId("pending", None, suffix);
      assert "pending" + "_" + suffix == "pending_" + suffix;
      ok := Insert(id, Device(tenant, env, ext, Pending, Active,
                              Some(host.sha(code)), now + ENROLLMENT_CODE_TTL_MS, None,
                              Cleaned(given, None, None)));
      if IsGenerated(code) && UpperCases(host.upper) {
        NormaliseRecognises(host.upper, code, code);
      }
    }

    method RegenerateEnrollmentCode(id: string, tenant: string, env: Environment, code: string) returns (ok: bool)
      requires Valid()
      modifies this`rows
      ensures Valid() && Abs() == Next(host, old(Abs()), Regenerate(id, tenant, env, code))
      ensures ok <==> OwnRow(old(rows), id, tenant, env) && old(rows)[id].enrollment == Pending
      ensures !ok ==> rows == old(rows)
      ensures ok ==>
                rows == old(rows)[id := old(rows)[id].(codeHash := Some(host.sha(code)),
                                                       codeExpiresAt := now + 900_000)]
      ensures ok ==>
                forall typed :: Claimable(host, rows, now, id, typed) <==>
                    host.sha(NormaliseEnrollmentCode(host.upper, typed)) == host.sha(code)
    {
      StepKeepsInv(host, Abs(), Regenerate(id, tenant, env, code));
      ok := id in rows && rows[id].tenant == tenant && rows[id].env == env && rows[id].enrollment == Pending;
      if ok {
        rows := rows[id := rows[id].(codeHash := Some(host.sha(code)), codeExpiresAt := now + ENROLLMENT_CODE_TTL_MS)];
      }
    }

    method RevokeDevice(id: string, tenant: string, env: Environment) returns (ok: bool)
      requires Valid()
      modifies this`rows
      ensures Valid() && Abs() == Next(host, old(Abs()), Devices.RevokeDevice(id, tenant, env))
      ensures ok <==> OwnRow(old(rows), id, tenant, env)
      ensures !ok ==> rows == old(rows)
      ensures ok ==>
                rows == old(rows)[id := old(rows)[id].(enrollment := Revoked, status := Retired, codeHash := None,
                                                       codeExpiresAt := 0)]
      ensures ok ==> forall typed :: !Claimable(host, rows, now, id, typed)
    {
      StepKeepsInv(host, Abs(), Devices.RevokeDevice(id, tenant, env));
      ok := id in rows && rows[id].tenant == tenant && rows[id].env == env;
      if ok {
        rows := rows[id := rows[id].(enrollment := Revoked, status := Retired, codeHash := None, codeExpiresAt := 0)];
      }
    }

    /** `updateDevice`: the columns given, and no others; nothing else about the device changes. */
    method UpdateDevice(id: string, tenant: string, env: Environment, change: Change) returns (ok: bool)
      requires Valid()
      modifies this`rows
      ensures Valid() && Abs() == Next(host, old(Abs()), Devices.UpdateDevice(id, tenant, env, change))
      ensures ok <==> OwnRow(old(rows), id, tenant, env)
                      && (change.battery.Some? ==> 0 <= change.battery.value <= 100)
      ensures !ok ==> rows == old(rows)
      ensures ok ==>
                && rows == old(rows)[id := rows[id]]
                && rows[id] == old(rows)[id].(status := rows[id].status, details := rows[id].details)
                && Takes(change.status, old(rows)[id].status, rows[id].status)
                && var was, after := old(rows)[id].details, rows[id].details;
                   && Takes(Given(change.name), was.name, after.name)
                   && TakesSome(Given(change.location), was.location, after.location)
                   && TakesSome(change.battery, was.battery, after.battery)
                   && Takes(change.metadata, was.metadata, after.metadata)
                   && TakesSome(change.lastSeen, was.lastSeen, after.lastSeen)
    {
      StepKeepsInv(host, Abs(), Devices.UpdateDevice(id, tenant, env, change));
      ok := id in rows && rows[id].tenant == tenant && rows[id].env == env && BatteryOk(change.battery);
      if ok {
        rows := rows[id := Changed(rows[id], change)];
      }
    }

    /** `claimDeviceWithCode`: one transaction, rolled back on every error. */
    method ClaimDeviceWithCode(typed: string, fingerprint: string) returns (r: ClaimOutcome)
      requires Valid()
      modifies this`rows
      ensures Valid()
      ensures r == InvalidFingerprint <==> |Trim(fingerprint)| < 16 || |fingerprint| > 4096
      ensures r == CodeNotFoundOrExpired <==>
                r != InvalidFingerprint && forall id :: id in old(rows) ==> !Claimable(host, old(rows), now, id, typed)
      ensures r.NowEnrolled? ==>
                var fpHash := host.sha(fingerprint);
                && Claimable(host, old(rows), now, r.id, typed) && !BoundElsewhere(old(rows), r.id, fpHash)
                && rows == old(rows)[r.id := old(rows)[r.id].(
                                       externalId := "dev_" + (if |fpHash| < 16 then fpHash else fpHash[..16]),
                                       fingerprintHash := Some(fpHash), enrollment := Enrolled, codeHash := None,
                                       codeExpiresAt := 0,
                                       details := old(rows)[r.id].details.(lastSeen := Some(now)))]
                && !NamedElsewhere(old(rows), r.id, rows[r.id].tenant, rows[r.id].env, rows[r.id].externalId)
      ensures r == FingerprintCollision ==>
                exists id :: Claimable(host, old(rows), now, id, typed)
                             && BoundElsewhere(old(rows), id, host.sha(fingerprint))
      ensures r == ConstraintViolated ==>
                exists id :: Claimable(host, old(rows), now, id, typed)
                             && NamedElsewhere(old(rows), id, old(rows)[id].tenant, old(rows)[id].env,
                                               DerivedExternalId(host.sha(fingerprint)))
      ensures !r.NowEnrolled? ==> rows == old(rows)
    {
      if !IsValidFingerprint(fingerprint) {
        return InvalidFingerprint;
      }
      var fpHash := host.sha(fingerprint);
      var matching := set id | id in rows && Found(host, rows, now, id, typed);
      assert forall i :: i in rows && Found(host, rows, now, i, typed) ==> i in matching;
      if matching == {} {
        return CodeNotFoundOrExpired;
      }
      var id :| id in matching;
      assert Claimable(host, rows, now, id, typed);
      assert |fpHash| == 16 ==> fpHash[..16] == fpHash;
      var pending := rows[id];
      if FingerprintTaken(rows, pending.tenant, pending.env, fpHash, id) {
        return FingerprintCollision;
      }
      var claimed := Claimed(pending, fpHash, now);
      if ExternalIdTaken(rows, claimed.tenant, claimed.env, claimed.externalId, id) {
        return ConstraintViolated;
      }
      ClaimedKeepsInv(Abs(), id, fpHash);
      rows := rows[id := claimed];
      return NowEnrolled(id);
    }
  }

  lemma ClaimedKeepsInv(t: Table, id: string, fpHash: string)
    requires Inv(t) && id in t.rows
    requires !ExternalIdTaken(t.rows, t.rows[id].tenant, t.rows[id].env, DerivedExternalId(fpHash), id)
    ensures Inv(t.(rows := t.rows[id := Claimed(t.rows[id], fpHash, t.now)]))
  {
    var d := Claimed(t.rows[id], fpHash, t.now);
    assert DeviceOk(d);
  }

  /** A claim without interruption does what its three statements do in a row. */
  lemma ClaimIsItsStatements(host: Host, t: Table, c: nat, id: string, typed: string, fingerprint: string)
    requires t.claims == map[] && IsValidFingerprint(fingerprint) && Found(host, t.rows, t.now, id, typed)
    ensures var fpHash := host.sha(fingerprint);
            var found := Next(host, t, ClaimFind(c, id, typed, fingerprint));
            Next(host, Next(host, found, ClaimCheck(c)), ClaimWrite(c)).rows
            == if FingerprintTaken(t.rows, t.rows[id].tenant, t.rows[id].env, fpHash, id)
                  || ExternalIdTaken(t.rows, t.rows[id].tenant, t.rows[id].env, DerivedExternalId(fpHash), id)
               then t.rows else t.rows[id := Claimed(t.rows[id], fpHash, t.now)]
  {
    assert !IsLocked(t, id);
  }

  /** The first statement opens a claim for what may be claimed and is free, and in every other case nothing happens. */
  lemma FindIs(host: Host, t: Table, c: nat, id: string, typed: string, fingerprint: string)
    ensures Next(host, t, ClaimFind(c, id, typed, fingerprint))
         == if |Trim(fingerprint)| >= 16 && |fingerprint| <= 4096 && Claimable(host, t.rows, t.now, id, typed)
               && c !in t.claims && forall d :: d in t.claims ==> t.claims[d].id != id
            then t.(claims := t.claims[c := Claim(id, host.sha(fingerprint), false)]) else t
  {
    assert IsLocked(t, id) <==> exists d :: d in t.claims && t.claims[d].id == id;
  }
}

/**
 * The e-mail one-time-password store of iot/src/otp.ts: two maps, one-shot codes
 * and one-shot session tokens.
 */
module Otp {

  const CODE_TTL_MS := 5 * 60 * 1000
  const SESSION_TTL_MS := 2 * 60 * 1000
  const MAX_ATTEMPTS := 5
  const REQUEST_COOLDOWN_MS := 30 * 1000

  datatype Kind = Signup | Login

  datatype Pending = Pending(codeHash: string, expiresAt: int, attempts: nat, kind: Kind, issuedAt: int)
  datatype Session = Session(email: string, kind: Kind, expiresAt: int)

  datatype RequestResult = Issued(code: string, expiresAt: int) | RateLimited(retryAfterMs: int)

  datatype VerifyResult =
    | Verified(email: string, kind: Kind, sessionToken: string, sessionExpiresAt: int)
    | NoPending | ExpiredCode | KindMismatch | TooManyAttempts | WrongCode

  /** SHA-256 of the code. */
  type Hash = string -> string

  function KindText(kind: Kind): (s: string) { if kind == Signup then "signup" else "login" }

  function Key(email: string, kind: Kind): (k: string) { email + "|" + KindText(kind) }

  /** The separator is found from the right, so addresses containing '|' do not confuse keys. */
  lemma KeyInjective(e: string, k: Kind, f: string, l: Kind)
    requires Key(e, k) == Key(f, l)
    ensures e == f && k == l
  {
    var s, t := Key(e, k), Key(f, l);
    assert s[|s| - 1] == (if k == Signup then 'p' else 'n');
    assert t[|t| - 1] == (if l == Signup then 'p' else 'n');
    assert s[..|e|] == e && t[..|f|] == f;
  }

  // ---- the record of what happened -------------------------------------------

  /** What the store did, in order; an entry refers back to an earlier one by its position. */
  datatype Event =
    | CodeIssued(email: string, kind: Kind, codeHash: string, at: int)
    | Compared(issue: nat, submitted: string)
    | TokenMinted(issue: nat, token: string, email: string, kind: Kind, at: int)
    | TokenConsumed(mint: nat, token: string, email: string, kind: Kind, at: int)

  /** The two maps, the record, and for every entry the position it came from. */
  datatype State = State(
    pending: map<string, Pending>, sessions: map<string, Session>,
    log: seq<Event>, issueOf: map<string, nat>, mintOf: map<string, nat>)

  // ---- the operations as functions -------------------------------------------

  function RequestCode(hash: Hash, s: State, email: string, kind: Kind, now: int,
                       code: string): (r: (State, RequestResult)) {
    var key := Key(email, kind);
    if key in s.pending && now - s.pending[key].issuedAt < REQUEST_COOLDOWN_MS then
      (s, RateLimited(REQUEST_COOLDOWN_MS - (now - s.pending[key].issuedAt)))
    else
      (s.(pending := s.pending[key := Pending(hash(code), now + CODE_TTL_MS, 0, kind, now)],
          log := s.log + [CodeIssued(email, kind, hash(code), now)],
          issueOf := s.issueOf[key := |s.log|]),
       Issued(code, now + CODE_TTL_MS))
  }

  function Dropped(s: State, key: string): (s': State) { s.(pending := s.pending - {key}) }

  function VerifyCode(hash: Hash, s: State, email: string, code: string, kind: Kind, now: int, token: string)
    : (r: (State, VerifyResult))
    requires s.pending.Keys <= s.issueOf.Keys
  {
    var key := Key(email, kind);
    if key !in s.pending then (s, NoPending)
    else
      var entry := s.pending[key];
      if now >= entry.expiresAt then (Dropped(s, key), ExpiredCode)
      else if entry.kind != kind then (s, KindMismatch)
      else if entry.attempts >= MAX_ATTEMPTS then (Dropped(s, key), TooManyAttempts)
      else
        var compared := s.(log := s.log + [Compared(s.issueOf[key], hash(code))]);
        if hash(code) != entry.codeHash then
          if entry.attempts + 1 >= MAX_ATTEMPTS then (Dropped(compared, key), TooManyAttempts)
          else (compared.(pending := s.pending[key := entry.(attempts := entry.attempts + 1)]), WrongCode)
        else
          (Dropped(compared, key).(
             sessions := s.sessions[token := Session(email, kind, now + SESSION_TTL_MS)],
             log := compared.log + [TokenMinted(s.issueOf[key], token, email, kind, now)],
             mintOf := s.mintOf[token := |compared.log|]),
           Verified(email, kind, token, now + SESSION_TTL_MS))
  }

  function ConsumeToken(s: State, token: string, email: string, kind: Kind, now: int): (r: (State, bool))
    requires s.sessions.Keys <= s.mintOf.Keys
  {
    if token !in s.sessions then (s, false)
    else
      var session := s.sessions[token];
      var gone := s.(sessions := s.sessions - {token});
      if session.expiresAt < now || session.email != email || session.kind != kind then (gone, false)
      else (gone.(log := s.log + [TokenConsumed(s.mintOf[token], token, email, kind, now)]), true)
  }

  function Collected(s: State, now: int): (s': State) {
    s.(pending := map k | k in s.pending && s.pending[k].expiresAt >= now :: s.pending[k],
       sessions := map k | k in s.sessions && s.sessions[k].expiresAt >= now :: s.sessions[k])
  }

  // ---- what each call answers and leaves behind ---------------------------------

  /** The key of an address and a kind. */
  function Under(email: string, kind: Kind): (k: string) {
    match kind case Signup => email + "|signup" case Login => email + "|login"
  }

  /** A code is refused for thirty seconds after the last one; else it replaces it and is good for five minutes. */
  predicate RequestAnswers(hash: Hash, s: State, email: string, kind: Kind, now: int, code: string, r: RequestResult,
                           s': State) {
    var key := Under(email, kind);
    if key in s.pending && now < s.pending[key].issuedAt + 30_000 then
      s' == s && r == RateLimited(s.pending[key].issuedAt + 30_000 - now)
    else
      && r == Issued(code, now + 300_000) && s'.sessions == s.sessions && s'.mintOf == s.mintOf
      && s'.pending == s.pending[key := Pending(hash(code), now + 300_000, 0, kind, now)]
      && s'.log == s.log + [CodeIssued(email, kind, hash(code), now)] && s'.issueOf == s.issueOf[key := |s.log|]
  }

  /**
   * Verified if and only if an entry is pending there that is not over, is of that
   * kind, has attempts left, and holds the hash of the code: then the entry goes, and
   * the token answered is good for two minutes. A wrong code costs an attempt, and
   * the fifth one the entry; an entry that is over, or without attempts, goes too.
   */
  predicate VerifyAnswers(hash: Hash, s: State, email: string, code: string, kind: Kind, now: int, token: string,
                          r: VerifyResult, s': State)
    requires s.pending.Keys <= s.issueOf.Keys
  {
    var key := Under(email, kind);
    if key !in s.pending then r == NoPending && s' == s
    else if s.pending[key].expiresAt <= now then r == ExpiredCode && s' == s.(pending := s.pending - {key})
    else if s.pending[key].kind != kind then r == KindMismatch && s' == s
    else if s.pending[key].attempts >= 5 then r == TooManyAttempts && s' == s.(pending := s.pending - {key})
    else
      var entry, compared := s.pending[key], Compared(s.issueOf[key], hash(code));
      if entry.codeHash == hash(code) then
        && r == Verified(email, kind, token, now + 120_000)
        && s'.pending == s.pending - {key} && s'.sessions == s.sessions[token := Session(email, kind, now + 120_000)]
        && s'.log == s.log + [compared, TokenMinted(s.issueOf[key], token, email, kind, now)]
        && s'.mintOf == s.mintOf[token := |s.log| + 1] && s'.issueOf == s.issueOf
      else
        && r == (if entry.attempts < 4 then WrongCode else TooManyAttempts)
        && s' == s.(log := s.log + [compared],
                    pending := if entry.attempts < 4 then s.pending[key := entry.(attempts := entry.attempts + 1)]
                               else s.pending - {key})
  }

  /** A token is good once, until it is over, for its own address and kind; looking at it uses it up. */
  predicate ConsumeAnswers(s: State, token: string, email: string, kind: Kind, now: int, ok: bool, s': State)
    requires s.sessions.Keys <= s.mintOf.Keys
  {
    && (ok <==> token in s.sessions && now <= s.sessions[token].expiresAt && s.sessions[token].email == email
                && s.sessions[token].kind == kind)
    && s'.sessions == s.sessions - {token} && s'.pending == s.pending
    && s'.issueOf == s.issueOf && s'.mintOf == s.mintOf
    && s'.log == s.log + if ok then [TokenConsumed(s.mintOf[token], token, email, kind, now)] else []
  }

  lemma RequestIs(hash: Hash, s: State, email: string, kind: Kind, now: int, code: string)
    ensures var (s', r) := RequestCode(hash, s, email, kind, now, code);
            RequestAnswers(hash, s, email, kind, now, code, r, s')
  {
    assert Key(email, kind) == Under(email, kind);
  }

  lemma VerifyIs(hash: Hash, s: State, email: string, code: string, kind: Kind, now: int, token: string)
    requires s.pending.Keys <= s.issueOf.Keys
    ensures var (s', r) := VerifyCode(hash, s, email, code, kind, now, token);
            VerifyAnswers(hash, s, email, code, kind, now, token, r, s')
  {
    assert Key(email, kind) == Under(email, kind);
    var key := Under(email, kind);
    if key in s.pending {
      var compared, minted := Compared(s.issueOf[key], hash(code)),
                              TokenMinted(s.issueOf[key], token, email, kind, now);
      assert s.log + [compared] + [minted] == s.log + [compared, minted];
    }
  }

  lemma ConsumeIs(s: State, token: string, email: string, kind: Kind, now: int)
    requires s.sessions.Keys <= s.mintOf.Keys
    ensures var (s', ok) := ConsumeToken(s, token, email, kind, now);
            ConsumeAnswers(s, token, email, kind, now, ok, s')
  {
    assert token !in s.sessions ==> s.sessions - {token} == s.sessions;
  }

  // ---- the module ------------------------------------------------------------

  class OtpStore {
    const hash: Hash
    var pending: map<string, Pending>
    var sessions: map<string, Session>
    ghost var log: seq<Event>
    ghost var issueOf: map<string, nat>
    ghost var mintOf: map<string, nat>

    ghost function Abs(): (s: State)
      reads this
    {
      State(pending, sessions, log, issueOf, mintOf)
    }

    /** Every entry has its position in the record. */
    ghost predicate Traced()
      reads this
    {
      pending.Keys <= issueOf.Keys && sessions.Keys <= mintOf.Keys
    }

    constructor (hash: Hash)
      ensures Traced() && this.hash == hash && Abs() == State(map[], map[], [], map[], map[])
    {
      this.hash := hash;
      pending, sessions, log, issueOf, mintOf := map[], map[], [], map[], map[];
    }

    method Request(email: string, kind: Kind, now: int, code: string) returns (r: RequestResult)
      requires Traced()
      modifies this
      ensures Traced()
      ensures (Abs(), r) == RequestCode(hash, old(Abs()), email, kind, now, code)
      ensures RequestAnswers(hash, old(Abs()), email, kind, now, code, r, Abs())
    {
      RequestIs(hash, Abs(), email, kind, now, code);
      var key := Key(email, kind);
      if key in pending && now - pending[key].issuedAt < REQUEST_COOLDOWN_MS {
        return RateLimited(REQUEST_COOLDOWN_MS - (now - pending[key].issuedAt));
      }
      pending := pending[key := Pending(hash(code), now + CODE_TTL_MS, 0, kind, now)];
      issueOf := issueOf[key := |log|];
      log := log + [CodeIssued(email, kind, hash(code), now)];
      return Issued(code, now + CODE_TTL_MS);
    }

    method Verify(email: string, code: string, kind: Kind, now: int, token: string) returns (r: VerifyResult)
      requires Traced()
      modifies this
      ensures Traced()
      ensures (Abs(), r) == VerifyCode(hash, old(Abs()), email, code, kind, now, token)
      ensures VerifyAnswers(hash, old(Abs()), email, code, kind, now, token, r, Abs())
    {
      VerifyIs(hash, Abs(), email, code, kind, now, token);
      var key := Key(email, kind);
      if key !in pending {
        return NoPending;
      }
      var entry := pending[key];
      if now >= entry.expiresAt {
        pending := pending - {key};
        return ExpiredCode;
      }
      if entry.kind != kind {
        return KindMismatch;
      }
      if entry.attempts >= MAX_ATTEMPTS {
        pending := pending - {key};
        return TooManyAttempts;
      }
      ghost var before := pending;
      pending := pending[key := entry.(attempts := entry.attempts + 1)];
      assert pending - {key} == before - {key};
      log := log + [Compared(issueOf[key], hash(code))];
      if hash(code) != entry.codeHash {
        if entry.attempts + 1 >= MAX_ATTEMPTS {
          pending := pending - {key};
          return TooManyAttempts;
        }
        return WrongCode;
      }
      pending := pending - {key};
      sessions := sessions[token := Session(email, kind, now + SESSION_TTL_MS)];
      mintOf := mintOf[token := |log|];
      log := log + [TokenMinted(issueOf[key], token, email, kind, now)];
      return Verified(email, kind, token, now + SESSION_TTL_MS);
    }

    method ConsumeSession(token: string, email: string, kind: Kind, now: int) returns (ok: bool)
      requires Traced()
      modifies this
      ensures Traced()
      ensures (Abs(), ok) == ConsumeToken(old(Abs()), token, email, kind, now)
      ensures ConsumeAnswers(old(Abs()), token, email, kind, now, ok, Abs())
    {
      ConsumeIs(Abs(), token, email, kind, now);
      if token !in sessions {
        return false;
      }
      var session := sessions[token];
      sessions := sessions - {token};
      if session.expiresAt < now {
        return false;
      }
      if session.email != email {
        return false;
      }
      if session.kind != kind {
        return false;
      }
      log := log + [TokenConsumed(mintOf[token], token, email, kind, now)];
      return true;
    }

    /** `gc()`: one pass over each map. */
    method Gc(now: int)
      requires Traced()
      modifies this
      ensures Traced()
      ensures Abs() == Collected(old(Abs()), now)
      ensures forall k :: k in pending <==> k in old(pending) && now <= old(pending)[k].expiresAt
      ensures forall k :: k in pending ==> pending[k] == old(pending)[k]
      ensures forall t :: t in sessions <==> t in old(sessions) && now <= old(sessions)[t].expiresAt
      ensures forall t :: t in sessions ==> sessions[t] == old(sessions)[t]
    {
      var keys := pending.Keys;
      while keys != {}
        invariant keys <= old(pending).Keys
        invariant pending ==
                  map k | k in old(pending) && (k in keys || old(pending)[k].expiresAt >= now) :: old(pending)[k]
        invariant unchanged(`sessions) && unchanged(`log) && unchanged(`issueOf) && unchanged(`mintOf)
        decreases |keys|
      {
        var k :| k in keys;
        if pending[k].expiresAt < now {
          pending := pending - {k};
        }
        keys := keys - {k};
      }
      GcSessions(now);
    }

    method GcSessions(now: int)
      modifies this`sessions
      ensures sessions == Collected(old(Abs()), now).sessions
    {
      var tokens := sessions.Keys;
      while tokens != {}
        invariant tokens <= old(sessions).Keys
        invariant sessions ==
                  map t | t in old(sessions) && (t in tokens || old(sessions)[t].expiresAt >= now) :: old(sessions)[t]
        decreases |tokens|
      {
        var t :| t in tokens;
        if sessions[t].expiresAt < now {
          sessions := sessions - {t};
        }
        tokens := tokens - {t};
      }
    }
  }

  // ---- runs ------------------------------------------------------------------

  datatype Action =
    | Request(email: string, kind: Kind, now: int, code: string)
    | Verify(email: string, code: string, kind: Kind, now: int, token: string)
    | Consume(token: string, email: string, kind: Kind, now: int)
    | Gc(now: int)

  /** A token the random supply has not given out before. */
  predicate FreshToken(s: State, token: string) {
    forall i :: 0 <= i < |s.log| && s.log[i].TokenMinted? ==> s.log[i].token != token
  }

  function Next(hash: Hash, s: State, a: Action): (s': State)
    requires s.pending.Keys <= s.issueOf.Keys && s.sessions.Keys <= s.mintOf.Keys
    ensures s'.pending.Keys <= s'.issueOf.Keys && s'.sessions.Keys <= s'.mintOf.Keys
  {
    match a
    case Request(email, kind, now, code) => RequestCode(hash, s, email, kind, now, code).0
    case Verify(email, code, kind, now, token) =>
      if FreshToken(s, token) then VerifyCode(hash, s, email, code, kind, now, token).0 else s
    case Consume(token, email, kind, now) => ConsumeToken(s, token, email, kind, now).0
    case Gc(now) => Collected(s, now)
  }

  function Run(hash: Hash, acts: seq<Action>): (s: State)
    ensures s.pending.Keys <= s.issueOf.Keys && s.sessions.Keys <= s.mintOf.Keys
    decreases |acts|
  {
    if acts == [] then State(map[], map[], [], map[], map[])
    else Next(hash, Run(hash, acts[..|acts| - 1]), acts[|acts| - 1])
  }

  // ---- the invariant ---------------------------------------------------------

  predicate IsComparison(e: Event, i: nat) { e.Compared? && e.issue == i }

  /** Comparisons made against the code issued at position i. */
  function Comparisons(log: seq<Event>, i: nat): (n: nat) {
    if log == [] then 0
    else Comparisons(log[..|log| - 1], i) + (if IsComparison(log[|log| - 1], i) then 1 else 0)
  }

  predicate MintedFrom(log: seq<Event>, i: nat) {
    exists m :: 0 <= m < |log| && log[m].TokenMinted? && log[m].issue == i
  }

  predicate ConsumedFrom(log: seq<Event>, m: nat) {
    exists c :: 0 <= c < |log| && log[c].TokenConsumed? && log[c].mint == m
  }

  /** A pending entry is the code issued at the recorded position, not used up, compared as often as it counts. */
  predicate PendingOk(s: State, key: string)
    requires key in s.pending && key in s.issueOf
  {
    var entry, i := s.pending[key], s.issueOf[key];
    && i < |s.log| && s.log[i].CodeIssued?
    && key == Key(s.log[i].email, s.log[i].kind)
    && entry.kind == s.log[i].kind && entry.codeHash == s.log[i].codeHash
    && entry.issuedAt == s.log[i].at && entry.expiresAt == s.log[i].at + CODE_TTL_MS
    && !MintedFrom(s.log, i)
    && entry.attempts == Comparisons(s.log, i) < MAX_ATTEMPTS
  }

  predicate SessionOk(s: State, token: string)
    requires token in s.sessions && token in s.mintOf
  {
    var session, m := s.sessions[token], s.mintOf[token];
    && m < |s.log| && s.log[m].TokenMinted? && s.log[m].token == token
    && session.email == s.log[m].email && session.kind == s.log[m].kind
    && session.expiresAt == s.log[m].at + SESSION_TTL_MS
    && !ConsumedFrom(s.log, m)
  }

  /** A minted token goes back to a code issued for the same address and kind, still valid, whose hash was
      submitted just before, after fewer than five earlier comparisons. */
  predicate MintOk(log: seq<Event>, m: nat)
    requires m < |log| && log[m].TokenMinted?
  {
    var v := log[m];
    && v.issue < m && log[v.issue].CodeIssued?
    && log[v.issue].email == v.email && log[v.issue].kind == v.kind
    && v.at < log[v.issue].at + CODE_TTL_MS
    && m > 0 && log[m - 1] == Compared(v.issue, log[v.issue].codeHash)
    && Comparisons(log[..m - 1], v.issue) < MAX_ATTEMPTS
  }

  /** A consumed token goes back to its own minting, for the same address and kind, at most two minutes earlier. */
  predicate ConsumeOk(log: seq<Event>, c: nat)
    requires c < |log| && log[c].TokenConsumed?
  {
    var v := log[c];
    && v.mint < c && log[v.mint].TokenMinted?
    && log[v.mint].token == v.token && log[v.mint].email == v.email && log[v.mint].kind == v.kind
    && v.at <= log[v.mint].at + SESSION_TTL_MS
  }

  /** No code is compared more than five times, and none before it is issued. */
  predicate CompareOk(log: seq<Event>, i: nat) {
    Comparisons(log, i) <= if i < |log| then MAX_ATTEMPTS else 0
  }

  ghost predicate LogOk(log: seq<Event>) {
    && (forall i: nat :: CompareOk(log, i))
    && (forall m :: 0 <= m < |log| && log[m].TokenMinted? ==> MintOk(log, m))
    && (forall c :: 0 <= c < |log| && log[c].TokenConsumed? ==> ConsumeOk(log, c))
    && (forall m, n :: 0 <= m < n < |log| && log[m].TokenMinted? && log[n].TokenMinted? ==>
          log[m].issue != log[n].issue && log[m].token != log[n].token)
    && (forall c, d :: 0 <= c < d < |log| && log[c].TokenConsumed? && log[d].TokenConsumed? ==>
          log[c].mint != log[d].mint)
  }

  ghost predicate Inv(s: State) {
    && s.pending.Keys <= s.issueOf.Keys && s.sessions.Keys <= s.mintOf.Keys
    && (forall key :: key in s.pending ==> PendingOk(s, key))
    && (forall token :: token in s.sessions ==> SessionOk(s, token))
    && (forall i, j :: i in s.pending && j in s.pending && i != j ==> s.issueOf[i] != s.issueOf[j])
    && LogOk(s.log)
  }

  // ---- one more event in the record -------------------------------------------

  lemma {:induction false} Appended(log: seq<Event>, e: Event)
    ensures forall i: nat :: Comparisons(log + [e], i) == Comparisons(log, i) + (if IsComparison(e, i) then 1 else 0)
    ensures forall i: nat :: MintedFrom(log + [e], i) <==> MintedFrom(log, i) || (e.TokenMinted? && e.issue == i)
    ensures forall m: nat :: ConsumedFrom(log + [e], m) <==> ConsumedFrom(log, m) || (e.TokenConsumed? && e.mint == m)
  {
    var longer := log + [e];
    assert longer[..|log|] == log;
    forall i: nat ensures MintedFrom(longer, i) <==> MintedFrom(log, i) || (e.TokenMinted? && e.issue == i) {
      if MintedFrom(log, i) {
        var m :| 0 <= m < |log| && log[m].TokenMinted? && log[m].issue == i;
        assert longer[m] == log[m];
      }
      assert longer[|log|] == e;
    }
    forall m: nat ensures ConsumedFrom(longer, m) <==> ConsumedFrom(log, m) || (e.TokenConsumed? && e.mint == m) {
      if ConsumedFrom(log, m) {
        var c :| 0 <= c < |log| && log[c].TokenConsumed? && log[c].mint == m;
        assert longer[c] == log[c];
      }
      assert longer[|log|] == e;
    }
  }

  /** The record stays in order when the new event is in order and repeats no issue, token or mint. */
  lemma {:induction false} LogGrows(log: seq<Event>, e: Event)
    requires LogOk(log)
    requires e.Compared? ==> e.issue < |log| && Comparisons(log, e.issue) < MAX_ATTEMPTS
    requires e.TokenMinted? ==>
               && MintOk(log + [e], |log|) && !MintedFrom(log, e.issue)
               && forall i :: 0 <= i < |log| && log[i].TokenMinted? ==> log[i].token != e.token
    requires e.TokenConsumed? ==> ConsumeOk(log + [e], |log|) && !ConsumedFrom(log, e.mint)
    ensures LogOk(log + [e])
  {
    var longer := log + [e];
    Appended(log, e);
    forall i: nat ensures CompareOk(longer, i) {
      assert CompareOk(log, i);
    }
    forall m | 0 <= m < |longer| && longer[m].TokenMinted? ensures MintOk(longer, m) {
      if m < |log| {
        assert MintOk(log, m) && longer[..m - 1] == log[..m - 1];
      }
    }
    forall c | 0 <= c < |longer| && longer[c].TokenConsumed? ensures ConsumeOk(longer, c) {
      if c < |log| {
        assert ConsumeOk(log, c);
      }
    }
  }

  /** An entry whose code the new event is not about stays in order. */
  lemma PendingCarries(s: State, s': State, key: string, e: Event)
    requires key in s.pending && key in s.issueOf && PendingOk(s, key)
    requires key in s'.pending && key in s'.issueOf
    requires s'.pending[key] == s.pending[key] && s'.issueOf[key] == s.issueOf[key]
    requires s'.log == s.log + [e]
    requires !IsComparison(e, s.issueOf[key]) && !(e.TokenMinted? && e.issue == s.issueOf[key])
    ensures PendingOk(s', key)
  {
    Appended(s.log, e);
  }

  lemma SessionCarries(s: State, s': State, token: string, e: Event)
    requires token in s.sessions && token in s.mintOf && SessionOk(s, token)
    requires token in s'.sessions && token in s'.mintOf
    requires s'.sessions[token] == s.sessions[token] && s'.mintOf[token] == s.mintOf[token]
    requires s'.log == s.log + [e]
    requires !(e.TokenConsumed? && e.mint == s.mintOf[token])
    ensures SessionOk(s', token)
  {
    Appended(s.log, e);
  }

  // ---- every operation keeps the invariant --------------------------------------

  /** Dropping entries, whichever they are. */
  lemma DropKeepsInv(s: State, s': State)
    requires Inv(s)
    requires s'.log == s.log && s'.issueOf == s.issueOf && s'.mintOf == s.mintOf
    requires forall k :: k in s'.pending ==> k in s.pending && s'.pending[k] == s.pending[k]
    requires forall t :: t in s'.sessions ==> t in s.sessions && s'.sessions[t] == s.sessions[t]
    ensures Inv(s')
  {
    forall k | k in s'.pending ensures PendingOk(s', k) {
      assert PendingOk(s, k);
    }
    forall t | t in s'.sessions ensures SessionOk(s', t) {
      assert SessionOk(s, t);
    }
  }

  /** Nothing recorded refers to the position that comes next. */
  lemma NothingOfNext(s: State)
    requires Inv(s)
    ensures Comparisons(s.log, |s.log|) == 0 && !MintedFrom(s.log, |s.log|)
  {
    assert CompareOk(s.log, |s.log|);
    assert forall m :: 0 <= m < |s.log| && s.log[m].TokenMinted? ==> MintOk(s.log, m);
  }

  lemma RequestKeepsInv(hash: Hash, s: State, email: string, kind: Kind, now: int, code: string)
    requires Inv(s)
    ensures Inv(RequestCode(hash, s, email, kind, now, code).0)
  {
    var s' := RequestCode(hash, s, email, kind, now, code).0;
    if s' != s {
      var key, e := Key(email, kind), CodeIssued(email, kind, hash(code), now);
      assert s'.log == s.log + [e];
      LogGrows(s.log, e);
      Appended(s.log, e);
      NothingOfNext(s);
      forall k | k in s'.pending ensures PendingOk(s', k) {
        if k != key {
          assert PendingOk(s, k);
          PendingCarries(s, s', k, e);
        }
      }
      forall t | t in s'.sessions ensures SessionOk(s', t) {
        assert SessionOk(s, t);
        SessionCarries(s, s', t, e);
      }
      assert forall k :: k in s.pending ==> PendingOk(s, k);
    }
  }

  lemma ConsumeKeepsInv(s: State, token: string, email: string, kind: Kind, now: int)
    requires Inv(s)
    ensures Inv(ConsumeToken(s, token, email, kind, now).0)
  {
    var (s', ok) := ConsumeToken(s, token, email, kind, now);
    var gone := s.(sessions := s.sessions - {token});
    DropKeepsInv(s, gone);
    if ok {
      var e := TokenConsumed(s.mintOf[token], token, email, kind, now);
      assert s' == gone.(log := gone.log + [e]);
      assert SessionOk(s, token);
      LogGrows(s.log, e);
      forall k | k in s'.pending ensures PendingOk(s', k) {
        assert PendingOk(s, k);
        PendingCarries(s, s', k, e);
      }
      forall t | t in s'.sessions ensures SessionOk(s', t) {
        assert SessionOk(s, t);
        SessionCarries(s, s', t, e);
      }
    } else {
      assert s' == s || s' == gone;
    }
  }

  /** One more comparison, counted in the entry or ending it. */
  lemma CompareKeepsInv(s: State, key: string, submitted: string, counted: State)
    requires Inv(s) && key in s.pending
    requires counted.log == s.log + [Compared(s.issueOf[key], submitted)]
    requires counted.issueOf == s.issueOf && counted.mintOf == s.mintOf && counted.sessions == s.sessions
    requires || counted.pending == s.pending - {key}
             || (&& s.pending[key].attempts + 1 < MAX_ATTEMPTS
                 && counted.pending == s.pending[key := s.pending[key].(attempts := s.pending[key].attempts + 1)])
    ensures Inv(counted)
  {
    var e := Compared(s.issueOf[key], submitted);
    assert PendingOk(s, key);
    LogGrows(s.log, e);
    forall k | k in counted.pending ensures PendingOk(counted, k) {
      assert PendingOk(s, k);
      if k == key {
        Appended(s.log, e);
      } else {
        PendingCarries(s, counted, k, e);
      }
    }
    forall t | t in counted.sessions ensures SessionOk(counted, t) {
      assert SessionOk(s, t);
      SessionCarries(s, counted, t, e);
    }
  }

  /** A matching comparison is followed by the minting of a token. */
  lemma MintKeepsInv(counted: State, minted: State, e: Event, expiresAt: int)
    requires Inv(counted) && e.TokenMinted? && FreshToken(counted, e.token)
    requires MintOk(counted.log + [e], |counted.log|) && !MintedFrom(counted.log, e.issue)
    requires forall k :: k in counted.pending ==> counted.issueOf[k] != e.issue
    requires expiresAt == e.at + SESSION_TTL_MS
    requires minted == counted.(sessions := counted.sessions[e.token := Session(e.email, e.kind, expiresAt)],
                                log := counted.log + [e], mintOf := counted.mintOf[e.token := |counted.log|])
    ensures Inv(minted)
  {
    LogGrows(counted.log, e);
    forall k | k in minted.pending ensures PendingOk(minted, k) {
      assert PendingOk(counted, k);
      PendingCarries(counted, minted, k, e);
    }
    NotYetConsumed(counted.log);
    Appended(counted.log, e);
    forall t | t in minted.sessions ensures SessionOk(minted, t) {
      if t != e.token {
        assert SessionOk(counted, t);
        SessionCarries(counted, minted, t, e);
      }
    }
  }

  lemma NotYetConsumed(log: seq<Event>)
    requires LogOk(log)
    ensures !ConsumedFrom(log, |log|)
  {
    assert forall c :: 0 <= c < |log| && log[c].TokenConsumed? ==> ConsumeOk(log, c);
  }

  /** What the pending entry says about a matching submission. */
  lemma MatchMayMint(s: State, key: string, email: string, kind: Kind, now: int, token: string)
    requires Inv(s) && key in s.pending && key == Key(email, kind) && now < s.pending[key].expiresAt
    ensures var i := s.issueOf[key];
            var log := s.log + [Compared(i, s.pending[key].codeHash)];
            && MintOk(log + [TokenMinted(i, token, email, kind, now)], |log|) && !MintedFrom(log, i)
            && forall k :: k in s.pending && k != key ==> s.issueOf[k] != i
  {
    assert PendingOk(s, key);
    var i := s.issueOf[key];
    KeyInjective(email, kind, s.log[i].email, s.log[i].kind);
    Appended(s.log, Compared(i, s.pending[key].codeHash));
    MintIsOk(s.log, TokenMinted(i, token, email, kind, now), s.pending[key].codeHash);
  }

  lemma {:induction false} MintIsOk(log: seq<Event>, e: Event, codeHash: string)
    requires e.TokenMinted? && e.issue < |log| && log[e.issue].CodeIssued?
    requires log[e.issue].email == e.email && log[e.issue].kind == e.kind && log[e.issue].codeHash == codeHash
    requires e.at < log[e.issue].at + CODE_TTL_MS && Comparisons(log, e.issue) < MAX_ATTEMPTS
    ensures MintOk(log + [Compared(e.issue, codeHash)] + [e], |log| + 1)
  {
    var longer := log + [Compared(e.issue, codeHash)] + [e];
    assert longer[..|log|] == log;
  }

  /** A pending entry has its key's kind and has not been compared too often. */
  lemma EntryUsable(s: State, email: string, kind: Kind)
    requires Inv(s) && Key(email, kind) in s.pending
    ensures s.pending[Key(email, kind)].kind == kind && s.pending[Key(email, kind)].attempts < MAX_ATTEMPTS
  {
    var key := Key(email, kind);
    assert PendingOk(s, key);
    KeyInjective(email, kind, s.log[s.issueOf[key]].email, s.log[s.issueOf[key]].kind);
  }

  /** The state after a comparison, and after the minting that may follow it. */
  lemma VerifyEffect(hash: Hash, s: State, email: string, code: string, kind: Kind, now: int, token: string)
    requires s.pending.Keys <= s.issueOf.Keys && Key(email, kind) in s.pending
    requires var entry := s.pending[Key(email, kind)];
             now < entry.expiresAt && entry.kind == kind && entry.attempts < MAX_ATTEMPTS
    ensures var key := Key(email, kind);
            var s', entry := VerifyCode(hash, s, email, code, kind, now, token).0, s.pending[key];
            var compared := s.(log := s.log + [Compared(s.issueOf[key], hash(code))]);
            var counted := compared.(pending := s.pending - {key});
            if hash(code) == entry.codeHash then
              s' == counted.(sessions := s.sessions[token := Session(email, kind, now + SESSION_TTL_MS)],
                             log := counted.log + [TokenMinted(s.issueOf[key], token, email, kind, now)],
                             mintOf := s.mintOf[token := |counted.log|])
            else
              s' == counted || (entry.attempts + 1 < MAX_ATTEMPTS
                                && s' == compared.(pending := s.pending[key := entry.(attempts := entry.attempts + 1)]))
  {
  }

  lemma VerifyKeepsInv(hash: Hash, s: State, email: string, code: string, kind: Kind, now: int, token: string)
    requires Inv(s) && FreshToken(s, token)
    ensures Inv(VerifyCode(hash, s, email, code, kind, now, token).0)
    ensures VerifyCode(hash, s, email, code, kind, now, token).1 != KindMismatch
  {
    var key := Key(email, kind);
    if key in s.pending {
      EntryUsable(s, email, kind);
      if now < s.pending[key].expiresAt {
        ComparisonKeepsInv(hash, s, email, code, kind, now, token);
      } else {
        DropKeepsInv(s, Dropped(s, key));
      }
    }
  }

  lemma ComparisonKeepsInv(hash: Hash, s: State, email: string, code: string, kind: Kind, now: int, token: string)
    requires Inv(s) && FreshToken(s, token) && Key(email, kind) in s.pending
    requires now < s.pending[Key(email, kind)].expiresAt
    ensures Inv(VerifyCode(hash, s, email, code, kind, now, token).0)
  {
    var key, s' := Key(email, kind), VerifyCode(hash, s, email, code, kind, now, token).0;
    EntryUsable(s, email, kind);
    VerifyEffect(hash, s, email, code, kind, now, token);
    if hash(code) == s.pending[key].codeHash {
      MatchKeepsInv(s, key, email, kind, now, token, s');
    } else {
      CompareKeepsInv(s, key, hash(code), s');
    }
  }

  lemma MatchKeepsInv(s: State, key: string, email: string, kind: Kind, now: int, token: string, minted: State)
    requires Inv(s) && FreshToken(s, token) && key in s.pending && key == Key(email, kind)
    requires now < s.pending[key].expiresAt
    requires var counted := s.(log := s.log + [Compared(s.issueOf[key], s.pending[key].codeHash)],
                               pending := s.pending - {key});
             minted == counted.(sessions := s.sessions[token := Session(email, kind, now + SESSION_TTL_MS)],
                                log := counted.log + [TokenMinted(s.issueOf[key], token, email, kind, now)],
                                mintOf := s.mintOf[token := |counted.log|])
    ensures Inv(minted)
  {
    var submitted := s.pending[key].codeHash;
    var counted := s.(log := s.log + [Compared(s.issueOf[key], submitted)], pending := s.pending - {key});
    CompareKeepsInv(s, key, submitted, counted);
    MatchMayMint(s, key, email, kind, now, token);
    MintKeepsInv(counted, minted, TokenMinted(s.issueOf[key], token, email, kind, now), now + SESSION_TTL_MS);
  }

  lemma StepKeepsInv(hash: Hash, s: State, a: Action)
    requires Inv(s)
    ensures Inv(Next(hash, s, a))
  {
    match a
    case Request(email, kind, now, code) => RequestKeepsInv(hash, s, email, kind, now, code);
    case Verify(email, code, kind, now, token) =>
      if FreshToken(s, token) {
        VerifyKeepsInv(hash, s, email, code, kind, now, token);
      }
    case Consume(token, email, kind, now) => ConsumeKeepsInv(s, token, email, kind, now);
    case Gc(now) => DropKeepsInv(s, Collected(s, now));
  }

  lemma {:induction false} RunKeepsInv(hash: Hash, acts: seq<Action>)
    ensures Inv(Run(hash, acts))
    decreases |acts|
  {
    if acts != [] {
      RunKeepsInv(hash, acts[..|acts| - 1]);
      StepKeepsInv(hash, Run(hash, acts[..|acts| - 1]), acts[|acts| - 1]);
    }
  }

  // ---- the results -------------------------------------------------------------

  /** Where the code, its comparison, its token and the token's use stand in the record. */
  ghost predicate GoesBack(log: seq<Event>, c: nat) {
    && c < |log| && log[c].TokenConsumed?
    && var use, m := log[c], log[c].mint;
    && 0 < m < c && log[m].TokenMinted?
    && var mint, i := log[m], log[m].issue;
    && i < m - 1 && log[i].CodeIssued?
    && use.token == mint.token
    && use.email == mint.email == log[i].email && use.kind == mint.kind == log[i].kind
    && use.at <= mint.at + SESSION_TTL_MS && mint.at < log[i].at + CODE_TTL_MS
    && log[m - 1] == Compared(i, log[i].codeHash) && Comparisons(log[..m - 1], i) < MAX_ATTEMPTS
  }

  /** Over every run, a token that was consumed was minted for that address and kind at most two minutes before, by
      submitting the code issued less than five minutes before that, on at most its fifth comparison. */
  lemma {:induction false} ConsumedWasVerified(hash: Hash, acts: seq<Action>, c: nat)
    requires c < |Run(hash, acts).log| && Run(hash, acts).log[c].TokenConsumed?
    ensures GoesBack(Run(hash, acts).log, c)
  {
    RunKeepsInv(hash, acts);
    var log := Run(hash, acts).log;
    assert ConsumeOk(log, c) && MintOk(log, log[c].mint);
  }

  /** Over every run, no token is consumed twice and no code mints two tokens. */
  lemma {:induction false} OneTokenOneUse(hash: Hash, acts: seq<Action>, i: nat, j: nat)
    requires i < j < |Run(hash, acts).log|
    ensures var log := Run(hash, acts).log;
            && (log[i].TokenConsumed? && log[j].TokenConsumed? ==> log[i].token != log[j].token)
            && (log[i].TokenMinted? && log[j].TokenMinted? ==>
                log[i].issue != log[j].issue && log[i].token != log[j].token)
  {
    RunKeepsInv(hash, acts);
    var log := Run(hash, acts).log;
    if log[i].TokenConsumed? && log[j].TokenConsumed? {
      assert ConsumeOk(log, i) && ConsumeOk(log, j);
    }
  }

  /** Over every run, no issued code is compared more than five times. */
  lemma {:induction false} FiveGuesses(hash: Hash, acts: seq<Action>, i: nat)
    ensures Comparisons(Run(hash, acts).log, i) <= MAX_ATTEMPTS
  {
    RunKeepsInv(hash, acts);
    assert CompareOk(Run(hash, acts).log, i);
  }

  /** In every reachable store the entry's kind agrees with its key, so the mismatch answer is never given. */
  lemma {:induction false} KindAlwaysMatches(hash: Hash, acts: seq<Action>, email: string, code: string, kind: Kind,
                                             now: int, token: string)
    requires FreshToken(Run(hash, acts), token)
    ensures VerifyCode(hash, Run(hash, acts), email, code, kind, now, token).1 != KindMismatch
    ensures Key(email, kind) in Run(hash, acts).pending ==> Run(hash, acts).pending[Key(email, kind)].kind == kind
  {
    RunKeepsInv(hash, acts);
    var s := Run(hash, acts);
    VerifyKeepsInv(hash, s, email, code, kind, now, token);
    if Key(email, kind) in s.pending {
      assert PendingOk(s, Key(email, kind));
      var i := s.issueOf[Key(email, kind)];
      KeyInjective(email, kind, s.log[i].email, s.log[i].kind);
    }
  }

  /** `consumeSession` answers true exactly when it adds a use of that token, and takes the token away either way. */
  lemma ConsumeRecorded(s: State, token: string, email: string, kind: Kind, now: int)
    requires Inv(s)
    ensures var (s', ok) := ConsumeToken(s, token, email, kind, now);
            && ok == (s'.log != s.log)
            && (ok ==> s'.log == s.log + [TokenConsumed(s'.log[|s.log|].mint, token, email, kind, now)])
            && !ConsumeToken(s', token, email, kind, now).1
  {
    var (s', ok) := ConsumeToken(s, token, email, kind, now);
    if ok {
      assert |s'.log| == |s.log| + 1;
    }
  }

  /**
   * In every reachable store each answer of verify has one reason; a pending entry
   * always has attempts left.
   */
  lemma {:induction false} VerifiedIff(hash: Hash, acts: seq<Action>, email: string, code: string, kind: Kind, now: int,
                                       token: string)
    requires FreshToken(Run(hash, acts), token)
    ensures var s, key := Run(hash, acts), Under(email, kind);
            var (s', r) := VerifyCode(hash, s, email, code, kind, now, token);
            && (r == NoPending <==> key !in s.pending)
            && (r == ExpiredCode <==> key in s.pending && s.pending[key].expiresAt <= now)
            && (key in s.pending && now < s.pending[key].expiresAt ==>
                  var entry := s.pending[key];
                  && entry.kind == kind && entry.attempts < 5
                  && (r.Verified? <==> entry.codeHash == hash(code))
                  && (r == WrongCode <==> entry.codeHash != hash(code) && entry.attempts < 4)
                  && (r == TooManyAttempts <==> entry.codeHash != hash(code) && entry.attempts == 4))
            && (r.Verified? ==>
                  && r == Verified(email, kind, token, now + 120_000)
                  && s'.sessions == s.sessions[token := Session(email, kind, now + 120_000)] && key !in s'.pending)
  {
    var s, key := Run(hash, acts), Under(email, kind);
    RunKeepsInv(hash, acts);
    VerifyIs(hash, s, email, code, kind, now, token);
    KindAlwaysMatches(hash, acts, email, code, kind, now, token);
    assert Key(email, kind) == key;
    if key in s.pending {
      assert PendingOk(s, key);
    }
  }
}

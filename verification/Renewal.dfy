// RenewToken of internal/keystore/vault/client.go as a timed state machine.
//
// One round is one iteration of the endless loop: what Vault answers during it is the round's value,
// so a run of any length is a sequence of rounds. Calls take no time; the loop's own waits do.
// Durations are nanoseconds.
module Renewal {
  import opened Wrappers

  const SECOND: int := 1_000_000_000
  const DELAY: int := 30 * SECOND   // wait before a new token is used, for replication
  const WAIT: int := 3 * SECOND     // wait after a login
  const RETRY: nat := 3
  const INT64_MAX: int := 0x7FFF_FFFF_FFFF_FFFF

  // TokenID, TokenTTL and TokenIsRenewable of a Vault secret.
  datatype Secret = Secret(id: nat, ttl: int, renewable: bool)

  datatype RenewSelf =
    | Renewed(secret: Option<Secret>)   // no error
    | Rejected                          // a response with a status in 400..499
    | Failed                            // any other error

  // The answers to the calls that one iteration may make.
  datatype Round =
    | Sealed
    | Unsealed(renewals: seq<RenewSelf>, login: Option<Secret>)

  datatype State = State(
    now: int,
    token: nat, expiry: int,   // the token in use, and until when Vault accepts it
    secret: Option<Secret>, ttl: int,
    late: bool,     // history: a token was in use past its expiry at some instant
    granted: int,   // history: the TTL of the last secret
    lost: int       // history: time since then that went into sealed waits and failed logins
  )

  // ---------- durations: Go's truncating int64 division, on a positive ttl ----------

  function RenewIn(ttl: int): int { 80 * (ttl / 100) }

  function Slack(ttl: int): int { (ttl - RenewIn(ttl)) / 2 }

  function SwitchDelay(ttl: int): int { if Slack(ttl) < DELAY then Slack(ttl) else DELAY }

  // No int64 overflow, and the two inequalities on which the loop's timing rests.
  lemma Durations(ttl: int)
    requires DELAY <= ttl <= INT64_MAX
    ensures 0 < RenewIn(ttl) < ttl <= INT64_MAX
    ensures 0 < SwitchDelay(ttl) <= Slack(ttl)
    ensures RenewIn(ttl) + 2 * SwitchDelay(ttl) <= RenewIn(ttl) + 2 * Slack(ttl) <= ttl
    ensures RenewIn(ttl) + SwitchDelay(ttl) + WAIT <= ttl && WAIT <= Slack(ttl)
  {
    var q, r := ttl / 100, ttl % 100;
    assert ttl == 100 * q + r;
    assert ttl - RenewIn(ttl) == 20 * q + r;
    assert q >= 300_000_000;
  }

  // ---------- one iteration ----------

  // The token in use stays in use while the loop waits.
  function Wait(s: State, d: int): State {
    s.(now := s.now + d, late := s.late || s.now + d > s.expiry)
  }

  // Vault grants a secret now: a renewal of the token in use extends it at once.
  function Grant(s: State, secret: Secret): State {
    s.(secret := Some(secret), ttl := secret.ttl,
        expiry := if secret.id == s.token then s.now + secret.ttl else s.expiry)
  }

  // A token that is already past its expiry when it is put to use is late, too.
  function SetToken(s: State, id: nat, expiry: int, secret: Secret): State {
    s.(token := id, expiry := expiry, late := s.late || s.now > expiry, granted := secret.ttl, lost := 0)
  }

  // The retries of RenewSelf from the i-th on; an answer that is missing is a failure.
  function Renewals(answers: seq<RenewSelf>, i: nat): Option<Secret>
    decreases RETRY - i
  {
    if i >= RETRY then None
    else if i >= |answers| then Renewals(answers, i + 1)
    else
      match answers[i]
      case Renewed(secret) => secret
      case Rejected => None
      case Failed => Renewals(answers, i + 1)
  }

  // The secret that a renewal ends with: RenewSelf when possible, a login otherwise.
  function Obtained(secret: Option<Secret>, round: Round): Option<Secret>
    requires round.Unsealed?
  {
    if secret.Some? && secret.value.renewable && Renewals(round.renewals, 0).Some?
    then Renewals(round.renewals, 0) else round.login
  }

  function Next(s: State, round: Round): State {
    if round.Sealed? then
      Wait(s, SECOND).(lost := s.lost + SECOND)
    else if s.ttl < DELAY then
      match round.login
      case Some(secret) => Wait(SetToken(Grant(s, secret), secret.id, s.now + secret.ttl, secret), WAIT)
      case None => Wait(s.(secret := None), WAIT).(lost := s.lost + WAIT)
    else
      var renewed := Wait(s, RenewIn(s.ttl));
      match Obtained(s.secret, round)
      case Some(secret) =>
        SetToken(Wait(Grant(renewed, secret), SwitchDelay(s.ttl)), secret.id, renewed.now + secret.ttl, secret)
      case None => renewed.(secret := None, ttl := 0)
  }

  function After(s: State, rounds: seq<Round>): State {
    if rounds == [] then s else Next(After(s, rounds[..|rounds| - 1]), rounds[|rounds| - 1])
  }

  // The state in which RenewToken starts with a secret that was granted `age` ago and is in use.
  function Start(secret: Secret, now: int, age: int): State {
    State(now, secret.id, now - age + secret.ttl, Some(secret), secret.ttl, age > secret.ttl, secret.ttl, 0)
  }

  // ---------- a long TTL without a secret is unreachable ----------

  lemma {:induction false} LongTtlHasSecret(secret: Secret, now: int, age: int, rounds: seq<Round>)
    ensures var s := After(Start(secret, now, age), rounds);
      s.ttl >= DELAY ==> s.secret.Some? && s.secret.value.ttl == s.ttl
  {
    if rounds != [] {
      LongTtlHasSecret(secret, now, age, rounds[..|rounds| - 1]);
    }
  }

  // ---------- safety ----------

  // A new secret is fit when its TTL leaves room for the delay with which it is put to use.
  predicate Fit(s: State, secret: Secret) {
    DELAY <= secret.ttl <= INT64_MAX && SwitchDelay(s.granted) <= Slack(secret.ttl)
  }

  // A round that the loop's safety margin absorbs.
  predicate Absorbed(s: State, round: Round) {
    if round.Sealed? then s.lost + SECOND <= Slack(s.granted)
    else if s.ttl < DELAY then
      match round.login
      case Some(secret) => Fit(s, secret)
      case None => s.lost + WAIT <= Slack(s.granted)
    else
      match Obtained(s.secret, round)
      case Some(secret) => Fit(s, secret) && s.lost + SwitchDelay(s.ttl) <= Slack(s.ttl)
      case None => true
  }

  ghost predicate AllAbsorbed(s: State, rounds: seq<Round>) {
    forall i :: 0 <= i < |rounds| ==> Absorbed(After(s, rounds[..i]), rounds[i])
  }

  // At the loop head, the token in use is at most Slack(ttl) old, not counting lost time; after a
  // failed renewal, at least Slack is left of it.
  ghost predicate HeadOk(s: State) {
    && !s.late && DELAY <= s.granted <= INT64_MAX && 0 <= s.lost <= Slack(s.granted)
    && (s.ttl >= DELAY ==>
          s.ttl == s.granted && s.secret.Some? && s.expiry - s.now >= s.ttl - Slack(s.ttl) - s.lost)
    && (s.ttl < DELAY ==> s.ttl == 0 && s.expiry - s.now >= Slack(s.granted) - s.lost)
  }

  lemma RoundKeepsHead(s: State, round: Round)
    requires HeadOk(s) && Absorbed(s, round)
    ensures HeadOk(Next(s, round))
  {
    Durations(s.granted);
    if round.Unsealed? {
      var o := if s.ttl < DELAY then round.login else Obtained(s.secret, round);
      if o.Some? { Durations(o.value.ttl); }
    }
  }

  // Over every run whose rounds the margin absorbs, no token is in use past its expiry.
  lemma {:induction false} NeverLate(s: State, rounds: seq<Round>)
    requires HeadOk(s) && AllAbsorbed(s, rounds)
    ensures HeadOk(After(s, rounds)) && !After(s, rounds).late
  {
    if rounds != [] {
      var init := rounds[..|rounds| - 1];
      forall i | 0 <= i < |init| ensures Absorbed(After(s, init[..i]), init[i]) {
        assert init[..i] == rounds[..i];
      }
      NeverLate(s, init);
      RoundKeepsHead(After(s, init), rounds[|rounds| - 1]);
    }
  }

  // A round in which Vault is unsealed, logins succeed, and every secret has this TTL. RenewSelf may
  // fail.
  predicate Healthy(round: Round, ttl: int) {
    && round.Unsealed? && round.login.Some? && round.login.value.ttl == ttl
    && (Renewals(round.renewals, 0).Some? ==> Renewals(round.renewals, 0).value.ttl == ttl)
  }

  lemma {:induction false} HealthyHead(secret: Secret, now: int, age: int, rounds: seq<Round>)
    requires 3 * SECOND <= secret.ttl <= INT64_MAX
    requires 0 <= age <= if secret.ttl < DELAY then secret.ttl else Slack(secret.ttl)
    requires forall r :: r in rounds ==> Healthy(r, secret.ttl)
    ensures var s := After(Start(secret, now, age), rounds);
      && s.ttl == s.granted == secret.ttl && s.lost == 0 && !s.late && s.now <= s.expiry
      && (secret.ttl >= DELAY ==> HeadOk(s))
  {
    var s0, t := Start(secret, now, age), secret.ttl;
    if t >= DELAY { Durations(t); }
    if rounds != [] {
      var init, last := rounds[..|rounds| - 1], rounds[|rounds| - 1];
      assert last in rounds;
      HealthyHead(secret, now, age, init);
      var s := After(s0, init);
      if t >= DELAY {
        var o := Obtained(s.secret, last);
        assert o.Some? && o.value.ttl == t;
        RoundKeepsHead(s, last);
      }
    }
  }

  // The token in use is never past its expiry, for every constant TTL of at least 3s, short or long.
  lemma ConstantTtlIsSafe(secret: Secret, now: int, age: int, rounds: seq<Round>)
    requires 3 * SECOND <= secret.ttl <= INT64_MAX
    requires 0 <= age <= if secret.ttl < DELAY then secret.ttl else Slack(secret.ttl)
    requires forall r :: r in rounds ==> Healthy(r, secret.ttl)
    ensures !After(Start(secret, now, age), rounds).late
  {
    HealthyHead(secret, now, age, rounds);
  }

  // ---------- after a failed renewal ----------

  predicate Fails(round: Round) {
    round.Unsealed? && round.login.None? && Renewals(round.renewals, 0).None?
  }

  lemma FailedRenewal(s: State, round: Round)
    requires HeadOk(s) && s.ttl >= DELAY && s.lost == 0 && Fails(round)
    ensures var t := Next(s, round);
      && t == s.(now := s.now + RenewIn(s.ttl), secret := None, ttl := 0) && HeadOk(t) && t.now <= t.expiry
  {
    Durations(s.granted);
    RoundKeepsHead(s, round);
  }

  lemma FailedLogin(s: State, round: Round)
    requires HeadOk(s) && s.ttl < DELAY && Fails(round) && s.lost + WAIT <= Slack(s.granted)
    ensures var t := Next(s, round);
      t == s.(now := s.now + WAIT, secret := None, lost := s.lost + WAIT) && HeadOk(t) && t.now <= t.expiry
  {
    RoundKeepsHead(s, round);
  }

  lemma {:induction false} FailedLogins(s: State, rounds: seq<Round>)
    requires HeadOk(s) && s.ttl < DELAY && s.secret.None?
    requires forall r :: r in rounds ==> Fails(r)
    requires s.lost + |rounds| * WAIT <= Slack(s.granted)
    ensures After(s, rounds) == s.(now := s.now + |rounds| * WAIT, lost := s.lost + |rounds| * WAIT)
    ensures HeadOk(After(s, rounds))
  {
    if rounds != [] {
      var init, last := rounds[..|rounds| - 1], rounds[|rounds| - 1];
      assert last in rounds;
      assert |rounds| * WAIT == |init| * WAIT + WAIT;
      FailedLogins(s, init);
      FailedLogin(After(s, init), last);
    } else {
      assert s.(now := s.now + 0 * WAIT, lost := s.lost + 0 * WAIT) == s;
    }
  }

  // The k-th login attempt after the failed renewal comes k times 3s after it, and while k is at
  // most Slack / 3s, that is, for 1 + Slack / 3s attempts, before the old token expires.
  lemma LoginsBeforeExpiry(s: State, failed: Round, rounds: seq<Round>)
    requires HeadOk(s) && s.ttl >= DELAY && s.lost == 0 && Fails(failed)
    requires forall r :: r in rounds ==> Fails(r)
    requires |rounds| <= Slack(s.granted) / WAIT
    ensures var f, t := Next(s, failed), After(Next(s, failed), rounds);
      && t.now == f.now + |rounds| * WAIT && t.now <= t.expiry == s.expiry && !t.late
      && t.token == s.token && t.ttl == 0 && t.granted == s.granted && HeadOk(t)
  {
    FailedRenewal(s, failed);
    FailedLogins(Next(s, failed), rounds);
  }

  // If any of these attempts succeeds, the switch comes in time and the loop is back on track.
  lemma RecoversInTime(s: State, failed: Round, rounds: seq<Round>, last: Round)
    requires HeadOk(s) && s.ttl >= DELAY && s.lost == 0 && Fails(failed)
    requires forall r :: r in rounds ==> Fails(r)
    requires |rounds| <= Slack(s.granted) / WAIT
    requires last.Unsealed? && last.login.Some? && last.login.value.ttl == s.granted
    ensures var t := Next(After(Next(s, failed), rounds), last); HeadOk(t) && t.ttl == s.granted && t.lost == 0
  {
    LoginsBeforeExpiry(s, failed, rounds);
    Durations(s.granted);
    RoundKeepsHead(After(Next(s, failed), rounds), last);
  }

  // ---------- exactly when a token is used too long ----------

  // The loop at its head: the last secret, how long ago it was granted, and whether a renewal or a
  // login has failed since.
  datatype Head = Head(p: Secret, age: int, trying: bool)

  predicate LogsIn(h: Head) { h.trying || h.p.ttl < DELAY }

  // The secret that a round obtains, if any.
  function SecretOf(h: Head, round: Round): Option<Secret>
    requires round.Unsealed?
  {
    if LogsIn(h) then round.login else Obtained(Some(h.p), round)
  }

  // How long a round waits in which nothing is obtained.
  function Idles(h: Head, round: Round): int {
    if round.Sealed? then SECOND else if LogsIn(h) then WAIT else RenewIn(h.p.ttl)
  }

  // The age that a new secret has reached when the loop is back at its head.
  function CarriedAge(h: Head): int { if LogsIn(h) then WAIT else SwitchDelay(h.p.ttl) }

  function HeadNext(h: Head, round: Round): Head {
    if round.Sealed? then h.(age := h.age + SECOND)
    else
      match SecretOf(h, round)
      case Some(q) => Head(q, CarriedAge(h), false)
      case None => Head(h.p, h.age + Idles(h, round), true)
  }

  function HeadAfter(h: Head, rounds: seq<Round>): Head {
    if rounds == [] then h else HeadNext(HeadAfter(h, rounds[..|rounds| - 1]), rounds[|rounds| - 1])
  }

  // During the round, the token in use outlives its TTL: the new one before the loop is back at its
  // head, or the old one before it is replaced or extended, or while nothing is obtained.
  predicate OverdueIn(h: Head, round: Round) {
    if round.Sealed? || SecretOf(h, round).None? then
      h.age + Idles(h, round) > h.p.ttl
    else
      var q := SecretOf(h, round).value;
      || CarriedAge(h) > q.ttl
      || (!LogsIn(h) && h.age + RenewIn(h.p.ttl) + (if h.p.id == q.id then 0 else SwitchDelay(h.p.ttl)) > h.p.ttl)
  }

  ghost predicate Holds(s: State, h: Head) {
    && s.token == h.p.id && s.expiry - s.now == h.p.ttl - h.age
    && (if h.trying then s.ttl < DELAY else s.ttl == h.p.ttl && s.secret == Some(h.p))
  }

  lemma WaitsArePositive(ttl: int)
    requires ttl >= DELAY
    ensures RenewIn(ttl) > 0 && SwitchDelay(ttl) > 0
  {
    var q, r := ttl / 100, ttl % 100;
    assert ttl == 100 * q + r;
    assert ttl - RenewIn(ttl) == 20 * q + r;
  }

  lemma RoundMovesHead(s: State, h: Head, round: Round)
    requires Holds(s, h)
    ensures Holds(Next(s, round), HeadNext(h, round))
    ensures Next(s, round).late <==> s.late || OverdueIn(h, round)
  {
    if !LogsIn(h) { WaitsArePositive(h.p.ttl); }
  }

  ghost predicate SomeOverdue(h: Head, rounds: seq<Round>) {
    exists i :: 0 <= i < |rounds| && OverdueIn(HeadAfter(h, rounds[..i]), rounds[i])
  }

  lemma OneMoreRound(h: Head, rounds: seq<Round>)
    requires rounds != []
    ensures var init := rounds[..|rounds| - 1];
      SomeOverdue(h, rounds) <==> SomeOverdue(h, init) || OverdueIn(HeadAfter(h, init), rounds[|rounds| - 1])
  {
    var init := rounds[..|rounds| - 1];
    forall i | 0 <= i < |init|
      ensures OverdueIn(HeadAfter(h, rounds[..i]), rounds[i]) <==> OverdueIn(HeadAfter(h, init[..i]), init[i])
    {
      assert init[..i] == rounds[..i];
    }
  }

  // In every run, whatever Vault answers and whenever it is sealed: a token is in use past its expiry
  // exactly when the answers leave some token in use for longer than its TTL. The condition follows
  // from the secrets and the failures alone.
  lemma {:induction false} LateExactly(first: Secret, now: int, age: int, rounds: seq<Round>)
    ensures Holds(After(Start(first, now, age), rounds), HeadAfter(Head(first, age, false), rounds))
    ensures After(Start(first, now, age), rounds).late
      <==> age > first.ttl || SomeOverdue(Head(first, age, false), rounds)
  {
    if rounds != [] {
      var init, last := rounds[..|rounds| - 1], rounds[|rounds| - 1];
      var h := Head(first, age, false);
      LateExactly(first, now, age, init);
      RoundMovesHead(After(Start(first, now, age), init), HeadAfter(h, init), last);
      OneMoreRound(h, rounds);
    }
  }

  lemma {:induction false} FailedLoginsExactly(s: State, rounds: seq<Round>)
    requires s.ttl < DELAY && s.secret.None? && (s.late <==> s.now > s.expiry)
    requires forall r :: r in rounds ==> r.Unsealed? && r.login.None?
    ensures var t := After(s, rounds);
      && t == s.(now := s.now + |rounds| * WAIT, lost := s.lost + |rounds| * WAIT, late := t.late)
      && (t.late <==> s.now + |rounds| * WAIT > s.expiry)
  {
    if rounds != [] {
      var init, last := rounds[..|rounds| - 1], rounds[|rounds| - 1];
      assert last in rounds;
      assert |rounds| * WAIT == |init| * WAIT + WAIT;
      FailedLoginsExactly(s, init);
    } else {
      assert s.(now := s.now + 0 * WAIT, lost := s.lost + 0 * WAIT) == s;
    }
  }

  // For every TTL and every age of the token: a failed round and k failed logins after it are survived
  // exactly when the age, the wait of the first and k waits of 3s fit into the TTL.
  lemma FailuresLateExactly(secret: Secret, now: int, age: int, failed: Round, rounds: seq<Round>)
    requires failed.Unsealed? && SecretOf(Head(secret, age, false), failed).None?
    requires forall r :: r in rounds ==> r.Unsealed? && r.login.None?
    ensures After(Next(Start(secret, now, age), failed), rounds).late
      <==> age + (if secret.ttl < DELAY then WAIT else RenewIn(secret.ttl)) + |rounds| * WAIT > secret.ttl
  {
    RoundMovesHead(Start(secret, now, age), Head(secret, age, false), failed);
    if secret.ttl >= DELAY { WaitsArePositive(secret.ttl); }
    FailedLoginsExactly(Next(Start(secret, now, age), failed), rounds);
  }

  // Two renewals with new tokens of 30s or more: the age of the one in use, its wait for renewal and
  // the delay of the switch must fit into its TTL, and so must the delay, the wait and the delay of
  // the next one. A TTL that drops may break this though every call succeeds.
  lemma DroppingTtlIsLateExactly(s: State, p: Secret, age: int, r1: Round, a: Secret, r2: Round, b: Secret)
    requires Holds(s, Head(p, age, false)) && p.ttl >= DELAY && a.ttl >= DELAY && b.ttl >= DELAY
    requires r1.Unsealed? && Obtained(Some(p), r1) == Some(a) && p.id != a.id
    requires r2.Unsealed? && Obtained(Some(a), r2) == Some(b) && a.id != b.id
    ensures Next(Next(s, r1), r2).late <==>
      || s.late
      || age + RenewIn(p.ttl) + SwitchDelay(p.ttl) > p.ttl
      || SwitchDelay(p.ttl) + RenewIn(a.ttl) + SwitchDelay(a.ttl) > a.ttl
  {
    RoundMovesHead(s, Head(p, age, false), r1);
    RoundMovesHead(Next(s, r1), Head(a, SwitchDelay(p.ttl), false), r2);
  }

  // For example, after a token of 3000s one of 31s is used too long although every call succeeds.
  lemma DroppingTtlIsLate()
    ensures var long, short := Secret(1, 3000 * SECOND, false), Secret(2, 31 * SECOND, false);
      var r1, r2 := Unsealed([], Some(short)), Unsealed([], Some(Secret(3, 31 * SECOND, false)));
      HeadOk(Start(long, 0, 0)) && Next(Next(Start(long, 0, 0), r1), r2).late
  {
    var long, short := Secret(1, 3000 * SECOND, false), Secret(2, 31 * SECOND, false);
    var next := Secret(3, 31 * SECOND, false);
    var r1, r2 := Unsealed([], Some(short)), Unsealed([], Some(next));
    DroppingTtlIsLateExactly(Start(long, 0, 0), long, 0, r1, short, r2, next);
  }
}

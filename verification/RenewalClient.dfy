// The client of internal/keystore/vault/client.go whose token RenewToken keeps alive. The loop runs
// for any number of rounds, as its context may end between any two of them.
module RenewalClient {
  import opened Wrappers
  import opened Renewal

  class Client {
    // The Client and the instant it is now; whether its token was ever in use past its expiry.
    var token: nat
    var expiry: int
    var now: int
    var late: bool

    constructor (id: nat, expiry: int, now: int)
      ensures token == id && this.expiry == expiry && this.now == now && !late
    {
      token, this.expiry, this.now, late := id, expiry, now, false;
    }

    ghost predicate Agrees(s: State)
      reads this
    {
      token == s.token && expiry == s.expiry && now == s.now && late == s.late
    }

    // The secret's token is in use, and so young that its renewal comes in time.
    predicate InGoodTime(secret: Secret)
      reads this
    {
      var age := now + secret.ttl - expiry;
      && token == secret.id && !late && 3 * SECOND <= secret.ttl <= INT64_MAX
      && 0 <= age <= if secret.ttl < DELAY then secret.ttl else Slack(secret.ttl)
    }

    method Sleep(d: int)
      modifies this`now, this`late
      ensures now == old(now) + d && late == (old(late) || now > expiry)
    {
      now := now + d;
      late := late || now > expiry;
    }

    method SetToken(id: nat, until: int)
      modifies this`token, this`expiry, this`late
      ensures token == id && expiry == until && late == (old(late) || now > until)
    {
      token, expiry := id, until;
      late := late || now > expiry;
    }

    // Tries to renew the token in use at most RETRY times, and again only after a failure that is
    // no rejection; a missing answer is a failure.
    method RenewWithRetries(answers: seq<RenewSelf>) returns (s: Option<Secret>, attempts: nat)
      ensures 1 <= attempts <= RETRY && s == Renewals(answers, 0)
      ensures forall j :: 0 <= j < attempts - 1 && j < |answers| ==> answers[j].Failed?
      ensures attempts < RETRY ==> attempts <= |answers| && !answers[attempts - 1].Failed?
      ensures s.Some? ==> attempts <= |answers| && answers[attempts - 1] == Renewed(s)
    {
      s, attempts := None, 0;
      while attempts < RETRY
        invariant 0 <= attempts <= RETRY && s == None
        invariant Renewals(answers, attempts) == Renewals(answers, 0)
        invariant forall j :: 0 <= j < attempts && j < |answers| ==> answers[j].Failed?
      {
        attempts := attempts + 1;
        if attempts <= |answers| {
          match answers[attempts - 1]
          case Renewed(secret) => return secret, attempts;
          case Rejected => return None, attempts;
          case Failed =>
        }
      }
    }

    // The rest of the body: renew or log in after 80% of the TTL, and switch after the delay.
    method Renew(s: Option<Secret>, ttl: int, round: Round, ghost granted: int, ghost lost: int)
    returns (s': Option<Secret>, ttl': int)
      requires round.Unsealed? && ttl >= DELAY
      modifies this
      ensures var before := State(old(now), old(token), old(expiry), s, ttl, old(late), granted, lost);
        Agrees(Next(before, round)) && s' == Next(before, round).secret && ttl' == Next(before, round).ttl
    {
      var renewIn := 80 * (ttl / 100);
      var delay := if (ttl - renewIn) / 2 < DELAY then (ttl - renewIn) / 2 else DELAY;
      ttl' := 0;
      Sleep(renewIn);
      if s.Some? && s.value.renewable {
        var attempts;
        s', attempts := RenewWithRetries(round.renewals);
        if s'.None? {
          s' := round.login;
        }
      } else {
        s' := round.login;
      }
      if s'.Some? {
        ttl' := s'.value.ttl;
        var until := now + ttl';
        if s'.value.id == token {
          expiry := until;   // Vault extends the lease of the token in use
        }
        Sleep(delay);
        SetToken(s'.value.id, until);
      }
    }

    // The body of the loop.
    method Iterate(s: Option<Secret>, ttl: int, round: Round, ghost granted: int, ghost lost: int)
    returns (s': Option<Secret>, ttl': int)
      modifies this
      ensures var before := State(old(now), old(token), old(expiry), s, ttl, old(late), granted, lost);
        Agrees(Next(before, round)) && s' == Next(before, round).secret && ttl' == Next(before, round).ttl
    {
      s', ttl' := s, ttl;
      if round.Sealed? {
        Sleep(SECOND);
        return;
      }
      if ttl < DELAY {
        s' := round.login;
        if s'.Some? {
          ttl' := s'.value.ttl;
          SetToken(s'.value.id, now + ttl');
        }
        Sleep(WAIT);
        return;
      }
      s', ttl' := Renew(s, ttl, round, granted, lost);
    }

    // The loop, for these rounds.
    method RunRounds(secret: Secret, rounds: seq<Round>, ghost start: State)
      requires Agrees(start) && start.secret == Some(secret) && start.ttl == secret.ttl
      modifies this
      ensures Agrees(After(start, rounds))
    {
      var s, ttl := Some(secret), secret.ttl;
      ghost var at := start;
      var i := 0;
      assert rounds[..0] == [];
      while i < |rounds|
        invariant 0 <= i <= |rounds|
        invariant at == After(start, rounds[..i])
        invariant Agrees(at) && at.secret == s && at.ttl == ttl
      {
        assert rounds[..i + 1][..i] == rounds[..i];
        s, ttl := Iterate(s, ttl, rounds[i], at.granted, at.lost);
        at := Next(at, rounds[i]);
        i := i + 1;
      }
      assert rounds[..|rounds|] == rounds;
    }

    // While Vault is unsealed, logins succeed and every TTL is that of the first secret, the token in
    // use is never past its expiry.
    method RenewToken(secret: Secret, rounds: seq<Round>)
      modifies this
      ensures secret.ttl == 0 ==> unchanged(this)
      ensures secret.ttl != 0 ==>
        Agrees(After(State(old(now), old(token), old(expiry), Some(secret), secret.ttl, old(late), secret.ttl, 0),
            rounds))
      ensures old(InGoodTime(secret)) && (forall r :: r in rounds ==> Healthy(r, secret.ttl)) ==> !late && now <= expiry
    {
      if secret.ttl == 0 {
        return;   // a token without a TTL is never renewed
      }
      ghost var start := State(now, token, expiry, Some(secret), secret.ttl, late, secret.ttl, 0);
      ghost var age, inGoodTime := now + secret.ttl - expiry, InGoodTime(secret);
      RunRounds(secret, rounds, start);
      if inGoodTime && forall r :: r in rounds ==> Healthy(r, secret.ttl) {
        assert start == Start(secret, start.now, age);
        HealthyHead(secret, start.now, age, rounds);
      }
    }
  }
}

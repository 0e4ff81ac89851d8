/** The routes of backend/investigation/mfa.py as they run: rows updated in place, restored when a request is
    rejected before anything was committed. Every method is proved against its function in Mfa. */
module MfaService {
  import opened Common
  import opened RateLimits
  import opened Mfa

  class MfaDesk {
    const crypto: Crypto
    var users: map<Id, User>
    var sessions: map<Digest, Ticket>
    var challenges: map<Digest, Ticket>
    var pending: map<Id, Enrolment>
    var tokens: map<Digest, Ticket>
    var recovery: map<Id, set<Digest>>
    var attempts: map<Identity, Counter>

    function Contents(): Tables
      reads this
    {
      Tables(users, sessions, challenges, pending, tokens, recovery, attempts)
    }

    constructor (crypto: Crypto)
      ensures this.crypto == crypto && Contents() == Tables(map[], map[], map[], map[], map[], map[], map[])
    {
      this.crypto := crypto;
      users, sessions, challenges, pending, tokens := map[], map[], map[], map[], map[];
      recovery, attempts := map[], map[];
    }

    method Rollback(saved: Tables)
      modifies this
      ensures Contents() == saved
    {
      users, sessions, challenges := saved.users, saved.sessions, saved.challenges;
      pending, tokens, recovery, attempts := saved.pending, saved.tokens, saved.recovery, saved.attempts;
    }

    method Throttle(who: Identity, limit: nat, now: Clock) returns (admitted: bool)
      modifies this
      ensures admitted <==> Admitted(old(Contents()), who, limit, now).Some?
      ensures Contents() == if admitted then Admitted(old(Contents()), who, limit, now).value else old(Contents())
    {
      if who in attempts && now - attempts[who].window < 900.0 && attempts[who].count >= limit {
        return false;
      }
      if who !in attempts || now - attempts[who].window >= 900.0 {
        attempts := attempts[who := Counter(1, now)];
      } else {
        attempts := attempts[who := attempts[who].(count := attempts[who].count + 1)];
      }
      admitted := true;
    }

    method ClearAttempts(user: Id)
      modifies this
      ensures Contents() == Cleared(old(Contents()), user)
    {
      attempts := attempts - {Manage(user), SecondFactor(user)};
    }

    method RevokeAuth(user: Id)
      modifies this
      ensures Contents() == Revoked(old(Contents()), user)
    {
      sessions := NotOf(sessions, user);
      challenges := NotOf(challenges, user);
      pending := pending - {user};
      tokens := NotOf(tokens, user);
    }

    method IssueSession(user: Id, token: Digest, now: Clock) returns (ok: bool)
      modifies this
      ensures ok <==> Issued(old(Contents()), user, token, now).Some?
      ensures ok ==> Contents() == Issued(old(Contents()), user, token, now).value
    {
      sessions := Live(sessions, now);
      if token in sessions {
        return false;
      }
      sessions := sessions[token := Ticket(user, now + 28800.0)];
      ok := true;
    }

    /** Tries the current, the previous and the next step, in this order. */
    method FindStep(secret: Secret, code: string, last: int, now: Clock) returns (r: Option<int>)
      ensures r == MatchStep(crypto, secret, code, last, now)
    {
      if !SixDigits(code) {
        return None;
      }
      var current := CurrentStep(now);
      var candidates := [current, current - 1, current + 1];
      for i := 0 to 3
        invariant forall k | 0 <= k < i :: !Matches(crypto, secret, code, last, candidates[k])
      {
        var step := candidates[i];
        assert i > 0 ==> !Matches(crypto, secret, code, last, candidates[0]);
        assert i > 1 ==> !Matches(crypto, secret, code, last, candidates[1]);
        if step > last && crypto.totp(secret, step) == code {
          return Some(step);
        }
      }
      r := None;
      assert forall k | 0 <= k < 3 :: !Matches(crypto, secret, code, last, candidates[k]);
      assert !Matches(crypto, secret, code, last, candidates[0]) && !Matches(crypto, secret, code, last, candidates[1])
        && !Matches(crypto, secret, code, last, candidates[2]);
    }

    method ConsumeFactor(user: Id, r: Request) returns (used: Consumption)
      requires user in users && users[user].secret.Some?
      modifies this
      ensures used == Consume(crypto, old(Contents()), user, r)
      ensures Contents() == if used.Used? then used.tables else old(Contents())
    {
      var digest := crypto.recovery(r.code);
      var codes := if user in recovery then recovery[user] else {};
      if digest in codes {
        recovery := recovery[user := codes - {digest}];
        return Used(Contents(), RecoveryCode(digest));
      }
      if !r.keyReadable {
        return Unreadable;
      }
      var step := FindStep(users[user].secret.value, r.code, users[user].lastStep, r.at.code);
      if step.None? {
        return Refused;
      }
      users := users[user := users[user].(lastStep := step.value)];
      used := Used(Contents(), Totp(step.value, r.at.code));
    }

    /** Inserts ten digests; a duplicate violates the primary key. */
    method ReplaceCodes(user: Id, codes: seq<Digest>) returns (ok: bool)
      modifies this
      ensures ok <==> Regenerated(old(Contents()), user, codes).Some?
      ensures ok ==> Contents() == Regenerated(old(Contents()), user, codes).value
    {
      if |codes| != 10 {
        return false;
      }
      var rows: set<Digest> := {};
      for i := 0 to 10
        invariant rows == DigestSet(codes[..i])
        invariant forall a, b | 0 <= a < b < i :: codes[a] != codes[b]
      {
        if codes[i] in rows {
          var a :| 0 <= a < i && codes[..i][a] == codes[i];
          assert codes[a] == codes[i];
          return false;
        }
        assert codes[..i + 1] == codes[..i] + [codes[i]];
        forall a | 0 <= a < i ensures codes[a] != codes[i] {
          assert codes[..i][a] in rows;
        }
        rows := rows + {codes[i]};
      }
      assert codes[..10] == codes;
      recovery := recovery[user := rows];
      ok := true;
    }

    method Login(name: string, found: Option<Id>, r: Request) returns (reply: Reply)
      modifies this
      ensures (Contents(), reply) == LoginStep(old(Contents()), name, found, r)
    {
      var saved := Contents();
      var admitted := Throttle(LoginName(name), 10, r.at.password);
      if !admitted {
        return Rejected(429);
      }
      if found.None? || found.value !in users || users[found.value].password != r.password || !users[found.value].active {
        return Rejected(401);
      }
      attempts := attempts - {LoginName(name)};
      if users[found.value].secret.Some? {
        challenges := NotOf(Live(challenges, r.at.sweep), found.value);
        assert challenges == NotOf(Live(saved.challenges, r.at.sweep), found.value);
        if r.token in challenges {
          Rollback(saved);
          return Rejected(500);
        }
        challenges := challenges[r.token := Ticket(found.value, r.at.issue + 300.0)];
        sessions := sessions - {r.cookie};
        return ChallengeIssued;
      }
      var ok := IssueSession(found.value, r.token, r.at.issue);
      if !ok {
        Rollback(saved);
        return Rejected(500);
      }
      reply := SessionIssued(None);
    }

    method Verify(r: Request) returns (reply: Reply)
      modifies this
      ensures (Contents(), reply) == VerifyStep(crypto, old(Contents()), r)
    {
      var saved := Contents();
      if !(r.cookie in challenges && challenges[r.cookie].expires > r.at.lookup) {
        return Rejected(401);
      }
      var user := challenges[r.cookie].user;
      if user !in users || !users[user].active || users[user].secret.None? {
        return Rejected(401);
      }
      var admitted := Throttle(SecondFactor(user), 5, r.at.factor);
      if !admitted {
        return Rejected(429);
      }
      var used := ConsumeFactor(user, r);
      match used
      case Unreadable =>
        Rollback(saved);
        return Rejected(503);
      case Refused =>
        return Rejected(400);
      case Used(_, factor) =>
        challenges := NotOf(challenges, user);
        ClearAttempts(user);
        var ok := IssueSession(user, r.token, r.at.issue);
        if !ok {
          Rollback(saved);
          return Rejected(500);
        }
        reply := SessionIssued(Some(factor));
    }

    method Setup(r: Request, secret: Secret) returns (reply: Reply)
      modifies this
      ensures (Contents(), reply) == SetupStep(old(Contents()), r, secret)
    {
      var saved := Contents();
      if !SessionUser(Contents(), r) {
        return Rejected(401);
      }
      if users[r.user].secret.Some? {
        return Rejected(409);
      }
      var admitted := Throttle(Manage(r.user), 5, r.at.password);
      if !admitted {
        return Rejected(429);
      }
      if users[r.user].password != r.password {
        return Rejected(400);
      }
      if !r.keyReadable {
        Rollback(saved);
        return Rejected(503);
      }
      pending := LivePending(pending, r.at.sweep);
      assert pending == LivePending(saved.pending, r.at.sweep);
      pending := pending[r.user := Enrolment(secret, r.cookie, r.at.issue + 600.0)];
      reply := Accepted;
    }

    /** revoke_auth, clear_attempts and issue_session, or nothing at all. */
    method Renew(saved: Tables, user: Id, r: Request, factor: Factor) returns (reply: Reply)
      modifies this
      ensures (Contents(), reply) == Finished(saved, Renewed(old(Contents()), user, r), Some(factor))
    {
      RevokeAuth(user);
      ClearAttempts(user);
      var ok := IssueSession(user, r.token, r.at.issue);
      if !ok {
        Rollback(saved);
        return Rejected(500);
      }
      reply := SessionIssued(Some(factor));
    }

    method Enable(r: Request) returns (reply: Reply)
      modifies this
      ensures (Contents(), reply) == EnableStep(crypto, old(Contents()), r)
    {
      var saved := Contents();
      if !SessionUser(Contents(), r) {
        return Rejected(401);
      }
      if users[r.user].secret.Some? {
        return Rejected(409);
      }
      if !OwnsPending(Contents(), r) {
        return Rejected(400);
      }
      var secret := pending[r.user].secret;
      var admitted := Throttle(SecondFactor(r.user), 5, r.at.factor);
      if !admitted {
        return Rejected(429);
      }
      if !r.keyReadable {
        Rollback(saved);
        return Rejected(503);
      }
      var step := FindStep(secret, r.code, -1, r.at.code);
      if step.None? {
        return Rejected(400);
      }
      users := users[r.user := users[r.user].(secret := Some(secret), lastStep := step.value)];
      var distinct := ReplaceCodes(r.user, r.codes);
      if !distinct {
        Rollback(saved);
        return Rejected(500);
      }
      reply := Renew(saved, r.user, r, Totp(step.value, r.at.code));
    }

    /** Password, then factor; a refusal commits the counters it has already raised, an error does not. */
    method CheckProof(r: Request) returns (proof: Proof)
      modifies this
      ensures proof == ProofOf(crypto, old(Contents()), r) && Contents() == proof.tables
    {
      var saved := Contents();
      if !SessionUser(Contents(), r) {
        return Unproven(saved, 401);
      }
      var admitted := Throttle(Manage(r.user), 5, r.at.password);
      if !admitted {
        return Unproven(saved, 429);
      }
      if users[r.user].password != r.password {
        return Unproven(Contents(), 400);
      }
      if users[r.user].secret.None? {
        Rollback(saved);
        return Unproven(saved, 409);
      }
      admitted := Throttle(SecondFactor(r.user), 5, r.at.factor);
      if !admitted {
        Rollback(saved);
        return Unproven(saved, 429);
      }
      var used := ConsumeFactor(r.user, r);
      match used
      case Unreadable =>
        Rollback(saved);
        return Unproven(saved, 503);
      case Refused =>
        return Unproven(Contents(), 400);
      case Used(_, factor) =>
        proof := Proven(Contents(), factor);
    }

    method Regenerate(r: Request) returns (reply: Reply)
      modifies this
      ensures (Contents(), reply) == RegenerateStep(crypto, old(Contents()), r)
    {
      var saved := Contents();
      var proof := CheckProof(r);
      if proof.Unproven? {
        return Rejected(proof.status);
      }
      var distinct := ReplaceCodes(r.user, r.codes);
      if !distinct {
        Rollback(saved);
        return Rejected(500);
      }
      reply := Renew(saved, r.user, r, proof.factor);
    }

    method Disable(r: Request) returns (reply: Reply)
      modifies this
      ensures (Contents(), reply) == DisableStep(crypto, old(Contents()), r)
    {
      var saved := Contents();
      var proof := CheckProof(r);
      if proof.Unproven? {
        return Rejected(proof.status);
      }
      users := users[r.user := users[r.user].(secret := None, lastStep := -1)];
      recovery := recovery - {r.user};
      reply := Renew(saved, r.user, r, proof.factor);
    }

    method UpdateUser(admin: Id, user: Id, d: Change) returns (reply: Reply)
      modifies this
      ensures (Contents(), reply) == UpdateUserStep(old(Contents()), admin, user, d)
    {
      if user !in users {
        return Rejected(404);
      }
      if user == admin && (!d.active || d.role != Admin) {
        return Rejected(409);
      }
      var row := users[user].(role := d.role, active := d.active);
      if d.password.Some? {
        row := row.(password := d.password.value);
      }
      users := users[user := row];
      RevokeAuth(user);
      reply := Accepted;
    }
  }
}

/** What every run of the pairing machine keeps: bounded requests, one token for each, exact access. */
module PairingTheorems {
  import opened Common
  import opened Pairings

  // ---------------------------------------------------------------- the log

  predicate About(e: Entry, device: Device) { !e.Approval? && e.device == device }

  predicate IssueFor(e: Entry, id: PairingId) { e.Issue? && e.pairing == id }

  predicate ApprovalOf(e: Entry, id: PairingId) { e.Approval? && e.pairing == id }

  predicate HasIssue(log: seq<Entry>, id: PairingId) { exists i :: 0 <= i < |log| && IssueFor(log[i], id) }

  predicate HasApproval(log: seq<Entry>, id: PairingId) { exists i :: 0 <= i < |log| && ApprovalOf(log[i], id) }

  function Latest(log: seq<Entry>, device: Device): (r: Option<Entry>)
    ensures r.Some? ==> About(r.value, device)
  {
    if log == [] then None
    else if About(log[|log| - 1], device) then Some(log[|log| - 1])
    else Latest(log[..|log| - 1], device)
  }

  // The last thing the device was told, said with positions.
  predicate IsLatest(log: seq<Entry>, device: Device, i: int) {
    0 <= i < |log| && About(log[i], device) && forall j :: i < j < |log| ==> !About(log[j], device)
  }

  // The device's last word from the agent is this token, still within its lifetime.
  ghost predicate Entitled(log: seq<Entry>, device: Device, token: string, now: Time) {
    exists i :: IsLatest(log, device, i) && log[i].Issue? && log[i].token == token && Unexpired(log[i].expiresAt, now)
  }

  lemma {:induction false} LatestIsLatest(log: seq<Entry>, device: Device)
    ensures Latest(log, device).None? ==> forall i :: 0 <= i < |log| ==> !About(log[i], device)
    ensures Latest(log, device).Some? ==> exists i :: IsLatest(log, device, i) && log[i] == Latest(log, device).value
  {
    if log != [] {
      var n := |log| - 1;
      if About(log[n], device) {
        assert IsLatest(log, device, n);
      } else {
        LatestIsLatest(log[..n], device);
        if Latest(log, device).Some? {
          var i :| IsLatest(log[..n], device, i) && log[..n][i] == Latest(log[..n], device).value;
          assert forall j :: i < j < n ==> log[..n][j] == log[j];
          assert IsLatest(log, device, i);
        } else {
          assert forall i :: 0 <= i < n ==> log[..n][i] == log[i];
        }
      }
    }
  }

  lemma EntitledIsLatest(log: seq<Entry>, device: Device, token: string, now: Time)
    ensures Entitled(log, device, token, now)
            <==> (Latest(log, device).Some? && Latest(log, device).value.Issue?
                  && Latest(log, device).value.token == token && Unexpired(Latest(log, device).value.expiresAt, now))
  {
    LatestIsLatest(log, device);
  }

  lemma LatestAfter(log: seq<Entry>, e: Entry, device: Device)
    ensures Latest(log + [e], device) == if About(e, device) then Some(e) else Latest(log, device)
  {
    assert (log + [e])[..|log|] == log;
  }

  // --------------------------------------------------------------- invariant

  ghost predicate Bounded(policy: Policy, ps: map<PairingId, Pairing>) {
    && |ActiveIds(ps)| <= policy.maxPending
    && forall a, b :: a in ActiveIds(ps) && b in ActiveIds(ps) && ps[a].device == ps[b].device ==> a == b
  }

  // One entry agrees with the table and with what precedes it.
  ghost predicate EntryInv(ps: map<PairingId, Pairing>, log: seq<Entry>, i: nat)
    requires i < |log|
  {
    match log[i]
    case Approval(id, at) => id in ps && at < ps[id].expiresAt
    case Issue(id, device, token, at, expiresAt) =>
      && id in ps && ps[id].status.Consumed? && ps[id].consumedAt == Some(at) && at < ps[id].expiresAt
      && device == ps[id].device && HasApproval(log[..i], id)
      && !HasIssue(log[..i], id) && !TokenIssued(log[..i], token)
    case Revocation(_, _) => true
  }

  ghost predicate LogInv(ps: map<PairingId, Pairing>, log: seq<Entry>) {
    forall i :: 0 <= i < |log| ==> EntryInv(ps, log, i)
  }

  ghost predicate PairingInv(p: Pairing, id: PairingId, log: seq<Entry>) {
    && (p.status.Consumed? ==> HasIssue(log, id))
    && (p.status.Approved? ==> HasApproval(log, id))
  }

  ghost predicate PairingsInv(ps: map<PairingId, Pairing>, log: seq<Entry>) {
    forall id :: id in ps ==> PairingInv(ps[id], id, log)
  }

  ghost predicate CredentialInv(s: State, device: Device) {
    match Latest(s.log, device)
    case None => device !in s.credentials
    case Some(e) =>
      && device in s.credentials && (e.Revocation? <==> s.credentials[device].revokedAt.Some?)
      && (e.Issue? ==> s.credentials[device].token == e.token && s.credentials[device].expiresAt == e.expiresAt)
  }

  // A device with an enabled push token holds a credential nobody revoked.
  ghost predicate PushInv(s: State) {
    forall d :: d in s.pushes && s.pushes[d].enabled ==> d in s.credentials && s.credentials[d].revokedAt.None?
  }

  ghost predicate Inv(policy: Policy, s: State) {
    && Bounded(policy, s.pairings) && LogInv(s.pairings, s.log) && PairingsInv(s.pairings, s.log)
    && (forall device :: CredentialInv(s, device))
    && PushInv(s)
  }

  // ------------------------------------------------------- pairings only advance

  predicate Evolves(p: Pairing, q: Pairing) {
    && p.device == q.device && p.secret == q.secret && p.createdAt == q.createdAt && p.expiresAt == q.expiresAt
    && (p.status == q.status || (Active(p.status) && !q.status.Pending?))
    && (!Active(p.status) ==> p == q)
  }

  ghost predicate AllEvolve(ps: map<PairingId, Pairing>, qs: map<PairingId, Pairing>) {
    forall id :: id in ps ==> id in qs && Evolves(ps[id], qs[id])
  }

  lemma ExpireEvolves(ps: map<PairingId, Pairing>, now: Time)
    ensures AllEvolve(ps, Expire(ps, now))
  {
  }

  lemma UpdateEvolves(ps: map<PairingId, Pairing>, now: Time, id: PairingId, p: Pairing)
    requires id in ps ==> Evolves(ExpireOne(ps[id], now), p)
    ensures AllEvolve(ps, Expire(ps, now)[id := p])
  {
    ExpireEvolves(ps, now);
  }

  lemma CreateEvolves(policy: Policy, s: State, device: Device, id: PairingId, secret: string, now: Time)
    requires id !in s.pairings
    ensures AllEvolve(s.pairings, Create(policy, s, device, id, secret, now).0.pairings)
  {
    var after := Create(policy, s, device, id, secret, now).0.pairings;
    if after != s.pairings { UpdateEvolves(s.pairings, now, id, after[id]); }
  }

  lemma ApplyEvolves(policy: Policy, s: State, op: Op)
    requires Drawn(s, op)
    ensures AllEvolve(s.pairings, Apply(policy, s, op).pairings)
  {
    var after := Apply(policy, s, op).pairings;
    match op
    case OpCreate(device, id, secret, now) => CreateEvolves(policy, s, device, id, secret, now);
    case OpList(now) => ExpireEvolves(s.pairings, now);
    case OpApprove(id, now) => SettleEvolves(s.pairings, after, now, id);
    case OpReject(id, now) => SettleEvolves(s.pairings, after, now, id);
    case OpPoll(id, _, _, now) => SettleEvolves(s.pairings, after, now, id);
    case _ =>
  }

  lemma SettleEvolves(ps: map<PairingId, Pairing>, after: map<PairingId, Pairing>, now: Time, id: PairingId)
    requires after == ps || after == Expire(ps, now)
             || (id in ps && id in after && after == Expire(ps, now)[id := after[id]]
                 && Evolves(ExpireOne(ps[id], now), after[id]))
    ensures AllEvolve(ps, after)
  {
    ExpireEvolves(ps, now);
    if id in ps && id in after && after == Expire(ps, now)[id := after[id]] && Evolves(ExpireOne(ps[id], now), after[id]) {
      UpdateEvolves(ps, now, id, after[id]);
    }
  }

  // Over any run a request keeps its device, its secret and its deadline, and a settled one keeps
  // everything.
  lemma {:induction false} PairingsOnlyAdvance(policy: Policy, s: State, ops: seq<Op>)
    requires Possible(policy, s, ops)
    ensures AllEvolve(s.pairings, Run(policy, s, ops).pairings)
  {
    if ops != [] {
      var before := Run(policy, s, ops[..|ops| - 1]);
      PairingsOnlyAdvance(policy, s, ops[..|ops| - 1]);
      ApplyEvolves(policy, before, ops[|ops| - 1]);
      var after := Run(policy, s, ops);
      forall id | id in s.pairings ensures id in after.pairings && Evolves(s.pairings[id], after.pairings[id]) {
        assert Evolves(before.pairings[id], after.pairings[id]);
      }
    }
  }

  // -------------------------------------------------------- each step keeps it

  lemma ExpireShrinks(policy: Policy, ps: map<PairingId, Pairing>, now: Time)
    ensures ActiveIds(Expire(ps, now)) <= ActiveIds(ps)
    ensures forall id :: id in ActiveIds(Expire(ps, now)) ==> now < ps[id].expiresAt
    ensures Bounded(policy, ps) ==> Bounded(policy, Expire(ps, now))
  {
    SubsetSize(ActiveIds(Expire(ps, now)), ActiveIds(ps));
  }

  // The table may advance under an unchanged log.
  lemma LogSurvives(ps: map<PairingId, Pairing>, qs: map<PairingId, Pairing>, log: seq<Entry>)
    requires LogInv(ps, log) && AllEvolve(ps, qs)
    ensures LogInv(qs, log)
  {
    forall i | 0 <= i < |log| ensures EntryInv(qs, log, i) {
      assert EntryInv(ps, log, i);
      if !log[i].Revocation? { assert Evolves(ps[log[i].pairing], qs[log[i].pairing]); }
    }
  }

  lemma LogGrows(ps: map<PairingId, Pairing>, log: seq<Entry>, e: Entry)
    requires LogInv(ps, log) && EntryInv(ps, log + [e], |log|)
    ensures LogInv(ps, log + [e])
  {
    forall i | 0 <= i < |log + [e]| ensures EntryInv(ps, log + [e], i) {
      if i < |log| {
        assert EntryInv(ps, log, i);
        assert (log + [e])[..i] == log[..i];
      }
    }
  }

  lemma IssuesConsume(ps: map<PairingId, Pairing>, log: seq<Entry>, id: PairingId)
    requires LogInv(ps, log)
    ensures HasIssue(log, id) ==> id in ps && ps[id].status.Consumed?
  {
    if HasIssue(log, id) {
      var i :| 0 <= i < |log| && IssueFor(log[i], id);
      assert EntryInv(ps, log, i);
    }
  }

  lemma HistoryGrows(log: seq<Entry>, e: Entry, id: PairingId)
    ensures HasIssue(log, id) ==> HasIssue(log + [e], id)
    ensures HasApproval(log, id) ==> HasApproval(log + [e], id)
    ensures IssueFor(e, id) ==> HasIssue(log + [e], id)
    ensures ApprovalOf(e, id) ==> HasApproval(log + [e], id)
  {
    var longer := log + [e];
    assert longer[|log|] == e;
    if HasIssue(log, id) {
      var i :| 0 <= i < |log| && IssueFor(log[i], id);
      assert IssueFor(longer[i], id);
    }
    if HasApproval(log, id) {
      var i :| 0 <= i < |log| && ApprovalOf(log[i], id);
      assert ApprovalOf(longer[i], id);
    }
  }

  lemma ExpireKeeps(policy: Policy, s: State, now: Time)
    requires Inv(policy, s)
    ensures Inv(policy, s.(pairings := Expire(s.pairings, now)))
  {
    ExpireShrinks(policy, s.pairings, now);
    var t := s.(pairings := Expire(s.pairings, now));
    LogSurvives(s.pairings, t.pairings, s.log);
    forall id | id in t.pairings ensures PairingInv(t.pairings[id], id, t.log) {
      assert PairingInv(s.pairings[id], id, s.log);
    }
    forall device ensures CredentialInv(t, device) { assert CredentialInv(s, device); }
  }

  lemma RoomForOne(policy: Policy, ps: map<PairingId, Pairing>, id: PairingId, p: Pairing)
    requires Bounded(policy, ps) && id !in ps && p.status.Pending?
    requires !HasActive(ps, p.device) && |ActiveIds(ps)| < policy.maxPending
    ensures Bounded(policy, ps[id := p]) && AllEvolve(ps, ps[id := p])
  {
    assert ActiveIds(ps[id := p]) == ActiveIds(ps) + {id};
  }

  lemma CreateKeeps(policy: Policy, s: State, device: Device, id: PairingId, secret: string, now: Time)
    requires Inv(policy, s) && id !in s.pairings
    ensures Inv(policy, Create(policy, s, device, id, secret, now).0)
  {
    ExpireKeeps(policy, s, now);
    var t := Create(policy, s, device, id, secret, now).0;
    if t != s {
      var ps := Expire(s.pairings, now);
      RoomForOne(policy, ps, id, t.pairings[id]);
      LogSurvives(ps, t.pairings, s.log);
      forall other | other in t.pairings ensures PairingInv(t.pairings[other], other, t.log) {
        if other != id { assert PairingInv(ps[other], other, s.log); }
      }
      forall d ensures CredentialInv(t, d) { assert CredentialInv(s, d); }
    }
  }

  lemma ApproveKeeps(policy: Policy, s: State, id: PairingId, now: Time)
    requires Inv(policy, s)
    ensures Inv(policy, Approve(s, id, now).0)
  {
    ExpireKeeps(policy, s, now);
    var ps := Expire(s.pairings, now);
    if id in ps && ps[id].status.Pending? {
      var t := Approve(s, id, now).0;
      var e := Approval(id, now);
      ExpireShrinks(policy, s.pairings, now);
      assert id in ActiveIds(ps);
      assert ActiveIds(t.pairings) == ActiveIds(ps);
      LogSurvives(ps, t.pairings, s.log);
      LogGrows(t.pairings, s.log, e);
      forall other | other in t.pairings ensures PairingInv(t.pairings[other], other, t.log) {
        HistoryGrows(s.log, e, other);
        assert PairingInv(ps[other], other, s.log);
      }
      forall d ensures CredentialInv(t, d) {
        assert CredentialInv(s, d);
        LatestAfter(s.log, e, d);
      }
    }
  }

  lemma RejectKeeps(policy: Policy, s: State, id: PairingId, now: Time)
    requires Inv(policy, s)
    ensures Inv(policy, Reject(s, id, now).0)
  {
    ExpireKeeps(policy, s, now);
    var ps := Expire(s.pairings, now);
    if id in ps && Active(ps[id].status) {
      var t := Reject(s, id, now).0;
      SubsetSize(ActiveIds(t.pairings), ActiveIds(ps));
      LogSurvives(ps, t.pairings, s.log);
      forall other | other in t.pairings ensures PairingInv(t.pairings[other], other, t.log) {
        assert PairingInv(ps[other], other, s.log);
      }
      forall d ensures CredentialInv(t, d) { assert CredentialInv(s, d); }
    }
  }

  lemma PollKeeps(policy: Policy, s: State, id: PairingId, secret: string, token: string, now: Time)
    requires Inv(policy, s) && !TokenIssued(s.log, token)
    ensures Inv(policy, Poll(policy, s, id, secret, token, now).0)
  {
    ExpireKeeps(policy, s, now);
    var ps := Expire(s.pairings, now);
    if id in ps && ps[id].secret == secret && ps[id].status.Approved? {
      var t := Poll(policy, s, id, secret, token, now).0;
      var e := Issue(id, ps[id].device, token, now, CredentialEnd(policy, now));
      ExpireShrinks(policy, s.pairings, now);
      assert id in ActiveIds(ps);
      SubsetSize(ActiveIds(t.pairings), ActiveIds(ps));
      LogSurvives(ps, t.pairings, s.log);
      assert PairingInv(ps[id], id, s.log);
      IssuesConsume(ps, s.log, id);
      assert t.log[..|s.log|] == s.log;
      LogGrows(t.pairings, s.log, e);
      forall other | other in t.pairings ensures PairingInv(t.pairings[other], other, t.log) {
        HistoryGrows(s.log, e, other);
        assert PairingInv(ps[other], other, s.log);
      }
      forall d ensures CredentialInv(t, d) {
        assert CredentialInv(s, d);
        LatestAfter(s.log, e, d);
      }
    }
  }

  lemma RevokeKeeps(policy: Policy, s: State, device: Device, now: Time)
    requires Inv(policy, s)
    ensures Inv(policy, Revoke(s, device, now).0)
  {
    var t := Revoke(s, device, now).0;
    if t != s {
      var e := Revocation(device, now);
      LogGrows(t.pairings, s.log, e);
      forall id | id in t.pairings ensures PairingInv(t.pairings[id], id, t.log) {
        HistoryGrows(s.log, e, id);
        assert PairingInv(s.pairings[id], id, s.log);
      }
      forall d ensures CredentialInv(t, d) {
        assert CredentialInv(s, d);
        LatestAfter(s.log, e, d);
      }
    }
  }

  lemma AccessKeeps(policy: Policy, s: State, t: State)
    requires Inv(policy, s) && t.pairings == s.pairings && t.log == s.log && PushInv(t)
    requires t.credentials.Keys == s.credentials.Keys
    requires forall d :: d in s.credentials ==>
               && t.credentials[d].revokedAt == s.credentials[d].revokedAt
               && t.credentials[d].token == s.credentials[d].token
               && t.credentials[d].expiresAt == s.credentials[d].expiresAt
    ensures Inv(policy, t)
  {
    forall d ensures CredentialInv(t, d) { assert CredentialInv(s, d); }
  }

  lemma AccessStepKeeps(policy: Policy, s: State, op: Op)
    requires Inv(policy, s) && (op.OpAuthorize? || op.OpRegister? || op.OpDisable?)
    ensures Inv(policy, Apply(policy, s, op))
  {
    AccessKeeps(policy, s, Apply(policy, s, op));
  }

  lemma ApplyKeeps(policy: Policy, s: State, op: Op)
    requires Inv(policy, s) && Drawn(s, op)
    ensures Inv(policy, Apply(policy, s, op))
  {
    match op
    case OpCreate(device, id, secret, now) => CreateKeeps(policy, s, device, id, secret, now);
    case OpList(now) => ExpireKeeps(policy, s, now);
    case OpApprove(id, now) => ApproveKeeps(policy, s, id, now);
    case OpReject(id, now) => RejectKeeps(policy, s, id, now);
    case OpPoll(id, secret, token, now) => PollKeeps(policy, s, id, secret, token, now);
    case OpRevoke(device, now) => RevokeKeeps(policy, s, device, now);
    case OpAuthorize(_, _, _) => AccessStepKeeps(policy, s, op);
    case OpRegister(_, _, _, _, _) => AccessStepKeeps(policy, s, op);
    case OpDisable(_) => AccessStepKeeps(policy, s, op);
  }

  lemma {:induction false} EveryRunKeeps(policy: Policy, ops: seq<Op>)
    requires Possible(policy, EMPTY, ops)
    ensures Inv(policy, Run(policy, EMPTY, ops))
  {
    if ops == [] {
      assert ActiveIds(EMPTY.pairings) == {};
      forall d ensures CredentialInv(EMPTY, d) {}
    } else {
      EveryRunKeeps(policy, ops[..|ops| - 1]);
      ApplyKeeps(policy, Run(policy, EMPTY, ops[..|ops| - 1]), ops[|ops| - 1]);
    }
  }

  // ---------------------------------------------------------------- theorems

  // At any time a device has one active request at most, and all devices together maxPending.
  lemma RequestsAreBounded(policy: Policy, ops: seq<Op>)
    requires Possible(policy, EMPTY, ops)
    ensures var ps := Run(policy, EMPTY, ops).pairings;
            && |ActiveIds(ps)| <= policy.maxPending
            && forall a, b :: a in ActiveIds(ps) && b in ActiveIds(ps) && ps[a].device == ps[b].device ==> a == b
  {
    EveryRunKeeps(policy, ops);
  }

  // Two issued tokens differ and answer different requests.
  lemma IssuedOnce(policy: Policy, ops: seq<Op>, i: nat, j: nat)
    requires Possible(policy, EMPTY, ops)
    requires var log := Run(policy, EMPTY, ops).log; i < j < |log| && log[i].Issue? && log[j].Issue?
    ensures var log := Run(policy, EMPTY, ops).log; log[i].pairing != log[j].pairing && log[i].token != log[j].token
  {
    EveryRunKeeps(policy, ops);
    var s := Run(policy, EMPTY, ops);
    assert EntryInv(s.pairings, s.log, j);
    assert s.log[..j][i] == s.log[i];
    assert IssueFor(s.log[..j][i], s.log[i].pairing);
  }

  // A token follows an approval of the same request and precedes the request's deadline, and the
  // consumed requests are exactly the answered ones.
  lemma IssuedFromApproval(policy: Policy, ops: seq<Op>, i: nat)
    requires Possible(policy, EMPTY, ops)
    requires var log := Run(policy, EMPTY, ops).log; i < |log| && log[i].Issue?
    ensures var s := Run(policy, EMPTY, ops); var e := s.log[i];
            && HasApproval(s.log[..i], e.pairing)
            && e.pairing in s.pairings && e.at < s.pairings[e.pairing].expiresAt
            && e.device == s.pairings[e.pairing].device
  {
    EveryRunKeeps(policy, ops);
    assert EntryInv(Run(policy, EMPTY, ops).pairings, Run(policy, EMPTY, ops).log, i);
  }

  lemma ConsumedMeansIssued(policy: Policy, ops: seq<Op>, id: PairingId)
    requires Possible(policy, EMPTY, ops) && id in Run(policy, EMPTY, ops).pairings
    ensures Run(policy, EMPTY, ops).pairings[id].status.Consumed? <==> HasIssue(Run(policy, EMPTY, ops).log, id)
  {
    EveryRunKeeps(policy, ops);
    var s := Run(policy, EMPTY, ops);
    assert PairingInv(s.pairings[id], id, s.log);
    IssuesConsume(s.pairings, s.log, id);
  }

  // A request once consumed, rejected or expired never yields a token again.
  lemma SettledRequestsStaySilent(policy: Policy, s: State, ops: seq<Op>, id: PairingId, secret: string,
                                  token: string, now: Time)
    requires Possible(policy, s, ops) && id in s.pairings && !Active(s.pairings[id].status)
    ensures var r := Poll(policy, Run(policy, s, ops), id, secret, token, now).1;
            r.Ok? ==> r.value.token.None? && r.value.status == s.pairings[id].status
  {
    PairingsOnlyAdvance(policy, s, ops);
    assert Evolves(s.pairings[id], Run(policy, s, ops).pairings[id]);
  }

  lemma CredentialIsExact(policy: Policy, s: State, device: Device, token: string, now: Time)
    requires Inv(policy, s)
    ensures Accepts(s, device, token, now) <==> Entitled(s.log, device, token, now)
  {
    assert CredentialInv(s, device);
    EntitledIsLatest(s.log, device, token, now);
  }

  // Access is granted to exactly the token last issued to the device, until it is revoked or expires.
  lemma AccessIsExact(policy: Policy, ops: seq<Op>, device: Device, token: string, now: Time)
    requires Possible(policy, EMPTY, ops)
    ensures Accepts(Run(policy, EMPTY, ops), device, token, now)
            <==> Entitled(Run(policy, EMPTY, ops).log, device, token, now)
  {
    EveryRunKeeps(policy, ops);
    CredentialIsExact(policy, Run(policy, EMPTY, ops), device, token, now);
  }

  ghost predicate PushesFollow(s: State, device: Device, environment: string, now: Time) {
    && (device in PushTargets(s, environment, now) ==> exists token :: Entitled(s.log, device, token, now))
    && (device in s.pushes && s.pushes[device].enabled ==> forall i :: IsLatest(s.log, device, i) ==> s.log[i].Issue?)
  }

  lemma PushInvFollows(policy: Policy, s: State, device: Device, environment: string, now: Time)
    requires Inv(policy, s)
    ensures PushesFollow(s, device, environment, now)
  {
    assert CredentialInv(s, device);
    if device in PushTargets(s, environment, now) {
      CredentialIsExact(policy, s, device, s.credentials[device].token, now);
    }
    LatestIsLatest(s.log, device);
    forall i | IsLatest(s.log, device, i) ensures s.log[i] == Latest(s.log, device).value {
      var k :| IsLatest(s.log, device, k) && s.log[k] == Latest(s.log, device).value;
      assert About(s.log[i], device) && About(s.log[k], device);
    }
  }

  // A notification goes only to a device whose access still holds; after a revocation no push
  // token stays enabled.
  lemma PushesFollowAccess(policy: Policy, ops: seq<Op>, device: Device, environment: string, now: Time)
    requires Possible(policy, EMPTY, ops)
    ensures PushesFollow(Run(policy, EMPTY, ops), device, environment, now)
  {
    EveryRunKeeps(policy, ops);
    PushInvFollows(policy, Run(policy, EMPTY, ops), device, environment, now);
  }

  // A device that nobody re-registers after a revocation is not notified, even once paired again.
  ghost predicate Registers(op: Op, device: Device) { op.OpRegister? && op.device == device }

  lemma StaysDisabled(policy: Policy, s: State, op: Op, device: Device)
    requires !Registers(op, device) && (device in s.pushes ==> !s.pushes[device].enabled)
    ensures var t := Apply(policy, s, op); device in t.pushes ==> !t.pushes[device].enabled
  {
  }

  lemma {:induction false} RevocationOutlivesPairing(policy: Policy, s: State, ops: seq<Op>, device: Device,
                                                     environment: string, now: Time)
    requires Possible(policy, s, ops) && (device in s.pushes ==> !s.pushes[device].enabled)
    requires forall k :: 0 <= k < |ops| ==> !Registers(ops[k], device)
    ensures device in Run(policy, s, ops).pushes ==> !Run(policy, s, ops).pushes[device].enabled
    ensures device !in PushTargets(Run(policy, s, ops), environment, now)
  {
    if ops != [] {
      var shorter := ops[..|ops| - 1];
      assert forall k :: 0 <= k < |shorter| ==> shorter[k] == ops[k];
      RevocationOutlivesPairing(policy, s, shorter, device, environment, now);
      StaysDisabled(policy, Run(policy, s, shorter), ops[|ops| - 1], device);
    }
  }
}

/** What a pairing promises, said in instants: how long a request and a token live, who is let in. */
module PairingLaws {
  import opened Common
  import opened Pairings
  import opened PairingTheorems

  // ------------------------------------------------------------------ tokens

  // What the device was told after the log had this many entries does not concern it.
  ghost predicate QuietSince(log: seq<Entry>, start: nat, device: Device) {
    forall i :: start <= i < |log| ==> !About(log[i], device)
  }

  ghost predicate SameAccess(s: State, t: State, device: Device) {
    && (device in s.credentials <==> device in t.credentials)
    && (device in s.credentials ==>
          && t.credentials[device].token == s.credentials[device].token
          && t.credentials[device].expiresAt == s.credentials[device].expiresAt
          && t.credentials[device].revokedAt == s.credentials[device].revokedAt)
  }

  lemma QuietStep(policy: Policy, s: State, op: Op, device: Device)
    requires QuietSince(Apply(policy, s, op).log, |s.log|, device)
    ensures s.log <= Apply(policy, s, op).log && SameAccess(s, Apply(policy, s, op), device)
  {
    var t := Apply(policy, s, op);
    if |t.log| > |s.log| { assert !About(t.log[|s.log|], device); }
  }

  lemma LogGrowsBy(policy: Policy, s: State, op: Op)
    ensures s.log <= Apply(policy, s, op).log
  {
  }

  lemma {:induction false} QuietRun(policy: Policy, s: State, ops: seq<Op>, device: Device)
    ensures s.log <= Run(policy, s, ops).log
    ensures QuietSince(Run(policy, s, ops).log, |s.log|, device) ==> SameAccess(s, Run(policy, s, ops), device)
  {
    if ops != [] {
      var before := Run(policy, s, ops[..|ops| - 1]);
      var op := ops[|ops| - 1];
      QuietRun(policy, s, ops[..|ops| - 1], device);
      LogGrowsBy(policy, before, op);
      if QuietSince(Run(policy, s, ops).log, |s.log|, device) {
        forall i | |s.log| <= i < |before.log| ensures !About(before.log[i], device) {
          assert Run(policy, s, ops).log[i] == before.log[i];
        }
        QuietStep(policy, before, op, device);
      }
    }
  }

  // A token answered at t opens the door for exactly the lifetime of the policy, for ever without one,
  // as long as the device is told nothing else; and the answer says until when.
  lemma TokenLives(policy: Policy, s: State, id: PairingId, secret: string, token: string, t: Time, ops: seq<Op>, u: Time)
    requires var (after, r) := Poll(policy, s, id, secret, token, t);
             && r.Ok? && r.value.token.Some?
             && id in after.pairings
             && QuietSince(Run(policy, after, ops).log, |after.log|, after.pairings[id].device)
    ensures var (after, r) := Poll(policy, s, id, secret, token, t);
            && r.value.token == Some(token)
            && (Accepts(Run(policy, after, ops), after.pairings[id].device, token, u) <==>
                  policy.credentialTtl.None? || u < t + policy.credentialTtl.value)
            && (r.value.tokenExpiresAt.None? <==> policy.credentialTtl.None?)
            && (policy.credentialTtl.Some? ==> r.value.tokenExpiresAt == Some(t + policy.credentialTtl.value))
            && r.value.status == Consumed && r.value.expiresAt == s.pairings[id].expiresAt
            && after.credentials == s.credentials[
                 after.pairings[id].device := Credential(token, t, r.value.tokenExpiresAt, None, None)]
  {
    var after := Poll(policy, s, id, secret, token, t).0;
    QuietRun(policy, after, ops, after.pairings[id].device);
  }

  // No other token opens it meanwhile.
  lemma OnlyThatToken(policy: Policy, s: State, id: PairingId, secret: string, token: string, t: Time, ops: seq<Op>,
                      other: string, u: Time)
    requires var (after, r) := Poll(policy, s, id, secret, token, t);
             && r.Ok? && r.value.token.Some? && id in after.pairings
             && QuietSince(Run(policy, after, ops).log, |after.log|, after.pairings[id].device)
    ensures var after := Poll(policy, s, id, secret, token, t).0;
            Accepts(Run(policy, after, ops), after.pairings[id].device, other, u) ==> other == token
  {
    var after := Poll(policy, s, id, secret, token, t).0;
    QuietRun(policy, after, ops, after.pairings[id].device);
  }

  // A revoked device is let in by no token, from any instant, until it is told something else.
  lemma RevocationHolds(policy: Policy, s: State, device: Device, t: Time, ops: seq<Op>, token: string, u: Time)
    requires Revoke(s, device, t).1.Ok?
    requires var after := Revoke(s, device, t).0; QuietSince(Run(policy, after, ops).log, |after.log|, device)
    ensures !Accepts(Run(policy, Revoke(s, device, t).0, ops), device, token, u)
  {
    QuietRun(policy, Revoke(s, device, t).0, ops, device);
  }

  // Revoking is for known devices. The first time counts: it ends the access, keeps the push token
  // disabled, and a second time changes nothing.
  lemma RevocationEnds(s: State, device: Device, t: Time, again: Time)
    ensures Revoke(s, device, t).1.Ok? <==> device in s.credentials
    ensures device !in s.credentials ==> Revoke(s, device, t).0 == s
    ensures device in s.credentials ==>
              var (after, r) := Revoke(s, device, t);
              var first := if s.credentials[device].revokedAt.Some? then s.credentials[device].revokedAt else Some(t);
              && device in after.credentials && after.pairings == s.pairings
              && after.credentials[device] == s.credentials[device].(revokedAt := first) == r.value
              && Revoke(after, device, again) == (after, r)
              && (device in after.pushes <==> device in s.pushes)
              && (device in s.pushes ==> after.pushes[device].token == s.pushes[device].token)
  {
  }

  // A token that lets its device in leaves the instant it was used, and nothing else.
  lemma UseIsNoted(s: State, device: Device, token: string, now: Time)
    ensures var after := Authorize(s, device, token, now);
            if Accepts(s, device, token, now)
            then device in after.credentials && after.credentials[device].lastSeen == Some(now)
                 && after == s.(credentials := s.credentials[device := s.credentials[device].(lastSeen := Some(now))])
            else after == s
  {
  }

  // ---------------------------------------------------------------- requests

  // A new request is refused exactly when the device has an unexpired one, or as many as allowed are
  // open; otherwise it is open for the lifetime of the policy.
  lemma RequestIsOpened(policy: Policy, s: State, device: Device, id: PairingId, secret: string, t: Time)
    requires id !in s.pairings
    ensures var (after, r) := Create(policy, s, device, id, secret, t);
            var open := Open(s.pairings, t);
            if exists other :: other in open && s.pairings[other].device == device then after == s && r == Err(Conflict)
            else if |open| >= policy.maxPending then after == s && r == Err(QueueFull)
            else
              && r == Ok(t + policy.pairingTtl) && id in after.pairings
              && after.pairings[id] == Pairing(device, secret, Pending, t, t + policy.pairingTtl, None, None)
              && after.credentials == s.credentials && after.log == s.log
  {
    StillOpen(s.pairings, t);
    var open := Open(s.pairings, t);
    if other :| other in open && s.pairings[other].device == device {
      assert other in ActiveIds(Expire(s.pairings, t));
    }
    if HasActive(Expire(s.pairings, t), device) {
      var other :| other in ActiveIds(Expire(s.pairings, t)) && Expire(s.pairings, t)[other].device == device;
      assert other in open;
    }
  }

  ghost function Open(ps: map<PairingId, Pairing>, t: Time): set<PairingId> {
    set id | id in ps && (ps[id].status == Pending || ps[id].status == Approved) && t < ps[id].expiresAt
  }

  lemma StillOpen(ps: map<PairingId, Pairing>, t: Time)
    ensures ActiveIds(Expire(ps, t)) == Open(ps, t)
  {
  }

  // Listing ends the requests whose lifetime is over and nothing else.
  lemma ListingExpires(policy: Policy, s: State, t: Time)
    ensures var after := Apply(policy, s, OpList(t));
            && after == s.(pairings := after.pairings) && after.pairings.Keys == s.pairings.Keys
            && forall id :: id in s.pairings ==>
                 after.pairings[id] ==
                   if (s.pairings[id].status == Pending || s.pairings[id].status == Approved) && s.pairings[id].expiresAt <= t
                   then s.pairings[id].(status := Expired) else s.pairings[id]
  {
  }

  // From request to access: approved at v and polled at w with its secret, a request made at t yields
  // its token exactly when both come before its lifetime is over.
  lemma PairingGrantsAccess(policy: Policy, s: State, device: Device, id: PairingId, secret: string, t: Time, v: Time,
                            w: Time, token: string)
    requires id !in s.pairings && Create(policy, s, device, id, secret, t).1.Ok? && v <= w
    ensures var asked := Create(policy, s, device, id, secret, t).0;
            var (approved, a) := Approve(asked, id, v);
            var (polled, p) := Poll(policy, approved, id, secret, token, w);
            && (a.Ok? <==> v < t + policy.pairingTtl)
            && p.Ok?
            && (p.value.token == Some(token) <==> v < t + policy.pairingTtl && w < t + policy.pairingTtl)
            && (p.value.token.Some? <==> p.value.token == Some(token))
            && (p.value.token.Some? ==>
                  (Accepts(polled, device, token, w) <==>
                     policy.credentialTtl.None? || policy.credentialTtl.value > 0))
  {
  }

  // A wrong secret is answered like an unknown request and changes nothing.
  lemma WrongSecret(policy: Policy, s: State, id: PairingId, secret: string, token: string, now: Time)
    requires id in s.pairings && s.pairings[id].secret != secret
    ensures Poll(policy, s, id, secret, token, now) == (s, Err(Missing))
  {
  }

  // Approval and rejection decide a pending request that is not over, once.
  lemma RequestIsDecided(s: State, id: PairingId, now: Time)
    requires id in s.pairings
    ensures var p := s.pairings[id];
            var (approved, a) := Approve(s, id, now);
            var (rejected, r) := Reject(s, id, now);
            && (a.Ok? <==> now < p.expiresAt && (p.status == Pending || p.status == Approved))
            && (a.Ok? ==>
                  && id in approved.pairings && a.value == approved.pairings[id]
                  && a.value == p.(status := Approved,
                                   approvedAt := if p.status == Approved then p.approvedAt else Some(now)))
            && (a.Err? ==> approved == s)
            && (r.Ok? <==> p.status == Rejected || (now < p.expiresAt && (p.status == Pending || p.status == Approved)))
            && (r.Ok? ==> id in rejected.pairings && r.value == rejected.pairings[id] == p.(status := Rejected))
            && (r.Err? ==> rejected == s)
  {
  }

  // ------------------------------------------------------------ notifications

  // A token registered and enabled for a device with access is reached in its environment, in lower
  // case, exactly as long as that access lasts; disabling it or revoking the device ends that.
  lemma RegistrationReaches(s: State, device: Device, token: string, environment: string, now: Time, asked: string, u: Time)
    requires token != "" && device in s.credentials && s.credentials[device].revokedAt.None?
    ensures var after := RegisterPush(s, device, true, Some(token), environment, now).0;
            && (device in PushTargets(after, asked, u) <==>
                  asked == environment
                  && (s.credentials[device].expiresAt.None? || u < s.credentials[device].expiresAt.value))
            && (device in PushTargets(after, asked, u) ==> PushTargets(after, asked, u)[device] == Lowered(token))
            && device !in PushTargets(Revoke(after, device, now).0, asked, u)
            && device !in PushTargets(after.(pushes := Disabled(after.pushes, device)), asked, u)
            && forall other :: other != device ==>
                 (other in PushTargets(after, asked, u) <==> other in PushTargets(s, asked, u))
  {
  }

  lemma LoweredLetters()
    ensures Lowered("0123456789ABCDEFabcdef") == "0123456789abcdefabcdef"
  {
  }

  // A registration is refused exactly without a token to enable, for an unknown device or for a revoked
  // one; without a token, or with an empty one, nothing reaches the device.
  lemma RegistrationIsRefused(s: State, device: Device, enabled: bool, token: Option<string>, environment: string,
                              now: Time, asked: string, u: Time)
    ensures var (after, r) := RegisterPush(s, device, enabled, token, environment, now);
            && (r == Err(TokenRequired) <==> enabled && token == None)
            && (r.Ok? <==> (enabled ==> token.Some?) && device in s.credentials && s.credentials[device].revokedAt == None)
            && (r.Err? ==> after == s)
            && (r.Ok? && (!enabled || token == Some("")) ==> device !in PushTargets(after, asked, u))
  {
  }
}

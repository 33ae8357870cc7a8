/** Pairing of companions and of workers: a request a user approves, answered once by a credential.

    Both repositories run the same machine. A worker credential has no lifetime and is never
    revoked; companions also bind a push token. Secrets and tokens stand for their digests. */
module Pairings {
  import opened Common

  type PairingId = nat

  type Device = string

  datatype Status = Pending | Approved | Consumed | Expired | Rejected

  predicate Active(s: Status) { s.Pending? || s.Approved? }

  datatype Pairing = Pairing(
    device: Device, secret: string, status: Status, createdAt: Time, expiresAt: Time,
    approvedAt: Option<Time>, consumedAt: Option<Time>)

  datatype Credential = Credential(
    token: string, createdAt: Time, expiresAt: Option<Time>, lastSeen: Option<Time>, revokedAt: Option<Time>)

  datatype Push = Push(token: Option<string>, environment: string, enabled: bool, updatedAt: Time)

  datatype Policy = Policy(pairingTtl: Time, credentialTtl: Option<Time>, maxPending: nat)

  datatype Error = Missing | Conflict | QueueFull | TokenRequired

  // What the outside world was told, in order. The database keeps no such log.
  datatype Entry =
    | Approval(pairing: PairingId, at: Time)
    | Issue(pairing: PairingId, device: Device, token: string, at: Time, expiresAt: Option<Time>)
    | Revocation(device: Device, at: Time)

  datatype State = State(
    pairings: map<PairingId, Pairing>, credentials: map<Device, Credential>, pushes: map<Device, Push>, log: seq<Entry>)

  const EMPTY: State := State(map[], map[], map[], [])

  datatype PollResult = PollResult(status: Status, expiresAt: Time, token: Option<string>, tokenExpiresAt: Option<Time>)

  // -------------------------------------------------------------- operations

  function ExpireOne(p: Pairing, now: Time): Pairing {
    if Active(p.status) && p.expiresAt <= now then p.(status := Expired) else p
  }

  function Expire(ps: map<PairingId, Pairing>, now: Time): map<PairingId, Pairing> {
    map id | id in ps :: ExpireOne(ps[id], now)
  }

  function ActiveIds(ps: map<PairingId, Pairing>): set<PairingId> { set id | id in ps && Active(ps[id].status) }

  predicate HasActive(ps: map<PairingId, Pairing>, device: Device) {
    exists id :: id in ActiveIds(ps) && ps[id].device == device
  }

  function Create(policy: Policy, s: State, device: Device, id: PairingId, secret: string, now: Time)
    : (State, Result<Time, Error>)
  {
    var ps := Expire(s.pairings, now);
    if HasActive(ps, device) then (s, Err(Conflict))
    else if |ActiveIds(ps)| >= policy.maxPending then (s, Err(QueueFull))
    else
      var p := Pairing(device, secret, Pending, now, now + policy.pairingTtl, None, None);
      (s.(pairings := ps[id := p]), Ok(p.expiresAt))
  }

  function Approve(s: State, id: PairingId, now: Time): (State, Result<Pairing, Error>) {
    var ps := Expire(s.pairings, now);
    if id !in ps then (s, Err(Missing))
    else if ps[id].status.Approved? then (s.(pairings := ps), Ok(ps[id]))
    else if !ps[id].status.Pending? then (s, Err(Conflict))
    else
      var p := ps[id].(status := Approved, approvedAt := Some(now));
      (s.(pairings := ps[id := p], log := s.log + [Approval(id, now)]), Ok(p))
  }

  function Reject(s: State, id: PairingId, now: Time): (State, Result<Pairing, Error>) {
    var ps := Expire(s.pairings, now);
    if id !in ps then (s, Err(Missing))
    else if ps[id].status.Rejected? then (s.(pairings := ps), Ok(ps[id]))
    else if !Active(ps[id].status) then (s, Err(Conflict))
    else
      var p := ps[id].(status := Rejected);
      (s.(pairings := ps[id := p]), Ok(p))
  }

  function CredentialEnd(policy: Policy, now: Time): Option<Time> {
    if policy.credentialTtl.None? then None else Some(now + policy.credentialTtl.value)
  }

  // `token` is the value drawn if a credential is issued.
  function Poll(policy: Policy, s: State, id: PairingId, secret: string, token: string, now: Time)
    : (State, Result<PollResult, Error>)
  {
    var ps := Expire(s.pairings, now);
    if id !in ps || ps[id].secret != secret then (s, Err(Missing))
    else if !ps[id].status.Approved?
      then (s.(pairings := ps), Ok(PollResult(ps[id].status, ps[id].expiresAt, None, None)))
    else
      var end := CredentialEnd(policy, now);
      var p := ps[id].(status := Consumed, consumedAt := Some(now));
      (State(ps[id := p], s.credentials[p.device := Credential(token, now, end, None, None)], s.pushes,
             s.log + [Issue(id, p.device, token, now, end)]),
       Ok(PollResult(Consumed, p.expiresAt, Some(token), end)))
  }

  predicate Unexpired(end: Option<Time>, now: Time) { end.None? || now < end.value }

  predicate Accepts(s: State, device: Device, token: string, now: Time) {
    && device in s.credentials && s.credentials[device].revokedAt.None?
    && Unexpired(s.credentials[device].expiresAt, now) && s.credentials[device].token == token
  }

  function Authorize(s: State, device: Device, token: string, now: Time): State {
    if !Accepts(s, device, token, now) then s
    else s.(credentials := s.credentials[device := s.credentials[device].(lastSeen := Some(now))])
  }

  function Revoke(s: State, device: Device, now: Time): (State, Result<Credential, Error>) {
    if device !in s.credentials then (s, Err(Missing))
    else if s.credentials[device].revokedAt.Some? then (s, Ok(s.credentials[device]))
    else
      var c := s.credentials[device].(revokedAt := Some(now));
      (State(s.pairings, s.credentials[device := c], Disabled(s.pushes, device), s.log + [Revocation(device, now)]), Ok(c))
  }

  function Disabled(pushes: map<Device, Push>, device: Device): map<Device, Push> {
    if device in pushes then pushes[device := pushes[device].(enabled := false)] else pushes
  }

  function Lowered(text: string): string {
    seq(|text|, i requires 0 <= i < |text| => if 'A' <= text[i] <= 'Z' then text[i] - 'A' + 'a' else text[i])
  }

  // An empty token is stored as NULL.
  function StoredToken(token: Option<string>): Option<string> {
    if token.None? || token.value == "" then None else Some(Lowered(token.value))
  }

  function RegisterPush(s: State, device: Device, enabled: bool, token: Option<string>, environment: string, now: Time)
    : (State, Result<Push, Error>)
  {
    if enabled && token.None? then (s, Err(TokenRequired))
    else if device !in s.credentials then (s, Err(Missing))
    else if s.credentials[device].revokedAt.Some? then (s, Err(Conflict))
    else
      var push := Push(StoredToken(token), environment, enabled, now);
      (s.(pushes := s.pushes[device := push]), Ok(push))
  }

  predicate Reachable(s: State, device: Device, environment: string, now: Time) {
    && device in s.pushes && device in s.credentials
    && s.pushes[device].enabled && s.pushes[device].environment == environment && s.pushes[device].token.Some?
    && s.credentials[device].revokedAt.None? && Unexpired(s.credentials[device].expiresAt, now)
  }

  function PushTargets(s: State, environment: string, now: Time): map<Device, string> {
    map device | device in s.pushes && Reachable(s, device, environment, now) :: s.pushes[device].token.value
  }

  // --------------------------------------------------------------------- runs

  datatype Op =
    | OpCreate(device: Device, id: PairingId, secret: string, now: Time)
    | OpList(now: Time)
    | OpApprove(id: PairingId, now: Time)
    | OpReject(id: PairingId, now: Time)
    | OpPoll(id: PairingId, secret: string, token: string, now: Time)
    | OpAuthorize(device: Device, token: string, now: Time)
    | OpRevoke(device: Device, now: Time)
    | OpRegister(device: Device, enabled: bool, pushToken: Option<string>, environment: string, now: Time)
    | OpDisable(device: Device)

  function Apply(policy: Policy, s: State, op: Op): State {
    match op
    case OpCreate(device, id, secret, now) => Create(policy, s, device, id, secret, now).0
    case OpList(now) => s.(pairings := Expire(s.pairings, now))
    case OpApprove(id, now) => Approve(s, id, now).0
    case OpReject(id, now) => Reject(s, id, now).0
    case OpPoll(id, secret, token, now) => Poll(policy, s, id, secret, token, now).0
    case OpAuthorize(device, token, now) => Authorize(s, device, token, now)
    case OpRevoke(device, now) => Revoke(s, device, now).0
    case OpRegister(device, enabled, token, environment, now) =>
      RegisterPush(s, device, enabled, token, environment, now).0
    case OpDisable(device) => s.(pushes := Disabled(s.pushes, device))
  }

  predicate TokenIssued(log: seq<Entry>, token: string) {
    exists i :: 0 <= i < |log| && log[i].Issue? && log[i].token == token
  }

  // Identifiers and tokens are drawn at random: never one drawn before.
  predicate Drawn(s: State, op: Op) {
    && (op.OpCreate? ==> op.id !in s.pairings)
    && (op.OpPoll? ==> !TokenIssued(s.log, op.token))
  }

  ghost function Run(policy: Policy, s: State, ops: seq<Op>): State {
    if ops == [] then s else Apply(policy, Run(policy, s, ops[..|ops| - 1]), ops[|ops| - 1])
  }

  ghost predicate Possible(policy: Policy, s: State, ops: seq<Op>) {
    ops == [] || (Possible(policy, s, ops[..|ops| - 1])
                  && Drawn(Run(policy, s, ops[..|ops| - 1]), ops[|ops| - 1]))
  }

  // -------------------------------------------------------------- the program

  class Repository {
    const policy: Policy
    var pairings: map<PairingId, Pairing>
    var credentials: map<Device, Credential>
    var pushes: map<Device, Push>
    ghost var log: seq<Entry>

    ghost function Contents(): State
      reads this
    {
      State(pairings, credentials, pushes, log)
    }

    constructor (policy: Policy)
      ensures this.policy == policy && Contents() == EMPTY
    {
      this.policy := policy;
      pairings, credentials, pushes, log := map[], map[], map[], [];
    }

    method ExpirePairings(now: Time)
      modifies this`pairings
      ensures pairings == Expire(old(pairings), now)
    {
      var due := set id | id in pairings && Active(pairings[id].status) && pairings[id].expiresAt <= now;
      pairings := map id | id in pairings :: if id in due then pairings[id].(status := Expired) else pairings[id];
    }

    // A raised error leaves the transaction: the caller's tables come back.
    method CreatePairing(device: Device, id: PairingId, secret: string, now: Time) returns (r: Result<Time, Error>)
      modifies this
      ensures (Contents(), r) == Create(policy, old(Contents()), device, id, secret, now)
    {
      var saved := pairings;
      ExpirePairings(now);
      if exists other :: other in ActiveIds(pairings) && pairings[other].device == device {
        pairings := saved;
        return Err(Conflict);
      }
      if |ActiveIds(pairings)| >= policy.maxPending {
        pairings := saved;
        return Err(QueueFull);
      }
      var expiresAt := now + policy.pairingTtl;
      pairings := pairings[id := Pairing(device, secret, Pending, now, expiresAt, None, None)];
      return Ok(expiresAt);
    }

    method ApprovePairing(id: PairingId, now: Time) returns (r: Result<Pairing, Error>)
      modifies this
      ensures (Contents(), r) == Approve(old(Contents()), id, now)
    {
      var saved := pairings;
      ExpirePairings(now);
      if id !in pairings { pairings := saved; return Err(Missing); }
      if pairings[id].status.Approved? { return Ok(pairings[id]); }
      if !pairings[id].status.Pending? { pairings := saved; return Err(Conflict); }
      pairings := pairings[id := pairings[id].(status := Approved, approvedAt := Some(now))];
      log := log + [Approval(id, now)];
      return Ok(pairings[id]);
    }

    method RejectPairing(id: PairingId, now: Time) returns (r: Result<Pairing, Error>)
      modifies this
      ensures (Contents(), r) == Reject(old(Contents()), id, now)
    {
      var saved := pairings;
      ExpirePairings(now);
      if id !in pairings { pairings := saved; return Err(Missing); }
      if pairings[id].status.Rejected? { return Ok(pairings[id]); }
      if !Active(pairings[id].status) { pairings := saved; return Err(Conflict); }
      pairings := pairings[id := pairings[id].(status := Rejected)];
      return Ok(pairings[id]);
    }

    method PollPairing(id: PairingId, secret: string, drawn: string, now: Time) returns (r: Result<PollResult, Error>)
      modifies this
      ensures (Contents(), r) == Poll(policy, old(Contents()), id, secret, drawn, now)
    {
      var saved := pairings;
      ExpirePairings(now);
      if id !in pairings || pairings[id].secret != secret { pairings := saved; return Err(Missing); }
      var token: Option<string>, tokenExpiresAt: Option<Time> := None, None;
      if pairings[id].status.Approved? {
        token := Some(drawn);
        if policy.credentialTtl.Some? { tokenExpiresAt := Some(now + policy.credentialTtl.value); }
        var device := pairings[id].device;
        credentials := credentials[device := Credential(drawn, now, tokenExpiresAt, None, None)];
        pairings := pairings[id := pairings[id].(status := Consumed, consumedAt := Some(now))];
        log := log + [Issue(id, device, drawn, now, tokenExpiresAt)];
      }
      return Ok(PollResult(pairings[id].status, pairings[id].expiresAt, token, tokenExpiresAt));
    }

    method AuthorizeDevice(device: Device, token: string, now: Time) returns (accepted: bool)
      modifies this`credentials
      ensures Contents() == Authorize(old(Contents()), device, token, now)
      ensures accepted <==> Accepts(old(Contents()), device, token, now)
    {
      if device !in credentials || credentials[device].revokedAt.Some? { return false; }
      var row := credentials[device];
      if row.expiresAt.Some? && row.expiresAt.value <= now { return false; }
      if row.token != token { return false; }
      credentials := credentials[device := row.(lastSeen := Some(now))];
      return true;
    }

    method RevokeDevice(device: Device, now: Time) returns (r: Result<Credential, Error>)
      modifies this
      ensures (Contents(), r) == Revoke(old(Contents()), device, now)
    {
      if device !in credentials { return Err(Missing); }
      if credentials[device].revokedAt.None? {
        credentials := credentials[device := credentials[device].(revokedAt := Some(now))];
        DisablePushToken(device);
        log := log + [Revocation(device, now)];
      }
      return Ok(credentials[device]);
    }

    method DisablePushToken(device: Device)
      modifies this`pushes
      ensures pushes == Disabled(old(pushes), device)
    {
      if device in pushes { pushes := pushes[device := pushes[device].(enabled := false)]; }
    }

    method RegisterPushToken(device: Device, enabled: bool, token: Option<string>, environment: string, now: Time)
      returns (r: Result<Push, Error>)
      modifies this`pushes
      ensures (Contents(), r) == RegisterPush(old(Contents()), device, enabled, token, environment, now)
    {
      if enabled && token.None? { return Err(TokenRequired); }
      if device !in credentials { return Err(Missing); }
      if credentials[device].revokedAt.Some? { return Err(Conflict); }
      var push := Push(StoredToken(token), environment, enabled, now);
      pushes := pushes[device := push];
      return Ok(push);
    }
  }
}

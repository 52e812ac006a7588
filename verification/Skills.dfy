/** Executing skills, proposing gated ones, and resolving the proposals. */
module Skills {
  import opened Wrappers
  import opened Decimal
  import opened Delegations
  import opened CanonicalJson

  datatype Principal = HumanOwner | HumanOperator | AiAgent

  datatype Skill = Skill(title: Text, mutates: bool, gated: bool)

  datatype Proposal = Proposal(skill: Text, title: Text, inputs: Value, proposedAt: nat)

  /** What stays fixed while skills are executed: the contracts and handlers, the seals on grants, and the digests of
      inputs and of proposals, which fail on what cannot be serialized. Times are in microseconds. */
  datatype Broker = Broker(skills: map<Text, Skill>, handlers: set<Text>, seals: Seals,
                           digest: Value -> Option<Text>, hash: Proposal -> Option<Text>)

  datatype Status = Approved | Rejected | Expired

  /** An expired proposal carries no decider. */
  datatype Resolution = Resolution(skill: Text, inputs: Value, status: Status, token: Option<Text>,
                                   resolvedBy: Option<Text>, resolvedAt: Option<nat>)

  datatype Desk = Desk(grants: map<Text, Grant>, pending: map<Text, Proposal>, resolved: map<Text, Resolution>)

  const PROPOSAL_LIFE: nat := 600000000
  const APPROVAL_LIFE: nat := 300000000

  // ---- callers

  /** On other letters Python's upper never yields one of the names compared with here. */
  function Upper(t: Text): (u: Text)
    ensures |u| == |t|
  {
    seq(|t|, i requires 0 <= i < |t| => if 97 <= t[i] <= 122 then t[i] - 32 else t[i])
  }

  function PrincipalOf(caller: Text): Principal {
    var u := Upper(caller);
    if u in {T("HUMAN"), T("OWNER"), T("HUMAN_OWNER")} then HumanOwner
    else if u in {T("OPERATOR"), T("HUMAN_OPERATOR")} then HumanOperator
    else AiAgent
  }

  predicate MayResolve(caller: Text) {
    Upper(caller) in {T("HUMAN"), T("OWNER"), T("HUMAN_OWNER"), T("OPERATOR"), T("HUMAN_OPERATOR")}
  }

  // ---- executing

  datatype Refusal = Replayed | TokenExpired | OutOfScope | InputsChanged | BadInputs

  datatype Authority = Refused(reason: Refusal) | Granted(tier: Tier, spent: bool)

  /** What an AI agent may do on presenting a token; anything unresolved falls back to proposing. */
  function Authorize(b: Broker, d: Desk, skill: Text, inputs: Value, token: Text, now: nat): Authority
  {
    if token == [] || token !in d.grants then Granted(ProposeOnly, false)
    else
      var g := d.grants[token];
      if g.singleUse then
        if g.consumed || g.revoked then Refused(Replayed)
        else if now > g.expiresAt then Refused(TokenExpired)
        else if !IsValidFor(b.seals, g, skill, None, [], now) then Refused(OutOfScope)
        else if g.inputDigest.Some? then
          match b.digest(inputs)
          case None => Refused(BadInputs)
          case Some(h) => if h != g.inputDigest.value then Refused(InputsChanged) else Granted(g.tier, true)
        else Granted(g.tier, true)
      else if !g.revoked && now <= g.expiresAt && IsValidFor(b.seals, g, skill, None, [], now) then Granted(g.tier, false)
      else Granted(ProposeOnly, false)
  }

  datatype Execution = UnknownSkill | Denied(reason: Refusal) | ApprovalRequired(hash: Text) | NoHandler | Dispatched(tier: Tier)

  predicate MayMutate(t: Tier) { t.UserspaceExecute? || t.PrivilegedExecute? || t.FullDelegatedControl? }

  function Propose(b: Broker, d: Desk, skill: Text, inputs: Value, now: nat): (Desk, Execution)
    requires skill in b.skills
  {
    var p := Proposal(skill, b.skills[skill].title, inputs, now);
    match b.hash(p)
    case None => (d, Denied(BadInputs))
    case Some(h) => (d.(pending := d.pending[h := p]), ApprovalRequired(h))
  }

  function Dispatch(b: Broker, skill: Text, tier: Tier): Execution {
    if skill in b.handlers then Dispatched(tier) else NoHandler
  }

  function Executed(b: Broker, d: Desk, skill: Text, inputs: Value, caller: Text, token: Text, sovereign: bool, now: nat): (Desk, Execution)
  {
    if skill !in b.skills then (d, UnknownSkill)
    else match PrincipalOf(caller)
      case HumanOwner => (d, Dispatch(b, skill, FullDelegatedControl))
      case HumanOperator => (d, Dispatch(b, skill, PrivilegedExecute))
      case AiAgent =>
        match Authorize(b, d, skill, inputs, token, now)
        case Refused(reason) => (d, Denied(reason))
        case Granted(tier, spent) =>
          var after := if spent then d.(grants := Consumed(d.grants, token)) else d;
          if b.skills[skill].mutates && b.skills[skill].gated && !MayMutate(tier) && !sovereign
          then Propose(b, after, skill, inputs, now)
          else (after, Dispatch(b, skill, tier))
  }

  // ---- resolving

  datatype Answer = Unauthorized | AlreadyResolved(status: Status) | NotFound | HasExpired | GrantFailed | Settled(r: Resolution)

  /** The grant that an approval mints: single use, one skill, one input digest. */
  function ApprovalGrant(b: Broker, p: Proposal, caller: Text, token: Text, nonce: Text, now: nat): Option<Grant>
  {
    match b.digest(p.inputs)
    case None => None
    case Some(h) =>
      Signed(b.seals, Unsigned(token, T("OPERATOR_APPROVAL_") + Upper(caller), PrivilegedExecute, [p.skill], now + APPROVAL_LIFE,
                               Upper(caller), Some(h), true, nonce))
  }

  function Decided(p: Proposal, status: Status, token: Option<Text>, caller: Text, now: nat): Resolution {
    Resolution(p.skill, p.inputs, status, token, Some(Upper(caller)), Some(now))
  }

  predicate Rejects(action: Text) { Upper(action) == T("REJECT") }

  /** Any action but a rejection approves. */
  function Resolve(b: Broker, d: Desk, hash: Text, action: Text, caller: Text, token: Text, nonce: Text, now: nat): (Desk, Answer)
  {
    if !MayResolve(caller) then (d, Unauthorized)
    else if hash in d.resolved then (d, AlreadyResolved(d.resolved[hash].status))
    else if hash !in d.pending then (d, NotFound)
    else
      var p := d.pending[hash];
      var popped := d.(pending := d.pending - {hash});
      if now > p.proposedAt + PROPOSAL_LIFE then
        (popped.(resolved := d.resolved[hash := Resolution(p.skill, p.inputs, Expired, None, None, None)]), HasExpired)
      else if Rejects(action) then
        var r := Decided(p, Rejected, None, caller, now);
        (popped.(resolved := d.resolved[hash := r]), Settled(r))
      else
        match ApprovalGrant(b, p, caller, token, nonce, now)
        case None => (popped.(resolved := d.resolved[hash := Decided(p, Approved, None, caller, now)]), GrantFailed)
        case Some(g) =>
          var r := Decided(p, Approved, Some(token), caller, now);
          (popped.(grants := d.grants[token := g], resolved := d.resolved[hash := r]), Settled(r))
  }

  // ---- what the checks do not cover

  /** The principals that may decide are exactly those whose executions need no token. */
  lemma HumansDecide(caller: Text)
    ensures MayResolve(caller) <==> !PrincipalOf(caller).AiAgent?
  {
  }

  ghost predicate Gated(b: Broker, skill: Text) {
    skill in b.skills && b.skills[skill].mutates && b.skills[skill].gated
  }

  /** Who is who, in any case; everybody else is an agent. */
  lemma Principals()
    ensures PrincipalOf(T("human")) == PrincipalOf(T("Owner")) == PrincipalOf(T("HUMAN_OWNER")) == HumanOwner
    ensures PrincipalOf(T("operator")) == PrincipalOf(T("Human_Operator")) == HumanOperator
    ensures PrincipalOf(T("AI_AGENT")) == PrincipalOf([]) == AiAgent
  {
    assert Upper(T("human")) == T("HUMAN") && Upper(T("Owner")) == T("OWNER") && Upper(T("HUMAN_OWNER")) == T("HUMAN_OWNER");
    assert Upper(T("operator")) == T("OPERATOR") && Upper(T("Human_Operator")) == T("HUMAN_OPERATOR");
    assert |T("OPERATOR")| == |T("AI_AGENT")| == 8 && |T("HUMAN_OPERATOR")| == 14;
    assert |T("HUMAN")| == |T("OWNER")| == 5 && |T("HUMAN_OWNER")| == 11;
    assert Upper(T("AI_AGENT"))[1] == 'I' as int && T("OPERATOR")[1] == 'P' as int;
  }

  /** The owner has full control and the operator may do what is privileged, without tokens; an agent without a token may
      do whatever is not a gated mutation. */
  lemma TiersWithoutToken(b: Broker, d: Desk, skill: Text, inputs: Value, caller: Text, sovereign: bool, now: nat)
    requires skill in b.skills && skill in b.handlers
    ensures var r := Executed(b, d, skill, inputs, caller, [], sovereign, now).1;
            match PrincipalOf(caller)
            case HumanOwner => r == Dispatched(FullDelegatedControl)
            case HumanOperator => r == Dispatched(PrivilegedExecute)
            case AiAgent => !(b.skills[skill].mutates && b.skills[skill].gated) ==> r == Dispatched(ProposeOnly)
  {
  }

  /** The tiers that may mutate. */
  lemma MutatingTiers(t: Tier)
    ensures MayMutate(t) <==> t != ObserveOnly && t != ProposeOnly
  {
  }

  /** Without a token an agent gets a gated mutation dispatched if and only if it sets the override. */
  lemma OverrideNeedsNoToken(b: Broker, d: Desk, skill: Text, inputs: Value, caller: Text, sovereign: bool, now: nat)
    requires Gated(b, skill) && skill in b.handlers && PrincipalOf(caller).AiAgent?
    ensures Executed(b, d, skill, inputs, caller, [], sovereign, now).1 == Dispatched(ProposeOnly) <==> sovereign
    ensures Executed(b, d, skill, inputs, caller, [], sovereign, now).1.Dispatched? <==> sovereign
  {
  }

  /** Inputs with another digest than the grant's are refused if and only if the grant is for a single use. */
  lemma DigestBindsSingleUse(b: Broker, d: Desk, skill: Text, inputs: Value, token: Text, now: nat)
    requires token != [] && token in d.grants && IsValidFor(b.seals, d.grants[token], skill, None, [], now)
    requires d.grants[token].inputDigest.Some? && b.digest(inputs).Some? && b.digest(inputs) != d.grants[token].inputDigest
    ensures Authorize(b, d, skill, inputs, token, now)
            == if d.grants[token].singleUse then Refused(InputsChanged) else Granted(d.grants[token].tier, false)
  {
  }

  class SkillDispatcher {
    const broker: Broker
    const delegations: DelegationRegistry
    var pending: map<Text, Proposal>
    var resolved: map<Text, Resolution>

    ghost predicate Valid()
      reads this
    {
      delegations.seals == broker.seals
    }

    function View(): Desk
      reads this, delegations
    {
      Desk(delegations.grants, pending, resolved)
    }

    constructor (broker: Broker, delegations: DelegationRegistry)
      requires delegations.seals == broker.seals
      ensures Valid() && this.broker == broker && this.delegations == delegations && pending == map[] && resolved == map[]
    {
      this.broker, this.delegations, pending, resolved := broker, delegations, map[], map[];
    }

    method GenerateProposal(skill: Text, inputs: Value, now: nat) returns (r: Execution)
      requires Valid() && skill in broker.skills
      modifies this
      ensures Valid() && (View(), r) == Propose(broker, old(View()), skill, inputs, now)
    {
      var p := Proposal(skill, broker.skills[skill].title, inputs, now);
      var hash := broker.hash(p);
      if hash.None? { return Denied(BadInputs); }
      pending := pending[hash.value := p];
      return ApprovalRequired(hash.value);
    }

    method Execute(skill: Text, inputs: Value, caller: Text, token: Text, sovereign: bool, now: nat) returns (r: Execution)
      requires Valid()
      modifies this, delegations
      ensures Valid() && (View(), r) == Executed(broker, old(View()), skill, inputs, caller, token, sovereign, now)
    {
      if skill !in broker.skills { return UnknownSkill; }
      var tier: Tier;
      match PrincipalOf(caller) {
        case HumanOwner => tier := FullDelegatedControl;
        case HumanOperator => tier := PrivilegedExecute;
        case AiAgent =>
          var authority := Authorize(broker, View(), skill, inputs, token, now);
          if authority.Refused? { return Denied(authority.reason); }
          tier := authority.tier;
          if authority.spent { var _ := delegations.Consume(token); }
          if broker.skills[skill].mutates && broker.skills[skill].gated && !MayMutate(tier) && !sovereign {
            r := GenerateProposal(skill, inputs, now);
            return;
          }
      }
      r := if skill in broker.handlers then Dispatched(tier) else NoHandler;
    }

    /** The execution token of an approved proposal. */
    method Approve(p: Proposal, caller: Text, token: Text, nonce: Text, now: nat) returns (g: Option<Grant>)
      requires Valid()
      modifies delegations
      ensures g == ApprovalGrant(broker, p, caller, token, nonce, now)
      ensures delegations.grants == if g.Some? then old(delegations.grants)[token := g.value] else old(delegations.grants)
    {
      var digest := broker.digest(p.inputs);
      if digest.None? { return None; }
      g := delegations.Issue(token, T("OPERATOR_APPROVAL_") + Upper(caller), PrivilegedExecute, [p.skill], now + APPROVAL_LIFE,
                             Upper(caller), Some(digest.value), true, nonce);
    }

    method ResolveProposal(hash: Text, action: Text, caller: Text, token: Text, nonce: Text, now: nat) returns (r: Answer)
      requires Valid()
      modifies this, delegations
      ensures Valid() && (View(), r) == Resolve(broker, old(View()), hash, action, caller, token, nonce, now)
    {
      if !MayResolve(caller) { return Unauthorized; }
      if hash in resolved { return AlreadyResolved(resolved[hash].status); }
      if hash !in pending { return NotFound; }
      var p := pending[hash];
      pending := pending - {hash};
      if now > p.proposedAt + PROPOSAL_LIFE {
        resolved := resolved[hash := Resolution(p.skill, p.inputs, Expired, None, None, None)];
        return HasExpired;
      }
      if Rejects(action) {
        var record := Decided(p, Rejected, None, caller, now);
        resolved := resolved[hash := record];
        return Settled(record);
      }
      resolved := resolved[hash := Decided(p, Approved, None, caller, now)];
      var g := Approve(p, caller, token, nonce, now);
      if g.None? { return GrantFailed; }
      var record := Decided(p, Approved, Some(token), caller, now);
      assert resolved[hash := record] == old(resolved)[hash := record];
      resolved := resolved[hash := resolved[hash].(token := Some(token))];
      return Settled(record);
    }
  }
}

/** Whole runs of executing, granting, revoking and resolving. */
module SkillRuns {
  import opened Wrappers
  import opened Decimal
  import opened Delegations
  import opened CanonicalJson
  import opened Skills

  datatype Event =
    | Execute(skill: Text, inputs: Value, caller: Text, token: Text, sovereign: bool, now: nat)
    | Decide(hash: Text, action: Text, caller: Text, token: Text, nonce: Text, now: nat)
    | Issue(token: Text, principal: Text, tier: Tier, scope: seq<Text>, expiresAt: nat, grantedBy: Text,
            inputDigest: Option<Text>, singleUse: bool, nonce: Text)
    | Revoke(token: Text)

  /** A token that is minted is new, and not empty. */
  ghost predicate Possible(d: Desk, e: Event) {
    match e
    case Execute(_, _, _, _, _, _) => true
    case Decide(_, _, _, token, _, _) => token != [] && token !in d.grants
    case Issue(token, _, _, _, _, _, _, _, _) => token != [] && token !in d.grants
    case Revoke(_) => true
  }

  ghost function Next(b: Broker, d: Desk, e: Event): Desk
    requires Possible(d, e)
  {
    match e
    case Execute(skill, inputs, caller, token, sovereign, now) => Executed(b, d, skill, inputs, caller, token, sovereign, now).0
    case Decide(hash, action, caller, token, nonce, now) => Resolve(b, d, hash, action, caller, token, nonce, now).0
    case Issue(token, principal, tier, scope, expiresAt, grantedBy, inputDigest, singleUse, nonce) =>
      var g := Signed(b.seals, Unsigned(token, principal, tier, scope, expiresAt, grantedBy, inputDigest, singleUse, nonce));
      if g.Some? then d.(grants := d.grants[token := g.value]) else d
    case Revoke(token) => d.(grants := Revoked(d.grants, token))
  }

  /** The state after a run, if every event was possible in its turn. */
  ghost function After(b: Broker, events: seq<Event>): Option<Desk>
  {
    if events == [] then Some(Desk(map[], map[], map[]))
    else
      match After(b, events[..|events| - 1])
      case None => None
      case Some(d) => if Possible(d, events[|events| - 1]) then Some(Next(b, d, events[|events| - 1])) else None
  }

  // ---- what one step keeps

  /** Resolutions stay as they are, tokens stay bound, and what is spent or revoked stays so. */
  ghost predicate Grows(d: Desk, e: Desk) {
    && (forall h :: h in d.resolved ==> h in e.resolved && e.resolved[h] == d.resolved[h])
    && (forall h :: h in d.pending ==> h in e.pending || h in e.resolved)
    && (forall t :: t in d.grants ==> t in e.grants && OnlySpent(d.grants[t], e.grants[t]))
  }

  ghost predicate OnlySpent(g: Grant, h: Grant) {
    && h == g.(revoked := h.revoked, consumed := h.consumed)
    && (g.revoked ==> h.revoked) && (g.consumed ==> h.consumed)
  }

  lemma ConsumedGrows(d: Desk, token: Text)
    ensures Grows(d, d.(grants := Consumed(d.grants, token)))
  {
  }

  lemma ProposeGrows(b: Broker, d: Desk, skill: Text, inputs: Value, now: nat)
    requires skill in b.skills
    ensures Grows(d, Propose(b, d, skill, inputs, now).0) && Propose(b, d, skill, inputs, now).0.resolved == d.resolved
  {
  }

  /** The two things an execution can do to the desk: spend the token, and file a proposal. */
  ghost predicate Effect(b: Broker, d: Desk, skill: Text, inputs: Value, token: Text, now: nat, e: Desk) {
    var spent := d.(grants := Consumed(d.grants, token));
    e == d || e == spent || (skill in b.skills && (e == Propose(b, d, skill, inputs, now).0 || e == Propose(b, spent, skill, inputs, now).0))
  }

  lemma ExecutedEffect(b: Broker, d: Desk, skill: Text, inputs: Value, caller: Text, token: Text, sovereign: bool, now: nat)
    ensures Effect(b, d, skill, inputs, token, now, Executed(b, d, skill, inputs, caller, token, sovereign, now).0)
  {
  }

  lemma ExecutedGrows(b: Broker, d: Desk, skill: Text, inputs: Value, caller: Text, token: Text, sovereign: bool, now: nat)
    ensures Grows(d, Executed(b, d, skill, inputs, caller, token, sovereign, now).0)
    ensures Executed(b, d, skill, inputs, caller, token, sovereign, now).0.resolved == d.resolved
  {
    ExecutedEffect(b, d, skill, inputs, caller, token, sovereign, now);
    ConsumedGrows(d, token);
    var spent := d.(grants := Consumed(d.grants, token));
    if skill in b.skills {
      ProposeGrows(b, d, skill, inputs, now);
      ProposeGrows(b, spent, skill, inputs, now);
      GrowsTrans(d, spent, Propose(b, spent, skill, inputs, now).0);
    }
  }

  /** A decision either leaves both books alone or moves its hash from the one to the other. */
  ghost predicate Moves(d: Desk, hash: Text, token: Text, e: Desk) {
    && (e.grants == d.grants || (token in e.grants && e.grants == d.grants[token := e.grants[token]]))
    && ((e.pending == d.pending && e.resolved == d.resolved)
        || (hash in d.pending && hash !in d.resolved && e.pending == d.pending - {hash}
            && hash in e.resolved && e.resolved == d.resolved[hash := e.resolved[hash]]))
  }

  lemma ResolveMoves(b: Broker, d: Desk, hash: Text, action: Text, caller: Text, token: Text, nonce: Text, now: nat)
    ensures Moves(d, hash, token, Resolve(b, d, hash, action, caller, token, nonce, now).0)
  {
  }

  lemma MovesGrows(d: Desk, hash: Text, token: Text, e: Desk)
    requires Moves(d, hash, token, e) && token !in d.grants
    ensures Grows(d, e)
  {
  }

  lemma ResolveGrows(b: Broker, d: Desk, hash: Text, action: Text, caller: Text, token: Text, nonce: Text, now: nat)
    requires token !in d.grants
    ensures Grows(d, Resolve(b, d, hash, action, caller, token, nonce, now).0)
  {
    ResolveMoves(b, d, hash, action, caller, token, nonce, now);
    MovesGrows(d, hash, token, Resolve(b, d, hash, action, caller, token, nonce, now).0);
  }

  lemma NextGrows(b: Broker, d: Desk, e: Event)
    requires Possible(d, e)
    ensures Grows(d, Next(b, d, e))
  {
    match e
    case Execute(skill, inputs, caller, token, sovereign, now) => ExecutedGrows(b, d, skill, inputs, caller, token, sovereign, now);
    case Decide(hash, action, caller, token, nonce, now) => ResolveGrows(b, d, hash, action, caller, token, nonce, now);
    case Issue(_, _, _, _, _, _, _, _, _) =>
    case Revoke(_) =>
  }

  lemma GrowsTrans(d: Desk, e: Desk, f: Desk)
    requires Grows(d, e) && Grows(e, f)
    ensures Grows(d, f)
  {
  }

  lemma {:induction false} RunGrows(b: Broker, events: seq<Event>, i: nat)
    requires i <= |events| && After(b, events).Some?
    ensures After(b, events[..i]).Some? && Grows(After(b, events[..i]).value, After(b, events).value)
  {
    if i == |events| {
      assert events[..i] == events;
    } else {
      var front := events[..|events| - 1];
      RunGrows(b, front, i);
      assert front[..i] == events[..i];
      NextGrows(b, After(b, front).value, events[|events| - 1]);
      GrowsTrans(After(b, front[..i]).value, After(b, front).value, After(b, events).value);
    }
  }

  lemma RunSplits(b: Broker, events: seq<Event>, i: nat)
    requires i < |events| && After(b, events).Some?
    ensures After(b, events[..i]).Some? && Possible(After(b, events[..i]).value, events[i])
    ensures After(b, events[..i + 1]) == Some(Next(b, After(b, events[..i]).value, events[i]))
  {
    RunGrows(b, events, i + 1);
    assert events[..i + 1][..i] == events[..i];
  }

  // ---- a proposal is resolved at most once

  ghost predicate Answers(b: Broker, d: Desk, e: Event)
  {
    e.Decide? && var a := Resolve(b, d, e.hash, e.action, e.caller, e.token, e.nonce, e.now).1;
                 a.Settled? || a.HasExpired? || a.GrantFailed?
  }

  lemma AnsweringResolves(b: Broker, d: Desk, e: Event)
    requires Possible(d, e) && Answers(b, d, e)
    ensures e.hash !in d.resolved && e.hash in Next(b, d, e).resolved
  {
  }

  /** Of two decisions on one hash, at most one takes effect. */
  lemma ResolvedOnce(b: Broker, events: seq<Event>, i: nat, j: nat)
    requires After(b, events).Some? && i < j < |events|
    requires events[i].Decide? && events[j].Decide? && events[i].hash == events[j].hash
    ensures After(b, events[..i]).Some? && After(b, events[..j]).Some?
    ensures !(Answers(b, After(b, events[..i]).value, events[i]) && Answers(b, After(b, events[..j]).value, events[j]))
  {
    RunSplits(b, events, i);
    RunSplits(b, events, j);
    RunGrows(b, events[..j], i + 1);
    assert events[..j][..i + 1] == events[..i + 1];
    if Answers(b, After(b, events[..i]).value, events[i]) {
      AnsweringResolves(b, After(b, events[..i]).value, events[i]);
    }
    if Answers(b, After(b, events[..j]).value, events[j]) {
      AnsweringResolves(b, After(b, events[..j]).value, events[j]);
    }
  }

  // ---- a single-use token serves at most one agent

  /** This event is an agent's execution that its token, a single-use grant, authorized. */
  ghost predicate Serves(b: Broker, d: Desk, e: Event, token: Text)
  {
    && e.Execute? && PrincipalOf(e.caller).AiAgent? && token != [] && e.token == token && e.skill in b.skills
    && token in d.grants && d.grants[token].singleUse
    && Authorize(b, d, e.skill, e.inputs, token, e.now).Granted?
  }

  lemma ServingSpends(b: Broker, d: Desk, e: Event, token: Text)
    requires Possible(d, e) && Serves(b, d, e, token)
    ensures token in Next(b, d, e).grants && Next(b, d, e).grants[token].consumed
  {
  }

  lemma ServesOnce(b: Broker, events: seq<Event>, i: nat, j: nat, token: Text)
    requires After(b, events).Some? && i < j < |events|
    ensures After(b, events[..i]).Some? && After(b, events[..j]).Some?
    ensures !(Serves(b, After(b, events[..i]).value, events[i], token) && Serves(b, After(b, events[..j]).value, events[j], token))
  {
    RunSplits(b, events, i);
    RunSplits(b, events, j);
    RunGrows(b, events[..j], i + 1);
    assert events[..j][..i + 1] == events[..i + 1];
    if Serves(b, After(b, events[..i]).value, events[i], token) {
      ServingSpends(b, After(b, events[..i]).value, events[i], token);
    }
  }
}

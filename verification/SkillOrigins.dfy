/** Where the proposals, decisions and grants of a run come from, and what becomes of them. */
module SkillOrigins {
  import opened Wrappers
  import opened Decimal
  import opened Delegations
  import opened CanonicalJson
  import opened Skills
  import opened SkillRuns

  // ---- the events of a run

  /** The state in which event i happens. */
  ghost function Before(b: Broker, events: seq<Event>, i: nat): (d: Desk)
    requires i <= |events| && After(b, events).Some?
  {
    RunGrows(b, events, i);
    After(b, events[..i]).value
  }

  lemma BeforeFront(b: Broker, events: seq<Event>, i: nat)
    requires After(b, events).Some? && i < |events|
    ensures After(b, events[..|events| - 1]).Some?
    ensures Before(b, events[..|events| - 1], i) == Before(b, events, i)
  {
    assert events[..|events| - 1][..i] == events[..i];
  }

  lemma BeforeLast(b: Broker, events: seq<Event>)
    requires After(b, events).Some? && events != []
    ensures var d, e := Before(b, events, |events| - 1), events[|events| - 1];
            Possible(d, e) && After(b, events).value == Next(b, d, e)
  {
  }

  function Reply(b: Broker, d: Desk, e: Event): Execution
    requires e.Execute?
  {
    Executed(b, d, e.skill, e.inputs, e.caller, e.token, e.sovereign, e.now).1
  }

  /** The proposal that an execution files, if it files one. */
  function ProposalOf(b: Broker, e: Event): Proposal
    requires e.Execute? && e.skill in b.skills
  {
    Proposal(e.skill, b.skills[e.skill].title, e.inputs, e.now)
  }

  ghost predicate Files(b: Broker, d: Desk, e: Event, h: Text) {
    e.Execute? && Reply(b, d, e) == ApprovalRequired(h)
  }

  /** The grant that an event adds to the registry, under its token. */
  function Mints(b: Broker, d: Desk, e: Event): Option<Grant> {
    match e
    case Decide(hash, action, caller, token, nonce, now) =>
      var a := Resolve(b, d, hash, action, caller, token, nonce, now).1;
      if a.Settled? && a.r.token.Some? then ApprovalGrant(b, d.pending[hash], caller, token, nonce, now) else None
    case Issue(token, principal, tier, scope, expiresAt, grantedBy, inputDigest, singleUse, nonce) =>
      Signed(b.seals, Unsigned(token, principal, tier, scope, expiresAt, grantedBy, inputDigest, singleUse, nonce))
    case _ => None
  }

  ghost predicate Spends(b: Broker, d: Desk, e: Event, token: Text) {
    (e.Revoke? && e.token == token) || Serves(b, d, e, token)
  }

  // ---- what one event does to the three books

  lemma PendingAfter(b: Broker, d: Desk, e: Event)
    requires Possible(d, e)
    ensures forall h :: Files(b, d, e, h) ==>
              e.skill in b.skills && b.hash(ProposalOf(b, e)) == Some(h) && Next(b, d, e).pending == d.pending[h := ProposalOf(b, e)]
    ensures forall h :: h in Next(b, d, e).pending ==>
              (Files(b, d, e, h) || (h in d.pending && Next(b, d, e).pending[h] == d.pending[h]))
  {
    if e.Execute? { FiledOrNot(b, d, e); }
  }

  lemma FiledOrNot(b: Broker, d: Desk, e: Event)
    requires e.Execute?
    ensures if Reply(b, d, e).ApprovalRequired?
            then e.skill in b.skills && b.hash(ProposalOf(b, e)) == Some(Reply(b, d, e).hash)
                 && Next(b, d, e).pending == d.pending[Reply(b, d, e).hash := ProposalOf(b, e)]
            else Next(b, d, e).pending == d.pending
  {
  }

  lemma ResolvedAfter(b: Broker, d: Desk, e: Event)
    requires Possible(d, e)
    ensures forall h :: h in Next(b, d, e).resolved && h !in d.resolved ==>
              e.Decide? && e.hash == h && h in d.pending && MayResolve(e.caller)
              && Next(b, d, e).resolved[h].skill == d.pending[h].skill && Next(b, d, e).resolved[h].inputs == d.pending[h].inputs
  {
    if e.Execute? { ExecutedGrows(b, d, e.skill, e.inputs, e.caller, e.token, e.sovereign, e.now); }
  }

  lemma ExecutedGrants(b: Broker, d: Desk, e: Event)
    requires e.Execute?
    ensures Next(b, d, e).grants == if Serves(b, d, e, e.token) then Consumed(d.grants, e.token) else d.grants
  {
  }

  lemma DecidedGrants(b: Broker, d: Desk, e: Event)
    requires e.Decide? && Possible(d, e)
    ensures Next(b, d, e).grants == if Mints(b, d, e).Some? then d.grants[e.token := Mints(b, d, e).value] else d.grants
  {
  }

  lemma GrantsAfter(b: Broker, d: Desk, e: Event)
    requires Possible(d, e)
    ensures Next(b, d, e).grants ==
            if e.Execute? then (if Serves(b, d, e, e.token) then Consumed(d.grants, e.token) else d.grants)
            else if e.Revoke? then Revoked(d.grants, e.token)
            else if Mints(b, d, e).Some? then d.grants[e.token := Mints(b, d, e).value]
            else d.grants
  {
    if e.Execute? { ExecutedGrants(b, d, e); } else if e.Decide? { DecidedGrants(b, d, e); }
  }

  // ---- provenance

  ghost predicate FiledAt(b: Broker, events: seq<Event>, i: nat, h: Text)
    requires After(b, events).Some?
  {
    i < |events| && Files(b, Before(b, events, i), events[i], h)
  }

  lemma FilingHash(b: Broker, events: seq<Event>, i: nat, h: Text)
    requires After(b, events).Some? && FiledAt(b, events, i, h)
    ensures events[i].Execute? && events[i].skill in b.skills && b.hash(ProposalOf(b, events[i])) == Some(h)
  {
    FiledOrNot(b, Before(b, events, i), events[i]);
  }

  /** Whatever is pending was filed in the run. */
  lemma {:induction false} PendingWasFiled(b: Broker, events: seq<Event>, h: Text) returns (i: nat)
    requires After(b, events).Some? && h in After(b, events).value.pending
    ensures FiledAt(b, events, i, h) && events[i].skill in b.skills && After(b, events).value.pending[h] == ProposalOf(b, events[i])
  {
    var n := |events| - 1;
    BeforeLast(b, events);
    var d, e := Before(b, events, n), events[n];
    PendingAfter(b, d, e);
    if Files(b, d, e, h) {
      i := n;
    } else {
      i := PendingWasFiled(b, events[..n], h);
      BeforeFront(b, events, i);
    }
  }

  /** Whatever is resolved was filed in the run and decided by a caller who may. */
  lemma {:induction false} ResolvedWasFiled(b: Broker, events: seq<Event>, h: Text) returns (i: nat, j: nat)
    requires After(b, events).Some? && h in After(b, events).value.resolved
    ensures i < j < |events| && FiledAt(b, events, i, h)
    ensures events[j].Decide? && events[j].hash == h && MayResolve(events[j].caller)
    ensures After(b, events).value.resolved[h].skill == events[i].skill && After(b, events).value.resolved[h].inputs == events[i].inputs
  {
    var n := |events| - 1;
    BeforeLast(b, events);
    var d, e := Before(b, events, n), events[n];
    if h in d.resolved {
      i, j := ResolvedWasFiled(b, events[..n], h);
      NextGrows(b, d, e);
    } else {
      ResolvedAfter(b, d, e);
      i := PendingWasFiled(b, events[..n], h);
      j := n;
    }
    BeforeFront(b, events, i);
  }

  ghost predicate MintedAt(b: Broker, events: seq<Event>, i: nat, g: Grant, token: Text)
    requires After(b, events).Some?
  {
    i < |events| && (events[i].Decide? || events[i].Issue?) && events[i].token == token
    && Mints(b, Before(b, events, i), events[i]) == Some(g)
  }

  /** Every grant in the registry was issued in the run, or minted by an approval. */
  lemma {:induction false} GrantWasMinted(b: Broker, events: seq<Event>, token: Text) returns (i: nat, g: Grant)
    requires After(b, events).Some? && token in After(b, events).value.grants
    ensures MintedAt(b, events, i, g, token) && OnlySpent(g, After(b, events).value.grants[token])
  {
    var n := |events| - 1;
    BeforeLast(b, events);
    var d, e := Before(b, events, n), events[n];
    GrantsAfter(b, d, e);
    if token in d.grants {
      i, g := GrantWasMinted(b, events[..n], token);
      BeforeFront(b, events, i);
      NextGrows(b, d, e);
    } else {
      i, g := n, Mints(b, d, e).value;
    }
  }

  /** A gated mutation that an agent gets dispatched without the override goes back to a grant of a mutating tier whose
      scope admits the skill, issued by the registry or minted when a caller who may decide approved a proposal. The grant
      has not expired, nobody has revoked it in between, its signature, if it has one, holds, and the dispatch has its tier. */
  lemma MutationGoesBack(b: Broker, events: seq<Event>, k: nat) returns (i: nat, g: Grant)
    requires After(b, events).Some? && k < |events| && events[k].Execute? && !events[k].sovereign
    requires Gated(b, events[k].skill) && PrincipalOf(events[k].caller).AiAgent? && Reply(b, Before(b, events, k), events[k]).Dispatched?
    ensures i < k && MintedAt(b, events, i, g, events[k].token) && MayMutate(g.tier) && InScope(g.scope, events[k].skill)
    ensures events[i].Issue? || (events[i].Decide? && MayResolve(events[i].caller) && events[i].hash in Before(b, events, i).pending)
    ensures events[k].now <= g.expiresAt && Reply(b, Before(b, events, k), events[k]) == Dispatched(g.tier)
    ensures forall m :: i < m < k && events[m].Revoke? ==> events[m].token != events[k].token
    ensures events[k].token in Before(b, events, k).grants && Sealed(b, Before(b, events, k).grants[events[k].token])
  {
    Prefix(b, events, k, k);
    var d, e := Before(b, events, k), events[k];
    DispatchedByGrant(b, d, e);
    i, g := GrantWasMinted(b, events[..k], e.token);
    Prefix(b, events, k, i);
    forall m | i < m < k && events[m].Revoke? ensures events[m].token != e.token {
      if events[m].token == e.token { RevokedStays(b, events, i, m, k, g); }
    }
  }

  ghost predicate Sealed(b: Broker, g: Grant) {
    g.signature != [] && g.issuer != [] ==> b.seals.intact(g, g.signature)
  }

  lemma DispatchedByGrant(b: Broker, d: Desk, e: Event)
    requires e.Execute? && !e.sovereign && Gated(b, e.skill) && PrincipalOf(e.caller).AiAgent? && Reply(b, d, e).Dispatched?
    ensures e.token in d.grants
    ensures var g := d.grants[e.token];
            && MayMutate(g.tier) && InScope(g.scope, e.skill) && !g.revoked && e.now <= g.expiresAt && Sealed(b, g)
            && Reply(b, d, e) == Dispatched(g.tier)
  {
  }

  lemma MintedStays(b: Broker, events: seq<Event>, i: nat, m: nat, g: Grant, token: Text)
    requires After(b, events).Some? && i < m <= |events| && MintedAt(b, events, i, g, token)
    ensures token in Before(b, events, m).grants
  {
    RunSplits(b, events, i);
    GrantsAfter(b, Before(b, events, i), events[i]);
    Prefix(b, events, m, i + 1);
    RunGrows(b, events[..m], i + 1);
  }

  lemma StaysRevoked(b: Broker, events: seq<Event>, m: nat, k: nat, token: Text)
    requires After(b, events).Some? && m <= k <= |events|
    requires token in Before(b, events, m).grants && Before(b, events, m).grants[token].revoked
    ensures token in Before(b, events, k).grants && Before(b, events, k).grants[token].revoked
  {
    Prefix(b, events, k, m);
    RunGrows(b, events[..k], m);
  }

  lemma RevokedStays(b: Broker, events: seq<Event>, i: nat, m: nat, k: nat, g: Grant)
    requires After(b, events).Some? && i < m < k < |events| && MintedAt(b, events, i, g, events[m].token) && events[m].Revoke?
    ensures events[m].token in Before(b, events, k).grants && Before(b, events, k).grants[events[m].token].revoked
  {
    MintedStays(b, events, i, m, g, events[m].token);
    RunSplits(b, events, m);
    GrantsAfter(b, Before(b, events, m), events[m]);
    StaysRevoked(b, events, m + 1, k, events[m].token);
  }

  lemma Prefix(b: Broker, events: seq<Event>, k: nat, i: nat)
    requires After(b, events).Some? && i <= k <= |events|
    ensures After(b, events[..k]).Some? && Before(b, events[..k], i) == Before(b, events, i)
  {
    RunGrows(b, events, k);
    assert events[..k][..i] == events[..i];
  }

  // ---- a proposal hash is pending or resolved, never both

  ghost predicate RefiledAt(b: Broker, events: seq<Event>, m: nat, h: Text)
    requires After(b, events).Some?
  {
    FiledAt(b, events, m, h) && h in Before(b, events, m).resolved
  }

  lemma StepBooks(b: Broker, d: Desk, e: Event, h: Text)
    requires Possible(d, e)
    ensures var n := Next(b, d, e);
            (h in n.pending && h in n.resolved) <==> ((h in d.pending && h in d.resolved) || (Files(b, d, e, h) && h in d.resolved))
  {
    PendingAfter(b, d, e);
    ResolvedAfter(b, d, e);
    NextGrows(b, d, e);
    if e.Decide? { ResolveMoves(b, d, e.hash, e.action, e.caller, e.token, e.nonce, e.now); }
    if e.Execute? { FiledOrNot(b, d, e); }
  }

  /** A hash ends in both books if and only if it was filed again after it had been resolved. */
  lemma {:induction false} BothBooks(b: Broker, events: seq<Event>, h: Text)
    requires After(b, events).Some?
    ensures (h in After(b, events).value.pending && h in After(b, events).value.resolved)
            <==> exists m :: 0 <= m < |events| && RefiledAt(b, events, m, h)
  {
    if events != [] {
      var n := |events| - 1;
      BeforeLast(b, events);
      BeforeFront(b, events, n);
      BothBooks(b, events[..n], h);
      StepBooks(b, Before(b, events, n), events[n], h);
      forall m | 0 <= m < n ensures RefiledAt(b, events, m, h) <==> RefiledAt(b, events[..n], m, h) { BeforeFront(b, events, m); }
      if m :| 0 <= m < n && RefiledAt(b, events[..n], m, h) { assert RefiledAt(b, events, m, h); }
      assert RefiledAt(b, events, n, h) <==> (Files(b, Before(b, events, n), events[n], h) && h in Before(b, events, n).resolved);
    }
  }

  /** A proposal filed during a run is at its end in exactly one book, unless it was filed again after its resolution. */
  lemma FiledOnceBooked(b: Broker, events: seq<Event>, i: nat, h: Text)
    requires After(b, events).Some? && FiledAt(b, events, i, h)
    ensures (h in After(b, events).value.pending) != (h in After(b, events).value.resolved)
            <==> !exists m :: 0 <= m < |events| && RefiledAt(b, events, m, h)
  {
    BothBooks(b, events, h);
    RunSplits(b, events, i);
    FiledOrNot(b, Before(b, events, i), events[i]);
    RunGrows(b, events, i + 1);
  }

  /** Equal hashes come only from proposals of one skill and one time, on inputs of one digest. */
  ghost predicate HashBinds(b: Broker) {
    forall p, q :: b.hash(p).Some? && b.hash(p) == b.hash(q) ==>
      p.proposedAt == q.proposedAt && p.skill == q.skill && b.digest(p.inputs).Some? && b.digest(p.inputs) == b.digest(q.inputs)
  }

  /** Filing again takes a second proposal at the very time of the first. */
  lemma RefiledAtOneTime(b: Broker, events: seq<Event>, m: nat, h: Text) returns (i: nat)
    requires HashBinds(b) && After(b, events).Some? && RefiledAt(b, events, m, h)
    ensures i < m && FiledAt(b, events, i, h) && events[i].now == events[m].now
    ensures events[i].skill == events[m].skill && b.digest(events[i].inputs) == b.digest(events[m].inputs)
  {
    Prefix(b, events, m, m);
    var j;
    i, j := ResolvedWasFiled(b, events[..m], h);
    Prefix(b, events, m, i);
    FilingHash(b, events, i, h);
    FilingHash(b, events, m, h);
  }

  /** And it happens: proposed, rejected and proposed again at one reading of the clock, a hash is in both books. */
  lemma RefiledRun(b: Broker, skill: Text, inputs: Value, now: nat, h: Text) returns (events: seq<Event>)
    requires Gated(b, skill) && b.hash(Proposal(skill, b.skills[skill].title, inputs, now)) == Some(h)
    ensures After(b, events).Some? && h in After(b, events).value.pending && h in After(b, events).value.resolved
  {
    var ask := Execute(skill, inputs, T("AGENT"), [], false, now);
    var reject := Decide(h, T("REJECT"), T("OWNER"), T("x"), [], now);
    var d0 := Desk(map[], map[], map[]);
    AgentProposes(b, d0, ask, h);
    var d1 := Next(b, d0, ask);
    OwnerRejects(b, d1, reject);
    var d2 := Next(b, d1, reject);
    AgentProposes(b, d2, ask, h);
    events := [ask, reject, ask];
    assert events[..2] == [ask, reject] && [ask, reject][..1] == [ask] && [ask][..0] == [];
    assert After(b, []) == Some(d0);
    assert After(b, [ask]) == Some(d1);
    assert After(b, [ask, reject]) == Some(d2);
  }

  lemma AgentProposes(b: Broker, d: Desk, e: Event, h: Text)
    requires e.Execute? && Gated(b, e.skill) && e.caller == T("AGENT") && e.token == [] && !e.sovereign
    requires b.hash(ProposalOf(b, e)) == Some(h)
    ensures Next(b, d, e) == d.(pending := d.pending[h := ProposalOf(b, e)])
  {
    assert |T("AGENT")| == |T("HUMAN")| == |T("OWNER")| == 5;
    assert Upper(e.caller)[0] == 65 && T("HUMAN")[0] == 72 && T("OWNER")[0] == 79;
    assert |T("HUMAN_OWNER")| == 11 && |T("OPERATOR")| == 8 && |T("HUMAN_OPERATOR")| == 14;
  }

  lemma OwnerRejects(b: Broker, d: Desk, e: Event)
    requires e.Decide? && e.action == T("REJECT") && e.caller == T("OWNER") && Possible(d, e)
    requires e.hash in d.pending && e.hash !in d.resolved && d.pending[e.hash].proposedAt == e.now
    ensures Next(b, d, e).pending == d.pending - {e.hash} && Next(b, d, e).grants == d.grants
    ensures e.hash in Next(b, d, e).resolved
  {
    assert Upper(T("REJECT")) == T("REJECT") && Upper(T("OWNER")) == T("OWNER");
  }

  // ---- what an approval token carries

  ghost predicate ApprovedAt(b: Broker, events: seq<Event>, j: nat, h: Text)
    requires After(b, events).Some?
  {
    j < |events| && events[j].Decide? && events[j].hash == h && Mints(b, Before(b, events, j), events[j]).Some?
  }

  /** The terms of the grant that an approval mints. */
  lemma ApprovalTerms(b: Broker, d: Desk, e: Event)
    requires e.Decide? && Mints(b, d, e).Some?
    ensures e.hash in d.pending && MayResolve(e.caller) && !Rejects(e.action) && e.now <= d.pending[e.hash].proposedAt + 600000000
    ensures var g, p := Mints(b, d, e).value, d.pending[e.hash];
            && g.singleUse && g.scope == [p.skill] && g.tier == PrivilegedExecute && g.expiresAt == e.now + 300000000
            && g.inputDigest.Some? && g.inputDigest == b.digest(p.inputs) && !g.revoked && !g.consumed
  {
  }

  /** No wildcard in the name: the one pattern it makes admits only itself. */
  predicate PlainName(skill: Text) { skill != T("*") && !Wild(skill) }

  lemma PlainScope(skill: Text, other: Text)
    requires PlainName(skill) && InScope([skill], other)
    ensures other == skill
  {
  }

  /** The grant under a token, from the approval that minted it up to event k. */
  lemma ApprovalStands(b: Broker, events: seq<Event>, j: nat, k: nat, h: Text)
    requires After(b, events).Some? && j < k <= |events| && ApprovedAt(b, events, j, h)
    ensures events[j].token in Before(b, events, k).grants
    ensures OnlySpent(Mints(b, Before(b, events, j), events[j]).value, Before(b, events, k).grants[events[j].token])
  {
    RunSplits(b, events, j);
    GrantsAfter(b, Before(b, events, j), events[j]);
    Prefix(b, events, k, j + 1);
    RunGrows(b, events[..k], j + 1);
  }

  lemma ServedAfterApproval(b: Broker, events: seq<Event>, j: nat, k: nat, h: Text)
    requires After(b, events).Some? && k < |events| && ApprovedAt(b, events, j, h)
    requires Serves(b, Before(b, events, k), events[k], events[j].token)
    ensures j < k
  {
    RunSplits(b, events, j);
    if k <= j {
      Prefix(b, events, j, k);
      RunGrows(b, events[..j], k);
    }
  }

  lemma ApprovedWasFiled(b: Broker, events: seq<Event>, i: nat, j: nat, h: Text)
    requires HashBinds(b) && After(b, events).Some? && FiledAt(b, events, i, h) && ApprovedAt(b, events, j, h)
    ensures events[i].Execute? && b.digest(events[i].inputs).Some?
    ensures var g := Mints(b, Before(b, events, j), events[j]).value;
            && g.singleUse && g.scope == [events[i].skill] && g.inputDigest == b.digest(events[i].inputs)
            && g.expiresAt == events[j].now + 300000000 && events[j].now <= events[i].now + 600000000
  {
    ApprovalTerms(b, Before(b, events, j), events[j]);
    Prefix(b, events, j, j);
    var f := PendingWasFiled(b, events[..j], h);
    Prefix(b, events, j, f);
    FilingHash(b, events, f, h);
    FilingHash(b, events, i, h);
  }

  lemma ServedTerms(b: Broker, d: Desk, e: Event, token: Text, skill: Text)
    requires Serves(b, d, e, token) && d.grants[token].scope == [skill] && d.grants[token].inputDigest.Some?
    ensures InScope([skill], e.skill) && b.digest(e.inputs) == d.grants[token].inputDigest && e.now <= d.grants[token].expiresAt
  {
  }

  /** Filed under a hash at i, approved under it at j, its token served at k: what is executed is what was filed, approved
      within ten minutes of the filing and executed within five of the approval. */
  lemma ApprovedExecutionIsTheProposal(b: Broker, events: seq<Event>, i: nat, j: nat, k: nat, h: Text)
    requires HashBinds(b) && After(b, events).Some? && k < |events|
    requires FiledAt(b, events, i, h) && ApprovedAt(b, events, j, h)
    requires Serves(b, Before(b, events, k), events[k], events[j].token)
    ensures events[i].Execute? && (PlainName(events[i].skill) ==> events[k].skill == events[i].skill)
    ensures b.digest(events[i].inputs).Some? && b.digest(events[k].inputs) == b.digest(events[i].inputs)
    ensures j < k && events[j].now <= events[i].now + 600000000 && events[k].now <= events[j].now + 300000000
  {
    ServedAfterApproval(b, events, j, k, h);
    ApprovalStands(b, events, j, k, h);
    ApprovedWasFiled(b, events, i, j, h);
    ServedTerms(b, Before(b, events, k), events[k], events[j].token, events[i].skill);
    if PlainName(events[i].skill) { PlainScope(events[i].skill, events[k].skill); }
  }

  // ---- an approval is worth something

  ghost predicate SpentBetween(b: Broker, events: seq<Event>, j: nat, k: nat, token: Text)
    requires After(b, events).Some? && k <= |events|
  {
    exists m :: j < m < k && Spends(b, Before(b, events, m), events[m], token)
  }

  lemma StepSpends(b: Broker, d: Desk, e: Event, token: Text)
    requires Possible(d, e) && token in d.grants && d.grants[token].singleUse && token != []
    ensures token in Next(b, d, e).grants && Next(b, d, e).grants[token].singleUse
    ensures Next(b, d, e).grants[token].revoked <==> (d.grants[token].revoked || Spends(b, d, e, token))
    ensures Next(b, d, e).grants[token].consumed ==> (d.grants[token].consumed || Spends(b, d, e, token))
  {
    GrantsAfter(b, d, e);
  }

  /** A single-use grant is revoked exactly when some event after j has revoked or used it. */
  ghost predicate Tracked(b: Broker, events: seq<Event>, j: nat, k: nat, token: Text)
    requires After(b, events).Some? && k <= |events|
  {
    var grants := Before(b, events, k).grants;
    && token in grants && grants[token].singleUse
    && (grants[token].revoked <==> SpentBetween(b, events, j, k, token)) && (grants[token].consumed ==> grants[token].revoked)
  }

  lemma TrackedStep(b: Broker, events: seq<Event>, j: nat, k: nat, token: Text)
    requires After(b, events).Some? && j < k < |events| && token != [] && Tracked(b, events, j, k, token)
    ensures Tracked(b, events, j, k + 1, token)
  {
    RunSplits(b, events, k);
    StepSpends(b, Before(b, events, k), events[k], token);
    SpentStep(b, events, j, k + 1, token);
  }

  lemma {:induction false} TrackedOn(b: Broker, events: seq<Event>, j: nat, i: nat, k: nat, token: Text)
    requires After(b, events).Some? && j < i <= k <= |events| && token != [] && Tracked(b, events, j, i, token)
    ensures Tracked(b, events, j, k, token)
    decreases k
  {
    if i < k {
      TrackedOn(b, events, j, i, k - 1, token);
      TrackedStep(b, events, j, k - 1, token);
    }
  }

  lemma ApprovalTracked(b: Broker, events: seq<Event>, j: nat, k: nat, h: Text)
    requires After(b, events).Some? && j < k <= |events| && ApprovedAt(b, events, j, h)
    ensures Tracked(b, events, j, k, events[j].token)
  {
    RunSplits(b, events, j);
    JustMinted(b, Before(b, events, j), events[j]);
    TrackedOn(b, events, j, j + 1, k, events[j].token);
  }

  lemma JustMinted(b: Broker, d: Desk, e: Event)
    requires Possible(d, e) && e.Decide? && Mints(b, d, e).Some?
    ensures e.token in Next(b, d, e).grants && Next(b, d, e).grants[e.token] == Mints(b, d, e).value
    ensures Mints(b, d, e).value.singleUse && !Mints(b, d, e).value.revoked && !Mints(b, d, e).value.consumed
  {
    GrantsAfter(b, d, e);
    ApprovalTerms(b, d, e);
  }

  lemma SpentStep(b: Broker, events: seq<Event>, j: nat, k: nat, token: Text)
    requires After(b, events).Some? && j < k - 1 < |events|
    ensures SpentBetween(b, events, j, k, token)
            <==> SpentBetween(b, events, j, k - 1, token) || Spends(b, Before(b, events, k - 1), events[k - 1], token)
  {
  }

  /** A token that serves has not expired. */
  lemma ServesInTime(b: Broker, events: seq<Event>, k: nat, token: Text) returns (i: nat, g: Grant)
    requires After(b, events).Some? && k < |events| && Serves(b, Before(b, events, k), events[k], token)
    ensures i < k && MintedAt(b, events, i, g, token) && events[k].now <= g.expiresAt
  {
    Prefix(b, events, k, k);
    i, g := GrantWasMinted(b, events[..k], token);
    Prefix(b, events, k, i);
  }

  /** An agent presents the token with the approved skill and inputs. */
  ghost predicate Presented(b: Broker, p: Proposal, decided: Event, e: Event)
    requires decided.Decide?
  {
    && e.Execute? && PrincipalOf(e.caller).AiAgent? && e.token == decided.token && e.skill == p.skill
    && b.digest(e.inputs) == b.digest(p.inputs)
  }

  lemma MintedIsValid(b: Broker, d: Desk, e: Event, g: Grant, now: nat)
    requires Honest(b.seals) && e.Decide? && Mints(b, d, e).Some? && OnlySpent(Mints(b, d, e).value, g) && !g.revoked && !g.consumed
    requires now <= e.now + 300000000
    ensures e.hash in d.pending && IsValidFor(b.seals, g, d.pending[e.hash].skill, None, [], now)
  {
    ApprovalTerms(b, d, e);
    var p := d.pending[e.hash];
    var u := Unsigned(e.token, T("OPERATOR_APPROVAL_") + Upper(e.caller), PrivilegedExecute, [p.skill], e.now + APPROVAL_LIFE,
                      Upper(e.caller), Some(b.digest(p.inputs).value), true, e.nonce);
    assert Signed(b.seals, u) == Some(Mints(b, d, e).value);
    assert SameTerms(u, g);
    assert Matches(g.scope[0], p.skill);
  }

  lemma HonoredUnlessRevoked(b: Broker, was: Desk, decided: Event, d: Desk, e: Event)
    requires Honest(b.seals) && Possible(was, decided) && decided.Decide? && Mints(b, was, decided).Some?
    requires decided.token in d.grants && OnlySpent(Mints(b, was, decided).value, d.grants[decided.token])
    requires d.grants[decided.token].consumed ==> d.grants[decided.token].revoked
    requires decided.hash in was.pending && Presented(b, was.pending[decided.hash], decided, e) && e.skill in b.skills
    ensures Reply(b, d, e) == Dispatch(b, e.skill, PrivilegedExecute) <==>
            !d.grants[e.token].revoked && e.now <= decided.now + 300000000
  {
    ApprovalTerms(b, was, decided);
    var g := d.grants[e.token];
    if g.revoked {
      assert Authorize(b, d, e.skill, e.inputs, e.token, e.now) == Refused(Replayed);
    } else if e.now > decided.now + 300000000 {
      assert Authorize(b, d, e.skill, e.inputs, e.token, e.now) == Refused(TokenExpired);
    } else {
      MintedIsValid(b, was, decided, g, e.now);
      assert Authorize(b, d, e.skill, e.inputs, e.token, e.now) == Granted(PrivilegedExecute, true);
    }
  }

  /** The approved skill and inputs, presented with the token, are dispatched with the tier of the approval if and only if
      no more than five minutes have passed and no event since the approval has revoked or used the token. */
  lemma ApprovalIsHonored(b: Broker, events: seq<Event>, j: nat, k: nat, h: Text)
    requires Honest(b.seals) && After(b, events).Some? && j < k < |events| && ApprovedAt(b, events, j, h)
    requires h in Before(b, events, j).pending && Presented(b, Before(b, events, j).pending[h], events[j], events[k])
    ensures Reply(b, Before(b, events, k), events[k]) == Dispatch(b, events[k].skill, PrivilegedExecute)
            <==> events[k].now <= events[j].now + 300000000 && !SpentBetween(b, events, j, k, events[j].token)
  {
    ApprovalStands(b, events, j, k, h);
    ApprovalTracked(b, events, j, k, h);
    RunSplits(b, events, j);
    Prefix(b, events, j, j);
    var f := PendingWasFiled(b, events[..j], h);
    HonoredUnlessRevoked(b, Before(b, events, j), events[j], Before(b, events, k), events[k]);
  }

  // ---- decisions

  /** What a decision comes to, in the source's terms: ten minutes to decide, and any action but a rejection approves. */
  lemma DecisionExactly(b: Broker, d: Desk, e: Event)
    requires e.Decide?
    ensures var a := Resolve(b, d, e.hash, e.action, e.caller, e.token, e.nonce, e.now).1;
            var open := MayResolve(e.caller) && e.hash !in d.resolved && e.hash in d.pending;
            && (a.Unauthorized? <==> PrincipalOf(e.caller).AiAgent?)
            && (a.HasExpired? <==> open && e.now > d.pending[e.hash].proposedAt + 600000000)
            && (a.Settled? && a.r.status == Rejected <==>
                  open && e.now <= d.pending[e.hash].proposedAt + 600000000 && Upper(e.action) == T("REJECT"))
            && (a.Settled? && a.r.token.Some? <==> Mints(b, d, e).Some?)
  {
    HumansDecide(e.caller);
  }
}

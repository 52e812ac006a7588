/** The skill protocol with canonical bytes under its digests and Ed25519 under its grants. */
module ApprovedInputs {
  import opened Wrappers
  import opened Numbers
  import opened Decimal
  import opened Unicode
  import opened CanonicalJson
  import opened Delegations
  import opened Skills
  import GS = GrantSeals
  import opened SkillRuns
  import opened SkillOrigins

  /** SHA-256 in hexadecimal and the text of a time. */
  datatype Config = Config(sha256: seq<Byte> -> Text, iso: nat -> Text)

  ghost predicate GoodConfig(k: Config) {
    && (forall x, y :: k.sha256(x) == k.sha256(y) ==> x == y)
    && (forall x, y :: k.iso(x) == k.iso(y) ==> x == y)
  }

  /** The identity on bytes and decimal numbers do for an injective hash and distinct texts of times. */
  lemma GoodConfigExists()
    ensures GoodConfig(Config((b: seq<Byte>) => Bytewise(b), (n: nat) => NatText(n)))
  {
    forall m: nat, n: nat | NatText(m) == NatText(n) ensures m == n {
      NatTextValue(m);
      NatTextValue(n);
    }
    forall a: seq<Byte>, b: seq<Byte> | Bytewise(a) == Bytewise(b) ensures a == b {
      assert forall i :: 0 <= i < |a| ==> Bytewise(a)[i] == Bytewise(b)[i];
    }
  }

  function Bytewise(b: seq<Byte>): (t: Text)
    ensures |t| == |b| && forall i :: 0 <= i < |b| ==> t[i] == b[i]
  {
    seq(|b|, i requires 0 <= i < |b| => b[i])
  }

  // ---- the digests

  function ProposalMembers(k: Config, p: Proposal): seq<Member> {
    [Member(T("skill_id"), Str(p.skill)),
     Member(T("title"), Str(p.title)),
     Member(T("inputs"), p.inputs),
     Member(T("category"), Str(T("MUTATE"))),
     Member(T("requires_human_approval"), Bool(true)),
     Member(T("severity"), Str(T("WARNING"))),
     Member(T("proposed_at"), Str(k.iso(p.proposedAt))),
     Member(T("expires_at"), Str(k.iso(p.proposedAt + PROPOSAL_LIFE))),
     Member(T("status"), Str(T("PENDING")))]
  }

  lemma ProposalKeysDistinct(k: Config, p: Proposal)
    ensures var ms := ProposalMembers(k, p);
            forall i, j :: 0 <= i < j < |ms| ==> ms[i].key != ms[j].key
  {
    var ms := ProposalMembers(k, p);
    assert |ms[0].key| == 8 && |ms[1].key| == 5 && |ms[2].key| == 6 && |ms[3].key| == 8 && |ms[4].key| == 23;
    assert |ms[5].key| == 8 && |ms[6].key| == 11 && |ms[7].key| == 10 && |ms[8].key| == 6;
    assert ms[0].key[1] == 'k' as int && ms[3].key[1] == 'a' as int && ms[5].key[1] == 'e' as int;
    assert ms[2].key[0] == 'i' as int && ms[8].key[0] == 's' as int;
  }

  function ProposalPayload(k: Config, p: Proposal): (v: Json)
    ensures WellFormed(v)
  {
    ProposalKeysDistinct(k, p);
    Obj(ProposalMembers(k, p))
  }

  /** A proposal hash names the skill, its title, the time and, up to member order, the inputs. */
  lemma ProposalHashBinds(k: Config, p: Proposal, q: Proposal)
    requires GoodConfig(k) && ProposalHash(k, p).Some? && ProposalHash(k, p) == ProposalHash(k, q)
    ensures p.skill == q.skill && p.title == q.title && p.proposedAt == q.proposedAt && Serializable(p.inputs) && Serializable(q.inputs)
    ensures Alike(p.inputs, q.inputs)
  {
    var v, w := ProposalPayload(k, p), ProposalPayload(k, q);
    CanonicalBytesInjective(v, w);
    PayloadParts(k, p);
    PayloadParts(k, q);
    SameMember(v, w, 0);
    SameMember(v, w, 1);
    SameMember(v, w, 2);
    SameMember(v, w, 6);
  }

  lemma PayloadParts(k: Config, p: Proposal)
    ensures var v := ProposalPayload(k, p);
            && |v.members| == 9 && v.members[0] == Member(T("skill_id"), Str(p.skill))
            && v.members[1] == Member(T("title"), Str(p.title))
            && v.members[2] == Member(T("inputs"), p.inputs) && v.members[6] == Member(T("proposed_at"), Str(k.iso(p.proposedAt)))
            && (Serializable(v) ==> Serializable(p.inputs) && NoSurrogates(p.skill))
  {
    var v := ProposalPayload(k, p);
    assert Serializable(v) ==> Serializable(v.members[0].value) && Serializable(v.members[2].value);
  }

  function DigestOf(k: Config, v: Value): Option<Text> {
    match CanonicalBytes(v) case Err => None case Ok(bytes) => Some(k.sha256(bytes))
  }

  function ProposalHash(k: Config, p: Proposal): Option<Text> {
    DigestOf(k, ProposalPayload(k, p))
  }

  /** The dispatcher as deployed. */
  ghost function Deployed(k: Config, keys: GS.Keys, skills: map<Text, Skill>, handlers: set<Text>): Broker {
    Broker(skills, handlers, GS.Ed25519Seals(keys), (v: Value) => DigestOf(k, v), (p: Proposal) => ProposalHash(k, p))
  }

  lemma DeployedHashBinds(k: Config, keys: GS.Keys, skills: map<Text, Skill>, handlers: set<Text>)
    requires GoodConfig(k) && GS.GoodKeys(keys)
    ensures HashBinds(Deployed(k, keys, skills, handlers)) && Honest(Deployed(k, keys, skills, handlers).seals)
  {
    var b := Deployed(k, keys, skills, handlers);
    forall p, q | b.hash(p).Some? && b.hash(p) == b.hash(q)
      ensures p.proposedAt == q.proposedAt && p.skill == q.skill
      ensures b.digest(p.inputs).Some? && b.digest(p.inputs) == b.digest(q.inputs)
    {
      ProposalHashBinds(k, p, q);
      CanonicalBytesExact(p.inputs, q.inputs);
    }
    GS.Ed25519SealsAreHonest(keys);
  }

  lemma EqualDigests(k: Config, v: Value, w: Value)
    requires GoodConfig(k) && DigestOf(k, v).Some? && DigestOf(k, v) == DigestOf(k, w)
    ensures Serializable(v) && Serializable(w) && Alike(v, w)
  {
    CanonicalBytesInjective(v, w);
  }

  /** As deployed: filed at i, approved at j, served at k; what is executed are the skill and, up to member order, the
      inputs that were filed. */
  lemma ApprovedInputsOnly(k: Config, keys: GS.Keys, skills: map<Text, Skill>, handlers: set<Text>, events: seq<Event>,
                           i: nat, j: nat, n: nat, h: Text)
    requires GoodConfig(k) && GS.GoodKeys(keys) && After(Deployed(k, keys, skills, handlers), events).Some? && n < |events|
    requires var b := Deployed(k, keys, skills, handlers);
             FiledAt(b, events, i, h) && ApprovedAt(b, events, j, h) && Serves(b, Before(b, events, n), events[n], events[j].token)
    ensures events[i].Execute? && (PlainName(events[i].skill) ==> events[n].skill == events[i].skill)
    ensures Serializable(events[i].inputs) && Serializable(events[n].inputs) && Alike(events[n].inputs, events[i].inputs)
    ensures j < n && events[j].now <= events[i].now + 600000000 && events[n].now <= events[j].now + 300000000
  {
    var b := Deployed(k, keys, skills, handlers);
    DeployedHashBinds(k, keys, skills, handlers);
    ApprovedExecutionIsTheProposal(b, events, i, j, n, h);
    EqualDigests(k, events[n].inputs, events[i].inputs);
  }

  /** As deployed: equal inputs up to member order are dispatched if and only if the token is presented within five
      minutes and was neither revoked nor used before. */
  lemma ApprovedInputsHonored(k: Config, keys: GS.Keys, skills: map<Text, Skill>, handlers: set<Text>, events: seq<Event>,
                              j: nat, n: nat, h: Text)
    requires GoodConfig(k) && GS.GoodKeys(keys) && After(Deployed(k, keys, skills, handlers), events).Some? && j < n < |events|
    requires var b := Deployed(k, keys, skills, handlers);
             && ApprovedAt(b, events, j, h) && h in Before(b, events, j).pending
             && var (p, e) := (Before(b, events, j).pending[h], events[n]);
                && e.Execute? && PrincipalOf(e.caller).AiAgent? && e.token == events[j].token && e.skill == p.skill
                && Serializable(p.inputs) && Serializable(e.inputs) && Alike(e.inputs, p.inputs)
    ensures var b := Deployed(k, keys, skills, handlers);
            Reply(b, Before(b, events, n), events[n]) == Dispatch(b, events[n].skill, PrivilegedExecute)
            <==> events[n].now <= events[j].now + 300000000 && !SpentBetween(b, events, j, n, events[j].token)
  {
    var b := Deployed(k, keys, skills, handlers);
    DeployedHashBinds(k, keys, skills, handlers);
    CanonicalBytesExact(events[n].inputs, Before(b, events, j).pending[h].inputs);
    ApprovalIsHonored(b, events, j, n, h);
  }
}

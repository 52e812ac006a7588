/** Delegation grants: issuing, validating, revoking and consuming. */
module Delegations {
  import opened Wrappers
  import opened Numbers
  import opened Decimal

  datatype Tier = ObserveOnly | ProposeOnly | UserspaceExecute | PrivilegedExecute | FullDelegatedControl

  datatype Grant = Grant(id: Text, principal: Text, tier: Tier, scope: seq<Text>, grantedBy: Text, expiresAt: nat,
                         revoked: bool, consumed: bool, inputDigest: Option<Text>, singleUse: bool, nonce: Text,
                         signature: seq<Byte>, issuer: seq<Byte>)

  /** Signing a grant, which fails if its payload cannot be serialized, and checking a signature on it. */
  datatype Seals = Seals(sign: Grant -> Option<(seq<Byte>, seq<Byte>)>, intact: (Grant, seq<Byte>) -> bool)

  // ---- validity

  predicate Wild(pattern: Text) { |pattern| >= 2 && pattern[|pattern| - 2..] == T(".*") }

  /** The source drops the dot with the star. */
  function Namespace(pattern: Text): Text
    requires Wild(pattern)
  {
    pattern[..|pattern| - 2]
  }

  predicate Matches(pattern: Text, skill: Text) {
    pattern == skill || (Wild(pattern) && Namespace(pattern) <= skill)
  }

  predicate InScope(scope: seq<Text>, skill: Text) {
    T("*") in scope || exists i :: 0 <= i < |scope| && Matches(scope[i], skill)
  }

  predicate IsValidFor(s: Seals, g: Grant, skill: Text, inputDigest: Option<Text>, provided: seq<Byte>, now: nat) {
    && !g.revoked && !g.consumed && now <= g.expiresAt
    && (g.inputDigest.Some? && inputDigest.Some? ==> inputDigest == g.inputDigest)
    && (var sig := if provided != [] then provided else g.signature;
        sig != [] && g.issuer != [] ==> s.intact(g, sig))
    && InScope(g.scope, skill)
  }

  // ---- what a wildcard admits beyond its namespace

  const FULL_STOP: Code := 46

  predicate Under(namespace: Text, skill: Text) {
    namespace <= skill && |namespace| < |skill| && skill[|namespace|] == FULL_STOP
  }

  /** The reading of a scope under which "a.*" stands for the names that continue "a.". */
  predicate Intended(scope: seq<Text>, skill: Text) {
    T("*") in scope
    || exists i :: 0 <= i < |scope| && (scope[i] == skill || (Wild(scope[i]) && Under(Namespace(scope[i]), skill)))
  }

  predicate Overreaches(pattern: Text, skill: Text) {
    Wild(pattern) && Namespace(pattern) <= skill && !Under(Namespace(pattern), skill)
  }

  /** A scope admits the names it stands for, and those that continue a namespace without a dot, or end there. */
  lemma ScopeSplits(scope: seq<Text>, skill: Text)
    ensures InScope(scope, skill) <==> Intended(scope, skill) || exists i :: 0 <= i < |scope| && Overreaches(scope[i], skill)
  {
    forall i | 0 <= i < |scope|
      ensures Matches(scope[i], skill) <==>
              scope[i] == skill || (Wild(scope[i]) && Under(Namespace(scope[i]), skill)) || Overreaches(scope[i], skill)
    {
    }
  }

  lemma WildcardDropsDot()
    ensures InScope([T("a.*")], T("ab")) && !Intended([T("a.*")], T("ab"))
  {
    var p, s := T("a.*"), T("ab");
    assert p[1..] == T(".*") && Namespace(p) == [97] && s == [97, 98];
    assert Matches([p][0], s);
    assert |T("*")| == 1;
  }

  lemma {:induction false} ShortestWild(scope: seq<Text>, i: nat) returns (k: nat)
    requires i < |scope| && Wild(scope[i])
    ensures k < |scope| && Wild(scope[k]) && forall j :: 0 <= j < |scope| && Wild(scope[j]) ==> |scope[k]| <= |scope[j]|
    decreases |scope[i]|
  {
    if j :| 0 <= j < |scope| && Wild(scope[j]) && |scope[j]| < |scope[i]| {
      k := ShortestWild(scope, j);
    } else {
      k := i;
    }
  }

  function Longest(scope: seq<Text>): (n: nat)
    ensures forall i :: 0 <= i < |scope| ==> |scope[i]| <= n
  {
    if scope == [] then 0
    else
      var n := Longest(scope[1..]);
      if |scope[0]| > n then |scope[0]| else n
  }

  /** The shortest namespace continued by letters: admitted, and stood for by nothing in the scope. */
  lemma Stray(scope: seq<Text>, i: nat) returns (skill: Text)
    requires T("*") !in scope && i < |scope| && Wild(scope[i])
    ensures InScope(scope, skill) && !Intended(scope, skill)
  {
    var k := ShortestWild(scope, i);
    var letters: Text := seq(Longest(scope) + 1, _ => 120);
    var space := Namespace(scope[k]);
    skill := space + letters;
    assert Matches(scope[k], skill);
    forall j | 0 <= j < |scope| ensures scope[j] != skill && !(Wild(scope[j]) && Under(Namespace(scope[j]), skill)) {
      if Wild(scope[j]) { assert |Namespace(scope[j])| < |skill| ==> skill[|Namespace(scope[j])|] == 120; }
    }
  }

  /** A scope admits only what it stands for if and only if it is unrestricted or holds no wildcard pattern. */
  lemma ScopeExact(scope: seq<Text>)
    ensures (forall skill :: InScope(scope, skill) ==> Intended(scope, skill))
            <==> (T("*") in scope || forall i :: 0 <= i < |scope| ==> !Wild(scope[i]))
  {
    if i :| 0 <= i < |scope| && Wild(scope[i]) && T("*") !in scope {
      var skill := Stray(scope, i);
      assert !(InScope(scope, skill) ==> Intended(scope, skill));
    } else {
      forall skill | InScope(scope, skill) ensures Intended(scope, skill) { ScopeSplits(scope, skill); }
    }
  }

  // ---- the registry

  function Unsigned(id: Text, principal: Text, tier: Tier, scope: seq<Text>, expiresAt: nat, grantedBy: Text,
                    inputDigest: Option<Text>, singleUse: bool, nonce: Text): Grant {
    Grant(id, principal, tier, if scope == [] then [T("*")] else scope, grantedBy, expiresAt, false, false, inputDigest, singleUse, nonce, [], [])
  }

  function Signed(s: Seals, g: Grant): Option<Grant> {
    match s.sign(g)
    case None => None
    case Some((sig, key)) => Some(g.(signature := sig, issuer := key))
  }

  /** The same grant but for its flags and its signature. */
  predicate SameTerms(g: Grant, h: Grant) {
    h == g.(revoked := h.revoked, consumed := h.consumed, signature := h.signature, issuer := h.issuer)
  }

  /** Flags are not signed, so a signature stays good whatever happens to them. */
  ghost predicate Honest(s: Seals) {
    forall g: Grant, h: Grant ::
      (s.sign(g).Some? && SameTerms(g, h) && h.issuer == s.sign(g).value.1) ==> s.intact(h, s.sign(g).value.0)
  }

  /** A grant just issued is good until it expires, for its digest if it has one, and for the skills in its scope; no
      scope at all stands for every skill. */
  lemma IssuedIsValid(s: Seals, id: Text, principal: Text, tier: Tier, scope: seq<Text>, expiresAt: nat, grantedBy: Text,
                      inputDigest: Option<Text>, singleUse: bool, nonce: Text, skill: Text, presented: Option<Text>, now: nat)
    requires Honest(s)
    ensures match Signed(s, Unsigned(id, principal, tier, scope, expiresAt, grantedBy, inputDigest, singleUse, nonce))
            case None => true
            case Some(g) =>
              IsValidFor(s, g, skill, presented, [], now)
              <==> now <= expiresAt && (scope == [] || InScope(scope, skill))
                   && (inputDigest == None || presented == None || presented == inputDigest)
  {
    var unsigned := Unsigned(id, principal, tier, scope, expiresAt, grantedBy, inputDigest, singleUse, nonce);
    var g := Signed(s, unsigned);
    assert g.Some? ==> SameTerms(unsigned, g.value);
  }

  function Consumed(grants: map<Text, Grant>, id: Text): map<Text, Grant> {
    if id in grants && grants[id].singleUse then grants[id := grants[id].(consumed := true, revoked := true)] else grants
  }

  function Revoked(grants: map<Text, Grant>, id: Text): map<Text, Grant> {
    if id in grants then grants[id := grants[id].(revoked := true)] else grants
  }

  class DelegationRegistry {
    const seals: Seals
    var grants: map<Text, Grant>

    constructor (seals: Seals)
      ensures this.seals == seals && grants == map[]
    {
      this.seals, grants := seals, map[];
    }

    /** The id and the nonce are drawn at random by the source. */
    method Issue(id: Text, principal: Text, tier: Tier, scope: seq<Text>, expiresAt: nat, grantedBy: Text,
                 inputDigest: Option<Text>, singleUse: bool, nonce: Text) returns (g: Option<Grant>)
      modifies this
      ensures g == Signed(seals, Unsigned(id, principal, tier, scope, expiresAt, grantedBy, inputDigest, singleUse, nonce))
      ensures grants == if g.Some? then old(grants)[id := g.value] else old(grants)
    {
      var unsigned := Unsigned(id, principal, tier, scope, expiresAt, grantedBy, inputDigest, singleUse, nonce);
      g := Signed(seals, unsigned);
      if g.Some? {
        grants := grants[id := g.value];
      }
    }

    method Revoke(id: Text) returns (found: bool)
      modifies this
      ensures found <==> id in old(grants)
      ensures grants == Revoked(old(grants), id)
    {
      if id in grants {
        grants := grants[id := grants[id].(revoked := true)];
        return true;
      }
      return false;
    }

    method Consume(id: Text) returns (spent: bool)
      modifies this
      ensures spent <==> id in old(grants) && old(grants)[id].singleUse
      ensures grants == Consumed(old(grants), id)
    {
      if id in grants && grants[id].singleUse {
        var g := grants[id];
        g := g.(consumed := true);
        g := g.(revoked := true);
        grants := grants[id := g];
        return true;
      }
      return false;
    }
  }
}

/** Grants sealed with Ed25519 over the canonical bytes of their payload. */
module GrantSeals {
  import opened Wrappers
  import opened Numbers
  import opened Decimal
  import opened Unicode
  import opened CanonicalJson
  import opened Ed25519
  import opened SignedPayloads
  import opened Delegations

  /** The owner's key and the digest; SHA-512 is left abstract. */
  datatype Keys = Keys(scheme: Scheme, sha512: Hash, owner: seq<Byte>)

  ghost predicate GoodKeys(k: Keys) { Usable(k.scheme) && OrderAnnihilates(k.scheme) }

  function TierName(t: Tier): Text {
    match t
    case ObserveOnly => T("OBSERVE_ONLY")
    case ProposeOnly => T("PROPOSE_ONLY")
    case UserspaceExecute => T("USERSPACE_EXECUTE")
    case PrivilegedExecute => T("PRIVILEGED_EXECUTE")
    case FullDelegatedControl => T("FULL_DELEGATED_CONTROL")
  }

  predicate Before(a: Text, b: Text) {
    b != [] && (a == [] || a[0] < b[0] || (a[0] == b[0] && Before(a[1..], b[1..])))
  }

  function Place(x: Text, s: seq<Text>): (r: seq<Text>)
    ensures forall y :: y in r <==> y == x || y in s
  {
    if s == [] then [x] else if Before(s[0], x) then [s[0]] + Place(x, s[1..]) else [x] + s
  }

  function Sorted(s: seq<Text>): (r: seq<Text>)
    ensures forall y :: y in r <==> y in s
  {
    if s == [] then [] else Place(s[0], Sorted(s[1..]))
  }

  // a is lower where the two first differ
  ghost predicate LowerAt(a: Text, b: Text, k: nat) {
    k < |a| && k < |b| && (forall i :: 0 <= i < k ==> a[i] == b[i]) && a[k] < b[k]
  }

  /** a is b, or its beginning, or lower where they first differ. */
  ghost predicate Precedes(a: Text, b: Text) { a <= b || exists k :: LowerAt(a, b, k) }

  lemma {:induction false} BeforePrecedes(a: Text, b: Text)
    ensures Before(a, b) ==> Precedes(a, b)
    ensures !Before(a, b) ==> Precedes(b, a)
  {
    if a == [] || b == [] {
    } else if a[0] == b[0] {
      BeforePrecedes(a[1..], b[1..]);
      PrecedesTail(a, b);
      PrecedesTail(b, a);
    } else {
      assert LowerAt(a, b, 0) || LowerAt(b, a, 0);
    }
  }

  lemma PrecedesTail(a: Text, b: Text)
    requires a != [] && b != [] && a[0] == b[0]
    ensures Precedes(a[1..], b[1..]) ==> Precedes(a, b)
  {
    if k: nat :| LowerAt(a[1..], b[1..], k) {
      forall i | 0 <= i < k + 1 ensures a[i] == b[i] { assert i > 0 ==> a[1..][i - 1] == b[1..][i - 1]; }
      assert a[1..][k] < b[1..][k];
      assert LowerAt(a, b, k + 1);
    }
  }

  lemma PrecedesTrans(a: Text, b: Text, c: Text)
    requires Precedes(a, b) && Precedes(b, c)
    ensures Precedes(a, c)
  {
    if a <= b && b <= c {
    } else if a <= b {
      var k: nat :| LowerAt(b, c, k);
      assert k < |a| ==> LowerAt(a, c, k);
    } else if b <= c {
      var k: nat :| LowerAt(a, b, k);
      assert LowerAt(a, c, k);
    } else {
      var k: nat, l: nat :| LowerAt(a, b, k) && LowerAt(b, c, l);
      assert LowerAt(a, c, if k < l then k else l);
    }
  }

  ghost predicate Ordered(s: seq<Text>) { forall i, j :: 0 <= i < j < |s| ==> Precedes(s[i], s[j]) }

  lemma {:induction false} PlaceOrders(x: Text, s: seq<Text>)
    requires Ordered(s)
    ensures Ordered(Place(x, s)) && multiset(Place(x, s)) == multiset([x]) + multiset(s)
  {
    if s != [] {
      BeforePrecedes(s[0], x);
      assert s == [s[0]] + s[1..];
      if Before(s[0], x) {
        PlaceOrders(x, s[1..]);
        forall y | y in Place(x, s[1..]) ensures Precedes(s[0], y) { }
      } else {
        forall y | y in s ensures Precedes(x, y) {
          assert Precedes(s[0], y);
          PrecedesTrans(x, s[0], y);
        }
      }
    }
  }

  /** The scope is signed in the order of code points, every name as often as it is listed. */
  lemma {:induction false} ScopeOrdered(s: seq<Text>)
    ensures Ordered(Sorted(s)) && multiset(Sorted(s)) == multiset(s)
  {
    if s != [] {
      ScopeOrdered(s[1..]);
      PlaceOrders(s[0], Sorted(s[1..]));
      assert s == [s[0]] + s[1..];
    }
  }

  function Strings(s: seq<Text>): (r: seq<Json>)
    ensures |r| == |s| && forall i :: 0 <= i < |s| ==> r[i] == Str(s[i])
  {
    seq(|s|, i requires 0 <= i < |s| => Str(s[i]))
  }

  function PayloadMembers(g: Grant): seq<Member> {
    [Member(T("delegation_id"), Str(g.id)),
     Member(T("principal_id"), Str(g.principal)),
     Member(T("granted_tier"), Str(TierName(g.tier))),
     Member(T("scope_skills"), Arr(Strings(Sorted(g.scope)))),
     Member(T("granted_by"), Str(g.grantedBy)),
     Member(T("expires_at"), Int(g.expiresAt / 1000000)),
     Member(T("input_digest"), Str(if g.inputDigest.Some? then g.inputDigest.value else [])),
     Member(T("nonce"), Str(g.nonce))]
  }

  lemma KeysDistinct(g: Grant)
    ensures var ms := PayloadMembers(g);
            forall i, j :: 0 <= i < j < |ms| ==> ms[i].key != ms[j].key
  {
    var ms := PayloadMembers(g);
    assert |ms[0].key| == 13 && |ms[1].key| == 12 && |ms[2].key| == 12 && |ms[3].key| == 12;
    assert |ms[4].key| == 10 && |ms[5].key| == 10 && |ms[6].key| == 12 && |ms[7].key| == 5;
    assert ms[1].key[0] == 'p' as int && ms[2].key[0] == 'g' as int && ms[3].key[0] == 's' as int && ms[6].key[0] == 'i' as int;
    assert ms[4].key[0] == 'g' as int && ms[5].key[0] == 'e' as int;
  }

  function CanonicalPayload(g: Grant): (v: Json)
    ensures WellFormed(v)
  {
    KeysDistinct(g);
    Obj(PayloadMembers(g))
  }

  ghost predicate PlainGrant(g: Grant) {
    && NoSurrogates(g.id) && NoSurrogates(g.principal) && NoSurrogates(g.grantedBy) && NoSurrogates(g.nonce)
    && (forall x :: x in g.scope ==> NoSurrogates(x))
    && (g.inputDigest.Some? ==> NoSurrogates(g.inputDigest.value))
  }

  lemma PlainPayload(g: Grant)
    requires PlainGrant(g)
    ensures Serializable(CanonicalPayload(g))
  {
    var ms := PayloadMembers(g);
    forall i | 0 <= i < |ms| ensures NoSurrogates(ms[i].key) && Serializable(ms[i].value) {
      var items := Strings(Sorted(g.scope));
      forall j | 0 <= j < |items| ensures Serializable(items[j]) {
        assert Sorted(g.scope)[j] in Sorted(g.scope);
      }
    }
  }

  lemma TierNamesDiffer(t: Tier, u: Tier)
    requires TierName(t) == TierName(u)
    ensures t == u
  {
    assert |TierName(ObserveOnly)| == 12 && |TierName(ProposeOnly)| == 12 && |TierName(UserspaceExecute)| == 17;
    assert |TierName(PrivilegedExecute)| == 18 && |TierName(FullDelegatedControl)| == 22;
    assert TierName(ObserveOnly)[0] == 'O' as int && TierName(ProposeOnly)[0] == 'P' as int;
  }

  lemma PayloadMember(g: Grant, h: Grant, i: nat)
    requires Serializable(CanonicalPayload(g)) && Serializable(CanonicalPayload(h))
    requires Alike(CanonicalPayload(g), CanonicalPayload(h)) && i < 8
    ensures PayloadMembers(g)[i].key == PayloadMembers(h)[i].key
    ensures WellFormed(PayloadMembers(g)[i].value) && WellFormed(PayloadMembers(h)[i].value)
    ensures Serializable(PayloadMembers(g)[i].value) && Serializable(PayloadMembers(h)[i].value)
    ensures Alike(PayloadMembers(g)[i].value, PayloadMembers(h)[i].value)
  {
    var v, w := CanonicalPayload(g), CanonicalPayload(h);
    assert v.members == PayloadMembers(g) && w.members == PayloadMembers(h);
    SameMember(v, w, i);
  }

  lemma SameScope(g: Grant, h: Grant)
    requires Strings(Sorted(g.scope)) == Strings(Sorted(h.scope))
    ensures forall x :: x in g.scope <==> x in h.scope
  {
    var a, b := Sorted(g.scope), Sorted(h.scope);
    assert |a| == |b| && forall i :: 0 <= i < |a| ==> Strings(a)[i] == Str(a[i]) && Strings(b)[i] == Str(b[i]);
    assert a == b;
    forall x ensures x in g.scope <==> x in h.scope { assert x in a <==> x in b; }
  }

  function DigestText(g: Grant): Text { if g.inputDigest.Some? then g.inputDigest.value else [] }

  ghost predicate AlikePayloads(g: Grant, h: Grant) {
    Serializable(CanonicalPayload(g)) && Serializable(CanonicalPayload(h)) && Alike(CanonicalPayload(g), CanonicalPayload(h))
  }

  lemma PayloadNames(g: Grant, h: Grant)
    requires AlikePayloads(g, h)
    ensures g.id == h.id && g.principal == h.principal
  {
    PayloadMember(g, h, 0);
    PayloadMember(g, h, 1);
  }

  lemma PayloadTier(g: Grant, h: Grant)
    requires AlikePayloads(g, h)
    ensures g.tier == h.tier && g.grantedBy == h.grantedBy
  {
    PayloadMember(g, h, 2);
    TierNamesDiffer(g.tier, h.tier);
    PayloadMember(g, h, 4);
  }

  lemma PayloadScope(g: Grant, h: Grant)
    requires AlikePayloads(g, h)
    ensures forall x :: x in g.scope <==> x in h.scope
  {
    PayloadMember(g, h, 3);
    var a, b := Strings(Sorted(g.scope)), Strings(Sorted(h.scope));
    assert |a| == |b| && forall i :: 0 <= i < |a| ==> a[i] == b[i];
    SameScope(g, h);
  }

  lemma PayloadLimits(g: Grant, h: Grant)
    requires AlikePayloads(g, h)
    ensures g.expiresAt / 1000000 == h.expiresAt / 1000000 && DigestText(g) == DigestText(h) && g.nonce == h.nonce
  {
    PayloadMember(g, h, 5);
    PayloadMember(g, h, 6);
    PayloadMember(g, h, 7);
  }

  /** What a signature on a grant covers: everything but the flags, the expiry to the second, the scope as a set. */
  lemma PayloadBinds(g: Grant, h: Grant)
    requires CanonicalBytes(CanonicalPayload(g)).Ok? && CanonicalBytes(CanonicalPayload(g)) == CanonicalBytes(CanonicalPayload(h))
    ensures g.id == h.id && g.principal == h.principal && g.tier == h.tier && g.grantedBy == h.grantedBy && g.nonce == h.nonce
    ensures g.expiresAt / 1000000 == h.expiresAt / 1000000 && DigestText(g) == DigestText(h)
    ensures forall x :: x in g.scope <==> x in h.scope
  {
    CanonicalBytesInjective(CanonicalPayload(g), CanonicalPayload(h));
    PayloadNames(g, h);
    PayloadTier(g, h);
    PayloadScope(g, h);
    PayloadLimits(g, h);
  }

  // ---- the seals

  predicate Intact(k: Keys, g: Grant, sig: seq<Byte>)
    requires k.scheme.curve.q >= 2 && k.scheme.order > 0
  {
    VerifyCanonical(k.scheme, k.sha512, CanonicalPayload(g), sig, g.issuer)
  }

  function SealOf(k: Keys, g: Grant): Option<(seq<Byte>, seq<Byte>)>
    requires Usable(k.scheme)
  {
    match SignCanonical(k.scheme, k.sha512, CanonicalPayload(g), k.owner)
    case Err => None
    case Ok(sig) => Some((sig, PublicKey(k.scheme, k.sha512, k.owner)))
  }

  ghost function Ed25519Seals(k: Keys): Seals {
    Seals(g => if Usable(k.scheme) then SealOf(k, g) else None,
          (g, sig) => k.scheme.curve.q >= 2 && k.scheme.order > 0 && Intact(k, g, sig))
  }

  lemma OwnSignatureVerifies(k: Keys, payload: Json)
    requires GoodKeys(k) && WellFormed(payload) && Serializable(payload)
    ensures SignCanonical(k.scheme, k.sha512, payload, k.owner).Ok?
    ensures VerifyCanonical(k.scheme, k.sha512, payload, SignCanonical(k.scheme, k.sha512, payload, k.owner).value,
                            PublicKey(k.scheme, k.sha512, k.owner))
  {
    SameSelf(payload);
    SignedPayloadVerifies(k.scheme, k.sha512, payload, payload, k.owner);
  }

  lemma SamePayload(g: Grant, h: Grant)
    requires SameTerms(g, h)
    ensures CanonicalPayload(g) == CanonicalPayload(h)
  {
    assert PayloadMembers(g) == PayloadMembers(h);
  }

  /** A grant signed by the owner stays intact, whatever happens to its flags. */
  lemma SealedStaysIntact(k: Keys, g: Grant, h: Grant)
    requires GoodKeys(k) && SealOf(k, g).Some? && SameTerms(g, h) && h.issuer == SealOf(k, g).value.1
    ensures Intact(k, h, SealOf(k, g).value.0)
  {
    SamePayload(g, h);
    var payload := CanonicalPayload(g);
    if Serializable(payload) {
      OwnSignatureVerifies(k, payload);
    }
  }

  lemma Ed25519SealsAreHonest(k: Keys)
    requires GoodKeys(k)
    ensures Honest(Ed25519Seals(k))
  {
    var s := Ed25519Seals(k);
    forall g: Grant, h: Grant | s.sign(g).Some? && SameTerms(g, h) && h.issuer == s.sign(g).value.1
      ensures s.intact(h, s.sign(g).value.0)
    {
      SealedStaysIntact(k, g, h);
    }
  }

  /** A grant whose texts hold no lone surrogate can be signed. */
  lemma PlainGrantsAreSigned(k: Keys, g: Grant)
    requires Usable(k.scheme) && PlainGrant(g)
    ensures Ed25519Seals(k).sign(g).Some?
  {
    PlainPayload(g);
  }
}

/** The five-leaf state root and the transition proof: what a matching digest says about the documents under it. */
module StateRoot {
  import opened Wrappers
  import opened Numbers
  import opened Decimal
  import opened Unicode
  import opened CanonicalJson

  /** SHA-256 in hexadecimal is left abstract: 64 characters, none of them a surrogate. */
  type Digest = seq<Byte> -> Text

  ghost predicate Hexadecimal(h: Digest) { forall x :: |h(x)| == 64 && NoSurrogates(h(x)) }

  /** No collision among these byte strings. */
  ghost predicate CollisionFree(h: Digest, texts: set<seq<Byte>>) {
    forall x, y :: x in texts && y in texts && h(x) == h(y) ==> x == y
  }

  datatype Leaves = Leaves(posture: Value, substrate: Value, provenance: Value, policy: Value, evidence: Value)

  predicate AllSerializable(l: Leaves) {
    Serializable(l.posture) && Serializable(l.substrate) && Serializable(l.provenance) && Serializable(l.policy) && Serializable(l.evidence)
  }

  /** Equal leaf by leaf, up to the order of members. */
  ghost predicate SameLeaves(a: Leaves, b: Leaves)
    requires AllSerializable(a) && AllSerializable(b)
  {
    && Alike(a.posture, b.posture) && Alike(a.substrate, b.substrate) && Alike(a.provenance, b.provenance)
    && Alike(a.policy, b.policy) && Alike(a.evidence, b.evidence)
  }

  /** sha256_canonical of a document that can be serialized. */
  function LeafHash(h: Digest, v: Value): Text
    requires Serializable(v)
  {
    h(Utf8(Serialize(v)))
  }

  function Concatenated(h: Digest, l: Leaves): Text
    requires AllSerializable(l)
  {
    LeafHash(h, l.posture) + (LeafHash(h, l.substrate) + (LeafHash(h, l.provenance) + (LeafHash(h, l.policy) + LeafHash(h, l.evidence))))
  }

  /** What is hashed on the way to the root. */
  ghost function Hashed(h: Digest, l: Leaves): set<seq<Byte>>
    requires AllSerializable(l)
  {
    {Utf8(Serialize(l.posture)), Utf8(Serialize(l.substrate)), Utf8(Serialize(l.provenance)), Utf8(Serialize(l.policy)),
     Utf8(Serialize(l.evidence)), Utf8(Concatenated(h, l))}
  }

  /** A leaf that cannot be serialized raises an error. */
  function Root(h: Digest, l: Leaves): Result<Text> {
    if AllSerializable(l) then Ok(h(Utf8(Concatenated(h, l)))) else Err
  }

  lemma SplitText(a: Text, x: Text, b: Text, y: Text)
    requires |a| == |b| && a + x == b + y
    ensures a == b && x == y
  {
    assert (a + x)[..|a|] == a && (b + y)[..|b|] == b;
    assert (a + x)[|a|..] == x && (b + y)[|b|..] == y;
  }

  lemma SameHashSameLeaf(h: Digest, v: Value, w: Value)
    requires Serializable(v) && Serializable(w) && LeafHash(h, v) == LeafHash(h, w)
    requires CollisionFree(h, {Utf8(Serialize(v)), Utf8(Serialize(w))})
    ensures Alike(v, w)
  {
    CanonicalBytesInjective(v, w);
  }

  lemma ConcatenatedClean(h: Digest, l: Leaves)
    requires Hexadecimal(h) && AllSerializable(l)
    ensures NoSurrogates(Concatenated(h, l))
  {
  }

  lemma SplitConcatenated(h: Digest, a: Leaves, b: Leaves)
    requires Hexadecimal(h) && AllSerializable(a) && AllSerializable(b) && Concatenated(h, a) == Concatenated(h, b)
    ensures LeafHash(h, a.posture) == LeafHash(h, b.posture) && LeafHash(h, a.substrate) == LeafHash(h, b.substrate)
    ensures LeafHash(h, a.provenance) == LeafHash(h, b.provenance) && LeafHash(h, a.policy) == LeafHash(h, b.policy)
    ensures LeafHash(h, a.evidence) == LeafHash(h, b.evidence)
  {
    var a5, b5 := LeafHash(h, a.evidence), LeafHash(h, b.evidence);
    var a4, b4 := LeafHash(h, a.policy) + a5, LeafHash(h, b.policy) + b5;
    var a3, b3 := LeafHash(h, a.provenance) + a4, LeafHash(h, b.provenance) + b4;
    var a2, b2 := LeafHash(h, a.substrate) + a3, LeafHash(h, b.substrate) + b3;
    SplitText(LeafHash(h, a.posture), a2, LeafHash(h, b.posture), b2);
    SplitText(LeafHash(h, a.substrate), a3, LeafHash(h, b.substrate), b3);
    SplitText(LeafHash(h, a.provenance), a4, LeafHash(h, b.provenance), b4);
    SplitText(LeafHash(h, a.policy), a5, LeafHash(h, b.policy), b5);
  }

  /** Equal roots come only from equal leaves. */
  lemma RootBindsLeaves(h: Digest, a: Leaves, b: Leaves)
    requires Hexadecimal(h) && Root(h, a).Ok? && Root(h, a) == Root(h, b) && CollisionFree(h, Hashed(h, a) + Hashed(h, b))
    ensures SameLeaves(a, b)
  {
    ConcatenatedClean(h, a);
    ConcatenatedClean(h, b);
    Utf8Injective(Concatenated(h, a), Concatenated(h, b));
    SplitConcatenated(h, a, b);
    SameHashSameLeaf(h, a.posture, b.posture);
    SameHashSameLeaf(h, a.substrate, b.substrate);
    SameHashSameLeaf(h, a.provenance, b.provenance);
    SameHashSameLeaf(h, a.policy, b.policy);
    SameHashSameLeaf(h, a.evidence, b.evidence);
  }

  lemma SameLeafSameHash(h: Digest, v: Value, w: Value)
    requires Serializable(v) && Serializable(w) && Alike(v, w)
    ensures LeafHash(h, v) == LeafHash(h, w)
  {
    CanonicalBytesIgnoreOrder(v, w);
  }

  /** The order in which a leaf was filled in never shows in the root. */
  lemma RootIgnoresOrder(h: Digest, a: Leaves, b: Leaves)
    requires AllSerializable(a) && AllSerializable(b) && SameLeaves(a, b)
    ensures Root(h, a) == Root(h, b)
  {
    SameLeafSameHash(h, a.posture, b.posture);
    SameLeafSameHash(h, a.substrate, b.substrate);
    SameLeafSameHash(h, a.provenance, b.provenance);
    SameLeafSameHash(h, a.policy, b.policy);
    SameLeafSameHash(h, a.evidence, b.evidence);
  }

  // ---- verifying a state document

  datatype Trust = TamperDetected | Degraded | DriftDetected | Trusted

  /** verify_state on a document handed in, with the outcome of its other checks and the root of the live host. */
  function VerifyState(h: Digest, claimed: Text, l: Leaves, checks: bool, live: Text): Result<Trust> {
    match Root(h, l)
    case Err => Err
    case Ok(root) =>
      if claimed != root then Ok(TamperDetected)
      else if !checks then Ok(Degraded)
      else if claimed != live then Ok(DriftDetected)
      else Ok(Trusted)
  }

  /** Against the root built over some leaves, a document is reported as tampered with exactly when its leaves differ
      from those in more than the order of members. */
  lemma TamperingDetectedExactly(h: Digest, built: Leaves, found: Leaves, checks: bool, live: Text)
    requires Hexadecimal(h) && AllSerializable(built) && AllSerializable(found)
    requires CollisionFree(h, Hashed(h, built) + Hashed(h, found))
    ensures VerifyState(h, Root(h, built).value, found, checks, live) == Ok(TamperDetected) <==> !SameLeaves(built, found)
  {
    if SameLeaves(built, found) {
      RootIgnoresOrder(h, built, found);
    } else if Root(h, built) == Root(h, found) {
      RootBindsLeaves(h, built, found);
    }
  }

  /** What each verdict means. */
  lemma VerdictExactly(h: Digest, claimed: Text, l: Leaves, checks: bool, live: Text)
    requires AllSerializable(l)
    ensures var r := VerifyState(h, claimed, l, checks, live);
            && (r == Ok(TamperDetected) <==> Ok(claimed) != Root(h, l))
            && (r == Ok(Trusted) <==> Ok(claimed) == Root(h, l) && checks && claimed == live)
            && (r == Ok(Degraded) <==> Ok(claimed) == Root(h, l) && !checks)
            && (r == Ok(DriftDetected) <==> Ok(claimed) == Root(h, l) && checks && claimed != live)
  {
  }

  /** Five digests of 64 characters stand under the root, those of posture, substrate, provenance, policy and evidence,
      in this order. */
  lemma LeafOrder(h: Digest, l: Leaves)
    requires Hexadecimal(h) && AllSerializable(l)
    ensures var t := Concatenated(h, l);
            && Root(h, l) == Ok(h(Utf8(t))) && |t| == 320
            && t[..64] == LeafHash(h, l.posture) && t[64..128] == LeafHash(h, l.substrate)
            && t[128..192] == LeafHash(h, l.provenance) && t[192..256] == LeafHash(h, l.policy)
            && t[256..] == LeafHash(h, l.evidence)
  {
    var a5 := LeafHash(h, l.evidence);
    var a4 := LeafHash(h, l.policy) + a5;
    var a3 := LeafHash(h, l.provenance) + a4;
    var a2 := LeafHash(h, l.substrate) + a3;
    Cut(LeafHash(h, l.posture), a2);
    Cut(LeafHash(h, l.substrate), a3);
    Cut(LeafHash(h, l.provenance), a4);
    Cut(LeafHash(h, l.policy), a5);
  }

  lemma Cut(a: Text, x: Text)
    requires |a| == 64
    ensures (a + x)[..64] == a && (a + x)[64..] == x
    ensures forall i, j :: 0 <= i <= j <= |x| ==> (a + x)[64 + i..64 + j] == x[i..j]
  {
  }

  // ---- transition proofs

  function ProofText(h: Digest, parent: Text, transaction: Value, child: Text): Text
    requires Serializable(transaction)
  {
    parent + (LeafHash(h, transaction) + child)
  }

  function TransitionProof(h: Digest, parent: Text, transaction: Value, child: Text): Result<Text> {
    if !Serializable(transaction) || !NoSurrogates(parent) || !NoSurrogates(child) then Err
    else Ok(h(Utf8(ProofText(h, parent, transaction, child))))
  }

  /** Parent root, digest of the transaction and child root stand under a proof, in this order. */
  lemma ProofOrder(h: Digest, parent: Text, transaction: Value, child: Text)
    requires Hexadecimal(h) && TransitionProof(h, parent, transaction, child).Ok?
    ensures var t, n := ProofText(h, parent, transaction, child), |parent|;
            && TransitionProof(h, parent, transaction, child) == Ok(h(Utf8(t))) && |t| == n + 64 + |child|
            && t[..n] == parent && t[n..n + 64] == LeafHash(h, transaction) && t[n + 64..] == child
  {
  }

  /** Between roots of equal length, one proof serves one transition: the same parent, child and transaction. */
  lemma ProofBindsTransition(h: Digest, p: Text, t: Value, c: Text, q: Text, u: Value, d: Text)
    requires Hexadecimal(h) && |p| == |q|
    requires TransitionProof(h, p, t, c).Ok? && TransitionProof(h, p, t, c) == TransitionProof(h, q, u, d)
    requires CollisionFree(h, {Utf8(Serialize(t)), Utf8(Serialize(u)), Utf8(ProofText(h, p, t, c)), Utf8(ProofText(h, q, u, d))})
    ensures p == q && c == d && Serializable(t) && Serializable(u) && Alike(t, u)
  {
    var x, y := LeafHash(h, t) + c, LeafHash(h, u) + d;
    Utf8Injective(p + x, q + y);
    SplitText(p, x, q, y);
    SplitText(LeafHash(h, t), c, LeafHash(h, u), d);
    SameHashSameLeaf(h, t, u);
  }
}

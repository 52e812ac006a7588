/** Signatures over the canonical bytes of a payload. */
module SignedPayloads {
  import opened Wrappers
  import opened Numbers
  import opened Decimal
  import opened CanonicalJson
  import opened Ed25519

  function SignCanonical(s: Scheme, H: Hash, payload: Json, sk: seq<Byte>): Result<seq<Byte>>
    requires Usable(s) && WellFormed(payload)
  {
    match CanonicalBytes(payload)
    case Err => Err
    case Ok(m) => Ok(Sign(s, H, m, sk, PublicKey(s, H, sk)))
  }

  /** A payload that cannot be serialized is not verified. */
  predicate VerifyCanonical(s: Scheme, H: Hash, payload: Json, sig: seq<Byte>, pk: seq<Byte>)
    requires s.curve.q >= 2 && s.order > 0 && WellFormed(payload)
  {
    match CanonicalBytes(payload)
    case Err => false
    case Ok(m) => Verify(s, H, sig, m, pk)
  }

  /** Verification accepts what signing made, whatever the order in which the payload's members were inserted. */
  lemma SignedPayloadVerifies(s: Scheme, H: Hash, payload: Json, other: Json, sk: seq<Byte>)
    requires Usable(s) && OrderAnnihilates(s)
    requires WellFormed(payload) && WellFormed(other) && Serializable(payload) && Serializable(other) && Alike(payload, other)
    ensures SignCanonical(s, H, payload, sk).Ok?
    ensures s.curve.q >= 2 && VerifyCanonical(s, H, other, SignCanonical(s, H, payload, sk).value, PublicKey(s, H, sk))
  {
    CanonicalBytesIgnoreOrder(payload, other);
    VerifyAcceptsSign(s, H, CanonicalBytes(payload).value, sk);
  }

  lemma {:induction false} SameSelf(v: Json)
    requires WellFormed(v) && Serializable(v)
    ensures Alike(v, v)
    decreases v
  {
    match v
    case Arr(items) => forall i | 0 <= i < |items| ensures Alike(items[i], items[i]) { SameSelf(items[i]); }
    case Obj(ms) =>
      forall i | 0 <= i < |ms| ensures HasAlike(v, i, v) {
        SameSelf(ms[i].value);
      }
    case _ =>
  }
}

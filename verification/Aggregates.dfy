/** Aggregate signatures, idealised. A signature is the collection of the (validator, payload) pairs that
    were added up in it, or bytes that do not decode; it verifies against a set of validators and a payload
    exactly if it is made of one signature of that payload by each of them. */
module Aggregates {
  import opened Quorum

  datatype Sig<P(==)> = Malformed | Sum(parts: multiset<(nat, P)>)

  /** A validator's own signature. */
  function SignedBy<P>(i: nat, payload: P): Sig<P> {
    Sum(multiset{(i, payload)})
  }

  /** The signatures of `who`, each of its own payload. */
  ghost function Own<P>(payloads: map<nat, P>, who: set<nat>): set<(nat, P)>
    requires who <= payloads.Keys
  {
    set i | i in who :: (i, payloads[i])
  }

  ghost function Aggregate<P>(payloads: map<nat, P>, who: set<nat>): Sig<P>
    requires who <= payloads.Keys
  {
    Sum(multiset(Own(payloads, who)))
  }

  /** The indices that fit a bit array of `total` bits. */
  ghost function Within(who: set<nat>, total: nat): set<nat> {
    set i | i in who && i < total
  }

  /** One signature of `payload` by each of `who`. */
  ghost function Expected<P>(who: set<nat>, payload: P): set<(nat, P)> {
    set i | i in who :: (i, payload)
  }

  ghost predicate VerifyAggSig<P>(size: nat, who: set<nat>, payload: P, sig: Sig<P>) {
    who != {} && Validators(who, size) && sig == Sum(multiset(Expected(who, payload)))
  }

  lemma AggregateOne<P>(payloads: map<nat, P>, i: nat)
    requires i in payloads
    ensures Aggregate(payloads, {i}) == SignedBy(i, payloads[i])
  {
    assert Own(payloads, {i}) == {(i, payloads[i])};
  }

  lemma AggregateMore<P>(payloads: map<nat, P>, who: set<nat>, i: nat)
    requires who <= payloads.Keys && i in payloads && i !in who
    ensures Aggregate(payloads, who).Sum?
    ensures Aggregate(payloads, who + {i}) ==
            Sum(Aggregate(payloads, who).parts + SignedBy(i, payloads[i]).parts)
  {
    assert Own(payloads, who + {i}) == Own(payloads, who) + {(i, payloads[i])};
  }

  /** What was aggregated verifies against the bits that were set, exactly if somebody signed, and every signer has
      a bit and signed the payload. */
  lemma VerifiesIff<P>(payloads: map<nat, P>, who: set<nat>, size: nat, payload: P)
    requires who <= payloads.Keys
    ensures VerifyAggSig(size, Within(who, size), payload, Aggregate(payloads, who)) <==>
            who != {} && Validators(who, size) && forall i | i in who :: payloads[i] == payload
  {
    var bits := Within(who, size);
    if who != {} && Validators(who, size) && forall i | i in who :: payloads[i] == payload {
      assert bits == who;
      assert Own(payloads, who) == Expected(bits, payload);
    }
    if VerifyAggSig(size, bits, payload, Aggregate(payloads, who)) {
      forall i | i in who
        ensures i < size && payloads[i] == payload
      {
        assert (i, payloads[i]) in Own(payloads, who);
        assert (i, payloads[i]) in multiset(Expected(bits, payload));
      }
    }
  }

  lemma SignerFound<P>(size: nat, who: set<nat>, payload: P, sig: Sig<P>, i: nat)
    requires VerifyAggSig(size, who, payload, sig) && i in who
    ensures (i, payload) in sig.parts
  {
    assert (i, payload) in Expected(who, payload);
  }
}

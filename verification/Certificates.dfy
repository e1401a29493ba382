/** Quorum certificates: votes for one block are aggregated into a certificate that any node with the same
    validator set can verify. */
module Certificates {
  import opened Aggregates
  import opened Common
  import opened Quorum
  import opened Voting

  datatype Vote = Vote(epoch: nat, view: nat, hash: Hash, number: nat, blockIndex: nat, validator: nat, sig: Sig<Payload>)

  datatype QuorumCert = QuorumCert(epoch: nat, view: nat, hash: Hash, number: nat, blockIndex: nat, step: Step,
                                   validators: set<nat>, sig: Sig<Payload>)

  function PayloadOf(step: Step, v: Vote): Payload {
    Payload(v.epoch, v.view, v.hash, v.number, v.blockIndex, step)
  }

  function CertPayload(qc: QuorumCert): Payload {
    Payload(qc.epoch, qc.view, qc.hash, qc.number, qc.blockIndex, qc.step)
  }

  /** The comparison made while aggregating; it leaves out the view. */
  predicate EqualState(a: Vote, b: Vote) {
    a.epoch == b.epoch && a.hash == b.hash && a.number == b.number && a.blockIndex == b.blockIndex
  }

  /** Votes are filed under the index of their validator, each carrying its validator's own signature
      unless the bytes do not decode. */
  ghost predicate Filed(step: Step, votes: map<nat, Vote>) {
    forall i | i in votes ::
      && votes[i].validator == i
      && (votes[i].sig == Malformed || votes[i].sig == SignedBy(i, PayloadOf(step, votes[i])))
  }

  ghost predicate Agree(votes: map<nat, Vote>) {
    forall i, j | i in votes && j in votes :: EqualState(votes[i], votes[j])
  }

  ghost predicate SameView(votes: map<nat, Vote>) {
    forall i, j | i in votes && j in votes :: votes[i].view == votes[j].view
  }

  ghost predicate Decodable(votes: map<nat, Vote>) {
    forall i | i in votes :: votes[i].sig.Sum?
  }

  ghost function Payloads(step: Step, votes: map<nat, Vote>): map<nat, Payload> {
    map i | i in votes :: PayloadOf(step, votes[i])
  }

  /** The certificate that `lead` being the first vote gives. */
  ghost function Cert(step: Step, votes: map<nat, Vote>, total: nat, lead: nat): QuorumCert
    requires lead in votes
  {
    var v := votes[lead];
    QuorumCert(v.epoch, v.view, v.hash, v.number, v.blockIndex, step,
               Within(votes.Keys, total), Aggregate(Payloads(step, votes), votes.Keys))
  }

  /** What the aggregation has when it has taken in the votes of `added`. */
  ghost predicate Gathered(step: Step, votes: map<nat, Vote>, total: nat, lead: nat, added: set<nat>,
                           aggSig: Sig<Payload>, vSet: set<nat>)
  {
    && lead in added && added <= votes.Keys
    && (forall i | i in added :: EqualState(votes[lead], votes[i]) && votes[i].sig.Sum?)
    && aggSig == Aggregate(Payloads(step, votes), added) && vSet == Within(added, total)
  }

  lemma GatherFirst(step: Step, votes: map<nat, Vote>, total: nat, lead: nat)
    requires Filed(step, votes) && lead in votes && votes[lead].sig.Sum?
    ensures Gathered(step, votes, total, lead, {lead}, votes[lead].sig, if lead < total then {lead} else {})
  {
    AggregateOne(Payloads(step, votes), lead);
  }

  lemma GatherMore(step: Step, votes: map<nat, Vote>, total: nat, lead: nat, added: set<nat>,
                   aggSig: Sig<Payload>, vSet: set<nat>, k: nat)
    requires Filed(step, votes) && Gathered(step, votes, total, lead, added, aggSig, vSet)
    requires k in votes && k !in added && EqualState(votes[lead], votes[k]) && votes[k].sig.Sum?
    ensures aggSig.Sum?
    ensures Gathered(step, votes, total, lead, added + {k}, Sum(aggSig.parts + votes[k].sig.parts),
                     if k < total then vSet + {k} else vSet)
  {
    hide Aggregate;
    AggregateMore(Payloads(step, votes), added, k);
  }

  lemma GatheredAll(step: Step, votes: map<nat, Vote>, total: nat, lead: nat, aggSig: Sig<Payload>, vSet: set<nat>)
    requires Gathered(step, votes, total, lead, votes.Keys, aggSig, vSet)
    ensures Agree(votes) && Decodable(votes)
    ensures var v := votes[lead];
            QuorumCert(v.epoch, v.view, v.hash, v.number, v.blockIndex, step, vSet, aggSig) == Cert(step, votes, total, lead)
  {
  }

  /** All votes but those of `rest` are visited; the leading one counts as added from the start. */
  ghost predicate Visited(votes: map<nat, Vote>, rest: set<nat>, lead: nat, added: set<nat>) {
    lead in votes && rest <= votes.Keys && added == votes.Keys - rest + {lead}
  }

  lemma VisitedNone(votes: map<nat, Vote>, lead: nat)
    requires lead in votes
    ensures Visited(votes, votes.Keys, lead, {lead})
  {
  }

  lemma Visit(votes: map<nat, Vote>, rest: set<nat>, lead: nat, added: set<nat>, k: nat)
    requires Visited(votes, rest, lead, added) && k in rest
    ensures k in votes && Visited(votes, rest - {k}, lead, added + {k})
    ensures if k == lead then added + {k} == added else k !in added
  {
  }

  lemma VisitedAll(votes: map<nat, Vote>, lead: nat, added: set<nat>)
    requires Visited(votes, {}, lead, added)
    ensures added == votes.Keys
  {
  }

  lemma NoCertificate(votes: map<nat, Vote>, i: nat, k: nat)
    requires i in votes && k in votes
    ensures votes[k].sig == Malformed || !EqualState(votes[i], votes[k]) ==> !Agree(votes) || !Decodable(votes)
  {
  }

  lemma FiledUnder(step: Step, votes: map<nat, Vote>, i: nat, k: nat)
    requires Filed(step, votes) && i in votes && k in votes
    ensures votes[i].validator == votes[k].validator <==> i == k
  {
  }

  /** Aggregates votes. The votes are visited in any order, the first one visited giving the fields of the
      certificate. There is no certificate exactly if there are no votes, two of them disagree, or a
      signature does not decode. */
  method GenerateQC(step: Step, votes: map<nat, Vote>, total: nat) returns (qc: Option<QuorumCert>)
    requires Filed(step, votes)
    ensures qc.Some? <==> votes != map[] && Agree(votes) && Decodable(votes)
    ensures qc.Some? ==> exists lead | lead in votes :: qc.value == Cert(step, votes, total, lead)
  {
    hide Gathered, Cert, EqualState, Filed, Agree, Decodable, Visited;
    if votes == map[] {
      return None;
    }
    var lead :| lead in votes;
    var vote := votes[lead];
    NoCertificate(votes, lead, lead);
    if vote.sig == Malformed {
      return None;
    }
    var aggSig := vote.sig;
    var vSet: set<nat> := if lead < total then {lead} else {};
    GatherFirst(step, votes, total, lead);
    var rest: set<nat> := votes.Keys;
    ghost var added: set<nat> := {lead};
    VisitedNone(votes, lead);
    while rest != {}
      invariant Visited(votes, rest, lead, added)
      invariant Gathered(step, votes, total, lead, added, aggSig, vSet)
      decreases |rest|
    {
      var k :| k in rest;
      Visit(votes, rest, lead, added, k);
      rest := rest - {k};
      var p := votes[k];
      NoCertificate(votes, lead, k);
      FiledUnder(step, votes, lead, k);
      if !EqualState(vote, p) {
        return None;
      }
      if p.validator != vote.validator {
        if p.sig == Malformed {
          return None;
        }
        GatherMore(step, votes, total, lead, added, aggSig, vSet, k);
        aggSig := Sum(aggSig.parts + p.sig.parts);
        if k < total {
          vSet := vSet + {k};
        }
      }
      added := added + {k};
    }
    VisitedAll(votes, lead, added);
    GatheredAll(step, votes, total, lead, aggSig, vSet);
    qc := Some(QuorumCert(vote.epoch, vote.view, vote.hash, vote.number, vote.blockIndex, step, vSet, aggSig));
  }

  /** The validator set a node holds for the epoch of a certificate: `epoch` is the node's own. */
  datatype Pool = Pool(epoch: nat, size: nat)

  /** The checks on a received certificate for block `number`, `hash`. */
  ghost predicate VerifyQC(pool: Pool, number: nat, hash: Hash, qc: QuorumCert) {
    && (qc.epoch == pool.epoch || qc.epoch + 1 == pool.epoch)
    && |qc.validators| >= Threshold(pool.size)
    && number == qc.number && hash == qc.hash
    && VerifyAggSig(pool.size, qc.validators, CertPayload(qc), qc.sig)
  }

  /** Whichever vote is visited first, the certificate is the same, exactly if the votes share the view. */
  lemma CertificateDetermined(step: Step, votes: map<nat, Vote>, total: nat)
    requires Agree(votes)
    ensures SameView(votes) <==>
            forall i, j | i in votes && j in votes :: Cert(step, votes, total, i) == Cert(step, votes, total, j)
  {
    hide Aggregate, Within;
    if SameView(votes) {
      forall i, j | i in votes && j in votes
        ensures Cert(step, votes, total, i) == Cert(step, votes, total, j)
      {
        assert EqualState(votes[i], votes[j]);
      }
    } else {
      var i, j :| i in votes && j in votes && votes[i].view != votes[j].view;
      assert Cert(step, votes, total, i) != Cert(step, votes, total, j);
    }
  }

  /** A certificate that is accepted for two blocks, by whatever nodes, is accepted for one block twice. */
  lemma OneBlockEach(pool: Pool, pool': Pool, number: nat, number': nat, hash: Hash, hash': Hash, qc: QuorumCert)
    requires VerifyQC(pool, number, hash, qc) && VerifyQC(pool', number', hash', qc)
    ensures number == number' && hash == hash'
  {
  }

  /** All votes are for this block, in the node's own epoch or the one before. */
  ghost predicate VotedFor(votes: map<nat, Vote>, pool: Pool, number: nat, hash: Hash) {
    forall i | i in votes ::
      votes[i].number == number && votes[i].hash == hash && votes[i].epoch <= pool.epoch <= votes[i].epoch + 1
  }

  /** A certificate made of agreeing votes is accepted for a block by a node with the same validators, exactly if
      that is the block voted for, the epoch is the node's own or the one before, and the votes reach the
      threshold, come from known validators and share the view. */
  lemma AcceptedIff(step: Step, votes: map<nat, Vote>, pool: Pool, lead: nat, number: nat, hash: Hash)
    requires lead in votes && Agree(votes)
    ensures VerifyQC(pool, number, hash, Cert(step, votes, pool.size, lead)) <==>
            && VotedFor(votes, pool, number, hash) && SameView(votes)
            && |votes| >= Threshold(pool.size) && Validators(votes.Keys, pool.size)
  {
    hide VerifyAggSig, Aggregate;
    var qc := Cert(step, votes, pool.size, lead);
    assert votes[lead].number == qc.number && votes[lead].hash == qc.hash && votes[lead].epoch == qc.epoch;
    VerifiesIff(Payloads(step, votes), votes.Keys, pool.size, CertPayload(qc));
    assert forall i | i in votes :: EqualState(votes[lead], votes[i]);
    assert (forall i | i in votes :: PayloadOf(step, votes[i]) == CertPayload(qc)) <==> SameView(votes);
    if Validators(votes.Keys, pool.size) {
      assert qc.validators == votes.Keys;
      assert |votes.Keys| == |votes|;
    }
  }

  /** What happens when a vote arrives: at the threshold the votes are aggregated. A certificate that comes
      out is accepted for the block voted for and no other, exactly if all votes filed are of one view. */
  method FindQC(step: Step, votes: map<nat, Vote>, pool: Pool) returns (qc: Option<QuorumCert>)
    requires Filed(step, votes) && Validators(votes.Keys, pool.size)
    ensures qc.Some? <==> votes != map[] && |votes| >= Threshold(pool.size) && Agree(votes) && Decodable(votes)
    ensures qc.Some? ==>
              forall number, hash :: VerifyQC(pool, number, hash, qc.value) <==>
                                     VotedFor(votes, pool, number, hash) && SameView(votes)
    ensures qc.Some? ==> qc.value.validators == votes.Keys && qc.value.step == step
  {
    hide VerifyQC, SameView, VotedFor, Agree, Decodable, Filed;
    qc := None;
    if |votes| >= Threshold(pool.size) {
      qc := GenerateQC(step, votes, pool.size);
      if qc.Some? {
        ghost var lead :| lead in votes && qc.value == Cert(step, votes, pool.size, lead);
        forall number, hash
          ensures VerifyQC(pool, number, hash, qc.value) <==> VotedFor(votes, pool, number, hash) && SameView(votes)
        {
          AcceptedIff(step, votes, pool, lead, number, hash);
        }
      }
    }
  }

  // ----- Uniqueness

  /** What each validator has signed in a step. A validator that is not faulty signs what it sends, slot
      after slot; nobody else can sign for it. */
  ghost predicate Unforged(qc: QuorumCert, faulty: set<nat>, signed: (nat, Step) -> seq<Payload>)
  {
    qc.sig.Sum? &&
    forall i: nat | i !in faulty && (i, CertPayload(qc)) in qc.sig.parts :: CertPayload(qc) in signed(i, qc.step)
  }

  /** No two blocks of one number have certificates that pass verification in the same step, epoch and view, if at
      most a third of the validators are faulty and the others send votes by the rule. */
  lemma CertificateUnique(pool: Pool, pool': Pool, number: nat, hash: Hash, hash': Hash, qc: QuorumCert,
                          qc': QuorumCert, faulty: set<nat>, signed: (nat, Step) -> seq<Payload>)
    requires pool.size == pool'.size && |faulty| <= MaxFaulty(pool.size)
    requires forall i: nat, step | i !in faulty :: Increasing(signed(i, step))
    requires VerifyQC(pool, number, hash, qc) && Unforged(qc, faulty, signed)
    requires VerifyQC(pool', number, hash', qc') && Unforged(qc', faulty, signed)
    requires qc.step == qc'.step && qc.epoch == qc'.epoch && qc.view == qc'.view
    ensures hash == hash' && CertPayload(qc) == CertPayload(qc')
  {
    var i := HonestInBoth(pool.size, qc.validators, qc'.validators, faulty);
    SignerFound(pool.size, qc.validators, CertPayload(qc), qc.sig, i);
    SignerFound(pool.size, qc'.validators, CertPayload(qc'), qc'.sig, i);
    var sent := signed(i, qc.step);
    SentOnce(sent, CertPayload(qc), CertPayload(qc'));
  }

  lemma SentOnce(sent: seq<Payload>, p: Payload, q: Payload)
    requires Increasing(sent) && p in sent && q in sent && SameSlot(p, q)
    ensures p == q
  {
    assert forall a, b | 0 <= a < b < |sent| :: Before(sent[a], sent[b]) && !SameSlot(sent[a], sent[b]);
  }

  /** Two votes for one block that differ in the view only. */
  const MIXED: map<nat, Vote> :=
    map[0 := Vote(1, 1, 9, 5, 0, 0, SignedBy(0, Payload(1, 1, 9, 5, 0, PrepareVoteStep))),
        1 := Vote(1, 2, 9, 5, 0, 1, SignedBy(1, Payload(1, 2, 9, 5, 0, PrepareVoteStep)))]

  /** They are aggregated into a certificate that no node accepts. */
  lemma MixedViewsRejected(lead: nat)
    requires lead in MIXED
    ensures Filed(PrepareVoteStep, MIXED) && Agree(MIXED) && Decodable(MIXED) && |MIXED| >= Threshold(2)
    ensures !VerifyQC(Pool(1, 2), 5, 9, Cert(PrepareVoteStep, MIXED, 2, lead))
  {
    hide VerifyQC, Cert, VotedFor;
    assert MIXED.Keys == {0, 1};
    assert |MIXED.Keys| == |MIXED|;
    assert MIXED[0].view != MIXED[1].view;
    AcceptedIff(PrepareVoteStep, MIXED, Pool(1, 2), lead, 5, 9);
  }
}

/** View-change certificates: the view changes of one view are grouped by the block they report, one
    certificate for each block. */
module ViewChange {
  import opened Aggregates
  import opened Common
  import opened Quorum

  type Hash = nat

  /** A view change; `prepareQC` is the epoch and view of the certificate it carries for its block. */
  datatype Message = Message(epoch: nat, view: nat, hash: Hash, number: nat, prepareQC: Option<(nat, nat)>,
                             validator: nat, sig: Sig<Payload>)

  datatype Payload = Payload(epoch: nat, view: nat, hash: Hash, number: nat, blockEpoch: nat, blockView: nat)

  /** The signed fields, the validators and their signature. */
  datatype Cert = Cert(body: Payload, validators: set<nat>, sig: Sig<Payload>)

  function PayloadOf(m: Message): Payload {
    var (blockEpoch, blockView) := if m.prepareQC == None then (0, 0) else m.prepareQC.value;
    Payload(m.epoch, m.view, m.hash, m.number, blockEpoch, blockView)
  }

  type Votes = map<nat, Message>

  /** View changes are filed under the index of their validator, each carrying its validator's own
      signature unless the bytes do not decode. */
  ghost predicate Filed(votes: Votes) {
    forall i | i in votes ::
      votes[i].validator == i && (votes[i].sig == Malformed || votes[i].sig == SignedBy(i, PayloadOf(votes[i])))
  }

  ghost predicate Decodable(votes: Votes) {
    forall i | i in votes :: votes[i].sig.Sum?
  }

  ghost function Payloads(votes: Votes): map<nat, Payload> {
    map i | i in votes :: PayloadOf(votes[i])
  }

  /** Those of `who` that report block `h`. */
  ghost function Group(votes: Votes, who: set<nat>, h: Hash): set<nat>
    requires who <= votes.Keys
  {
    set i | i in who && votes[i].hash == h
  }

  /** The certificate of the block that `lead` reports, made of the view changes of `who`, with `lead`
      visited first. */
  ghost function CertOf(votes: Votes, total: nat, who: set<nat>, lead: nat): Cert
    requires lead in who && who <= votes.Keys
  {
    var group := Group(votes, who, votes[lead].hash);
    Cert(PayloadOf(votes[lead]), Within(group, total), Aggregate(Payloads(votes), group))
  }

  // ----- Grouping

  /** The certificates after the view changes of `done`: one for each block reported, led by `leads`. */
  ghost predicate Grouped(votes: Votes, total: nat, done: set<nat>, leads: map<Hash, nat>, qcs: map<Hash, Cert>) {
    && done <= votes.Keys
    && leads.Keys == qcs.Keys
    && (forall i | i in done :: votes[i].hash in qcs)
    && forall h | h in qcs ::
         leads[h] in done && votes[leads[h]].hash == h && qcs[h] == CertOf(votes, total, done, leads[h])
  }

  lemma GroupedNone(votes: Votes, total: nat)
    ensures Grouped(votes, total, {}, map[], map[])
  {
  }

  lemma GroupKept(votes: Votes, total: nat, done: set<nat>, k: nat, lead: nat)
    requires done <= votes.Keys && k in votes && lead in done && votes[k].hash != votes[lead].hash
    ensures CertOf(votes, total, done + {k}, lead) == CertOf(votes, total, done, lead)
  {
    assert Group(votes, done + {k}, votes[lead].hash) == Group(votes, done, votes[lead].hash);
  }

  lemma GroupGrown(votes: Votes, total: nat, done: set<nat>, k: nat, lead: nat)
    requires Filed(votes) && done <= votes.Keys && k in votes && k !in done && lead in done
    requires votes[k].hash == votes[lead].hash && votes[k].sig.Sum?
    ensures CertOf(votes, total, done, lead).sig.Sum?
    ensures var c := CertOf(votes, total, done, lead);
            CertOf(votes, total, done + {k}, lead) ==
            Cert(c.body, if k < total then c.validators + {k} else c.validators, Sum(c.sig.parts + votes[k].sig.parts))
  {
    hide Aggregate;
    var h := votes[lead].hash;
    assert Group(votes, done + {k}, h) == Group(votes, done, h) + {k};
    AggregateMore(Payloads(votes), Group(votes, done, h), k);
  }

  lemma GroupStarted(votes: Votes, total: nat, done: set<nat>, k: nat)
    requires Filed(votes) && done <= votes.Keys && k in votes && votes[k].sig.Sum?
    requires forall i | i in done :: votes[i].hash != votes[k].hash
    ensures CertOf(votes, total, done + {k}, k) ==
            Cert(PayloadOf(votes[k]), if k < total then {k} else {}, votes[k].sig)
  {
    hide Aggregate;
    assert Group(votes, done + {k}, votes[k].hash) == {k};
    AggregateOne(Payloads(votes), k);
  }

  /** A view change joins the certificate of its block. */
  lemma Join(votes: Votes, total: nat, done: set<nat>, leads: map<Hash, nat>, qcs: map<Hash, Cert>, k: nat)
    requires Filed(votes) && Grouped(votes, total, done, leads, qcs) && k in votes && k !in done
    requires votes[k].sig.Sum? && votes[k].hash in qcs
    ensures qcs[votes[k].hash].sig.Sum?
    ensures var h := votes[k].hash;
            var c := qcs[h];
            var c' := Cert(c.body, if k < total then c.validators + {k} else c.validators,
                           Sum(c.sig.parts + votes[k].sig.parts));
            Grouped(votes, total, done + {k}, leads, qcs[h := c'])
  {
    hide CertOf, Filed;
    GroupGrown(votes, total, done, k, leads[votes[k].hash]);
    forall h | h in qcs && h != votes[k].hash
      ensures CertOf(votes, total, done + {k}, leads[h]) == qcs[h]
    {
      GroupKept(votes, total, done, k, leads[h]);
    }
  }

  /** The first view change for a block starts its certificate. */
  lemma Start(votes: Votes, total: nat, done: set<nat>, leads: map<Hash, nat>, qcs: map<Hash, Cert>, k: nat)
    requires Filed(votes) && Grouped(votes, total, done, leads, qcs) && k in votes && k !in done
    requires votes[k].sig.Sum? && votes[k].hash !in qcs
    ensures var h := votes[k].hash;
            var c := Cert(PayloadOf(votes[k]), if k < total then {k} else {}, votes[k].sig);
            Grouped(votes, total, done + {k}, leads[h := k], qcs[h := c])
  {
    hide CertOf, Filed;
    GroupStarted(votes, total, done, k);
    forall h | h in qcs
      ensures CertOf(votes, total, done + {k}, leads[h]) == qcs[h]
    {
      GroupKept(votes, total, done, k, leads[h]);
    }
  }

  /** All view changes but those of `rest` are visited, and decode. */
  ghost predicate Visited(votes: Votes, rest: set<nat>, done: set<nat>) {
    rest <= votes.Keys && done == votes.Keys - rest && forall i | i in done :: votes[i].sig.Sum?
  }

  lemma Visit(votes: Votes, rest: set<nat>, done: set<nat>, k: nat)
    requires Visited(votes, rest, done) && k in rest
    ensures k in votes && k !in done
    ensures if votes[k].sig == Malformed then !Decodable(votes) else Visited(votes, rest - {k}, done + {k})
  {
  }

  lemma VisitedEnds(votes: Votes)
    ensures Visited(votes, votes.Keys, {})
    ensures forall done | Visited(votes, {}, done) :: done == votes.Keys && Decodable(votes)
  {
  }

  method GroupMessages(votes: Votes, total: nat) returns (ok: bool, qcs: map<Hash, Cert>, ghost leads: map<Hash, nat>)
    requires Filed(votes)
    ensures ok <==> Decodable(votes)
    ensures ok ==> Grouped(votes, total, votes.Keys, leads, qcs)
  {
    hide Filed, Grouped, Visited, Decodable, PayloadOf;
    ok, qcs, leads := true, map[], map[];
    var rest: set<nat> := votes.Keys;
    ghost var done: set<nat> := {};
    GroupedNone(votes, total);
    VisitedEnds(votes);
    while rest != {}
      invariant Visited(votes, rest, done) && Grouped(votes, total, done, leads, qcs)
      decreases |rest|
    {
      var k :| k in rest;
      Visit(votes, rest, done, k);
      rest := rest - {k};
      var v := votes[k];
      if v.sig == Malformed {
        return false, qcs, leads;
      }
      if v.hash !in qcs {
        Start(votes, total, done, leads, qcs, k);
        qcs := qcs[v.hash := Cert(PayloadOf(v), if k < total then {k} else {}, v.sig)];
        leads := leads[v.hash := k];
      } else {
        Join(votes, total, done, leads, qcs, k);
        var c := qcs[v.hash];
        qcs := qcs[v.hash := Cert(c.body, if k < total then c.validators + {k} else c.validators,
                                  Sum(c.sig.parts + v.sig.parts))];
      }
      done := done + {k};
    }
  }

  // ----- The certificates of a view change

  /** The certificate of one of the blocks reported. */
  ghost predicate Led(votes: Votes, total: nat, c: Cert) {
    exists lead | lead in votes :: c == CertOf(votes, total, votes.Keys, lead)
  }

  ghost predicate DistinctHashes(certs: seq<Cert>) {
    forall a, b | 0 <= a < b < |certs| :: certs[a].body.hash != certs[b].body.hash
  }

  ghost predicate Reported(certs: seq<Cert>, h: Hash) {
    exists a | 0 <= a < |certs| :: certs[a].body.hash == h
  }

  /** One certificate for each block reported. */
  ghost predicate Generated(votes: Votes, total: nat, certs: seq<Cert>) {
    && (forall a | 0 <= a < |certs| :: Led(votes, total, certs[a]))
    && DistinctHashes(certs)
    && forall i | i in votes :: Reported(certs, votes[i].hash)
  }

  /** A certificate says what one of the view changes it is made of says. */
  lemma CertFields(votes: Votes, total: nat, c: Cert)
    requires Led(votes, total, c)
    ensures exists i | i in votes ::
              && c.body.epoch == votes[i].epoch && c.body.view == votes[i].view
              && c.body.hash == votes[i].hash && c.body.number == votes[i].number
              && (c.body.blockEpoch, c.body.blockView) ==
                 if votes[i].prepareQC.Some? then votes[i].prepareQC.value else (0, 0)
  {
    var i :| i in votes && c == CertOf(votes, total, votes.Keys, i);
  }

  /** Aggregates view changes, visited in any order. There is no result exactly if a signature does not
      decode. */
  method GenerateViewChangeQC(votes: Votes, total: nat) returns (r: Option<seq<Cert>>)
    requires Filed(votes)
    ensures r.Some? <==> Decodable(votes)
    ensures r.Some? ==> Generated(votes, total, r.value)
  {
    hide Filed, Grouped, Decodable, Generated;
    var ok, qcs, leads := GroupMessages(votes, total);
    if !ok {
      return None;
    }
    var certs := ListCerts(qcs);
    GroupedLists(votes, total, leads, qcs, certs);
    r := Some(certs);
  }

  /** `certs` lists the values of `qcs` under the keys `listed`, each once. */
  ghost predicate Lists(qcs: map<Hash, Cert>, listed: seq<Hash>, certs: seq<Cert>) {
    && |certs| == |listed|
    && (forall a | 0 <= a < |listed| :: listed[a] in qcs && certs[a] == qcs[listed[a]])
    && (forall a, b | 0 <= a < b < |listed| :: listed[a] != listed[b])
  }

  method ListCerts(qcs: map<Hash, Cert>) returns (certs: seq<Cert>)
    ensures exists listed :: Lists(qcs, listed, certs) && forall h | h in qcs :: h in listed
  {
    certs := [];
    var rest: set<Hash> := qcs.Keys;
    ghost var listed: seq<Hash> := [];
    while rest != {}
      invariant rest <= qcs.Keys && Lists(qcs, listed, certs)
      invariant forall h | h in qcs :: h in listed <==> h !in rest
      decreases |rest|
    {
      var h :| h in rest;
      rest := rest - {h};
      certs, listed := certs + [qcs[h]], listed + [h];
    }
  }

  lemma GroupedLists(votes: Votes, total: nat, leads: map<Hash, nat>, qcs: map<Hash, Cert>, certs: seq<Cert>)
    requires Grouped(votes, total, votes.Keys, leads, qcs)
    requires exists listed :: Lists(qcs, listed, certs) && forall h | h in qcs :: h in listed
    ensures Generated(votes, total, certs)
  {
    var listed :| Lists(qcs, listed, certs) && forall h | h in qcs :: h in listed;
    forall a | 0 <= a < |certs|
      ensures Led(votes, total, certs[a]) && certs[a].body.hash == listed[a]
    {
      assert certs[a] == CertOf(votes, total, votes.Keys, leads[listed[a]]);
    }
    forall i | i in votes
      ensures Reported(certs, votes[i].hash)
    {
      var a :| 0 <= a < |listed| && listed[a] == votes[i].hash;
      assert certs[a].body.hash == votes[i].hash;
    }
  }

  function TotalLen(certs: seq<Cert>): nat {
    if certs == [] then 0 else TotalLen(certs[..|certs| - 1]) + |certs[|certs| - 1].validators|
  }

  /** Some certificate has validator `i`. */
  ghost predicate Signs(certs: seq<Cert>, i: nat) {
    exists a | 0 <= a < |certs| :: i in certs[a].validators
  }

  /** The validators of each certificate are the voters that report its block, and there are some. */
  ghost predicate Sorted(votes: Votes, certs: seq<Cert>) {
    && DistinctHashes(certs)
    && (forall a | 0 <= a < |certs| :: certs[a].validators != {})
    && forall a, i | 0 <= a < |certs| ::
         i in certs[a].validators <==> i in votes && votes[i].hash == certs[a].body.hash
  }

  lemma GeneratedSorted(votes: Votes, total: nat, certs: seq<Cert>)
    requires Generated(votes, total, certs) && Validators(votes.Keys, total)
    ensures Sorted(votes, certs)
  {
    hide Led, Reported, Validators;
    forall a | 0 <= a < |certs|
      ensures certs[a].validators != {}
      ensures forall i :: i in certs[a].validators <==> i in votes && votes[i].hash == certs[a].body.hash
    {
      LedValidators(votes, total, certs[a]);
    }
  }

  lemma SortedSigns(votes: Votes, certs: seq<Cert>, i: nat)
    requires Sorted(votes, certs) && (i in votes ==> Reported(certs, votes[i].hash))
    ensures Signs(certs, i) <==> i in votes
  {
    if i in votes {
      var a :| 0 <= a < |certs| && certs[a].body.hash == votes[i].hash;
      assert i in certs[a].validators;
    }
  }

  /** The certificates partition the voters: each voter is in the certificate of the block it reports and
      in no other. */
  lemma VotersPartitioned(votes: Votes, total: nat, certs: seq<Cert>)
    requires Generated(votes, total, certs) && Validators(votes.Keys, total)
    ensures Sorted(votes, certs)
    ensures forall i :: Signs(certs, i) <==> i in votes
    ensures TotalLen(certs) == |votes| && |certs| <= |votes|
  {
    hide TotalLen, Led, Covered, Sorted, Signs, Reported, DistinctHashes;
    GeneratedSorted(votes, total, certs);
    forall i
      ensures Signs(certs, i) <==> i in votes
    {
      SortedSigns(votes, certs, i);
    }
    PartitionSize(votes, certs, |certs|);
    assert certs[..|certs|] == certs;
    CoveredAll(votes, certs);
    assert |votes.Keys| == |votes|;
  }

  ghost function Covered(votes: Votes, certs: seq<Cert>): set<nat> {
    set i | i in votes && Reported(certs, votes[i].hash)
  }

  lemma {:induction false} PartitionSize(votes: Votes, certs: seq<Cert>, k: nat)
    requires Sorted(votes, certs) && k <= |certs|
    ensures TotalLen(certs[..k]) == |Covered(votes, certs[..k])| >= k
  {
    hide Covered, Sorted;
    if k == 0 {
      CoveredNone(votes);
      assert certs[..0] == [];
    } else {
      PartitionSize(votes, certs, k - 1);
      assert certs[..k][..k - 1] == certs[..k - 1];
      CoveredMore(votes, certs, k - 1);
    }
  }

  lemma CoveredAll(votes: Votes, certs: seq<Cert>)
    requires forall i | i in votes :: Reported(certs, votes[i].hash)
    ensures Covered(votes, certs) == votes.Keys
  {
  }

  lemma CoveredNone(votes: Votes)
    ensures Covered(votes, []) == {}
  {
  }

  lemma CoveredMore(votes: Votes, certs: seq<Cert>, k: nat)
    requires Sorted(votes, certs) && k < |certs|
    ensures Covered(votes, certs[..k + 1]) == Covered(votes, certs[..k]) + certs[k].validators
    ensures Covered(votes, certs[..k]) !! certs[k].validators && |certs[k].validators| >= 1
  {
    assert certs[..k + 1] == certs[..k] + [certs[k]];
    forall h
      ensures Reported(certs[..k + 1], h) <==> Reported(certs[..k], h) || certs[k].body.hash == h
    {
      if Reported(certs[..k], h) {
        var a :| 0 <= a < k && certs[..k][a].body.hash == h;
        assert certs[..k + 1][a] == certs[a];
      }
      assert certs[..k + 1][k] == certs[k];
    }
    forall i | i in Covered(votes, certs[..k])
      ensures i !in certs[k].validators
    {
      var a :| 0 <= a < k && certs[..k][a].body.hash == votes[i].hash;
    }
  }

  lemma LedValidators(votes: Votes, total: nat, c: Cert)
    requires Led(votes, total, c) && Validators(votes.Keys, total)
    ensures forall i :: i in c.validators <==> i in votes && votes[i].hash == c.body.hash
    ensures c.validators != {}
  {
    var lead :| lead in votes && c == CertOf(votes, total, votes.Keys, lead);
    assert lead in c.validators;
  }

  // ----- Validation

  /** The block of `c` is higher than that of `d`: by number, then by the epoch and view of its own
      certificate. */
  predicate Higher(c: Payload, d: Payload) {
    || c.number > d.number
    || (c.number == d.number &&
        (c.blockEpoch > d.blockEpoch || (c.blockEpoch == d.blockEpoch && c.blockView > d.blockView)))
  }

  /** The certificate of the highest block, or nothing but zeros. */
  method MaxBlock(certs: seq<Cert>) returns (max: Payload)
    ensures certs == [] ==> max == Payload(0, 0, 0, 0, 0, 0)
    ensures certs != [] ==> exists a | 0 <= a < |certs| :: max == certs[a].body
    ensures forall a | 0 <= a < |certs| :: !Higher(certs[a].body, max)
    ensures forall a | 0 <= a < |certs| ::
              && certs[a].body.number <= max.number
              && (certs[a].body.number == max.number ==> certs[a].body.blockEpoch <= max.blockEpoch)
              && (certs[a].body.number == max.number && certs[a].body.blockEpoch == max.blockEpoch ==>
                    certs[a].body.blockView <= max.blockView)
  {
    if certs == [] {
      return Payload(0, 0, 0, 0, 0, 0);
    }
    max := certs[0].body;
    for i := 0 to |certs|
      invariant exists a | 0 <= a < |certs| :: max == certs[a].body
      invariant forall a | 0 <= a < i :: !Higher(certs[a].body, max)
    {
      if Higher(certs[i].body, max) {
        max := certs[i].body;
      }
    }
  }

  method Len(certs: seq<Cert>) returns (length: nat)
    ensures length == TotalLen(certs)
  {
    length := 0;
    for i := 0 to |certs|
      invariant length == TotalLen(certs[..i])
    {
      length := length + |certs[i].validators|;
      assert certs[..i + 1][..i] == certs[..i];
    }
    assert certs[..|certs|] == certs;
  }

  ghost predicate OneView(certs: seq<Cert>) {
    forall a | 0 <= a < |certs| :: certs[a].body.epoch == certs[0].body.epoch && certs[a].body.view == certs[0].body.view
  }

  lemma OneEpoch(certs: seq<Cert>, max: Payload)
    ensures certs != [] && OneView(certs) && (exists a | 0 <= a < |certs| :: max == certs[a].body) ==>
              max.epoch == certs[0].body.epoch
    ensures OneView([]) && DistinctHashes([]) && TotalLen([]) == 0
    ensures forall n: nat :: 0 >= Threshold(n) <==> n == 0
  {
  }

  /** Certificates of one view for distinct blocks, with enough signatures in all. `sizes` gives the number
      of validators of an epoch. */
  ghost predicate Accepted(certs: seq<Cert>, sizes: nat -> nat) {
    if certs == [] then sizes(0) == 0
    else
      && OneView(certs) && DistinctHashes(certs)
      && |certs| <= sizes(certs[0].body.epoch) && TotalLen(certs) >= Threshold(sizes(certs[0].body.epoch))
  }

  method ValidateViewChangeQC(certs: seq<Cert>, sizes: nat -> nat) returns (ok: bool)
    ensures ok <==> Accepted(certs, sizes)
    ensures ok && certs != [] ==>
              && |certs| <= sizes(certs[0].body.epoch) && TotalLen(certs) >= Threshold(sizes(certs[0].body.epoch))
              && forall a, b | 0 <= a < b < |certs| ::
                   && certs[a].body.epoch == certs[b].body.epoch && certs[a].body.view == certs[b].body.view
                   && certs[a].body.hash != certs[b].body.hash
  {
    hide Higher, TotalLen, Threshold, OneView, DistinctHashes;
    var max := MaxBlock(certs);
    OneEpoch(certs, max);
    var maxLimit := sizes(max.epoch);
    var signsTotal := Len(certs);
    if |certs| > maxLimit || signsTotal < Threshold(maxLimit) {
      return false;
    }
    ok := CheckViews(certs);
    if ok {
      AcceptedPairs(certs);
    }
  }

  lemma AcceptedPairs(certs: seq<Cert>)
    requires OneView(certs) && DistinctHashes(certs)
    ensures forall a, b | 0 <= a < b < |certs| ::
              && certs[a].body.epoch == certs[b].body.epoch && certs[a].body.view == certs[b].body.view
              && certs[a].body.hash != certs[b].body.hash
  {
  }

  method CheckViews(certs: seq<Cert>) returns (ok: bool)
    ensures ok <==> OneView(certs) && DistinctHashes(certs)
  {
    var existHash: set<Hash> := {};
    for i := 0 to |certs|
      invariant OneView(certs[..i]) && DistinctHashes(certs[..i])
      invariant forall h :: h in existHash <==> Reported(certs[..i], h)
    {
      var body := certs[i].body;
      if i > 0 && (body.epoch != certs[0].body.epoch || body.view != certs[0].body.view) {
        return false;
      }
      if body.hash in existHash {
        return false;
      }
      existHash := existHash + {body.hash};
      assert certs[..i + 1] == certs[..i] + [certs[i]];
    }
    ok := true;
    assert certs[..|certs|] == certs;
  }

  // ----- What the result of a view change guarantees

  ghost predicate AllOf(votes: Votes, epoch: nat, view: nat) {
    forall i | i in votes :: votes[i].epoch == epoch && votes[i].view == view
  }

  /** The result passes validation exactly if the view changes reach the threshold. */
  lemma GeneratedAccepted(votes: Votes, epoch: nat, view: nat, sizes: nat -> nat, certs: seq<Cert>)
    requires Generated(votes, sizes(epoch), certs) && Validators(votes.Keys, sizes(epoch))
    requires votes != map[] && AllOf(votes, epoch, view)
    ensures Accepted(certs, sizes) <==> |votes| >= Threshold(sizes(epoch))
  {
    hide TotalLen, Sorted, Signs, Reported, DistinctHashes, Threshold;
    VotersPartitioned(votes, sizes(epoch), certs);
    assert |votes.Keys| == |votes|;
    ValidatorsBound(votes.Keys, sizes(epoch));
    assert certs != [] by {
      var i :| i in votes;
      SortedSigns(votes, certs, i);
      SignsSome(certs, i);
    }
    forall a | 0 <= a < |certs|
      ensures certs[a].body.epoch == epoch && certs[a].body.view == view
    {
      LedView(votes, sizes(epoch), certs[a], epoch, view);
    }
  }

  lemma SignsSome(certs: seq<Cert>, i: nat)
    requires Signs(certs, i)
    ensures certs != []
  {
  }

  lemma LedView(votes: Votes, total: nat, c: Cert, epoch: nat, view: nat)
    requires Led(votes, total, c) && AllOf(votes, epoch, view)
    ensures c.body.epoch == epoch && c.body.view == view
  {
  }

  /** The signature check on every certificate. */
  ghost predicate Verified(certs: seq<Cert>, total: nat) {
    forall a | 0 <= a < |certs| :: VerifyAggSig(total, certs[a].validators, certs[a].body, certs[a].sig)
  }

  /** All that report the block of `body` signed `body`. */
  ghost predicate Signed(votes: Votes, body: Payload) {
    forall i | i in votes && votes[i].hash == body.hash :: PayloadOf(votes[i]) == body
  }

  ghost predicate Consistent(votes: Votes) {
    forall i, j | i in votes && j in votes && votes[i].hash == votes[j].hash :: PayloadOf(votes[i]) == PayloadOf(votes[j])
  }

  /** The result also verifies on every node, exactly if voters that report one block agree on everything
      they signed. */
  lemma GeneratedVerified(votes: Votes, total: nat, certs: seq<Cert>)
    requires Generated(votes, total, certs) && Validators(votes.Keys, total)
    ensures Verified(certs, total) <==> Consistent(votes)
  {
    hide VerifyAggSig, DistinctHashes, PayloadOf, Validators, Signed, Led, Reported;
    forall a | 0 <= a < |certs|
      ensures VerifyAggSig(total, certs[a].validators, certs[a].body, certs[a].sig) <==> Signed(votes, certs[a].body)
      ensures Consistent(votes) ==> Signed(votes, certs[a].body)
    {
      LedVerified(votes, total, certs[a]);
      LedConsistent(votes, total, certs[a]);
    }
    if Verified(certs, total) {
      forall i, j | i in votes && j in votes && votes[i].hash == votes[j].hash
        ensures PayloadOf(votes[i]) == PayloadOf(votes[j])
      {
        SignedAlike(votes, certs, i, j);
      }
    }
  }

  lemma SignedAlike(votes: Votes, certs: seq<Cert>, i: nat, j: nat)
    requires i in votes && j in votes && votes[i].hash == votes[j].hash && Reported(certs, votes[i].hash)
    requires forall a | 0 <= a < |certs| :: Signed(votes, certs[a].body)
    ensures PayloadOf(votes[i]) == PayloadOf(votes[j])
  {
    var a :| 0 <= a < |certs| && certs[a].body.hash == votes[i].hash;
    assert Signed(votes, certs[a].body);
  }

  lemma LedConsistent(votes: Votes, total: nat, c: Cert)
    requires Led(votes, total, c)
    ensures Consistent(votes) ==> Signed(votes, c.body)
    ensures exists lead | lead in votes :: c.body == PayloadOf(votes[lead])
  {
  }

  lemma LedVerified(votes: Votes, total: nat, c: Cert)
    requires Led(votes, total, c) && Validators(votes.Keys, total)
    ensures VerifyAggSig(total, c.validators, c.body, c.sig) <==> Signed(votes, c.body)
  {
    hide VerifyAggSig, Aggregate;
    var lead :| lead in votes && c == CertOf(votes, total, votes.Keys, lead);
    var group := Group(votes, votes.Keys, votes[lead].hash);
    assert lead in group && Validators(group, total);
    VerifiesIff(Payloads(votes), group, total, c.body);
    if forall i | i in group :: Payloads(votes)[i] == c.body {
      forall i | i in votes && votes[i].hash == c.body.hash
        ensures PayloadOf(votes[i]) == c.body
      {
        assert i in group && Payloads(votes)[i] == c.body;
      }
    }
  }

  /** Some certificate is for a block numbered `n` or higher. */
  ghost predicate HasHeight(certs: seq<Cert>, n: nat) {
    exists a | 0 <= a < |certs| :: certs[a].body.number >= n
  }

  /** If a quorum of validators holds blocks at height `h` or more, and those of them that are not faulty
      report so, any result made of a quorum of view changes whose signatures verify has a certificate at
      height `h` or more, and so has its highest block. */
  lemma HeightKept(votes: Votes, total: nat, certs: seq<Cert>, holders: set<nat>, faulty: set<nat>, h: nat, max: Payload)
    requires Generated(votes, total, certs) && Validators(votes.Keys, total) && Verified(certs, total)
    requires |votes| >= Threshold(total) && total >= 1
    requires Validators(holders, total) && |holders| >= Threshold(total) && |faulty| <= MaxFaulty(total)
    requires forall i | i in votes && i in holders && i !in faulty :: votes[i].number >= h
    requires forall a | 0 <= a < |certs| :: !Higher(certs[a].body, max)
    ensures HasHeight(certs, h) && max.number >= h
  {
    hide Verified, VerifyAggSig, Led;
    GeneratedVerified(votes, total, certs);
    assert |votes.Keys| == |votes|;
    var i := HonestInBoth(total, votes.Keys, holders, faulty);
    var a :| 0 <= a < |certs| && certs[a].body.hash == votes[i].hash;
    LedConsistent(votes, total, certs[a]);
    assert PayloadOf(votes[i]) == certs[a].body;
  }

  /** Some voter reports block `h`, and everyone who does gives it number `n` or more. */
  ghost predicate Firm(votes: Votes, h: Hash, n: nat) {
    && (exists i | i in votes :: votes[i].hash == h)
    && (forall i | i in votes && votes[i].hash == h :: votes[i].number >= n)
  }

  /** Whatever the voters report, every result has a certificate at height `n` or more, if and only if some
      reported block is given such a number by all its reporters. */
  lemma HeightKeptIff(votes: Votes, total: nat, n: nat)
    ensures (forall certs | Generated(votes, total, certs) :: HasHeight(certs, n)) <==> (exists h :: Firm(votes, h, n))
  {
    if h :| Firm(votes, h, n) {
      forall certs | Generated(votes, total, certs)
        ensures HasHeight(certs, n)
      {
        FirmKept(votes, total, certs, h, n);
      }
    } else {
      var certs := LowestResult(votes, total, n);
      assert !HasHeight(certs, n);
    }
  }

  lemma FirmKept(votes: Votes, total: nat, certs: seq<Cert>, h: Hash, n: nat)
    requires Generated(votes, total, certs) && Firm(votes, h, n)
    ensures HasHeight(certs, n)
  {
    var i :| i in votes && votes[i].hash == h;
    var a :| 0 <= a < |certs| && certs[a].body.hash == votes[i].hash;
    assert Led(votes, total, certs[a]);
  }

  lemma LowestResult(votes: Votes, total: nat, n: nat) returns (certs: seq<Cert>)
    requires forall h :: !Firm(votes, h, n)
    ensures Generated(votes, total, certs) && !HasHeight(certs, n)
  {
    var hs := set i | i in votes :: votes[i].hash;
    forall h | h in hs
      ensures exists i | i in votes :: votes[i].hash == h && votes[i].number < n
    {
      assert !Firm(votes, h, n);
    }
    certs := LowCerts(votes, total, n, hs);
    forall i | i in votes
      ensures Reported(certs, votes[i].hash)
    {
      assert votes[i].hash in hs;
    }
  }

  /** One certificate for each of `hs`, led by a voter that gives a low number. */
  lemma {:induction false} LowCerts(votes: Votes, total: nat, n: nat, hs: set<Hash>) returns (certs: seq<Cert>)
    requires forall h | h in hs :: exists i | i in votes :: votes[i].hash == h && votes[i].number < n
    ensures forall a | 0 <= a < |certs| :: Led(votes, total, certs[a]) && certs[a].body.number < n
    ensures DistinctHashes(certs) && forall h :: h in hs <==> Reported(certs, h)
    decreases |hs|
  {
    if hs == {} {
      certs := [];
    } else {
      var h :| h in hs;
      var front := LowCerts(votes, total, n, hs - {h});
      var lead :| lead in votes && votes[lead].hash == h && votes[lead].number < n;
      var c := CertOf(votes, total, votes.Keys, lead);
      certs := front + [c];
      assert Led(votes, total, c) && c.body.hash == h && !Reported(front, h);
      ReportedMore(front, c);
    }
  }

  lemma ReportedMore(front: seq<Cert>, c: Cert)
    ensures forall h :: Reported(front + [c], h) <==> Reported(front, h) || c.body.hash == h
  {
    forall h
      ensures Reported(front + [c], h) <==> Reported(front, h) || c.body.hash == h
    {
      if Reported(front, h) {
        var a :| 0 <= a < |front| && front[a].body.hash == h;
        assert (front + [c])[a] == front[a];
      }
      assert (front + [c])[|front|] == c;
    }
  }

  /** Three view changes of one block; the last one gives it number 0 and carries no certificate. */
  const MISNUMBERED: Votes :=
    map[0 := Message(1, 1, 9, 1, Some((1, 0)), 0, SignedBy(0, Payload(1, 1, 9, 1, 1, 0))),
        1 := Message(1, 1, 9, 1, Some((1, 0)), 1, SignedBy(1, Payload(1, 1, 9, 1, 1, 0))),
        2 := Message(1, 1, 9, 0, None, 2, SignedBy(2, Payload(1, 1, 9, 0, 0, 0)))]

  lemma MisnumberedFiled()
    ensures Filed(MISNUMBERED) && Decodable(MISNUMBERED) && AllOf(MISNUMBERED, 1, 1)
  {
    hide SignedBy, PayloadOf;
    forall i | i in MISNUMBERED
      ensures MISNUMBERED[i].validator == i && MISNUMBERED[i].epoch == 1 && MISNUMBERED[i].view == 1
      ensures MISNUMBERED[i].sig.Sum? && MISNUMBERED[i].sig == SignedBy(i, PayloadOf(MISNUMBERED[i]))
    {
      MisnumberedAt(i);
    }
  }

  lemma MisnumberedAt(i: nat)
    requires i in MISNUMBERED
    ensures var m := MISNUMBERED[i];
            m.validator == i && m.epoch == 1 && m.view == 1 && m.sig.Sum? && m.sig == SignedBy(i, PayloadOf(m))
  {
    assert i == 0 || i == 1 || i == 2;
  }

  lemma MisnumberedSize()
    ensures MISNUMBERED.Keys == {0, 1, 2} && |MISNUMBERED| == 3 && !Consistent(MISNUMBERED)
  {
    assert |MISNUMBERED.Keys| == |MISNUMBERED|;
    assert PayloadOf(MISNUMBERED[0]) != PayloadOf(MISNUMBERED[2]);
  }

  /** Visited first, it gives its number to the one certificate of the result, which carries all three
      voters. Height 1 is lost, though the certificate then does not verify. */
  lemma MisnumberedLowers()
    ensures var c := CertOf(MISNUMBERED, 4, MISNUMBERED.Keys, 2);
            && Filed(MISNUMBERED) && Decodable(MISNUMBERED) && AllOf(MISNUMBERED, 1, 1)
            && |MISNUMBERED| >= Threshold(4) && Generated(MISNUMBERED, 4, [c])
            && !HasHeight([c], 1) && c.validators == {0, 1, 2} && !Verified([c], 4)
  {
    hide Filed, Decodable, AllOf, CertOf, Generated, Consistent, Verified;
    MisnumberedFiled();
    MisnumberedSize();
    var c := CertOf(MISNUMBERED, 4, MISNUMBERED.Keys, 2);
    OneBlock(MISNUMBERED, 4, 2);
    assert [c][0] == c;
    GeneratedVerified(MISNUMBERED, 4, [c]);
  }

  /** If all voters report one block, any of them may lead the only certificate. */
  lemma OneBlock(votes: Votes, total: nat, lead: nat)
    requires lead in votes && forall i | i in votes :: votes[i].hash == votes[lead].hash
    ensures var c := CertOf(votes, total, votes.Keys, lead);
            Generated(votes, total, [c]) && c.body == PayloadOf(votes[lead]) && c.validators == Within(votes.Keys, total)
  {
    hide Aggregate;
    var c := CertOf(votes, total, votes.Keys, lead);
    assert Led(votes, total, c);
    assert [c][0].body.hash == votes[lead].hash;
    assert Group(votes, votes.Keys, votes[lead].hash) == votes.Keys;
  }

  // ----- Every result allowed comes from some visiting order

  /** `order` visits every voter once, and each certificate is led by the first voter in it that reports the
      certificate's block. */
  ghost predicate ComesFrom(votes: Votes, total: nat, order: seq<nat>, certs: seq<Cert>) {
    Visits(order, votes.Keys) && forall a | 0 <= a < |certs| :: LedFirst(votes, total, order, certs[a])
  }

  /** `order` holds every element of `s` once. */
  ghost predicate Visits(order: seq<nat>, s: set<nat>) {
    && (forall i :: i in order <==> i in s)
    && (forall p, q | 0 <= p < q < |order| :: order[p] != order[q])
  }

  ghost predicate LedFirst(votes: Votes, total: nat, order: seq<nat>, c: Cert) {
    exists p | 0 <= p < |order| ::
      && order[p] in votes && c == CertOf(votes, total, votes.Keys, order[p])
      && forall q | 0 <= q < p :: order[q] in votes && votes[order[q]].hash != c.body.hash
  }

  lemma ResultHasOrder(votes: Votes, total: nat, certs: seq<Cert>) returns (order: seq<nat>)
    requires Generated(votes, total, certs)
    ensures ComesFrom(votes, total, order, certs)
  {
    hide CertOf, Led, LedFirst, Visits, Reported;
    var leads, led := LeadsOf(votes, total, certs);
    var rest := Enumerate(votes.Keys - led);
    order := leads + rest;
    forall a | 0 <= a < |certs|
      ensures LedFirst(votes, total, order, certs[a])
    {
      LeadComesFirst(votes, total, certs, leads, rest, a);
    }
    Appended(leads, led, rest, votes.Keys);
  }

  lemma Appended(x: seq<nat>, s: set<nat>, y: seq<nat>, all: set<nat>)
    requires Visits(x, s) && Visits(y, all - s) && s <= all
    ensures Visits(x + y, all)
  {
    forall p, q | 0 <= p < q < |x + y|
      ensures (x + y)[p] != (x + y)[q]
    {
      assert p < |x| <= q ==> x[p] in x && y[q - |x|] in y;
    }
  }

  lemma LeadComesFirst(votes: Votes, total: nat, certs: seq<Cert>, leads: seq<nat>, rest: seq<nat>, a: nat)
    requires |leads| == |certs| && a < |certs| && DistinctHashes(certs)
    requires forall a | 0 <= a < |certs| :: leads[a] in votes && certs[a] == CertOf(votes, total, votes.Keys, leads[a])
    ensures LedFirst(votes, total, leads + rest, certs[a])
  {
    var order := leads + rest;
    assert order[a] == leads[a];
    forall q | 0 <= q < a
      ensures order[q] in votes && votes[order[q]].hash != certs[a].body.hash
    {
      assert order[q] == leads[q] && certs[q].body.hash != certs[a].body.hash;
    }
  }

  lemma {:induction false} LeadsOf(votes: Votes, total: nat, certs: seq<Cert>) returns (leads: seq<nat>, led: set<nat>)
    requires (forall a | 0 <= a < |certs| :: Led(votes, total, certs[a])) && DistinctHashes(certs)
    ensures |leads| == |certs|
    ensures forall a | 0 <= a < |certs| :: leads[a] in votes && certs[a] == CertOf(votes, total, votes.Keys, leads[a])
    ensures Visits(leads, led) && led <= votes.Keys
    decreases |certs|
  {
    if certs == [] {
      leads, led := [], {};
    } else {
      var k := |certs| - 1;
      var front, led' := LeadsOf(votes, total, certs[..k]);
      assert Led(votes, total, certs[k]);
      var lead :| lead in votes && certs[k] == CertOf(votes, total, votes.Keys, lead);
      leads, led := front + [lead], led' + {lead};
      forall p | 0 <= p < k
        ensures leads[p] != lead
      {
        assert certs[..k][p] == certs[p] && certs[p].body.hash != certs[k].body.hash;
      }
    }
  }

  lemma {:induction false} Enumerate(s: set<nat>) returns (order: seq<nat>)
    ensures Visits(order, s)
    decreases |s|
  {
    if s == {} {
      order := [];
    } else {
      var i :| i in s;
      var rest := Enumerate(s - {i});
      order := rest + [i];
    }
  }
}

/** The votes one validator sends in one step of the protocol, and the rule that it sends at most one for
    each block number, epoch and view. */
module Voting {
  import opened Common

  type Hash = nat

  datatype Step = PrepareVoteStep | PreCommitStep

  /** What a vote's signature covers. */
  datatype Payload = Payload(epoch: nat, view: nat, hash: Hash, number: nat, blockIndex: nat, step: Step)

  /** The slot of a vote `a` comes before the slot of `b`: by number, then epoch, then view. */
  predicate Before(a: Payload, b: Payload) {
    || a.number < b.number
    || (a.number == b.number && (a.epoch < b.epoch || (a.epoch == b.epoch && a.view < b.view)))
  }

  predicate SameSlot(a: Payload, b: Payload) {
    a.number == b.number && a.epoch == b.epoch && a.view == b.view
  }

  ghost predicate Increasing(sent: seq<Payload>) {
    forall i, j | 0 <= i < j < |sent| :: Before(sent[i], sent[j])
  }

  /** No two votes for one slot, whatever they vote for. */
  ghost predicate OnePerSlot(sent: seq<Payload>) {
    forall i, j | 0 <= i < j < |sent| :: !SameSlot(sent[i], sent[j])
  }

  datatype Outcome = Sent | Withheld | Crashed

  /** What reaches the voter: a change of view, or a vote to send with what is known at that moment. */
  datatype Event =
    | ResetView(epoch: nat, view: nat, number: nat)
    | Offer(vote: Payload, deadline: bool, blockKnown: bool, parentKnown: bool)

  class Voter {
    const step: Step
    var epoch: nat
    var view: nat
    var number: nat
    var hadSendNumber: nat
    var hadSendLast: Option<Payload>
    var sent: seq<Payload>

    /** The record is the last vote sent. */
    ghost predicate Valid()
      reads this
    {
      && Increasing(sent)
      && (forall i | 0 <= i < |sent| :: sent[i].step == step)
      && if sent == [] then hadSendNumber == 0 && hadSendLast == None
         else hadSendLast == Some(sent[|sent| - 1]) && hadSendNumber == sent[|sent| - 1].number
    }

    constructor (step: Step)
      ensures Valid() && this.step == step && sent == []
    {
      this.step := step;
      epoch, view, number := 0, 0, 0;
      hadSendNumber, hadSendLast, sent := 0, None, [];
    }

    predicate HadSend(vote: Payload)
      reads this
    {
      if hadSendNumber < vote.number then false
      else if hadSendNumber > vote.number then true
      else if hadSendLast == None then false
      else hadSendLast.value.epoch > vote.epoch ||
           (hadSendLast.value.epoch == vote.epoch && hadSendLast.value.view >= vote.view)
    }

    predicate AllowVote(vote: Payload)
      reads this
    {
      number == vote.number && view == vote.view && !HadSend(vote)
    }

    /** Sends a vote if the view, the voting rule and the block tree allow it. Crashes if the block is
        missing, or if the first vote ever is for block 0. */
    method TrySend(vote: Payload, deadline: bool, blockKnown: bool, parentKnown: bool) returns (o: Outcome)
      requires Valid() && vote.step == step
      modifies this
      ensures Valid() && epoch == old(epoch) && view == old(view) && number == old(number)
      ensures sent == if o == Sent then old(sent) + [vote] else old(sent)
      ensures o == Sent <==>
                && !deadline && vote.number == number && vote.view == view
                && blockKnown && (parentKnown || vote.number == 0)
                && if old(sent) == [] then vote.number > 0
                   else
                     var last := old(sent)[|old(sent)| - 1];
                     last.number < vote.number ||
                     (last.number == vote.number &&
                      (last.epoch < vote.epoch || (last.epoch == vote.epoch && last.view < vote.view)))
    {
      if deadline || !AllowVote(vote) {
        return Withheld;
      }
      if !blockKnown {
        return Crashed;
      }
      if !parentKnown && vote.number != 0 {
        return Withheld;
      }
      if vote.number <= hadSendNumber && hadSendLast == None {
        return Crashed;
      }
      if || vote.number > hadSendNumber
         || vote.epoch > hadSendLast.value.epoch
         || (vote.epoch == hadSendLast.value.epoch && vote.view > hadSendLast.value.view)
      {
        hadSendNumber, hadSendLast := vote.number, Some(vote);
      }
      assert forall i | 0 <= i < |sent| :: Before(sent[i], vote);
      sent := sent + [vote];
      return Sent;
    }

    /** However views change and whatever votes are offered, at most one vote per slot is ever sent. */
    method Drive(events: seq<Event>)
      requires Valid()
      requires forall i | 0 <= i < |events| && events[i].Offer? :: events[i].vote.step == step
      modifies this
      ensures Valid() && OnePerSlot(sent) && old(sent) <= sent
    {
      for i := 0 to |events|
        invariant Valid() && old(sent) <= sent
      {
        match events[i] {
          case ResetView(e, v, n) =>
            epoch, view, number := e, v, n;
          case Offer(vote, deadline, blockKnown, parentKnown) =>
            var o := TrySend(vote, deadline, blockKnown, parentKnown);
        }
      }
      assert forall i, j | 0 <= i < j < |sent| :: Before(sent[i], sent[j]);
    }
  }
}

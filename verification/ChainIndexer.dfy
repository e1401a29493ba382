/** The chain indexer: it hashes completed sections of the chain in the background and remembers the
    head of each.

    The lock is released while a section is processed, so chain reorganisations are noticed in the
    middle; the result is then committed only if the previous section head is still the one the
    processing started from. Checkpoints and child indexers are not part of this model. */
module ChainIndexer {
  import opened Common

  type Hash = nat

  const ZERO_HASH: Hash := 0
  const MAX_UINT64: nat := 0xFFFF_FFFF_FFFF_FFFF

  /** The parent recorded in the header that hashes to `h`; a hash determines its header. */
  type Parents = Hash -> Hash

  /** The ancestor of `h` at distance `k`. */
  ghost function Up(parent: Parents, h: Hash, k: nat): Hash
    decreases k
  {
    if k == 0 then h else Up(parent, parent(h), k - 1)
  }

  lemma {:induction false} UpAdds(parent: Parents, h: Hash, j: nat, k: nat)
    ensures Up(parent, h, j + k) == Up(parent, Up(parent, h, j), k)
    decreases j
  {
    if j > 0 {
      UpAdds(parent, parent(h), j - 1, k);
    }
  }

  // ----- The indexer as a state machine

  datatype Index = Index(stored: nat, known: nat, cascaded: nat, heads: map<nat, Hash>)

  /** A section being processed outside the lock, and the section head it builds on. */
  datatype Job = Job(section: nat, oldHead: Hash)

  /** Cutting the index back is a loop: look whether the count is above the target, lower it, remove the
      head it now names, look again; in the end put the target as the count. */
  datatype Phase = Test | Lower | Drop | Put

  /** A reorganisation notice that holds the lock while it cuts the index back. */
  datatype Notice = Notice(target: nat, phase: Phase)

  /** `reset` is the cutting back to nothing after a failed backend reset. It does not hold the lock. */
  datatype System = System(ix: Index, job: Option<Job>, reset: Option<Phase>, notice: Option<Notice>)

  datatype Event =
    | Head(head: nat)
    | Reorg(head: nat)
    | NoticeStep
    | Begin
    | ResetFailed
    | ResetStep
    | Finish(newHead: Option<Hash>)

  const START: System := System(Index(0, 0, 0, map[]), None, None, None)

  function SectionHead(heads: map<nat, Hash>, section: nat): Hash {
    if section in heads then heads[section] else ZERO_HASH
  }

  /** The key `section - 1` in 64-bit arithmetic. */
  function Previous(section: nat): nat {
    if section == 0 then MAX_UINT64 else section - 1
  }

  function WithoutHeads(heads: map<nat, Hash>, lo: nat, hi: nat): map<nat, Hash> {
    map k | k in heads && !(lo <= k < hi) :: heads[k]
  }

  function SetValid(ix: Index, sections: nat): Index {
    ix.(stored := sections, heads := WithoutHeads(ix.heads, sections, ix.stored))
  }

  function Cascade(size: nat, ix: Index, sections: nat): Index {
    if sections * size < ix.cascaded then ix.(cascaded := sections * size) else ix
  }

  /** What a reorganisation notice does as a whole. */
  function OnReorg(size: nat, ix: Index, head: nat): Index
    requires size > 0
  {
    var sections := head / size;
    var ix1 := ix.(known := if sections < ix.known then sections else ix.known);
    Cascade(size, if sections < ix1.stored then SetValid(ix1, sections) else ix1, sections)
  }

  function OnHead(size: nat, confirms: nat, ix: Index, head: nat): Index
    requires size > 0
  {
    if head < confirms then ix
    else
      var sections := (head + 1 - confirms) / size;
      if sections > ix.known then ix.(known := sections) else ix
  }

  function OnBegin(ix: Index): Option<Job> {
    if ix.known > ix.stored then
      Some(Job(ix.stored, if ix.stored > 0 then SectionHead(ix.heads, ix.stored - 1) else ZERO_HASH))
    else None
  }

  function OnFinish(size: nat, ix: Index, job: Job, newHead: Option<Hash>): Index
    requires size > 0
  {
    if newHead.Some? && job.oldHead == SectionHead(ix.heads, Previous(job.section)) then
      var ix1 := SetValid(ix.(heads := ix.heads[job.section := newHead.value]), job.section + 1);
      ix1.(cascaded := ix1.stored * size - 1)
    else ix.(known := ix.stored)
  }

  /** The head the section after `stored` others builds on: the last one, or nothing before the first. */
  predicate InPlaceNext(heads: map<nat, Hash>, stored: nat, oldHead: Hash) {
    if stored == 0 then oldHead == ZERO_HASH else stored - 1 in heads && oldHead == heads[stored - 1]
  }

  /** A processed section descends, `size` blocks on, from the head it was started on. */
  ghost predicate Descends(parent: Parents, size: nat, newHead: Hash, oldHead: Hash) {
    newHead != ZERO_HASH && Up(parent, newHead, size) == oldHead
  }

  /** One step of cutting back to `target`. */
  function ClearStep(ix: Index, target: nat, phase: Phase): (Index, Option<Phase>) {
    match phase
    case Test => (ix, Some(if ix.stored > target then Lower else Put))
    case Lower => (ix.(stored := Previous(ix.stored)), Some(Drop))
    case Drop => (ix.(heads := ix.heads - {ix.stored}), Some(Test))
    case Put => (ix.(stored := target), None)
  }

  ghost predicate Enabled(parent: Parents, size: nat, s: System, e: Event) {
    match e
    case Head(head) => head < MAX_UINT64 && s.notice.None?
    case Reorg(head) => head < MAX_UINT64 && s.notice.None?
    case NoticeStep => s.notice.Some?
    case Begin => s.job.None? && s.reset.None? && s.notice.None?
    case ResetFailed => s.job.Some? && s.reset.None?
    case ResetStep => s.reset.Some?
    case Finish(newHead) =>
      && s.job.Some? && s.reset.None? && s.notice.None?
      && (newHead.Some? ==> Descends(parent, size, newHead.value, s.job.value.oldHead))
  }

  function Next(size: nat, confirms: nat, s: System, e: Event): System
    requires size > 0
    requires (e.Finish? ==> s.job.Some?) && (e.NoticeStep? ==> s.notice.Some?) && (e.ResetStep? ==> s.reset.Some?)
  {
    match e
    case Head(head) => s.(ix := OnHead(size, confirms, s.ix, head))
    case Reorg(head) =>
      var sections := head / size;
      var ix := s.ix.(known := if sections < s.ix.known then sections else s.ix.known);
      if sections < ix.stored then s.(ix := ix, notice := Some(Notice(sections, Test)))
      else s.(ix := Cascade(size, ix, sections))
    case NoticeStep =>
      var target := s.notice.value.target;
      var (ix, phase) := ClearStep(s.ix, target, s.notice.value.phase);
      if phase.Some? then s.(ix := ix, notice := Some(Notice(target, phase.value)))
      else s.(ix := Cascade(size, ix, target), notice := None)
    case Begin => s.(job := OnBegin(s.ix))
    case ResetFailed => s.(reset := Some(Test))
    case ResetStep =>
      var (ix, phase) := ClearStep(s.ix, 0, s.reset.value);
      s.(ix := ix, reset := phase)
    case Finish(newHead) => s.(ix := OnFinish(size, s.ix, s.job.value, newHead), job := None)
  }

  /** The two ways of cutting back run at the same time. */
  predicate Overlap(s: System) {
    s.reset.Some? && s.notice.Some?
  }

  /** They do, with something stored. */
  predicate Clash(s: System) {
    Overlap(s) && s.ix.stored > 0
  }

  predicate Settled(s: System) {
    s.reset.None? && s.notice.None?
  }

  ghost predicate InPlace(parent: Parents, size: nat, heads: map<nat, Hash>, i: nat) {
    Descends(parent, size, SectionHead(heads, i), if i == 0 then ZERO_HASH else SectionHead(heads, i - 1))
  }

  /** Heads exist for exactly the first `n` sections; each descends from the one before it, and the first
      from before the first block. */
  ghost predicate LinkedUpTo(parent: Parents, size: nat, ix: Index, n: nat) {
    && ix.stored <= MAX_UINT64 && ix.known <= MAX_UINT64
    && (forall i: nat :: i in ix.heads <==> i < n)
    && (forall i: nat | i < n :: InPlace(parent, size, ix.heads, i))
  }

  ghost predicate Linked(parent: Parents, size: nat, ix: Index) {
    LinkedUpTo(parent, size, ix, ix.stored)
  }

  /** A job in progress is never behind the index, and if the index has not been cut back it builds on
      the last stored head. */
  ghost predicate JobFits(ix: Index, job: Job) {
    && ix.stored <= job.section < MAX_UINT64
    && (job.oldHead == ZERO_HASH <==> job.section == 0)
    && (ix.stored == job.section && job.section > 0 ==> SectionHead(ix.heads, job.section - 1) == job.oldHead)
  }

  /** Half way through cutting back, the head named by the count is still there. */
  ghost predicate Cutting(parent: Parents, size: nat, ix: Index, target: nat, phase: Phase) {
    && LinkedUpTo(parent, size, ix, if phase == Drop then ix.stored + 1 else ix.stored)
    && target <= ix.stored && (phase == Lower ==> target < ix.stored) && (phase == Put ==> target == ix.stored)
  }

  ghost predicate Inv(parent: Parents, size: nat, s: System) {
    && (Overlap(s) ==> s.ix.stored == 0 && (s.reset == Some(Test) || s.reset == Some(Put)))
    && (s.reset.Some? && s.notice.None? ==> Cutting(parent, size, s.ix, 0, s.reset.value))
    && (s.notice.Some? ==> Cutting(parent, size, s.ix, s.notice.value.target, s.notice.value.phase))
    && (Settled(s) ==> Linked(parent, size, s.ix))
    && (s.job.Some? ==> JobFits(s.ix, s.job.value))
  }

  lemma SetValidKeeps(parent: Parents, size: nat, ix: Index, sections: nat)
    requires Linked(parent, size, ix) && sections <= ix.stored
    ensures Linked(parent, size, SetValid(ix, sections))
  {
    forall i: nat | i < sections
      ensures InPlace(parent, size, SetValid(ix, sections).heads, i)
    {
      assert InPlace(parent, size, ix.heads, i);
    }
  }

  lemma CommitKeeps(parent: Parents, size: nat, ix: Index, job: Job, newHead: Hash)
    requires size > 0 && Linked(parent, size, ix) && JobFits(ix, job)
    requires Descends(parent, size, newHead, job.oldHead)
    ensures Linked(parent, size, OnFinish(size, ix, job, Some(newHead)))
  {
    if job.oldHead == SectionHead(ix.heads, Previous(job.section)) {
      assert ix.stored == job.section;
      var ix' := OnFinish(size, ix, job, Some(newHead));
      assert ix'.heads == ix.heads[job.section := newHead];
      forall i: nat | i < ix'.stored
        ensures InPlace(parent, size, ix'.heads, i)
      {
        assert i < job.section ==> InPlace(parent, size, ix.heads, i);
      }
    }
  }

  /** One step of cutting back keeps what it must; the last one leaves a linked index. */
  lemma ClearStepKeeps(parent: Parents, size: nat, ix: Index, target: nat, phase: Phase)
    requires Cutting(parent, size, ix, target, phase)
    ensures var (ix', phase') := ClearStep(ix, target, phase);
            && (if phase'.Some? then Cutting(parent, size, ix', target, phase'.value)
                else Linked(parent, size, ix') && ix'.stored == target)
            && ix'.stored <= ix.stored && ix'.known == ix.known
            && (forall i: nat | i < ix'.stored :: SectionHead(ix'.heads, i) == SectionHead(ix.heads, i))
  {
    var (ix', _) := ClearStep(ix, target, phase);
    forall i: nat | i < ix.stored
      ensures InPlace(parent, size, ix'.heads, i)
    {
      assert InPlace(parent, size, ix.heads, i);
    }
  }

  /** Cutting back undisturbed removes exactly the heads from the target up. */
  lemma {:induction false} ClearingAddsUp(ix: Index, target: nat)
    requires target <= ix.stored
    ensures Cleared(ix, target) == SetValid(ix, target)
    decreases ix.stored
  {
    if target < ix.stored {
      var ix1 := ix.(stored := ix.stored - 1, heads := ix.heads - {ix.stored - 1});
      ClearingAddsUp(ix1, target);
      assert WithoutHeads(ix1.heads, target, ix1.stored) == WithoutHeads(ix.heads, target, ix.stored);
    } else {
      assert WithoutHeads(ix.heads, target, ix.stored) == ix.heads;
    }
  }

  /** The steps of cutting back taken one after the other, from the first look on. */
  ghost function Cleared(ix: Index, target: nat): Index
    requires target <= ix.stored
    decreases ix.stored
  {
    var (ix1, phase1) := ClearStep(ix, target, Test);
    if phase1.value == Put then ClearStep(ix1, target, Put).0
    else
      var (ix2, _) := ClearStep(ix1, target, Lower);
      var (ix3, _) := ClearStep(ix2, target, Drop);
      Cleared(ix3, target)
  }

  lemma HeadKeeps(parent: Parents, size: nat, confirms: nat, s: System, head: nat)
    requires size > 0 && Inv(parent, size, s) && head < MAX_UINT64
    ensures Inv(parent, size, Next(size, confirms, s, Head(head)))
  {
    if head >= confirms {
      DivisionBound(head + 1 - confirms, size);
    }
  }

  lemma ReorgKeeps(parent: Parents, size: nat, confirms: nat, s: System, head: nat)
    requires size > 0 && Inv(parent, size, s) && s.notice.None? && head < MAX_UINT64
    ensures Clash(Next(size, confirms, s, Reorg(head))) || Inv(parent, size, Next(size, confirms, s, Reorg(head)))
  {
    DivisionBound(head, size);
  }

  lemma StepKeeps(parent: Parents, size: nat, confirms: nat, s: System, e: Event)
    requires size > 0 && Inv(parent, size, s) && Enabled(parent, size, s, e) && !Clash(Next(size, confirms, s, e))
    ensures Inv(parent, size, Next(size, confirms, s, e))
  {
    match e
    case Head(head) =>
      HeadKeeps(parent, size, confirms, s, head);
    case Reorg(head) =>
      ReorgKeeps(parent, size, confirms, s, head);
    case NoticeStep =>
      ClearStepKeeps(parent, size, s.ix, s.notice.value.target, s.notice.value.phase);
    case Begin =>
      BeginKeeps(parent, size, s);
    case ResetFailed =>
    case ResetStep =>
      if s.notice.None? {
        ClearStepKeeps(parent, size, s.ix, 0, s.reset.value);
      }
    case Finish(newHead) =>
      if newHead.Some? {
        CommitKeeps(parent, size, s.ix, s.job.value, newHead.value);
      }
  }

  lemma BeginKeeps(parent: Parents, size: nat, s: System)
    requires Inv(parent, size, s) && s.notice.None? && s.job.None? && s.reset.None?
    ensures Inv(parent, size, s.(job := OnBegin(s.ix)))
  {
    if s.ix.stored > 0 {
      assert InPlace(parent, size, s.ix.heads, s.ix.stored - 1);
    }
  }

  lemma MulGrows(q: int, size: nat)
    requires size > 0
    ensures q >= 0 ==> q * size >= q
    ensures q < 0 ==> q * size <= q
  {
    if q >= 0 {
      assert q * (size - 1) >= 0;
    } else {
      assert (0 - q) * (size - 1) >= 0;
    }
  }

  lemma Euclid(x: int, size: nat)
    requires size > 0
    ensures x == (x / size) * size + x % size && 0 <= x % size < size
  {
  }

  lemma DivisionBound(x: nat, size: nat)
    requires size > 0
    ensures 0 <= x / size <= x
  {
    Euclid(x, size);
    MulGrows(x / size, size);
  }

  /** The number of the block after the last one of section `k`. */
  function EndOf(k: nat, size: nat): nat {
    (k + 1) * size
  }

  /** The whole sections in `x` blocks are those that end within them. */
  lemma FitsIff(k: nat, x: nat, size: nat)
    requires size > 0
    ensures k < x / size <==> EndOf(k, size) <= x
  {
    Euclid(x, size);
    var d := k + 1 - x / size;
    assert (k + 1) * size == x / size * size + d * size;
    MulGrows(d, size);
    if d >= 1 {
      assert d * size == size + (d - 1) * size;
    }
  }

  /** The events, each possible when it happens, and the states they lead through. */
  ghost predicate Path(parent: Parents, size: nat, confirms: nat, events: seq<Event>, states: seq<System>)
    requires size > 0
  {
    && |states| == |events| + 1
    && forall k | 0 <= k < |events| ::
         Enabled(parent, size, states[k], events[k]) && states[k + 1] == Next(size, confirms, states[k], events[k])
  }

  ghost predicate Run(parent: Parents, size: nat, confirms: nat, events: seq<Event>, states: seq<System>)
    requires size > 0
  {
    Path(parent, size, confirms, events, states) && states[0] == START
  }

  /** In none of the first `n` states do the two ways of cutting back run together with something stored. */
  ghost predicate NoClash(states: seq<System>, n: nat) {
    forall k | 0 <= k < |states| && k < n :: !Clash(states[k])
  }

  lemma {:induction false} RunKeeps(parent: Parents, size: nat, confirms: nat, events: seq<Event>,
                                    states: seq<System>, k: nat)
    requires size > 0 && Run(parent, size, confirms, events, states) && k < |states| && NoClash(states, k + 1)
    ensures Inv(parent, size, states[k])
    decreases k
  {
    if k > 0 {
      hide Inv, Next, Enabled;
      RunKeeps(parent, size, confirms, events, states, k - 1);
      assert states[k - 1 + 1] == Next(size, confirms, states[k - 1], events[k - 1]);
      StepKeeps(parent, size, confirms, states[k - 1], events[k - 1]);
    }
  }

  /** Along a linked index, a section head is the ancestor of every later one at the exact distance. */
  lemma {:induction false} HeadsAreAncestors(parent: Parents, size: nat, ix: Index, i: nat, j: nat)
    requires Linked(parent, size, ix) && i <= j < ix.stored
    ensures Up(parent, ix.heads[j], (j - i) * size) == ix.heads[i]
    decreases j
  {
    if i < j {
      HeadsAreAncestors(parent, size, ix, i, j - 1);
      assert InPlace(parent, size, ix.heads, j);
      Multiples(j - i, size);
      UpAdds(parent, ix.heads[j], size, (j - 1 - i) * size);
    }
  }

  lemma Multiples(k: nat, size: nat)
    requires k > 0
    ensures k * size == size + (k - 1) * size
  {
  }

  lemma HeadsReachStart(parent: Parents, size: nat, ix: Index, j: nat)
    requires Linked(parent, size, ix) && j < ix.stored
    ensures Up(parent, ix.heads[j], (j + 1) * size) == ZERO_HASH
  {
    HeadsAreAncestors(parent, size, ix, 0, j);
    assert InPlace(parent, size, ix.heads, 0);
    UpAdds(parent, ix.heads[j], j * size, size);
    Multiples(j + 1, size);
  }

  /** Heads exist for exactly the stored sections, each is the ancestor of every later one at the
      exact distance, and each stands the right number of blocks above the start of the chain. */
  ghost predicate OnOneChain(parent: Parents, size: nat, ix: Index) {
    && (forall i: nat :: i in ix.heads <==> i < ix.stored)
    && (forall i: nat, j: nat | i <= j < ix.stored ::
          Up(parent, SectionHead(ix.heads, j), (j - i) * size) == SectionHead(ix.heads, i))
    && (forall j: nat | j < ix.stored :: Up(parent, SectionHead(ix.heads, j), (j + 1) * size) == ZERO_HASH)
  }

  lemma LinkedIsOneChain(parent: Parents, size: nat, ix: Index)
    requires Linked(parent, size, ix)
    ensures OnOneChain(parent, size, ix)
  {
    forall i: nat, j: nat | i <= j < ix.stored
      ensures Up(parent, SectionHead(ix.heads, j), (j - i) * size) == SectionHead(ix.heads, i)
    {
      HeadsAreAncestors(parent, size, ix, i, j);
    }
    forall j: nat | j < ix.stored
      ensures Up(parent, SectionHead(ix.heads, j), (j + 1) * size) == ZERO_HASH
    {
      HeadsReachStart(parent, size, ix, j);
    }
  }

  /** Starting from an empty index, under every interleaving of head and reorganisation notices with
      unlocked processing in which a failed reset does not cut the index back at the same time as a notice
      does, unless nothing is stored, the section heads are on one chain whenever neither does. */
  lemma SectionHeadsStayLinked(parent: Parents, size: nat, confirms: nat, events: seq<Event>, states: seq<System>, k: nat)
    requires size > 0 && Run(parent, size, confirms, events, states) && k < |states| && NoClash(states, k + 1)
    requires Settled(states[k])
    ensures OnOneChain(parent, size, states[k].ix)
  {
    RunKeeps(parent, size, confirms, events, states, k);
    LinkedIsOneChain(parent, size, states[k].ix);
  }

  ghost predicate Reachable(parent: Parents, size: nat, confirms: nat, s: System)
    requires size > 0
  {
    exists events, states :: Run(parent, size, confirms, events, states) && states[|states| - 1] == s
  }

  lemma ReachStart(parent: Parents, size: nat, confirms: nat)
    requires size > 0
    ensures Reachable(parent, size, confirms, START)
  {
    assert Run(parent, size, confirms, [], [START]) && [START][0] == START;
  }

  lemma ReachNext(parent: Parents, size: nat, confirms: nat, s: System, e: Event) returns (s': System)
    requires size > 0 && Reachable(parent, size, confirms, s) && Enabled(parent, size, s, e)
    ensures s' == Next(size, confirms, s, e) && Reachable(parent, size, confirms, s')
  {
    s' := Next(size, confirms, s, e);
    var events, states :| Run(parent, size, confirms, events, states) && states[|states| - 1] == s;
    assert Run(parent, size, confirms, events + [e], states + [s']);
    assert (states + [s'])[|states + [s']| - 1] == s';
  }

  // ----- An overlap is harmless if and only if nothing is stored

  /** Some events lead from `s` to `t`, without another reset failing. */
  ghost predicate Leads(parent: Parents, size: nat, confirms: nat, s: System, t: System)
    requires size > 0
  {
    exists events, states :: LeadsBy(parent, size, confirms, s, t, events, states)
  }

  ghost predicate LeadsBy(parent: Parents, size: nat, confirms: nat, s: System, t: System, events: seq<Event>,
                          states: seq<System>)
    requires size > 0
  {
    && Path(parent, size, confirms, events, states) && states[0] == s && states[|states| - 1] == t
    && forall k | 0 <= k < |events| :: !events[k].ResetFailed?
  }

  lemma LeadsNowhere(parent: Parents, size: nat, confirms: nat, s: System)
    requires size > 0
    ensures Leads(parent, size, confirms, s, s)
  {
    assert LeadsBy(parent, size, confirms, s, s, [], [s]);
  }

  lemma LeadsOn(parent: Parents, size: nat, confirms: nat, s: System, e: Event, t: System)
    requires size > 0 && Enabled(parent, size, s, e) && !e.ResetFailed?
    requires Leads(parent, size, confirms, Next(size, confirms, s, e), t)
    ensures Leads(parent, size, confirms, s, t)
  {
    var events, states :| LeadsBy(parent, size, confirms, Next(size, confirms, s, e), t, events, states);
    assert LeadsBy(parent, size, confirms, s, t, [e] + events, [s] + states);
  }

  /** Whatever happens from `s` on, short of another failed reset, the heads are on one chain whenever nothing
      is cut back. */
  ghost predicate Harmless(parent: Parents, size: nat, confirms: nat, s: System)
    requires size > 0
  {
    forall t | Leads(parent, size, confirms, s, t) && Settled(t) :: OnOneChain(parent, size, t.ix)
  }

  /** A failed reset cuts back an index with nothing stored, if it cuts back at all. */
  predicate Idle(s: System) {
    s.reset.Some? ==> s.ix.stored == 0
  }

  lemma IdleStep(parent: Parents, size: nat, confirms: nat, s: System, e: Event)
    requires size > 0 && Inv(parent, size, s) && Idle(s) && Enabled(parent, size, s, e) && !e.ResetFailed?
    ensures Inv(parent, size, Next(size, confirms, s, e)) && Idle(Next(size, confirms, s, e))
  {
    StepKeeps(parent, size, confirms, s, e);
  }

  lemma {:induction false} IdlePath(parent: Parents, size: nat, confirms: nat, s: System, t: System,
                                    events: seq<Event>, states: seq<System>, k: nat)
    requires size > 0 && LeadsBy(parent, size, confirms, s, t, events, states) && k < |states|
    requires Inv(parent, size, s) && Idle(s)
    ensures Inv(parent, size, states[k]) && Idle(states[k])
    decreases k
  {
    if k > 0 {
      IdlePath(parent, size, confirms, s, t, events, states, k - 1);
      assert states[k - 1 + 1] == Next(size, confirms, states[k - 1], events[k - 1]);
      IdleStep(parent, size, confirms, states[k - 1], events[k - 1]);
    }
  }

  lemma IdleHarmless(parent: Parents, size: nat, confirms: nat, s: System)
    requires size > 0 && Inv(parent, size, s) && Idle(s)
    ensures Harmless(parent, size, confirms, s)
  {
    forall t | Leads(parent, size, confirms, s, t) && Settled(t)
      ensures OnOneChain(parent, size, t.ix)
    {
      var events, states :| LeadsBy(parent, size, confirms, s, t, events, states);
      IdlePath(parent, size, confirms, s, t, events, states, |states| - 1);
      LinkedIsOneChain(parent, size, t.ix);
    }
  }

  /** A measure for cutting back that nothing disturbs: lowering a count of 0 wraps around once. */
  function Left(phase: Phase): nat {
    match phase case Put => 0 case Lower => 1 case Test => 2 case Drop => 3
  }

  function Wraps(stored: nat, phase: Phase): nat {
    if phase == Lower && stored == 0 then 1 else 0
  }

  /** Left alone, a failed reset comes to its end. If it had something to remove, the first head is gone. */
  lemma {:induction false} ResetEnds(parent: Parents, size: nat, confirms: nat, s: System) returns (t: System)
    requires size > 0 && s.reset.Some?
    ensures Leads(parent, size, confirms, s, t) && t.reset.None? && t.notice == s.notice
    ensures 0 in t.ix.heads ==> 0 in s.ix.heads && s.reset != Some(Drop) && (s.reset == Some(Put) || s.ix.stored == 0)
    decreases Wraps(s.ix.stored, s.reset.value), s.ix.stored, Left(s.reset.value)
  {
    var next := Next(size, confirms, s, ResetStep);
    if next.reset.None? {
      t := next;
      LeadsNowhere(parent, size, confirms, t);
    } else {
      t := ResetEnds(parent, size, confirms, next);
    }
    LeadsOn(parent, size, confirms, s, ResetStep, t);
  }

  /** So does a notice. It puts its target as the count and adds no head. */
  lemma {:induction false} NoticeEnds(parent: Parents, size: nat, confirms: nat, s: System) returns (t: System)
    requires size > 0 && s.notice.Some?
    ensures Leads(parent, size, confirms, s, t) && t.notice.None? && t.reset == s.reset
    ensures t.ix.stored == s.notice.value.target && t.ix.heads.Keys <= s.ix.heads.Keys
    decreases Wraps(s.ix.stored, s.notice.value.phase), s.ix.stored, Left(s.notice.value.phase)
  {
    var next := Next(size, confirms, s, NoticeStep);
    if next.notice.None? {
      t := next;
      LeadsNowhere(parent, size, confirms, t);
    } else {
      t := NoticeEnds(parent, size, confirms, next);
    }
    LeadsOn(parent, size, confirms, s, NoticeStep, t);
  }

  /** A notice that keeps something, and a reset with something to remove: the reset ends first and removes the
      first head, and the notice then puts its target as the count. */
  lemma KeepingHarms(parent: Parents, size: nat, confirms: nat, s: System) returns (t: System)
    requires size > 0 && Clash(s) && s.reset != Some(Put) && s.notice.value.target > 0
    ensures Leads(parent, size, confirms, s, t) && Settled(t) && !OnOneChain(parent, size, t.ix)
  {
    var m := ResetEnds(parent, size, confirms, s);
    t := NoticeEnds(parent, size, confirms, m);
    LeadsFurther(parent, size, confirms, s, m, t);
  }

  lemma LeadsFurther(parent: Parents, size: nat, confirms: nat, s: System, m: System, t: System)
    requires size > 0 && Leads(parent, size, confirms, s, m) && Leads(parent, size, confirms, m, t)
    ensures Leads(parent, size, confirms, s, t)
  {
    var e1, s1 :| LeadsBy(parent, size, confirms, s, m, e1, s1);
    var e2, s2 :| LeadsBy(parent, size, confirms, m, t, e2, s2);
    var events: seq<Event>, states: seq<System> := e1 + e2, s1 + s2[1..];
    forall k | 0 <= k < |events|
      ensures Enabled(parent, size, states[k], events[k]) && states[k + 1] == Next(size, confirms, states[k], events[k])
      ensures !events[k].ResetFailed?
    {
      if k >= |e1| {
        assert states[k] == s2[k - |e1|] && states[k + 1] == s2[k - |e1| + 1] && events[k] == e2[k - |e1|];
      } else {
        assert states[k] == s1[k] && states[k + 1] == s1[k + 1] && events[k] == e1[k];
      }
    }
    assert LeadsBy(parent, size, confirms, s, t, events, states);
  }

  /** The reset looks at the count, and is about to lower it. */
  lemma ResetLowers(parent: Parents, size: nat, confirms: nat, s: System) returns (t: System)
    requires size > 0 && Clash(s) && s.reset != Some(Put)
    ensures Leads(parent, size, confirms, s, t) && t.reset == Some(Lower) && t.notice == s.notice
  {
    if s.reset == Some(Lower) {
      t := s;
      LeadsNowhere(parent, size, confirms, s);
    } else {
      var next := Next(size, confirms, s, ResetStep);
      if s.reset == Some(Drop) {
        t := Next(size, confirms, next, ResetStep);
        LeadsNowhere(parent, size, confirms, t);
        LeadsOn(parent, size, confirms, next, ResetStep, t);
      } else {
        t := next;
        LeadsNowhere(parent, size, confirms, t);
      }
      LeadsOn(parent, size, confirms, s, ResetStep, t);
    }
  }

  /** A notice that keeps nothing ends first. The reset then lowers the count of 0, which wraps around, and a
      second notice finds sections to keep. */
  lemma RemovingHarms(parent: Parents, size: nat, confirms: nat, s: System) returns (t: System)
    requires 0 < size < MAX_UINT64 && Clash(s) && s.reset != Some(Put) && s.notice.value.target == 0
    ensures Leads(parent, size, confirms, s, t) && Settled(t) && !OnOneChain(parent, size, t.ix)
  {
    var a := ResetLowers(parent, size, confirms, s);
    var b := NoticeEnds(parent, size, confirms, a);
    LeadsFurther(parent, size, confirms, s, a, b);
    var c := Next(size, confirms, b, ResetStep);
    assert size / size == 1;
    var d := Next(size, confirms, c, Reorg(size));
    t := KeepingHarms(parent, size, confirms, d);
    LeadsOn(parent, size, confirms, c, Reorg(size), t);
    LeadsOn(parent, size, confirms, b, ResetStep, t);
    LeadsFurther(parent, size, confirms, s, b, t);
  }

  /** When a clash begins, the reset has something left to remove. */
  lemma ClashBegins(parent: Parents, size: nat, confirms: nat, s: System, e: Event)
    requires size > 0 && Inv(parent, size, s) && Enabled(parent, size, s, e) && Clash(Next(size, confirms, s, e))
    ensures Next(size, confirms, s, e).reset != Some(Put)
  {
  }

  lemma ClashHarms(parent: Parents, size: nat, confirms: nat, s: System)
    requires 0 < size < MAX_UINT64 && Clash(s) && s.reset != Some(Put)
    ensures !Harmless(parent, size, confirms, s)
  {
    var t;
    if s.notice.value.target > 0 {
      t := KeepingHarms(parent, size, confirms, s);
    } else {
      t := RemovingHarms(parent, size, confirms, s);
    }
  }

  /** One way of cutting back puts the count only while the other is about to remove the first head. */
  predicate PutAfter(ix: Index, a: Option<Phase>, b: Option<Phase>) {
    a == Some(Put) && 0 in ix.heads ==> ix.stored == 0 && b == Some(Drop)
  }

  /** What holds, overlaps or not, if no number is beyond the first section: every notice keeps nothing, and
      the first head is not forgotten. */
  ghost predicate FirstOnly(parent: Parents, size: nat, s: System) {
    var phase := if s.notice.Some? then Some(s.notice.value.phase) else None;
    && s.ix.heads.Keys <= {0} && (0 in s.ix.heads ==> InPlace(parent, size, s.ix.heads, 0))
    && s.ix.known <= 1 && (s.job.Some? ==> s.job.value == Job(0, ZERO_HASH))
    && (s.notice.Some? ==> s.notice.value.target == 0)
    && (Settled(s) ==> s.ix.stored == if 0 in s.ix.heads then 1 else 0)
    && (0 in s.ix.heads && s.ix.stored == 0 ==> s.reset == Some(Drop) || phase == Some(Drop))
    && PutAfter(s.ix, s.reset, phase) && PutAfter(s.ix, phase, s.reset)
  }

  lemma FirstOnlyStep(parent: Parents, size: nat, confirms: nat, s: System, e: Event)
    requires size >= MAX_UINT64 && FirstOnly(parent, size, s) && Enabled(parent, size, s, e)
    ensures FirstOnly(parent, size, Next(size, confirms, s, e))
  {
    match e
    case Head(head) =>
      if head >= confirms {
        AtMostOne(head + 1 - confirms, size);
      }
    case Reorg(head) =>
      AtMostOne(head, size);
    case _ =>
  }

  lemma AtMostOne(x: nat, size: nat)
    requires size > 0 && x <= size
    ensures x / size == if x == size then 1 else 0
  {
  }

  lemma {:induction false} FirstOnlyPath(parent: Parents, size: nat, confirms: nat, events: seq<Event>,
                                         states: seq<System>, k: nat)
    requires size >= MAX_UINT64 && Path(parent, size, confirms, events, states) && k < |states|
    requires FirstOnly(parent, size, states[0])
    ensures FirstOnly(parent, size, states[k])
    decreases k
  {
    if k > 0 {
      FirstOnlyPath(parent, size, confirms, events, states, k - 1);
      assert states[k - 1 + 1] == Next(size, confirms, states[k - 1], events[k - 1]);
      FirstOnlyStep(parent, size, confirms, states[k - 1], events[k - 1]);
    }
  }

  lemma FirstOnlyHarmless(parent: Parents, size: nat, confirms: nat, s: System)
    requires size >= MAX_UINT64 && FirstOnly(parent, size, s)
    ensures Harmless(parent, size, confirms, s)
  {
    forall t | Leads(parent, size, confirms, s, t) && Settled(t)
      ensures OnOneChain(parent, size, t.ix)
    {
      var events, states :| LeadsBy(parent, size, confirms, s, t, events, states);
      FirstOnlyPath(parent, size, confirms, events, states, |states| - 1);
      LinkedIsOneChain(parent, size, t.ix);
    }
  }

  /** Over any run, every overlap of the two ways of cutting back is harmless if and only if none happens with
      something stored, or a section takes in all block numbers there are. */
  lemma OverlapsHarmlessIff(parent: Parents, size: nat, confirms: nat, events: seq<Event>, states: seq<System>)
    requires size > 0 && Run(parent, size, confirms, events, states)
    ensures (forall k | 0 <= k < |states| && Overlap(states[k]) :: Harmless(parent, size, confirms, states[k])) <==>
            NoClash(states, |states|) || size >= MAX_UINT64
  {
    if size >= MAX_UINT64 {
      forall k | 0 <= k < |states|
        ensures Harmless(parent, size, confirms, states[k])
      {
        FirstOnlyPath(parent, size, confirms, events, states, k);
        FirstOnlyHarmless(parent, size, confirms, states[k]);
      }
    } else if NoClash(states, |states|) {
      forall k | 0 <= k < |states| && Overlap(states[k])
        ensures Harmless(parent, size, confirms, states[k])
      {
        RunKeeps(parent, size, confirms, events, states, k);
        IdleHarmless(parent, size, confirms, states[k]);
      }
    } else {
      var k := FirstClash(states, |states|);
      RunKeeps(parent, size, confirms, events, states, k - 1);
      assert states[k - 1 + 1] == Next(size, confirms, states[k - 1], events[k - 1]);
      ClashBegins(parent, size, confirms, states[k - 1], events[k - 1]);
      ClashHarms(parent, size, confirms, states[k]);
    }
  }

  lemma {:induction false} FirstClash(states: seq<System>, n: nat) returns (k: nat)
    requires n <= |states| && !NoClash(states, n)
    ensures k < n && Clash(states[k]) && NoClash(states, k)
  {
    if NoClash(states, n - 1) {
      k := n - 1;
    } else {
      k := FirstClash(states, n - 1);
    }
  }

  /** A clash step by step. A notice goes back from two sections to one and has removed the second
      head when a failed reset removes the first and puts the count to 0; the notice then puts the count to
      1, with no head stored. */
  lemma OverlapLosesHeads(parent: Parents, h1: Hash, h2: Hash)
    requires h1 != ZERO_HASH && parent(h1) == ZERO_HASH && h2 != ZERO_HASH && parent(h2) == h1
    ensures exists s :: Reachable(parent, 1, 0, s) && Settled(s) && s.ix.stored == 1 && s.ix.heads == map[]
  {
    var s := TwoStored(parent, h1, h2);
    s := ReachNext(parent, 1, 0, s, Begin);
    s := ReachNext(parent, 1, 0, s, Reorg(1));
    s := ReachNext(parent, 1, 0, s, NoticeStep);
    s := ReachNext(parent, 1, 0, s, NoticeStep);
    s := ReachNext(parent, 1, 0, s, NoticeStep);
    s := ReachNext(parent, 1, 0, s, NoticeStep);
    assert s.ix.stored == 1 && s.notice == Some(Notice(1, Put)) && s.ix.heads == map[0 := h1];
    s := ReachNext(parent, 1, 0, s, ResetFailed);
    s := ReachNext(parent, 1, 0, s, ResetStep);
    s := ReachNext(parent, 1, 0, s, ResetStep);
    s := ReachNext(parent, 1, 0, s, ResetStep);
    s := ReachNext(parent, 1, 0, s, ResetStep);
    s := ReachNext(parent, 1, 0, s, ResetStep);
    assert s.ix.stored == 0 && s.reset == None && s.ix.heads == map[];
    s := ReachNext(parent, 1, 0, s, NoticeStep);
    assert s.ix.heads == map[];
  }

  /** Two sections of one block each, and a third one known. */
  lemma TwoStored(parent: Parents, h1: Hash, h2: Hash) returns (s: System)
    requires h1 != ZERO_HASH && parent(h1) == ZERO_HASH && h2 != ZERO_HASH && parent(h2) == h1
    ensures Reachable(parent, 1, 0, s)
    ensures s == System(Index(2, 3, 1, map[0 := h1, 1 := h2]), None, None, None)
  {
    assert Up(parent, h1, 1) == Up(parent, parent(h1), 0) && Up(parent, h2, 1) == Up(parent, parent(h2), 0);
    ReachStart(parent, 1, 0);
    s := ReachNext(parent, 1, 0, START, Head(2));
    s := ReachNext(parent, 1, 0, s, Begin);
    s := ReachNext(parent, 1, 0, s, Finish(Some(h1)));
    assert s.ix == Index(1, 3, 0, map[0 := h1]);
    s := ReachNext(parent, 1, 0, s, Begin);
    s := ReachNext(parent, 1, 0, s, Finish(Some(h2)));
    assert s.ix == Index(2, 3, 1, map[0 := h1, 1 := h2]);
  }

  // ----- Stored and known sections

  /** The sections stored, once a notice in progress is through, are all known. */
  predicate WithinKnown(s: System) {
    (if s.notice.Some? then s.notice.value.target else s.ix.stored) <= s.ix.known
  }

  /** The event commits a section beyond the known ones. */
  predicate CommitsUnknown(s: System, e: Event) {
    && e.Finish? && e.newHead.Some? && s.job.Some?
    && s.job.value.oldHead == SectionHead(s.ix.heads, Previous(s.job.value.section))
    && s.ix.known <= s.job.value.section
  }

  /** Stored sections stay within the known ones, if and only if the step does not commit one beyond them. */
  lemma WithinKnownStep(parent: Parents, size: nat, confirms: nat, s: System, e: Event)
    requires size > 0 && Inv(parent, size, s) && Enabled(parent, size, s, e) && !Clash(Next(size, confirms, s, e))
    requires WithinKnown(s)
    ensures WithinKnown(Next(size, confirms, s, e)) <==> !CommitsUnknown(s, e)
  {
    StepKeeps(parent, size, confirms, s, e);
    match e
    case NoticeStep =>
      ClearStepKeeps(parent, size, s.ix, s.notice.value.target, s.notice.value.phase);
    case ResetStep =>
      if s.notice.None? {
        ClearStepKeeps(parent, size, s.ix, 0, s.reset.value);
      }
    case _ =>
  }

  /** Over a run they do all along, if and only if no event of it commits a section beyond them. */
  lemma WithinKnownRun(parent: Parents, size: nat, confirms: nat, events: seq<Event>, states: seq<System>)
    requires size > 0 && Run(parent, size, confirms, events, states) && NoClash(states, |states|)
    ensures (forall k | 0 <= k < |states| :: WithinKnown(states[k])) <==>
            (forall k | 0 <= k < |events| :: !CommitsUnknown(states[k], events[k]))
  {
    forall k: nat | k < |events| && WithinKnown(states[k])
      ensures WithinKnown(states[k + 1]) <==> !CommitsUnknown(states[k], events[k])
    {
      RunKeeps(parent, size, confirms, events, states, k);
      assert states[k + 1] == Next(size, confirms, states[k], events[k]) && !Clash(states[k + 1]);
      WithinKnownStep(parent, size, confirms, states[k], events[k]);
    }
    if forall k | 0 <= k < |events| :: !CommitsUnknown(states[k], events[k]) {
      forall k: nat | k < |states|
        ensures WithinKnown(states[k])
      {
        WithinSoFar(events, states, k);
      }
    } else {
      var k :| 0 <= k < |events| && CommitsUnknown(states[k], events[k]);
      assert WithinKnown(states[k]) ==> !WithinKnown(states[k + 1]);
    }
  }

  lemma {:induction false} WithinSoFar(events: seq<Event>, states: seq<System>, k: nat)
    requires |states| == |events| + 1 && k < |states| && WithinKnown(states[0])
    requires forall k: nat | k < |events| && WithinKnown(states[k]) :: WithinKnown(states[k + 1])
    ensures WithinKnown(states[k])
    decreases k
  {
    if k > 0 {
      WithinSoFar(events, states, k - 1);
      assert WithinKnown(states[k - 1 + 1]);
    }
  }

  /** Such a commit happens: a reorganisation inside the section in progress cuts the known sections back,
      but the section is still committed. */
  lemma StoredMayExceedKnown(parent: Parents, h: Hash)
    requires h != ZERO_HASH && parent(h) == ZERO_HASH
    ensures exists s :: Reachable(parent, 1, 0, s) && Settled(s) && s.ix.stored == 1 && s.ix.known == 0
  {
    assert Up(parent, h, 1) == Up(parent, parent(h), 0) == ZERO_HASH;
    ReachStart(parent, 1, 0);
    var s := ReachNext(parent, 1, 0, START, Head(0));
    s := ReachNext(parent, 1, 0, s, Begin);
    s := ReachNext(parent, 1, 0, s, Reorg(0));
    s := ReachNext(parent, 1, 0, s, Finish(Some(h)));
  }

  // ----- The indexer itself

  /** What processing one section reads while the chain may change under it. Every number is read
      once, so one answer per number covers every interleaving. */
  datatype View = View(resetOk: bool, canonical: nat -> Hash, found: nat -> bool, accepted: nat -> bool, commitOk: bool)

  /** The block read at `number` continues the chain from `last`. */
  ghost predicate Continues(parent: Parents, view: View, number: nat, last: Hash) {
    && view.canonical(number) != ZERO_HASH && view.found(number)
    && parent(view.canonical(number)) == last && view.accepted(number)
  }

  /** The first `k` blocks read from `lo` on form a chain on top of `last`. */
  ghost predicate Chains(parent: Parents, view: View, lo: nat, last: Hash, k: nat) {
    k == 0 ||
    (Chains(parent, view, lo, last, k - 1) &&
     Continues(parent, view, lo + k - 1, if k == 1 then last else view.canonical(lo + k - 2)))
  }

  lemma {:induction false} ChainsDescend(parent: Parents, view: View, lo: nat, last: Hash, k: nat)
    requires k > 0 && Chains(parent, view, lo, last, k)
    ensures Descends(parent, k, view.canonical(lo + k - 1), last)
  {
    var top := view.canonical(lo + k - 1);
    if k == 1 {
      assert Up(parent, top, 1) == Up(parent, parent(top), 0);
    } else {
      ChainsDescend(parent, view, lo, last, k - 1);
    }
  }

  lemma {:induction false} ChainsPrefix(parent: Parents, view: View, lo: nat, last: Hash, k: nat, n: nat)
    requires k <= n && Chains(parent, view, lo, last, n)
    ensures Chains(parent, view, lo, last, k)
    decreases n
  {
    if k < n {
      ChainsPrefix(parent, view, lo, last, k, n - 1);
    }
  }

  /** A notice as a whole keeps the index linked. */
  lemma NoticeKeeps(parent: Parents, size: nat, confirms: nat, ix: Index, head: nat)
    requires size > 0 && Linked(parent, size, ix) && head < MAX_UINT64
    ensures Linked(parent, size, OnReorg(size, ix, head)) && Linked(parent, size, OnHead(size, confirms, ix, head))
  {
    DivisionBound(head, size);
    if head / size < ix.stored {
      SetValidKeeps(parent, size, ix, head / size);
    }
    HeadKeeps(parent, size, confirms, System(ix, None, None, None), head);
  }

  /** What the counts of a notice mean for single sections. */
  lemma NoticeMeans(size: nat, confirms: nat, ix: Index, head: nat)
    requires size > 0
    ensures var ix' := OnHead(size, confirms, ix, head);
            forall k: nat :: k < ix'.known <==>
              k < ix.known || (confirms <= head && EndOf(k, size) + confirms <= head + 1)
    ensures var ix' := OnReorg(size, ix, head);
            && (forall k: nat :: k < ix'.known <==> k < ix.known && EndOf(k, size) <= head)
            && (forall k: nat :: k < ix'.stored <==> k < ix.stored && EndOf(k, size) <= head)
    ensures var start := head / size * size;
            start % size == 0 && start <= head < start + size
  {
    forall k: nat
      ensures confirms <= head ==>
                (k < (head + 1 - confirms) / size <==> EndOf(k, size) + confirms <= head + 1)
      ensures k < head / size <==> EndOf(k, size) <= head
    {
      if confirms <= head {
        FitsIff(k, head + 1 - confirms, size);
      }
      FitsIff(k, head, size);
    }
    Euclid(head, size);
    MultipleOf(head / size, size);
  }

  lemma {:induction false} MultipleOf(q: nat, size: nat)
    requires size > 0
    ensures q * size % size == 0
  {
    Euclid(q * size, size);
    var r, d := q * size % size, q - q * size / size;
    assert d * size == r;
    MulGrows(d, size);
    if d >= 1 {
      assert d * size == size + (d - 1) * size;
      MulGrows(d - 1, size);
    }
  }

  class Indexer {
    const sectionSize: nat
    const confirmsReq: nat
    const parent: Parents
    var storedSections: nat
    var knownSections: nat
    var cascadedHead: nat
    /** The index database: section heads and the section count. */
    var sectionHeads: map<nat, Hash>
    var count: nat

    ghost function Ix(): Index
      reads this
    {
      Index(storedSections, knownSections, cascadedHead, sectionHeads)
    }

    ghost predicate Valid()
      reads this
    {
      sectionSize > 0 && count == storedSections && Linked(parent, sectionSize, Ix())
    }

    constructor (parent: Parents, section: nat, confirm: nat)
      requires section > 0
      ensures Valid() && this.parent == parent && sectionSize == section && confirmsReq == confirm
      ensures Ix() == START.ix
    {
      this.parent, sectionSize, confirmsReq := parent, section, confirm;
      storedSections, knownSections, cascadedHead, sectionHeads, count := 0, 0, 0, map[], 0;
    }

    method SetValidSections(sections: nat)
      modifies `storedSections, `sectionHeads, `count
      ensures Ix() == SetValid(old(Ix()), sections) && count == sections
    {
      count := sections;
      ghost var stored := storedSections;
      while storedSections > sections
        invariant storedSections <= stored && count == sections
        invariant sectionHeads == WithoutHeads(old(sectionHeads), storedSections, stored)
        invariant storedSections == stored || storedSections >= sections
      {
        storedSections := storedSections - 1;
        sectionHeads := sectionHeads - {storedSections};
      }
      assert sectionHeads == WithoutHeads(old(sectionHeads), sections, stored);
      storedSections := sections;
    }

    /** A new chain head, or the point a reorganisation goes back to. */
    method NewHead(head: nat, reorg: bool)
      requires Valid() && head < MAX_UINT64
      modifies this
      ensures Valid()
      ensures Ix() == if reorg then OnReorg(sectionSize, old(Ix()), head)
                      else OnHead(sectionSize, confirmsReq, old(Ix()), head)
      ensures !reorg ==>
                && unchanged(`storedSections, `sectionHeads, `cascadedHead, `count)
                && forall k: nat :: k < knownSections <==>
                     k < old(knownSections) || (confirmsReq <= head && EndOf(k, sectionSize) + confirmsReq <= head + 1)
      ensures reorg ==>
                && (forall k: nat :: k < knownSections <==> k < old(knownSections) && EndOf(k, sectionSize) <= head)
                && (forall k: nat :: k < storedSections <==> k < old(storedSections) && EndOf(k, sectionSize) <= head)
                && (forall k: nat | k < storedSections :: k in sectionHeads && sectionHeads[k] == old(sectionHeads)[k])
                && (if old(cascadedHead) <= head / sectionSize * sectionSize then cascadedHead == old(cascadedHead)
                    else cascadedHead % sectionSize == 0 && cascadedHead <= head < cascadedHead + sectionSize)
    {
      NoticeKeeps(parent, sectionSize, confirmsReq, Ix(), head);
      NoticeMeans(sectionSize, confirmsReq, Ix(), head);
      if reorg {
        var known := head / sectionSize;
        var stored := known;
        if known < knownSections {
          knownSections := known;
        }
        if stored < storedSections {
          SetValidSections(stored);
        }
        var revert := known * sectionSize;
        if revert < cascadedHead {
          cascadedHead := revert;
        }
        return;
      }
      if head >= confirmsReq {
        var sections := (head + 1 - confirmsReq) / sectionSize;
        if sections > knownSections {
          knownSections := sections;
        }
      }
    }

    /** Under the lock: picks the next section to process, if there is one. */
    method BeginUpdate() returns (job: Option<Job>)
      requires Valid()
      ensures job == OnBegin(Ix()) && (job.Some? ==> JobFits(Ix(), job.value))
      ensures if storedSections < knownSections
              then job.Some? && job.value.section == storedSections &&
                   InPlaceNext(sectionHeads, storedSections, job.value.oldHead)
              else job == None
    {
      job := None;
      if knownSections > storedSections {
        var section := storedSections;
        var oldHead := ZERO_HASH;
        if section > 0 {
          assert InPlace(parent, sectionSize, sectionHeads, section - 1);
          oldHead := SectionHead(sectionHeads, section - 1);
        }
        job := Some(Job(section, oldHead));
      }
    }

    /** Without the lock: reads the section's blocks one after the other, checking that they link up. */
    method ProcessSection(view: View, section: nat, lastHead: Hash) returns (newHead: Option<Hash>)
      requires Valid()
      modifies `storedSections, `sectionHeads, `count
      ensures Valid() && Ix() == if view.resetOk then old(Ix()) else SetValid(old(Ix()), 0)
      ensures newHead.Some? <==>
              view.resetOk && view.commitOk && Chains(parent, view, section * sectionSize, lastHead, sectionSize)
      ensures newHead.Some? ==> Descends(parent, sectionSize, newHead.value, lastHead)
    {
      newHead := None;
      if !view.resetOk {
        SetValidKeeps(parent, sectionSize, Ix(), 0);
        SetValidSections(0);
        return;
      }
      ghost var lo := section * sectionSize;
      var last := lastHead;
      var number := section * sectionSize;
      while number < section * sectionSize + sectionSize
        invariant lo <= number <= lo + sectionSize
        invariant Chains(parent, view, lo, lastHead, number - lo)
        invariant last == if number == lo then lastHead else view.canonical(number - 1)
      {
        var hash := view.canonical(number);
        if hash == ZERO_HASH || !view.found(number) || parent(hash) != last || !view.accepted(number) {
          if Chains(parent, view, lo, lastHead, sectionSize) {
            ChainsPrefix(parent, view, lo, lastHead, number - lo + 1, sectionSize);
          }
          return;
        }
        last := hash;
        number := number + 1;
      }
      ChainsDescend(parent, view, lo, lastHead, sectionSize);
      if view.commitOk {
        newHead := Some(last);
      }
    }

    /** Under the lock again: commits the section if no reorganisation reached below it meanwhile. */
    method FinishUpdate(job: Job, newHead: Option<Hash>)
      requires Valid() && JobFits(Ix(), job)
      requires newHead.Some? ==> Descends(parent, sectionSize, newHead.value, job.oldHead)
      modifies this
      ensures Valid() && Ix() == OnFinish(sectionSize, old(Ix()), job, newHead)
      ensures if newHead.Some? && old(storedSections) == job.section
              then storedSections == job.section + 1 && sectionHeads == old(sectionHeads)[job.section := newHead.value] &&
                   knownSections == old(knownSections) && cascadedHead + 1 == storedSections * sectionSize
              else unchanged(`storedSections, `sectionHeads, `cascadedHead) && knownSections == storedSections
    {
      StepKeeps(parent, sectionSize, confirmsReq, System(Ix(), Some(job), None, None), Event.Finish(newHead));
      if newHead.Some? && job.oldHead == SectionHead(sectionHeads, Previous(job.section)) {
        sectionHeads := sectionHeads[job.section := newHead.value];
        SetValidSections(job.section + 1);
        assert storedSections * sectionSize >= 1;
        cascadedHead := storedSections * sectionSize - 1;
      } else {
        knownSections := storedSections;
      }
    }
  }
}

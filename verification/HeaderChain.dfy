/** The header chain: all known headers, and the number-to-hash index of the canonical ones.

    The reference is the ancestor path: the canonical hash at a height is the ancestor of the current
    header at that height, found by following parent hashes alone. */
module HeaderChain {
  import opened Common

  type Hash = nat

  datatype Header = Header(number: nat, parent: Hash)

  type Headers = map<Hash, Header>
  type Canon = map<nat, Hash>

  /** Every header but the genesis has its parent one number below. */
  ghost predicate Rooted(headers: Headers, genesis: Hash) {
    && genesis in headers && headers[genesis].number == 0
    && (forall h | h in headers :: headers[h].number == 0 ==> h == genesis)
    && (forall h | h in headers && headers[h].number > 0 ::
          headers[h].parent in headers && headers[headers[h].parent].number == headers[h].number - 1)
  }

  /** The ancestor of `h` at height `n`, by parent hashes. */
  ghost function At(headers: Headers, genesis: Hash, h: Hash, n: nat): Hash
    requires Rooted(headers, genesis) && h in headers && n <= headers[h].number
    ensures At(headers, genesis, h, n) in headers && headers[At(headers, genesis, h, n)].number == n
    decreases headers[h].number
  {
    if n == headers[h].number then h else At(headers, genesis, headers[h].parent, n)
  }

  lemma {:induction false} AtAt(headers: Headers, genesis: Hash, h: Hash, m: nat, n: nat)
    requires Rooted(headers, genesis) && h in headers && n <= m <= headers[h].number
    ensures At(headers, genesis, At(headers, genesis, h, m), n) == At(headers, genesis, h, n)
    decreases headers[h].number
  {
    if m < headers[h].number {
      AtAt(headers, genesis, headers[h].parent, m, n);
    }
  }

  lemma AtGenesis(headers: Headers, genesis: Hash, h: Hash)
    requires Rooted(headers, genesis) && h in headers
    ensures At(headers, genesis, h, 0) == genesis
  {
  }

  /** Adding a header leaves the ancestors of the others alone. */
  lemma {:induction false} AtGrows(headers: Headers, headers': Headers, genesis: Hash, h: Hash, n: nat)
    requires Rooted(headers, genesis) && Rooted(headers', genesis)
    requires forall k | k in headers :: k in headers' && headers'[k] == headers[k]
    requires h in headers && n <= headers[h].number
    ensures At(headers', genesis, h, n) == At(headers, genesis, h, n)
    decreases headers[h].number
  {
    if n < headers[h].number {
      AtGrows(headers, headers', genesis, headers[h].parent, n);
    }
  }

  /** `canon` is exactly the ancestor path of `current`. */
  ghost predicate IsPath(headers: Headers, genesis: Hash, canon: Canon, current: Hash)
    requires Rooted(headers, genesis)
  {
    && current in headers
    && (forall n: nat :: n in canon <==> n <= headers[current].number)
    && (forall n: nat | n <= headers[current].number :: canon[n] == At(headers, genesis, current, n))
  }

  ghost predicate NoneHigher(headers: Headers, current: Hash)
    requires current in headers
  {
    forall h | h in headers :: headers[h].number <= headers[current].number
  }

  function Read(canon: Canon, n: nat): Option<Hash> {
    if n in canon then Some(canon[n]) else None
  }

  /** How many parent steps lead from `h` to the canonical chain. */
  ghost function Detour(headers: Headers, genesis: Hash, canon: Canon, h: Hash): nat
    requires Rooted(headers, genesis) && h in headers && Read(canon, 0) == Some(genesis)
    decreases headers[h].number
  {
    if Read(canon, headers[h].number) == Some(h) then 0
    else 1 + Detour(headers, genesis, canon, headers[h].parent)
  }

  /** It is the least number of steps to a canonical ancestor. */
  lemma {:induction false} DetourLeast(headers: Headers, genesis: Hash, canon: Canon, h: Hash)
    requires Rooted(headers, genesis) && h in headers && Read(canon, 0) == Some(genesis)
    ensures var n, d := headers[h].number, Detour(headers, genesis, canon, h);
            && d <= n && Read(canon, n - d) == Some(At(headers, genesis, h, n - d))
            && forall m: nat | n - d < m <= n :: Read(canon, m) != Some(At(headers, genesis, h, m))
    decreases headers[h].number
  {
    if Read(canon, headers[h].number) != Some(h) {
      hide Rooted, Detour, At, Read;
      DetourStep(headers, genesis, canon, h);
      var n, p := headers[h].number, headers[h].parent;
      DetourLeast(headers, genesis, canon, p);
      forall m: nat | m <= n
        ensures At(headers, genesis, h, m) == if m == n then h else At(headers, genesis, p, m)
      {
        AtParent(headers, genesis, h, m);
      }
    }
  }

  lemma AtParent(headers: Headers, genesis: Hash, h: Hash, m: nat)
    requires Rooted(headers, genesis) && h in headers && m <= headers[h].number
    requires headers[h].parent in headers && headers[headers[h].parent].number + 1 == headers[h].number
    ensures At(headers, genesis, h, m) == if m == headers[h].number then h else At(headers, genesis, headers[h].parent, m)
  {
  }

  function GetHeader(headers: Headers, hash: Hash, number: nat): Option<Header> {
    if hash in headers && headers[hash].number == number then Some(headers[hash]) else None
  }

  /** What asking for the ancestor `ancestor` steps up from (`hash`, `number`) must give, and what must
      be left of the budget of non-canonical steps. It fails only if the request goes below the
      genesis, the header is not known, or the canonical chain is out of the budget's reach. */
  ghost function AncestorAnswer(headers: Headers, genesis: Hash, canon: Canon,
                                hash: Hash, number: nat, ancestor: nat, budget: nat): (Option<(Hash, nat)>, nat)
    requires Rooted(headers, genesis) && Read(canon, 0) == Some(genesis)
  {
    if ancestor > number then (None, budget)
    else if ancestor == 0 then (Some((hash, number)), budget)
    else if GetHeader(headers, hash, number).None? then
      (None, if ancestor == 1 || budget == 0 then budget else budget - 1)
    else
      var answer := (At(headers, genesis, hash, number - ancestor), number - ancestor);
      if ancestor == 1 then (Some(answer), budget)
      else
        var detour := Detour(headers, genesis, canon, hash);
        var spend := if detour < ancestor then detour else ancestor;
        if budget < spend then (None, 0) else (Some(answer), budget - spend)
  }

  datatype WriteStatus = CanonStat | SideStat

  class Chain {
    const genesis: Hash
    var headers: Headers
    var canon: Canon
    var current: Hash

    ghost predicate Valid()
      reads this
    {
      && Rooted(headers, genesis)
      && IsPath(headers, genesis, canon, current)
      && NoneHigher(headers, current)
    }

    constructor (genesis: Hash, header: Header)
      requires header.number == 0
      ensures Valid() && this.genesis == genesis == current && headers == map[genesis := header]
    {
      this.genesis := genesis;
      headers, canon, current := map[genesis := header], map[0 := genesis], genesis;
    }

    /** Deletes canonical entries above `number` up to the first gap. */
    method DeleteAbove(number: nat)
      modifies `canon
      ensures canon.Keys <= old(canon).Keys && number + 1 !in canon
      ensures forall n: nat | n in canon :: canon[n] == old(canon)[n]
      ensures forall n: nat | n <= number && n in old(canon) :: n in canon
      ensures number + 1 !in old(canon) ==> canon == old(canon)
    {
      var i := number + 1;
      while i in canon
        invariant i > number && canon.Keys <= old(canon).Keys
        invariant forall n: nat | n in canon :: canon[n] == old(canon)[n]
        invariant forall n: nat | (n <= number || i <= n) && n in old(canon) :: n in canon
        invariant forall n: nat | number < n < i :: n !in canon && n in old(canon)
        decreases canon.Keys
      {
        canon := canon - {i};
        i := i + 1;
      }
    }

    /** Overwrites stale canonical entries below `hash`, from its parent down to the first that agrees. */
    method RewriteBelow(hash: Hash)
      requires Rooted(headers, genesis) && IsPath(headers, genesis, canon, current)
      requires hash in headers && 0 < headers[hash].number <= headers[current].number + 1
      modifies `canon
      ensures canon.Keys == old(canon).Keys
      ensures forall n: nat | n < headers[hash].number :: n in canon && canon[n] == At(headers, genesis, hash, n)
    {
      hide Rooted, IsPath;
      ghost var number := headers[hash].number;
      var headHash := headers[hash].parent;
      var headNumber: nat := headers[hash].number - 1;
      ParentAt(headers, genesis, hash, number);
      PathReaches(headers, genesis, canon, current, headNumber);
      while Read(canon, headNumber) != Some(headHash)
        invariant headNumber < number && headHash == At(headers, genesis, hash, headNumber)
        invariant canon.Keys == old(canon).Keys
        invariant forall n: nat | n <= headNumber :: n in canon && canon[n] == old(canon)[n]
        invariant forall n: nat | headNumber < n < number :: n in canon && canon[n] == At(headers, genesis, hash, n)
        decreases headNumber
      {
        NotYetGenesis(headers, genesis, old(canon), current, hash, headNumber);
        ParentAt(headers, genesis, hash, headNumber);
        canon := canon[headNumber := headHash];
        var headHeader := headers[headHash];
        headHash := headHeader.parent;
        headNumber := headHeader.number - 1;
      }
      SharedBelow(headers, genesis, old(canon), current, hash, headNumber);
    }

    /** Stores a header whose parent is known and re-routes the canonical chain to it if it is higher
        than the current one, or as high and the coin says so. */
    method WriteHeader(hash: Hash, header: Header, coin: bool) returns (status: WriteStatus)
      requires Valid()
      requires header.parent in headers && headers[header.parent].number + 1 == header.number
      requires hash in headers ==> headers[hash] == header
      modifies this
      ensures Valid() && headers == old(headers)[hash := header]
      ensures status == CanonStat <==>
              header.number > old(headers[current].number) || (header.number == old(headers[current].number) && coin)
      ensures current == if status == CanonStat then hash else old(current)
    {
      hide Rooted, IsPath, At;
      CurrentKnown(headers, genesis, canon, current);
      var number, local := header.number, headers[current].number;
      headers := headers[hash := header];
      RootedGrows(old(headers), genesis, hash, header);
      PathGrows(old(headers), headers, genesis, canon, current);
      HighestGrows(old(headers), current, hash, header);
      if number > local || (number == local && coin) {
        PathEnds(headers, genesis, canon, current, number + 1);
        DeleteAbove(number);
        RewriteBelow(hash);
        ExtendPath(headers, genesis, old(canon), current, canon, hash);
        canon := canon[number := hash];
        current := hash;
        status := CanonStat;
      } else {
        status := SideStat;
      }
    }

    /** Writes a batch of linked headers, skipping known ones, until done or interrupted. */
    method InsertHeaderChain(chain: seq<(Hash, Header)>, coin: nat -> bool, interrupted: nat -> bool)
      returns (written: nat)
      requires Valid()
      requires forall i | 0 < i < |chain| ::
                 chain[i].1.number == chain[i - 1].1.number + 1 && chain[i].1.parent == chain[i - 1].0
      requires chain != [] ==> chain[0].1.parent in headers && headers[chain[0].1.parent].number + 1 == chain[0].1.number
      requires forall i | 0 <= i < |chain| && chain[i].0 in headers :: headers[chain[i].0] == chain[i].1
      requires forall i, j | 0 <= i < j < |chain| :: chain[i].0 != chain[j].0
      modifies this
      ensures Valid() && written <= |chain| && headers[current].number >= old(headers[current].number)
      ensures forall h | h in old(headers) :: h in headers && headers[h] == old(headers)[h]
      ensures forall i | 0 <= i < written :: chain[i].0 in headers && headers[chain[i].0] == chain[i].1
      ensures forall h | h in headers :: h in old(headers) || exists i | 0 <= i < written :: h == chain[i].0
      ensures written == |chain| || interrupted(written)
    {
      hide Rooted, NoneHigher;
      written := 0;
      while written < |chain|
        invariant Valid() && written <= |chain| && headers[current].number >= old(headers[current].number)
        invariant forall h | h in old(headers) :: h in headers && headers[h] == old(headers)[h]
        invariant forall i | 0 <= i < written :: chain[i].0 in headers && headers[chain[i].0] == chain[i].1
        invariant forall i | 0 <= i < |chain| && chain[i].0 in headers :: headers[chain[i].0] == chain[i].1
        invariant forall h | h in headers :: h in old(headers) || exists i | 0 <= i < written :: h == chain[i].0
      {
        if interrupted(written) {
          return;
        }
        if chain[written].0 !in headers {
          assert written > 0 ==> chain[written].1.parent == chain[written - 1].0;
          ghost var status := WriteHeader(chain[written].0, chain[written].1, coin(written));
        }
        written := written + 1;
      }
    }

    /** The ancestor of a block, jumping along the canonical index once it is reached. */
    method GetAncestor(hash: Hash, number: nat, ancestor: nat, maxNonCanonical: nat)
      returns (answer: Option<(Hash, nat)>, left: nat)
      requires Valid()
      ensures Read(canon, 0) == Some(genesis)
      ensures answer.Some? && hash in headers && headers[hash].number == number ==>
                ancestor <= number && answer.value == (At(headers, genesis, hash, number - ancestor), number - ancestor)
      ensures hash in headers && headers[hash].number == number && ancestor <= number ==>
                var spent := if ancestor <= 1 then 0 else Min(Detour(headers, genesis, canon, hash), ancestor);
                if spent <= maxNonCanonical then answer.Some? && left == maxNonCanonical - spent
                else answer == None && left == 0
      ensures !(hash in headers && headers[hash].number == number) && ancestor <= number ==>
                if ancestor == 0 then answer == Some((hash, number)) && left == maxNonCanonical
                else answer == None && left == maxNonCanonical - (if ancestor == 1 then 0 else Min(1, maxNonCanonical))
      ensures ancestor > number ==> answer == None && left == maxNonCanonical
    {
      hide Rooted, IsPath, Detour;
      PathStarts(headers, genesis, canon, current);
      left := maxNonCanonical;
      if ancestor > number {
        return None, left;
      }
      if ancestor == 1 {
        var header := GetHeader(headers, hash, number);
        if header.Some? {
          ParentAt(headers, genesis, hash, number);
          return Some((header.value.parent, number - 1)), left;
        } else {
          return None, left;
        }
      }
      var hash', number', ancestor': nat := hash, number, ancestor;
      ghost var steps: nat := 0;
      while ancestor' != 0
        invariant steps + ancestor' == ancestor && number' == number - steps && left == maxNonCanonical - steps
        invariant OnTheWay(headers, genesis, canon, hash, number, hash', steps)
        decreases ancestor'
      {
        if Read(canon, number') == Some(hash') {
          JumpAnswers(headers, genesis, canon, current, hash, number, ancestor, maxNonCanonical, hash', steps);
          number' := number' - ancestor';
          return Some((canon[number'], number')), left;
        }
        if left == 0 {
          BudgetSpent(headers, genesis, canon, hash, number, ancestor, hash', steps);
          return None, left;
        }
        OneStepOn(headers, genesis, canon, hash, number, ancestor, maxNonCanonical, hash', steps);
        left := left - 1;
        ancestor' := ancestor' - 1;
        var header := GetHeader(headers, hash', number');
        if header.None? {
          return None, left;
        }
        hash' := header.value.parent;
        number' := number' - 1;
        steps := steps + 1;
      }
      WalkedAnswers(headers, genesis, canon, hash, number, ancestor, maxNonCanonical, hash');
      return Some((hash', number')), left;
    }
  }

  /** `steps` parent steps lead from `hash` to `hash'` without meeting the canonical chain. */
  ghost predicate OnTheWay(headers: Headers, genesis: Hash, canon: Canon, hash: Hash, number: nat, hash': Hash, steps: nat)
    requires Rooted(headers, genesis) && Read(canon, 0) == Some(genesis)
  {
    if GetHeader(headers, hash, number).None? then steps == 0 && hash' == hash
    else
      && steps <= number && hash' == At(headers, genesis, hash, number - steps)
      && Detour(headers, genesis, canon, hash) == Detour(headers, genesis, canon, hash') + steps
  }

  lemma PathStarts(headers: Headers, genesis: Hash, canon: Canon, current: Hash)
    requires Rooted(headers, genesis) && IsPath(headers, genesis, canon, current)
    ensures Read(canon, 0) == Some(genesis)
  {
    AtGenesis(headers, genesis, current);
  }

  /** On the canonical chain the index gives the ancestor in one jump. */
  lemma JumpAnswers(headers: Headers, genesis: Hash, canon: Canon, current: Hash,
                    hash: Hash, number: nat, ancestor: nat, budget: nat, hash': Hash, steps: nat)
    requires Rooted(headers, genesis) && IsPath(headers, genesis, canon, current) && Read(canon, 0) == Some(genesis)
    requires OnTheWay(headers, genesis, canon, hash, number, hash', steps)
    requires ancestor != 1 && steps < ancestor <= number && steps <= budget
    requires Read(canon, number - steps) == Some(hash')
    ensures number - ancestor in canon
    ensures AncestorAnswer(headers, genesis, canon, hash, number, ancestor, budget) ==
            (Some((canon[number - ancestor], number - ancestor)), budget - steps)
  {
    hide Rooted, IsPath, At, Detour;
    CanonicalBelow(headers, genesis, canon, current, hash', number - steps, number - ancestor);
    if GetHeader(headers, hash, number).Some? {
      AtAt(headers, genesis, hash, number - steps, number - ancestor);
    }
  }

  /** Below a canonical header the index holds its ancestors. */
  lemma CanonicalBelow(headers: Headers, genesis: Hash, canon: Canon, current: Hash, h: Hash, m: nat, n: nat)
    requires Rooted(headers, genesis) && IsPath(headers, genesis, canon, current) && Read(canon, 0) == Some(genesis)
    requires Read(canon, m) == Some(h) && n <= m
    ensures h in headers && headers[h].number == m && Detour(headers, genesis, canon, h) == 0
    ensures n in canon && canon[n] == At(headers, genesis, h, n)
  {
    AtAt(headers, genesis, current, m, n);
  }

  /** Off the canonical chain the detour is one longer than the parent's. */
  lemma DetourStep(headers: Headers, genesis: Hash, canon: Canon, h: Hash)
    requires Rooted(headers, genesis) && Read(canon, 0) == Some(genesis) && h in headers
    requires Read(canon, headers[h].number) != Some(h)
    ensures headers[h].number > 0 && headers[h].parent in headers
    ensures headers[headers[h].parent].number + 1 == headers[h].number
    ensures Detour(headers, genesis, canon, h) == 1 + Detour(headers, genesis, canon, headers[h].parent)
  {
  }

  /** Off the canonical chain and out of budget, the request fails. */
  lemma BudgetSpent(headers: Headers, genesis: Hash, canon: Canon,
                    hash: Hash, number: nat, ancestor: nat, hash': Hash, steps: nat)
    requires Rooted(headers, genesis) && Read(canon, 0) == Some(genesis)
    requires OnTheWay(headers, genesis, canon, hash, number, hash', steps)
    requires ancestor != 1 && steps < ancestor <= number && Read(canon, number - steps) != Some(hash')
    ensures AncestorAnswer(headers, genesis, canon, hash, number, ancestor, steps) == (None, 0)
  {
    hide Rooted, Detour;
    if GetHeader(headers, hash, number).Some? {
      DetourStep(headers, genesis, canon, hash');
    }
  }

  /** Off the canonical chain without the header the request fails; otherwise one more parent step is
      on the way. */
  lemma OneStepOn(headers: Headers, genesis: Hash, canon: Canon,
                  hash: Hash, number: nat, ancestor: nat, budget: nat, hash': Hash, steps: nat)
    requires Rooted(headers, genesis) && Read(canon, 0) == Some(genesis)
    requires OnTheWay(headers, genesis, canon, hash, number, hash', steps)
    requires ancestor != 1 && steps < ancestor <= number && steps < budget
    requires Read(canon, number - steps) != Some(hash')
    ensures var header := GetHeader(headers, hash', number - steps);
            if header.None? then
              AncestorAnswer(headers, genesis, canon, hash, number, ancestor, budget) == (None, budget - steps - 1)
            else
              OnTheWay(headers, genesis, canon, hash, number, header.value.parent, steps + 1)
  {
    hide Rooted, Detour;
    if GetHeader(headers, hash, number).Some? {
      ParentAt(headers, genesis, hash, number - steps);
      DetourStep(headers, genesis, canon, hash');
    }
  }

  /** All steps walked without meeting the canonical chain. */
  lemma WalkedAnswers(headers: Headers, genesis: Hash, canon: Canon,
                      hash: Hash, number: nat, ancestor: nat, budget: nat, hash': Hash)
    requires Rooted(headers, genesis) && Read(canon, 0) == Some(genesis)
    requires OnTheWay(headers, genesis, canon, hash, number, hash', ancestor)
    requires ancestor != 1 && ancestor <= number && ancestor <= budget
    ensures AncestorAnswer(headers, genesis, canon, hash, number, ancestor, budget) ==
            (Some((hash', number - ancestor)), budget - ancestor)
  {
  }

  lemma CurrentKnown(headers: Headers, genesis: Hash, canon: Canon, current: Hash)
    requires Rooted(headers, genesis) && IsPath(headers, genesis, canon, current)
    ensures current in headers
  {
  }

  /** The higher of the current header and a new one is the highest. */
  lemma HighestGrows(headers: Headers, current: Hash, hash: Hash, header: Header)
    requires current in headers && NoneHigher(headers, current) && (hash in headers ==> headers[hash] == header)
    ensures var headers' := headers[hash := header];
            && (header.number <= headers[current].number ==> NoneHigher(headers', current))
            && (header.number >= headers[current].number ==> NoneHigher(headers', hash))
  {
  }

  lemma PathEnds(headers: Headers, genesis: Hash, canon: Canon, current: Hash, n: nat)
    requires Rooted(headers, genesis) && IsPath(headers, genesis, canon, current) && n > headers[current].number
    ensures n !in canon
  {
  }

  /** With everything below rewritten, putting `hash` on top makes its ancestor path canonical. */
  lemma ExtendPath(headers: Headers, genesis: Hash, canon: Canon, current: Hash, rewritten: Canon, hash: Hash)
    requires Rooted(headers, genesis) && IsPath(headers, genesis, canon, current)
    requires hash in headers && headers[current].number <= headers[hash].number <= headers[current].number + 1
    requires rewritten.Keys == canon.Keys
    requires forall n: nat | n < headers[hash].number :: n in rewritten && rewritten[n] == At(headers, genesis, hash, n)
    ensures IsPath(headers, genesis, rewritten[headers[hash].number := hash], hash)
  {
    hide Rooted;
    assert forall n: nat :: n in rewritten <==> n in canon;
  }

  lemma RootedGrows(headers: Headers, genesis: Hash, hash: Hash, header: Header)
    requires Rooted(headers, genesis) && (hash in headers ==> headers[hash] == header)
    requires header.parent in headers && headers[header.parent].number + 1 == header.number
    ensures Rooted(headers[hash := header], genesis)
  {
  }

  /** The parent of an ancestor is the ancestor one below. */
  lemma ParentAt(headers: Headers, genesis: Hash, h: Hash, n: nat)
    requires Rooted(headers, genesis) && h in headers && 0 < n <= headers[h].number
    ensures headers[At(headers, genesis, h, n)].parent == At(headers, genesis, h, n - 1)
    ensures At(headers, genesis, h, n - 1) in headers
  {
    AtAt(headers, genesis, h, n, n - 1);
  }

  lemma PathReaches(headers: Headers, genesis: Hash, canon: Canon, current: Hash, n: nat)
    requires Rooted(headers, genesis) && IsPath(headers, genesis, canon, current) && n <= headers[current].number
    ensures forall k: nat | k <= n :: k in canon
  {
  }

  /** At height 0 the canonical entry is the genesis and so is every ancestor: the rewrite stops. */
  lemma NotYetGenesis(headers: Headers, genesis: Hash, canon: Canon, current: Hash, h: Hash, n: nat)
    requires Rooted(headers, genesis) && IsPath(headers, genesis, canon, current)
    requires h in headers && n <= headers[h].number && Read(canon, n) != Some(At(headers, genesis, h, n))
    ensures n > 0
  {
    AtGenesis(headers, genesis, h);
    AtGenesis(headers, genesis, current);
  }

  /** Where two paths meet they coincide from there down. */
  lemma SharedBelow(headers: Headers, genesis: Hash, canon: Canon, current: Hash, h: Hash, m: nat)
    requires Rooted(headers, genesis) && IsPath(headers, genesis, canon, current)
    requires h in headers && m <= headers[h].number && Read(canon, m) == Some(At(headers, genesis, h, m))
    ensures forall n: nat | n <= m :: n in canon && canon[n] == At(headers, genesis, h, n)
  {
    forall n: nat | n <= m
      ensures n in canon && canon[n] == At(headers, genesis, h, n)
    {
      AtAt(headers, genesis, h, m, n);
      AtAt(headers, genesis, current, m, n);
    }
  }

  lemma PathGrows(headers: Headers, headers': Headers, genesis: Hash, canon: Canon, current: Hash)
    requires Rooted(headers, genesis) && Rooted(headers', genesis)
    requires forall k | k in headers :: k in headers' && headers'[k] == headers[k]
    requires IsPath(headers, genesis, canon, current)
    ensures IsPath(headers', genesis, canon, current)
  {
    forall n: nat | n <= headers[current].number
      ensures canon[n] == At(headers', genesis, current, n)
    {
      AtGrows(headers, headers', genesis, current, n);
    }
  }
}

/**
 The order of linking, and what it decides: of the blocks with the most work the active chain ends on
 the one that was linked first (src/main.cpp).
 */
module FirstSeen {
  import opened Wrappers
  import opened BlockTree
  import opened ChainModel
  import opened ChainSteps
  import opened SearchCourse
  import opened SearchSteps

  /** a has more work than b, or as much and was linked earlier. */
  ghost predicate Ahead(s: State, a: BlockId, b: BlockId)
    requires Shaped(s) && a in s.tree && b in s.tree
  {
    || s.tree[a].work > s.tree[b].work
    || (s.tree[a].work == s.tree[b].work && s.status[a].sequenceId < s.status[b].sequenceId)
  }

  /** Of the linked blocks with acceptable ancestry x has the most work; of those with as much it was linked first. */
  ghost predicate FirstOfHeaviest(s: State, x: BlockId)
    requires Shaped(s)
  {
    && x in s.tree && Linked(s, x) && Acceptable(s, x)
    && forall b {:trigger Acceptable(s, b)} :: b in s.tree && b != x && Linked(s, b) && Acceptable(s, b) ==>
         Ahead(s, x, b)
  }

  /** The same among the linked blocks without an ancestor known to be invalid. */
  ghost predicate Leads(s: State, x: BlockId)
    requires Shaped(s)
  {
    && x in s.tree && Linked(s, x) && !Invalid(s, x)
    && forall b {:trigger Invalid(s, b)} :: b in s.tree && b != x && Linked(s, b) && !Invalid(s, b) ==> Ahead(s, x, b)
  }

  /** Between linked blocks the comparator is that order. */
  lemma AheadIsNoWorse(s: State, next: nat, a: BlockId, b: BlockId)
    requires Shaped(s) && IdsOk(s.status, next) && a in s.tree && b in s.tree && a != b && Linked(s, a) && Linked(s, b)
    ensures NoWorse(s, a, b) <==> Ahead(s, a, b)
  {
    assert IdsDiffer(s.status, a, b);
  }

  lemma BestIsFirst(s: State, next: nat, x: BlockId)
    requires Shaped(s) && IdsOk(s.status, next) && IsBest(s, x)
    ensures FirstOfHeaviest(s, x)
  {
    hide Ahead, NoWorse, IdsOk;
    forall b | b in s.tree && b != x && Linked(s, b) && Acceptable(s, b) ensures Ahead(s, x, b) {
      AheadIsNoWorse(s, next, x, b);
    }
  }

  lemma AimLeads(s: State, next: nat, x: BlockId)
    requires Shaped(s) && IdsOk(s.status, next) && Aim(s, x)
    ensures Leads(s, x)
  {
    hide Ahead, NoWorse, IdsOk;
    forall b | b in s.tree && b != x && Linked(s, b) && !Invalid(s, b) ensures Ahead(s, x, b) {
      AheadIsNoWorse(s, next, x, b);
    }
  }

  lemma LeaderIsAim(s: State, next: nat, x: BlockId)
    requires Shaped(s) && IdsOk(s.status, next) && Leads(s, x)
    ensures Aim(s, x)
  {
    hide Ahead, IdsOk;
    forall b | b in s.tree && Linked(s, b) && !Invalid(s, b) ensures NoWorse(s, x, b) {
      if b == x {
        WorseIsStrictTotalOrder(s.tree, s.status, x, x, x);
      } else {
        AheadIsNoWorse(s, next, x, b);
      }
    }
  }

  /** A search that is over has the tip for its aim. */
  lemma OverIsAim(s: State)
    requires Searching(s, s.tip) && forall c :: c in s.candidates ==> NoWorse(s, s.tip, c)
    ensures Aim(s, s.tip)
  {
    hide Core;
    ConnectedNotInvalid(s, s.tip);
    forall b | b in s.tree && Linked(s, b) && !Invalid(s, b) ensures NoWorse(s, s.tip, b) {
      assert CandidateAt(s, s.tip, b);
      WorseIsStrictTotalOrder(s.tree, s.status, s.tip, b, s.tip);
    }
  }

  /** So the next search succeeds at once, whatever can be disconnected, and keeps the tip. */
  lemma LeaderStays<C>(s: State, base: BlockId, next: nat, c: C, connect: (C, BlockId) -> C,
                       disconnect: (C, BlockId) -> Option<C>)
    requires Searching(s, base) && IdsOk(s.status, next) && Leads(s, s.tip)
    ensures Succeeds(s, c, connect, disconnect) && IsBest(s, s.tip)
  {
    hide Core, CandidatesOk, Leads, IdsOk, Succeeds;
    SearchingIsPosed(s, base);
    LeaderIsAim(s, next, s.tip);
    CourseDone(s, c, connect, disconnect);
    ConnectedNotInvalid(s, s.tip);
    forall b | b in s.tree && Linked(s, b) && Acceptable(s, b) ensures NoWorse(s, s.tip, b) {
      AcceptableNotInvalid(s, b);
    }
  }

  // ----- What an invalidation leaves and adds as candidates -----

  /** Unflagged, linked, and the tip itself or ahead of it. */
  ghost predicate Offered(s: State, b: BlockId)
    requires Shaped(s) && b in s.tree && s.tip in s.tree
  {
    && !s.status[b].failedValid && !s.status[b].failedChild && s.status[b].validity >= 3 && s.status[b].chainTx > 0
    && (b == s.tip || Ahead(s, b, s.tip))
  }

  lemma OfferedIsEligible(s: State, next: nat, b: BlockId)
    requires Shaped(s) && IdsOk(s.status, next) && b in s.tree && Linked(s, s.tip)
    ensures Offered(s, b) <==> Eligible(s, b)
  {
    hide Ahead, NoWorse, IdsOk;
    WorseIsStrictTotalOrder(s.tree, s.status, b, b, b);
    if b == s.tip {
      TipNoWorse(s);
    } else if Linked(s, b) {
      AheadIsNoWorse(s, next, b, s.tip);
    }
  }

  lemma TipNoWorse(s: State)
    requires Shaped(s)
    ensures NoWorse(s, s.tip, s.tip)
  {
  }

  /** x and the active blocks from it up are no candidates any more, and what the new tip calls for is. */
  ghost predicate CandidatesWithout(s: State, s': State, x: BlockId)
    requires Shaped(s) && Shaped(s') && s'.tree == s.tree && x in s.tree
  {
    forall b {:trigger b in s'.candidates} :: b in s.tree ==>
      (b in s'.candidates <==>
        || (b in s.candidates && b != x && !(IsAncestor(s.tree, b, s.tip) && IsAncestor(s.tree, x, b)))
        || Offered(s', b))
  }

  lemma ActiveAbove(t: Tree, x: BlockId, tip: BlockId, b: BlockId)
    requires Rooted(t) && tip in t && b in t && IsAncestor(t, x, tip)
    ensures b in AncestorsAbove(t, tip, t[x].height - 1) <==> IsAncestor(t, b, tip) && IsAncestor(t, x, b)
  {
    if IsAncestor(t, b, tip) && t[x].height <= t[b].height { AncestorOfAncestor(t, tip, t[b].height, t[x].height); }
  }

  /** s1 is the state before the final scan. */
  lemma InvalidatedCandidates(s: State, s1: State, x: BlockId, next: nat)
    requires Shaped(s) && Shaped(s1) && s1.tree == s.tree && x in s.tree && IdsOk(s1.status, next) && Linked(s1, s1.tip)
    requires s1.candidates == s.candidates - {x} -
      if IsAncestor(s.tree, x, s.tip) then AncestorsAbove(s.tree, s.tip, s.tree[x].height - 1) else {}
    ensures Shaped(Refilled(s1)) && CandidatesWithout(s, Refilled(s1), x)
  {
    hide Eligible, Offered, IdsOk, AncestorsAbove;
    var s' := Refilled(s1);
    forall b | b in s.tree
      ensures b in s'.candidates <==>
        || (b in s.candidates && b != x && !(IsAncestor(s.tree, b, s.tip) && IsAncestor(s.tree, x, b)))
        || Offered(s', b)
    {
      OfferedIsEligible(s1, next, b);
      OfferedRefilled(s1, b);
      if IsAncestor(s.tree, x, s.tip) {
        ActiveAbove(s.tree, x, s.tip, b);
      } else if IsAncestor(s.tree, b, s.tip) && IsAncestor(s.tree, x, b) {
        AncestorTransitive(s.tree, x, b, s.tip);
      }
    }
  }

  lemma OfferedRefilled(s: State, b: BlockId)
    requires Shaped(s) && b in s.tree
    ensures Shaped(Refilled(s)) && Offered(Refilled(s), b) == Offered(s, b)
  {
  }

  // ----- The order in which one block's data links its descendants -----

  /** The blocks filed under those of linked, in their order. */
  function Fetched(unlinked: map<BlockId, seq<BlockId>>, linked: seq<BlockId>): seq<BlockId>
    decreases |linked|
  {
    if linked == [] then []
    else Fetched(unlinked, linked[..|linked| - 1]) + Children(unlinked, linked[|linked| - 1])
  }

  /** Exactly these blocks were linked, and got the ids from next on. */
  ghost predicate IdsGiven(st: Statuses, st': Statuses, next: nat, linked: seq<BlockId>) {
    && st'.Keys == st.Keys
    && (forall i {:trigger linked[i]} :: 0 <= i < |linked| ==>
          && linked[i] in st && st[linked[i]].chainTx == 0
          && st'[linked[i]].chainTx > 0 && st'[linked[i]].sequenceId == next + i)
    && (forall a {:trigger st'[a]} :: a in st && a !in linked ==>
          st'[a].chainTx == st[a].chainTx && st'[a].sequenceId == st[a].sequenceId)
  }

  /** From s to s' the blocks of linked were linked, and those with more work than the tip became candidates. */
  ghost predicate LinkedSince(s: State, s': State, next: nat, linked: seq<BlockId>)
    requires Shaped(s)
  {
    && s'.tree == s.tree && s'.tip == s.tip && IdsGiven(s.status, s'.status, next, linked)
    && s'.unlinked == s.unlinked - (set a | a in linked)
    && s'.candidates == s.candidates + set a | a in linked && a in s.tree && s.tree[a].work > s.tree[s.tip].work
  }

  lemma NothingLinked(s: State, next: nat)
    requires Shaped(s)
    ensures LinkedSince(s, s, next, [])
  {
  }

  /** A block with a new id comes before the tip only by its work. */
  lemma LatestIsWorse(s: State, p: BlockId, id: nat)
    requires Shaped(s) && p in s.tree && !Linked(s, p) && Linked(s, s.tip) && IdsOk(s.status, id)
    ensures Worse(s.tree, s.status[p := LinkedStatus(s, p, id)], p, s.tip) <==> s.tree[p].work <= s.tree[s.tip].work
  {
    assert IdAt(s.status, id, s.tip);
  }

  lemma OneMoreId(st: Statuses, st1: Statuses, next: nat, linked: seq<BlockId>, p: BlockId, x: Status)
    requires IdsGiven(st, st1, next, linked) && p in st && p !in linked && st1[p].chainTx == 0
    requires x.chainTx > 0 && x.sequenceId == next + |linked|
    ensures IdsGiven(st, st1[p := x], next, linked + [p])
  {
    var st', linked' := st1[p := x], linked + [p];
    assert st[p].chainTx == 0;
    forall i | 0 <= i < |linked'|
      ensures && linked'[i] in st && st[linked'[i]].chainTx == 0
              && st'[linked'[i]].chainTx > 0 && st'[linked'[i]].sequenceId == next + i
    {
      if i < |linked| { assert linked'[i] == linked[i] && linked[i] in linked; }
    }
  }

  lemma LinkedNotUnlinked(st: Statuses, st': Statuses, next: nat, linked: seq<BlockId>, p: BlockId)
    requires IdsGiven(st, st', next, linked) && p in st && st'[p].chainTx == 0
    ensures p !in linked
  {
  }

  lemma OneMoreLinked(s: State, s1: State, next: nat, linked: seq<BlockId>, p: BlockId)
    requires Shaped(s) && Shaped(s1) && LinkedSince(s, s1, next, linked) && IdsOk(s1.status, next + |linked|)
    requires p in s1.tree && !Linked(s1, p) && s1.status[p].nTx > 0 && Linked(s1, s1.tip)
    ensures LinkedSince(s, WithLink(s1, p, next + |linked|), next, linked + [p])
    ensures p !in linked && Children(s1.unlinked, p) == Children(s.unlinked, p)
  {
    hide IdsOk, IdsGiven, Worse;
    var id := next + |linked|;
    LinkedNotUnlinked(s.status, s1.status, next, linked, p);
    OneMoreId(s.status, s1.status, next, linked, p, LinkedStatus(s1, p, id));
    LatestIsWorse(s1, p, id);
    assert (set a | a in linked + [p]) == (set a | a in linked) + {p};
  }

  lemma FetchedNone(unlinked: map<BlockId, seq<BlockId>>)
    ensures Fetched(unlinked, []) == []
  {
  }

  lemma FetchOne(unlinked: map<BlockId, seq<BlockId>>, linked: seq<BlockId>, p: BlockId)
    ensures Fetched(unlinked, linked + [p]) == Fetched(unlinked, linked) + Children(unlinked, p)
  {
    assert (linked + [p])[..|linked|] == linked;
  }

  lemma LinkingIsShaped(s: State, q: seq<BlockId>, base: BlockId)
    requires Linking(s, q, base)
    ensures Shaped(s) && (q == [] ==> Searching(s, base))
  {
  }

  /** Linking a block changes nothing but link counts and ids. */
  lemma LinkFrame(s: State, p: BlockId, id: nat)
    requires Shaped(s) && p in s.tree && s.status[p].chainTx == 0 < s.status[p].nTx
    ensures var s' := WithLink(s, p, id);
      && s'.status.Keys == s.status.Keys && s'.status[p].chainTx > 0
      && forall a :: a in s.status ==>
           s'.status[a] == s.status[a].(chainTx := s'.status[a].chainTx, sequenceId := s'.status[a].sequenceId)
           && (s.status[a].chainTx > 0 ==> s'.status[a].chainTx > 0)
  {
  }

  lemma QueueOrder(unlinked: map<BlockId, seq<BlockId>>, b: BlockId, linked: seq<BlockId>, queue: seq<BlockId>)
    requires queue != [] && linked + queue == [b] + Fetched(unlinked, linked)
    ensures var p := queue[0];
      linked + [p] + (queue[1..] + Children(unlinked, p)) == [b] + Fetched(unlinked, linked + [p])
  {
    FetchOne(unlinked, linked, queue[0]);
    assert linked + [queue[0]] + (queue[1..] + Children(unlinked, queue[0])) ==
      linked + queue + Children(unlinked, queue[0]);
  }

  lemma LinkedIds(s: State, p: BlockId, id: nat)
    requires Shaped(s) && p in s.tree && IdsOk(s.status, id) && id > 0
    ensures IdsOk(WithLink(s, p, id).status, id + 1)
  {
    IdsExtended(s.status, p, LinkedStatus(s, p, id), id);
  }

  /** One round of the loop of ReceivedBlockTransactions. */
  lemma QueueStep(s0: State, s: State, queue: seq<BlockId>, base: BlockId, next: nat, linked: seq<BlockId>, b: BlockId)
    requires Shaped(s0) && Linking(s, queue, base) && queue != [] && LinkedSince(s0, s, next, linked)
    requires next > 0 && IdsOk(s.status, next + |linked|) && linked + queue == [b] + Fetched(s0.unlinked, linked)
    ensures Shaped(s) && queue[0] in s.tree && s.status[queue[0]].chainTx == 0 < s.status[queue[0]].nTx
    ensures var id, kids := next + |linked|, Children(s.unlinked, queue[0]);
      var s', linked' := WithLink(s, queue[0], id), linked + [queue[0]];
      && Linking(s', queue[1..] + kids, base) && IdsOk(s'.status, id + 1) && LinkedSince(s0, s', next, linked')
      && linked' + (queue[1..] + kids) == [b] + Fetched(s0.unlinked, linked')
  {
    hide Linking, Rooted, SkipsBuilt, IdsOk, LinkedSince, Fetched, WithLink;
    var p, id := queue[0], next + |linked|;
    LinkingIsShaped(s, queue, base);
    WaitingIsNoCandidate(s, queue, base);
    LinkKeepsLinking(s, queue, base, id);
    LinkedIds(s, p, id);
    OneMoreLinked(s0, s, next, linked, p);
    QueueOrder(s0.unlinked, b, linked, queue);
  }

  // ----- What arriving headers and data leave of a lead -----

  /** Blocks came, and were linked with ids from next on or found invalid; the tip stayed. */
  ghost predicate Arrived(s: State, next: nat, s': State) {
    && Shaped(s) && Shaped(s') && Extends(s, s') && s'.tip == s.tip && !Invalid(s', s'.tip)
    && (forall a {:trigger s'.status[a]} :: a in s.tree ==>
          && (s.status[a].failedValid ==> s'.status[a].failedValid)
          && (s.status[a].chainTx > 0 ==>
                s'.status[a].chainTx > 0 && s'.status[a].sequenceId == s.status[a].sequenceId))
    && (forall a {:trigger NewlyLinked(s, s', a)} :: NewlyLinked(s, s', a) ==> s'.status[a].sequenceId >= next)
  }

  ghost predicate NewlyLinked(s: State, s': State, a: BlockId)
    requires Shaped(s) && Shaped(s')
  {
    a in s'.tree && s'.status[a].chainTx > 0 && !(a in s.tree && s.status[a].chainTx > 0)
  }

  /** No block linked from s to s' has more work than the tip of s. */
  ghost predicate NoneHeavier(s: State, s': State)
    requires Shaped(s) && Shaped(s')
  {
    forall a {:trigger s'.status[a]} :: NewlyLinked(s, s', a) ==> s'.tree[a].work <= s.tree[s.tip].work
  }

  lemma ArrivedKeepsLead(s: State, next: nat, s': State)
    requires Arrived(s, next, s') && IdsOk(s.status, next) && Leads(s, s.tip) && NoneHeavier(s, s')
    ensures Leads(s', s.tip)
  {
    hide Invalid, Rooted, SkipsBuilt;
    var x := s.tip;
    assert IdAt(s.status, next, x);
    forall b | b in s'.tree && b != x && Linked(s', b) && !Invalid(s', b) ensures Ahead(s', x, b) {
      if NewlyLinked(s, s', b) {
        assert s'.status[b].sequenceId >= next;
      } else {
        InvalidGrows(s, s', b);
        assert Ahead(s, x, b);
      }
    }
  }

  /** Links made so far stay. */
  ghost predicate LinksKept(s: State, s': State) {
    && Shaped(s) && Shaped(s') && Extends(s, s') && s'.tip == s.tip
    && forall a {:trigger s'.status[a]} :: a in s.tree && s.status[a].chainTx > 0 ==> s'.status[a].chainTx > 0
  }

  lemma NoneHeavierBetween(s: State, s1: State, s2: State)
    requires LinksKept(s, s1) && LinksKept(s1, s2) && NoneHeavier(s, s2)
    ensures NoneHeavier(s, s1) && NoneHeavier(s1, s2)
  {
    forall a | NewlyLinked(s, s1, a) ensures s1.tree[a].work <= s.tree[s.tip].work {
      assert s2.status[a].chainTx > 0;
      assert NewlyLinked(s, s2, a);
    }
    forall a | NewlyLinked(s1, s2, a) ensures s2.tree[a].work <= s1.tree[s1.tip].work {
      if a in s.tree && s.status[a].chainTx > 0 {
        assert false;
      }
    }
  }

  /** One more arrival. */
  lemma ArrivedOn(s: State, s1: State, next: nat, s2: State)
    requires LinksKept(s, s1) && (NoneHeavier(s, s1) ==> Leads(s1, s.tip))
    requires Arrived(s1, next, s2) && IdsOk(s1.status, next)
    ensures LinksKept(s, s2) && (NoneHeavier(s, s2) ==> Leads(s2, s.tip))
  {
    hide NoneHeavier, Leads, IdsOk;
    assert LinksKept(s1, s2);
    if NoneHeavier(s, s2) {
      NoneHeavierBetween(s, s1, s2);
      ArrivedKeepsLead(s1, next, s2);
    }
  }

  /** A search links nothing. */
  lemma SearchedSame(s: State, s1: State, s2: State)
    requires Shaped(s) && Shaped(s1) && Shaped(s2) && s2.tree == s1.tree
    requires Progressed(s1.status, s2.status, s1.good) && NoneHeavier(s, s2)
    ensures NoneHeavier(s, s1)
  {
    forall a | NewlyLinked(s, s1, a) ensures s1.tree[a].work <= s.tree[s.tip].work {
      assert s2.status[a].chainTx == s1.status[a].chainTx;
    }
  }
}

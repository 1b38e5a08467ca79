/** The changes the block index goes through, one at a time, and what each keeps of the invariant. */
module ChainSteps {
  import opened Wrappers
  import opened BlockTree
  import opened ChainModel

  // ----- A header arrives (AddToBlockIndex) -----

  function FreshStatus(): Status {
    Status(VALID_TREE, false, false, false, 0, 0, 0)
  }

  ghost function WithEntry(s: State, n: BlockId, node: Node): State {
    s.(tree := s.tree[n := node], status := s.status[n := FreshStatus()])
  }

  lemma EntryFrame(s: State, base: BlockId, n: BlockId, node: Node)
    requires Searching(s, base) && n !in s.tree
    requires node.prev.Some? && node.prev.value in s.tree
    requires node.height == s.tree[node.prev.value].height + 1 && s.tree[node.prev.value].work < node.work
    requires node.skip == Some(AncestorAt(s.tree, node.prev.value, GetSkipHeight(node.height)))
    ensures Shaped(WithEntry(s, n, node)) && Extends(s, WithEntry(s, n, node))
    ensures forall a :: a in s.tree ==> Invalid(WithEntry(s, n, node), a) == Invalid(s, a)
    ensures Connected(WithEntry(s, n, node), s.tip) && Connected(WithEntry(s, n, node), base)
  {
    var s' := WithEntry(s, n, node);
    InsertKeepsTree(s.tree, n, node);
    forall a | a in s.tree ensures Invalid(s', a) == Invalid(s, a) { InvalidSame(s, s', a); }
    ConnectedKept(s, s', s.tip);
    ConnectedKept(s, s', base);
  }

  lemma EntryBlock(s: State, base: BlockId, n: BlockId, node: Node, b: BlockId)
    requires Searching(s, base) && n !in s.tree && Shaped(WithEntry(s, n, node)) && b in WithEntry(s, n, node).tree
    requires node.prev.Some? && node.prev.value in s.tree
    requires b != n ==> Invalid(WithEntry(s, n, node), b) == Invalid(s, b)
    ensures BlockOk(WithEntry(s, n, node), [], b)
  {
    if b == n {
      assert FiledOk(s, node.prev.value);
      assert b !in Children(s.unlinked, node.prev.value);
    } else {
      assert BlockOk(s, [], b) && RootedAt(s.tree, b);
    }
  }

  lemma EntryCandidate(s: State, base: BlockId, n: BlockId, node: Node, b: BlockId)
    requires Searching(s, base) && n !in s.tree && Shaped(WithEntry(s, n, node)) && b in WithEntry(s, n, node).tree
    requires b != n ==> Invalid(WithEntry(s, n, node), b) == Invalid(s, b)
    ensures CandidateAt(WithEntry(s, n, node), base, b)
  {
    if b != n { assert CandidateAt(s, base, b); }
  }

  lemma EntryKeepsSearching(s: State, base: BlockId, n: BlockId, node: Node)
    requires Searching(s, base) && n !in s.tree
    requires node.prev.Some? && node.prev.value in s.tree
    requires node.height == s.tree[node.prev.value].height + 1 && s.tree[node.prev.value].work < node.work
    requires node.skip == Some(AncestorAt(s.tree, node.prev.value, GetSkipHeight(node.height)))
    ensures Searching(WithEntry(s, n, node), base)
  {
    hide Invalid, Connected, BlockOk, CandidateAt, Rooted, SkipsBuilt;
    var s' := WithEntry(s, n, node);
    EntryFrame(s, base, n, node);
    forall b | b in s'.tree ensures BlockOk(s', [], b) { EntryBlock(s, base, n, node, b); }
    forall p ensures FiledOk(s', p) { assert FiledOk(s, p); }
    forall b | b in s'.tree ensures CandidateAt(s', base, b) { EntryCandidate(s, base, n, node, b); }
  }

  // ----- Block data arrives (ReceivedBlockTransactions) -----

  function WithDataStatus(x: Status, nTx: nat): Status {
    x.(nTx := nTx, chainTx := 0, haveData := true).RaiseValidity(VALID_TRANSACTIONS)
  }

  ghost function WithData(s: State, b: BlockId, nTx: nat): State
    requires b in s.status
  {
    s.(status := s.status[b := WithDataStatus(s.status[b], nTx)])
  }

  ghost predicate QueueOk(s: State, q: seq<BlockId>)
    requires Shaped(s)
  {
    && (forall i {:trigger q[i]} :: 0 <= i < |q| ==>
          q[i] in s.tree && s.status[q[i]].haveData && !Linked(s, q[i]) && ParentLinked(s, q[i]))
    && (forall i, j :: 0 <= i < j < |q| ==> q[i] != q[j])
  }

  /** The invariant in the middle of ReceivedBlockTransactions. */
  ghost predicate Linking(s: State, q: seq<BlockId>, base: BlockId) {
    && Shaped(s) && Core(s, q) && QueueOk(s, q) && Connected(s, s.tip)
    && base in s.tree && Connected(s, base) && CandidatesOk(s, base)
  }

  /** What a change of nTx, haveData, chainTx and sequenceId of unlinked entries leaves alone. */
  lemma UnlinkedChange(s: State, s': State, base: BlockId)
    requires Shaped(s) && Shaped(s') && s'.tree == s.tree && s'.tip == s.tip && s'.good == s.good
    requires forall a :: a in s.tree && Linked(s, a) ==> s'.status[a] == s.status[a]
    requires forall a :: a in s.tree ==> s.status[a].failedValid == s'.status[a].failedValid
    requires Connected(s, s.tip) && base in s.tree && Connected(s, base)
    ensures Connected(s', s.tip) && Connected(s', base)
    ensures forall a :: a in s.tree ==> Invalid(s', a) == Invalid(s, a)
  {
    forall a | a in s.tree && Connected(s, a) ensures ConnectedAt(s', a) {
      assert ConnectedAt(s, a);
    }
    ConnectedKept(s, s', s.tip);
    ConnectedKept(s, s', base);
    forall a | a in s.tree ensures Invalid(s', a) == Invalid(s, a) { InvalidSame(s, s', a); }
  }

  lemma DataCandidates(s: State, base: BlockId, b: BlockId, nTx: nat)
    requires Searching(s, base) && b in s.tree && !s.status[b].haveData && nTx > 0
    ensures Shaped(WithData(s, b, nTx)) && !Linked(s, b)
    ensures forall a :: a in s.tree ==> Invalid(WithData(s, b, nTx), a) == Invalid(s, a)
    ensures Connected(WithData(s, b, nTx), s.tip) && Connected(WithData(s, b, nTx), base)
    ensures CandidatesOk(WithData(s, b, nTx), base)
  {
    var s' := WithData(s, b, nTx);
    assert BlockOk(s, [], b);
    UnlinkedChange(s, s', base);
    ConnectedNotInvalid(s, s.tip);
    ConnectedNotInvalid(s, base);
    forall a | a in s.tree ensures CandidateAt(s', base, a) { assert CandidateAt(s, base, a); }
  }

  /** Data of a block whose parent is linked: the block goes on the queue. */
  lemma DataOnQueue(s: State, base: BlockId, b: BlockId, nTx: nat)
    requires Searching(s, base) && b in s.tree && !s.status[b].haveData && !s.status[b].Failed() && nTx > 0
    requires ParentLinked(s, b)
    ensures Linking(WithData(s, b, nTx), [b], base)
  {
    var s' := WithData(s, b, nTx);
    DataCandidates(s, base, b, nTx);
    forall a | a in s'.tree ensures BlockOk(s', [b], a) {
      assert BlockOk(s, [], a) && RootedAt(s.tree, a) && BlockOk(s, [], b);
      if s.tree[a].prev.Some? { assert BlockOk(s, [], s.tree[a].prev.value); }
    }
    forall p ensures FiledOk(s', p) { assert FiledOk(s, p); }
  }

  ghost function Filed(s: State, b: BlockId, p: BlockId): State {
    s.(unlinked := s.unlinked[p := Children(s.unlinked, p) + [b]])
  }

  lemma FiledBlock(s: State, base: BlockId, b: BlockId, nTx: nat, p: BlockId, a: BlockId)
    requires Searching(s, base) && b in s.tree && !s.status[b].haveData && !s.status[b].Failed() && nTx > 0
    requires s.tree[b].prev == Some(p) && p in s.tree && !Linked(s, p)
    requires a in s.tree && Shaped(Filed(WithData(s, b, nTx), b, p))
    requires Invalid(Filed(WithData(s, b, nTx), b, p), a) == Invalid(s, a)
    ensures BlockOk(Filed(WithData(s, b, nTx), b, p), [], a)
  {
    assert BlockOk(s, [], a) && BlockOk(s, [], b) && RootedAt(s.tree, a);
  }

  lemma FiledPlace(s: State, base: BlockId, b: BlockId, nTx: nat, p: BlockId, x: BlockId)
    requires Searching(s, base) && b in s.tree && !s.status[b].haveData
    requires s.tree[b].prev == Some(p)
    ensures FiledOk(Filed(WithData(s, b, nTx), b, p), x)
  {
    assert FiledOk(s, x) && BlockOk(s, [], b);
    assert b !in Children(s.unlinked, p);
  }

  /** Data of a block with an unlinked parent: the block is filed under it. */
  lemma DataFiled(s: State, base: BlockId, b: BlockId, nTx: nat, p: BlockId)
    requires Searching(s, base) && b in s.tree && !s.status[b].haveData && !s.status[b].Failed() && nTx > 0
    requires s.tree[b].prev == Some(p) && p in s.tree && !Linked(s, p)
    ensures Searching(Filed(WithData(s, b, nTx), b, p), base)
  {
    var s1 := WithData(s, b, nTx);
    var s' := Filed(s1, b, p);
    DataCandidates(s, base, b, nTx);
    UnlinkedChange(s1, s', base);
    forall a | a in s'.tree ensures BlockOk(s', [], a) { FiledBlock(s, base, b, nTx, p, a); }
    forall x ensures FiledOk(s', x) { FiledPlace(s, base, b, nTx, p, x); }
    forall a | a in s'.tree ensures CandidateAt(s', base, a) { assert CandidateAt(s1, base, a); }
  }

  ghost function LinkedStatus(s: State, p: BlockId, id: nat): Status
    requires Shaped(s) && p in s.tree
  {
    s.status[p].(chainTx := ParentTx(s, p) + s.status[p].nTx, sequenceId := id)
  }

  /** The first entry of the queue is linked and becomes a candidate if it sorts no worse than the tip. */
  ghost function WithLink(s: State, p: BlockId, id: nat): State
    requires Shaped(s) && p in s.tree
  {
    var status := s.status[p := LinkedStatus(s, p, id)];
    s.(status := status,
       candidates := if Worse(s.tree, status, p, s.tip) then s.candidates else s.candidates + {p},
       unlinked := s.unlinked - {p})
  }

  lemma LinkCandidates(s: State, q: seq<BlockId>, base: BlockId, id: nat)
    requires Linking(s, q, base) && q != []
    ensures Shaped(WithLink(s, q[0], id))
    ensures forall a :: a in s.tree ==> Invalid(WithLink(s, q[0], id), a) == Invalid(s, a)
    ensures Connected(WithLink(s, q[0], id), s.tip) && Connected(WithLink(s, q[0], id), base)
    ensures CandidatesOk(WithLink(s, q[0], id), base)
  {
    var p := q[0];
    var s' := WithLink(s, p, id);
    UnlinkedChange(s, s', base);
    ConnectedNotInvalid(s, s.tip);
    ConnectedNotInvalid(s, base);
    assert BlockOk(s, q, p);
    forall a | a in s.tree ensures CandidateAt(s', base, a) { assert CandidateAt(s, base, a); }
  }

  lemma LinkBlock(s: State, q: seq<BlockId>, base: BlockId, id: nat, b: BlockId)
    requires Linking(s, q, base) && q != [] && b in s.tree && Shaped(WithLink(s, q[0], id))
    requires Invalid(WithLink(s, q[0], id), b) == Invalid(s, b)
    ensures BlockOk(WithLink(s, q[0], id), q[1..] + Children(s.unlinked, q[0]), b)
  {
    var p := q[0];
    var kids := Children(s.unlinked, p);
    var s', q' := WithLink(s, p, id), q[1..] + kids;
    assert BlockOk(s, q, p) && BlockOk(s, q, b) && FiledOk(s, p) && RootedAt(s.tree, b) && RootedAt(s.tree, p);
    assert q == [p] + q[1..];
    assert b in q' <==> b in q[1..] || b in kids;
    if b == p {
      assert p !in q[1..];
      if s.tree[p].prev.Some? { assert BlockOk(s, q, s.tree[p].prev.value); }
    } else if s.tree[b].prev == Some(p) {
      assert b !in q;
    } else {
      assert b !in kids;
      assert s.tree[b].prev.Some? ==>
        Children(s'.unlinked, s.tree[b].prev.value) == Children(s.unlinked, s.tree[b].prev.value);
    }
  }

  lemma LinkQueue(s: State, q: seq<BlockId>, base: BlockId, id: nat)
    requires Linking(s, q, base) && q != [] && Shaped(WithLink(s, q[0], id))
    ensures QueueOk(WithLink(s, q[0], id), q[1..] + Children(s.unlinked, q[0]))
  {
    var p := q[0];
    var kids := Children(s.unlinked, p);
    var s', q' := WithLink(s, p, id), q[1..] + kids;
    assert BlockOk(s, q, p) && FiledOk(s, p) && RootedAt(s.tree, p);
    forall i | 0 <= i < |q'|
      ensures q'[i] in s.tree && s'.status[q'[i]].haveData && !Linked(s', q'[i]) && ParentLinked(s', q'[i])
    {
      if i < |q| - 1 {
        assert q'[i] == q[i + 1];
        assert RootedAt(s.tree, q[i + 1]);
      } else {
        var c := kids[i - (|q| - 1)];
        assert q'[i] == c && c in kids;
        assert BlockOk(s, q, c) && RootedAt(s.tree, c);
      }
    }
    forall i, j | 0 <= i < j < |q'| ensures q'[i] != q'[j] {
      if i < |q| - 1 <= j {
        assert q'[i] == q[i + 1] && q'[j] == kids[j - (|q| - 1)];
        assert q'[j] in kids && BlockOk(s, q, q'[j]) && q'[i] in q;
      }
    }
  }

  lemma LinkKeepsLinking(s: State, q: seq<BlockId>, base: BlockId, id: nat)
    requires Linking(s, q, base) && q != []
    ensures Linking(WithLink(s, q[0], id), q[1..] + Children(s.unlinked, q[0]), base)
  {
    var s', q' := WithLink(s, q[0], id), q[1..] + Children(s.unlinked, q[0]);
    LinkCandidates(s, q, base, id);
    LinkQueue(s, q, base, id);
    forall b | b in s'.tree ensures BlockOk(s', q', b) { LinkBlock(s, q, base, id, b); }
    forall x ensures FiledOk(s', x) { assert FiledOk(s, x); }
  }

  /** What waits in the queue is no candidate yet. */
  lemma WaitingIsNoCandidate(s: State, q: seq<BlockId>, base: BlockId)
    requires Linking(s, q, base) && q != []
    ensures q[0] in s.tree && q[0] !in s.candidates && s.status[q[0]].chainTx == 0 < s.status[q[0]].nTx
    ensures Linked(s, s.tip)
  {
    ConnectedNotInvalid(s, s.tip);
    assert BlockOk(s, q, q[0]);
    assert CandidateAt(s, base, q[0]);
  }
}

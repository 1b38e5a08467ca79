/**
 CheckBlockIndex (src/main.cpp): the consistency checks the node runs on its own block index,
 written out as they stand there.  The "first" pointers of its depth-first walk say whether some
 block on the path from genesis to the current one has a property.
 */
module CheckBlockIndex {
  import opened Wrappers
  import opened BlockTree
  import opened ChainModel
  import opened SearchSteps

  /** pindexFirstMissing != NULL. */
  ghost predicate SomeMissing(s: State, b: BlockId)
    requires Shaped(s) && b in s.tree
  {
    exists h :: 0 <= h <= s.tree[b].height && !s.status[AncestorAt(s.tree, b, h)].haveData
  }

  /** pindexFirstInvalid != NULL. */
  ghost predicate SomeInvalid(s: State, b: BlockId)
    requires Shaped(s) && b in s.tree
  {
    exists h :: 0 <= h <= s.tree[b].height && s.status[AncestorAt(s.tree, b, h)].failedValid
  }

  /** pindexFirstNotTreeValid, pindexFirstNotChainValid, pindexFirstNotScriptsValid != NULL: genesis is exempt. */
  ghost predicate SomeBelow(s: State, b: BlockId, level: nat)
    requires Shaped(s) && b in s.tree
  {
    exists h :: 0 < h <= s.tree[b].height && s.status[AncestorAt(s.tree, b, h)].validity < level
  }

  /** The assertions about one block, in the order of the source. */
  ghost predicate Passes(s: State, b: BlockId)
    requires Shaped(s) && b in s.tree
  {
    var n, x := s.tree[b], s.status[b];
    assert RootedAt(s.tree, b);
    && (n.prev == None ==> b == s.genesis && b == AncestorAt(s.tree, s.tip, 0))
    && (!x.haveData == (x.nTx == 0))
    && ((x.validity >= VALID_TRANSACTIONS) == (x.nTx > 0))
    && (x.chainTx == 0 ==> x.sequenceId == 0)
    && (SomeMissing(s, b) == (x.chainTx == 0))
    && (n.prev.Some? ==> n.height == s.tree[n.prev.value].height + 1 && n.work >= s.tree[n.prev.value].work)
    && (n.height < 2 || (n.skip.Some? && n.skip.value in s.tree && s.tree[n.skip.value].height < n.height))
    && !SomeBelow(s, b, VALID_TREE)
    && (x.validity >= VALID_CHAIN ==> !SomeBelow(s, b, VALID_CHAIN))
    && (x.validity >= VALID_SCRIPTS ==> !SomeBelow(s, b, VALID_SCRIPTS))
    && (!SomeInvalid(s, b) ==> !x.Failed())
    && (if !Worse(s.tree, s.status, b, s.tip) && !SomeMissing(s, b)
        then !SomeInvalid(s, b) ==> b in s.candidates
        else b !in s.candidates)
    && (if n.prev.Some? && x.haveData && SomeMissing(s, b)
        then !SomeInvalid(s, b) ==> b in Children(s.unlinked, n.prev.value)
        else n.prev.Some? ==> b !in Children(s.unlinked, n.prev.value))
  }

  lemma {:induction false} MissingIffUnlinked(s: State, b: BlockId)
    requires Shaped(s) && Core(s, []) && b in s.tree
    ensures SomeMissing(s, b) <==> !Linked(s, b)
    decreases s.tree[b].height
  {
    assert BlockOk(s, [], b) && RootedAt(s.tree, b);
    var top := s.tree[b].height;
    assert AncestorAt(s.tree, b, top) == b;
    if s.tree[b].prev.Some? {
      var p := s.tree[b].prev.value;
      MissingIffUnlinked(s, p);
      if SomeMissing(s, p) {
        var h :| 0 <= h <= s.tree[p].height && !s.status[AncestorAt(s.tree, p, h)].haveData;
        assert AncestorAt(s.tree, b, h) == AncestorAt(s.tree, p, h);
      }
      if SomeMissing(s, b) && s.status[b].haveData {
        var h :| 0 <= h <= top && !s.status[AncestorAt(s.tree, b, h)].haveData;
        assert AncestorAt(s.tree, b, h) == AncestorAt(s.tree, p, h);
      }
    }
  }

  lemma {:induction false} InvalidIffSome(s: State, b: BlockId)
    requires Shaped(s) && b in s.tree
    ensures SomeInvalid(s, b) <==> Invalid(s, b)
    decreases s.tree[b].height
  {
    assert RootedAt(s.tree, b);
    var top := s.tree[b].height;
    assert AncestorAt(s.tree, b, top) == b;
    if s.tree[b].prev.Some? {
      var p := s.tree[b].prev.value;
      InvalidIffSome(s, p);
      if SomeInvalid(s, p) {
        var h :| 0 <= h <= s.tree[p].height && s.status[AncestorAt(s.tree, p, h)].failedValid;
        assert AncestorAt(s.tree, b, h) == AncestorAt(s.tree, p, h);
      }
      if SomeInvalid(s, b) && !s.status[b].failedValid {
        var h :| 0 <= h <= top && s.status[AncestorAt(s.tree, b, h)].failedValid;
        assert AncestorAt(s.tree, b, h) == AncestorAt(s.tree, p, h);
      }
    }
  }

  lemma {:induction false} ValidityPassesDown(s: State, b: BlockId, h: nat, level: nat)
    requires Shaped(s) && Core(s, []) && b in s.tree && 0 < h <= s.tree[b].height
    requires level == VALID_TREE || level == VALID_CHAIN || level == VALID_SCRIPTS
    requires s.status[b].validity >= level
    ensures s.status[AncestorAt(s.tree, b, h)].validity >= level
    decreases s.tree[b].height
  {
    assert BlockOk(s, [], b) && RootedAt(s.tree, b);
    if h < s.tree[b].height {
      var p := s.tree[b].prev.value;
      assert BlockOk(s, [], p) && RootedAt(s.tree, p);
      ValidityPassesDown(s, p, h, level);
    }
  }

  lemma NothingBelow(s: State, b: BlockId, level: nat)
    requires Shaped(s) && Core(s, []) && b in s.tree
    requires level == VALID_TREE || level == VALID_CHAIN || level == VALID_SCRIPTS
    requires s.status[b].validity >= level
    ensures !SomeBelow(s, b, level)
  {
    forall h | 0 < h <= s.tree[b].height ensures s.status[AncestorAt(s.tree, b, h)].validity >= level {
      ValidityPassesDown(s, b, h, level);
    }
  }

  /**
   All that the assertions about a block can fail on, wherever a search or an invalidation was cut
   short: whether a block that should be a candidate is one.
   */
  lemma PassesIffCandidate(s: State, b: BlockId)
    requires Shaped(s) && Core(s, []) && Floor(s) && b in s.tree
    ensures Passes(s, b) <==> CandidateAt(s, s.tip, b)
  {
    assert BlockOk(s, [], b) && RootedAt(s.tree, b) && SkipBuiltAt(s.tree, b);
    MissingIffUnlinked(s, b);
    InvalidIffSome(s, b);
    GenesisIsAncestor(s, [], s.tip);
    NothingBelow(s, b, VALID_TREE);
    if s.status[b].validity >= VALID_CHAIN { NothingBelow(s, b, VALID_CHAIN); }
    if s.status[b].validity >= VALID_SCRIPTS { NothingBelow(s, b, VALID_SCRIPTS); }
  }

  /** Every assertion holds for every block if and only if no candidate is missing. */
  lemma AllPassIffComplete(s: State)
    requires Shaped(s) && Core(s, []) && Floor(s)
    ensures (forall b :: b in s.tree ==> Passes(s, b)) <==> CandidatesOk(s, s.tip)
  {
    hide Passes, Core;
    forall b | b in s.tree ensures Passes(s, b) <==> CandidateAt(s, s.tip, b) { PassesIffCandidate(s, b); }
  }

  lemma SearchingHasFloor(s: State, base: BlockId)
    requires Searching(s, base)
    ensures Floor(s)
  {
    forall c | c in s.candidates ensures Linked(s, c) && NoWorse(s, c, s.tip) { assert CandidateAt(s, base, c); }
  }

  /** Every assertion of CheckBlockIndex holds in every consistent state. */
  lemma ConsistentPasses(s: State, b: BlockId)
    requires Consistent(s) && b in s.tree
    ensures Passes(s, b)
  {
    hide Passes;
    SearchingHasFloor(s, s.tip);
    PassesIffCandidate(s, b);
  }

  /** A search cut short with its tip among no candidates leaves a block index that CheckBlockIndex rejects. */
  lemma CutShortFails(s: State, base: BlockId)
    requires Searching(s, base) && s.tip !in s.candidates
    ensures !Passes(s, s.tip)
  {
    hide Passes;
    SearchingHasFloor(s, base);
    ConnectedNotInvalid(s, s.tip);
    PassesIffCandidate(s, s.tip);
    WorseIsStrictTotalOrder(s.tree, s.status, s.tip, s.tip, s.tip);
  }
}

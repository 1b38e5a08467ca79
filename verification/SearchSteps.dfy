/** The steps of the search for the best chain and of InvalidateBlock, and what each keeps. */
module SearchSteps {
  import opened Wrappers
  import opened BlockTree
  import opened ChainModel

  /** s' differs from s in failure flags, candidates and tip only; BLOCK_FAILED_VALID is never cleared. */
  ghost predicate FlagsOnly(s: State, s': State)
    requires Shaped(s)
  {
    && Shaped(s') && s'.tree == s.tree && s'.unlinked == s.unlinked && s'.genesis == s.genesis && s'.good == s.good
    && forall a {:trigger s'.status[a]} {:trigger s.status[a]} :: a in s.tree ==>
         && s'.status[a] == s.status[a].(failedValid := s'.status[a].failedValid,
           failedChild := s'.status[a].failedChild)
         && (s.status[a].failedValid ==> s'.status[a].failedValid)
  }

  lemma CoreUnderFlags(s: State, s': State)
    requires Shaped(s) && Core(s, []) && FlagsOnly(s, s')
    requires forall a :: a in s.tree && s'.status[a].Failed() ==> s.status[a].Failed() || Invalid(s', a)
    ensures Core(s', [])
    ensures forall a :: a in s.tree && Invalid(s, a) ==> Invalid(s', a)
  {
    forall a | a in s.tree && Invalid(s, a) ensures Invalid(s', a) { InvalidGrows(s, s', a); }
    forall b | b in s'.tree ensures BlockOk(s', [], b) {
      assert BlockOk(s, [], b) && RootedAt(s.tree, b);
    }
    forall p ensures FiledOk(s', p) { assert FiledOk(s, p); }
  }

  /** A connected block stays connected when only blocks outside its ancestry are flagged. */
  lemma {:induction false} ConnectedWithout(s: State, s': State, x: BlockId, b: BlockId)
    requires Shaped(s) && FlagsOnly(s, s') && x in s.tree && b in s.tree && !IsAncestor(s.tree, x, b)
    requires forall a :: a in s.tree && a != x ==> s'.status[a] == s.status[a]
    requires Connected(s, b)
    ensures Connected(s', b)
    decreases s.tree[b].height
  {
    assert RootedAt(s.tree, b);
    if s.tree[b].prev.Some? {
      var p := s.tree[b].prev.value;
      assert !IsAncestor(s.tree, x, p);
      ConnectedWithout(s, s', x, p);
    }
  }

  lemma CandidatesShrink(s: State, s': State, base: BlockId)
    requires Shaped(s) && FlagsOnly(s, s') && base in s.tree && CandidatesOk(s, base) && s'.tip == s.tip
    requires forall a :: a in s.tree && Invalid(s, a) ==> Invalid(s', a)
    requires s'.candidates <= s.candidates
    requires forall a :: a in s.candidates && a !in s'.candidates ==> Invalid(s', a)
    ensures CandidatesOk(s', base)
  {
    forall b | b in s'.tree ensures CandidateAt(s', base, b) { assert CandidateAt(s, base, b); }
  }

  // ----- Flagging -----

  ghost function FlaggedChild(s: State, b: BlockId): State
    requires b in s.status
  {
    s.(status := s.status[b := s.status[b].(failedChild := true)], candidates := s.candidates - {b})
  }

  /** Flagging a block with an invalid ancestor leaves connected blocks connected. */
  lemma FlagChildConnected(s: State, b: BlockId, a: BlockId)
    requires Shaped(s) && b in s.tree && Invalid(s, b) && a in s.tree && Connected(s, a)
    ensures Shaped(FlaggedChild(s, b)) && ConnectedAt(FlaggedChild(s, b), a)
  {
    ConnectedNotInvalid(s, a);
  }

  /** And it changes what is invalid as little. */
  lemma FlagChildFrame(s: State, b: BlockId)
    requires Shaped(s) && b in s.tree && Invalid(s, b)
    ensures FlagsOnly(s, FlaggedChild(s, b))
    ensures forall a :: a in s.tree ==> Invalid(FlaggedChild(s, b), a) == Invalid(s, a)
    ensures forall a :: a in s.tree && Connected(s, a) ==> Connected(FlaggedChild(s, b), a)
  {
    hide Invalid, Connected, ConnectedAt, Rooted, SkipsBuilt;
    var s' := FlaggedChild(s, b);
    forall a | a in s.tree ensures Invalid(s', a) == Invalid(s, a) { InvalidSame(s, s', a); }
    forall a | a in s.tree && Connected(s, a) ensures ConnectedAt(s', a) { FlagChildConnected(s, b, a); }
    forall a | a in s.tree && Connected(s, a) ensures Connected(s', a) { ConnectedKept(s, s', a); }
  }

  /** FindMostWorkChain flags only blocks that have an invalid ancestor. */
  lemma FlagChildKeeps(s: State, base: BlockId, b: BlockId)
    requires Searching(s, base) && b in s.tree && Invalid(s, b)
    ensures Searching(FlaggedChild(s, b), base)
    ensures forall a :: a in s.tree ==> Invalid(FlaggedChild(s, b), a) == Invalid(s, a)
  {
    hide Connected, Core, CandidatesOk, Invalid;
    var s' := FlaggedChild(s, b);
    FlagChildFrame(s, b);
    CoreUnderFlags(s, s');
    CandidatesShrink(s, s', base);
  }

  /** Erasing a candidate with an invalid ancestor. */
  lemma EraseKeeps(s: State, base: BlockId, b: BlockId)
    requires Searching(s, base) && b in s.tree && Invalid(s, b)
    ensures Searching(s.(candidates := s.candidates - {b}), base)
    ensures forall a :: a in s.tree ==> Invalid(s.(candidates := s.candidates - {b}), a) == Invalid(s, a)
  {
    var s' := s.(candidates := s.candidates - {b});
    forall a | a in s.tree ensures Invalid(s', a) == Invalid(s, a) { InvalidSame(s, s', a); }
    CoreUnderFlags(s, s');
    forall a | a in s.tree && Connected(s, a) ensures ConnectedAt(s', a) { assert ConnectedAt(s, a); }
    ConnectedKept(s, s', s.tip);
    ConnectedKept(s, s', base);
    CandidatesShrink(s, s', base);
  }

  ghost function MarkedInvalid(s: State, b: BlockId): State
    requires b in s.status
  {
    s.(status := s.status[b := s.status[b].(failedValid := true)], candidates := s.candidates - {b})
  }

  /** A block outside the ancestry of the tip and of the base may be found invalid at any time. */
  lemma MarkInvalidKeeps(s: State, base: BlockId, b: BlockId)
    requires Searching(s, base) && b in s.tree
    requires !IsAncestor(s.tree, b, s.tip) && !IsAncestor(s.tree, b, base)
    ensures Searching(MarkedInvalid(s, b), base)
  {
    var s' := MarkedInvalid(s, b);
    assert FlagsOnly(s, s');
    CoreUnderFlags(s, s');
    ConnectedWithout(s, s', b, s.tip);
    ConnectedWithout(s, s', b, base);
    CandidatesShrink(s, s', base);
  }

  /** A block ConnectBlock rejects is in no connected block's ancestry. */
  lemma RejectedIsOutside(s: State, b: BlockId, x: BlockId)
    requires Shaped(s) && b in s.tree && x in s.tree && Connected(s, x) && !s.good(b)
    ensures !IsAncestor(s.tree, b, x)
  {
    if IsAncestor(s.tree, b, x) { ConnectedAncestor(s, x, s.tree[b].height); }
  }

  /** A block without data is in no connected block's ancestry. */
  lemma UnlinkedIsOutside(s: State, b: BlockId, x: BlockId)
    requires Shaped(s) && b in s.tree && x in s.tree && Connected(s, x) && !Linked(s, b)
    ensures !IsAncestor(s.tree, b, x)
  {
    if IsAncestor(s.tree, b, x) { ConnectedAncestor(s, x, s.tree[b].height); }
  }

  // ----- Moving the tip -----

  ghost function Disconnected(s: State): State
    requires s.tip in s.tree && s.tree[s.tip].prev.Some?
  {
    s.(tip := s.tree[s.tip].prev.value)
  }

  /** A change that leaves tree, statuses and verdicts alone leaves ancestry facts alone. */
  lemma SameStatuses(s: State, s': State, b: BlockId)
    requires Shaped(s) && Shaped(s') && s'.tree == s.tree && s'.status == s.status && s'.good == s.good && b in s.tree
    ensures Invalid(s', b) == Invalid(s, b) && (Connected(s, b) ==> Connected(s', b))
  {
    InvalidSame(s, s', b);
    forall a | a in s.tree && Connected(s, a) ensures ConnectedAt(s', a) { assert ConnectedAt(s, a); }
    ConnectedKept(s, s', b);
  }

  lemma CoreWithTip(s: State, s': State)
    requires Shaped(s) && Core(s, []) && Shaped(s') && s' == s.(tip := s'.tip, candidates := s'.candidates)
    ensures Core(s', [])
  {
    forall b | b in s'.tree ensures BlockOk(s', [], b) {
      assert BlockOk(s, [], b);
      SameStatuses(s, s', b);
    }
    forall p ensures FiledOk(s', p) { assert FiledOk(s, p); }
  }

  lemma DisconnectKeeps(s: State, base: BlockId)
    requires Searching(s, base) && s.tree[s.tip].prev.Some? && NoWorse(s, base, s.tip)
    ensures Searching(Disconnected(s), base) && NoWorse(Disconnected(s), base, Disconnected(s).tip)
  {
    assert RootedAt(s.tree, s.tip);
    var s' := Disconnected(s);
    CoreWithTip(s, s');
    SameStatuses(s, s', s'.tip);
    SameStatuses(s, s', base);
    forall b | b in s'.tree ensures CandidateAt(s', base, b) {
      assert CandidateAt(s, base, b);
      SameStatuses(s, s', b);
    }
  }

  /** As often as it takes. */
  lemma {:induction false} BackOn(s: State, base: BlockId, b: BlockId)
    requires Searching(s, base) && NoWorse(s, base, s.tip) && IsAncestor(s.tree, b, s.tip)
    ensures Searching(s.(tip := b), base) && NoWorse(s.(tip := b), base, b)
    decreases s.tree[s.tip].height
  {
    hide Core, Connected, CandidatesOk, NoWorse;
    if b == s.tip {
      assert s.(tip := b) == s;
    } else {
      assert RootedAt(s.tree, s.tip);
      DisconnectKeeps(s, base);
      BackOn(Disconnected(s), base, b);
      assert Disconnected(s).(tip := b) == s.(tip := b);
    }
  }

  ghost function WithTip(s: State, b: BlockId): State
    requires b in s.status
  {
    s.(status := s.status[b := s.status[b].RaiseValidity(VALID_SCRIPTS)], tip := b)
  }

  ghost function Pruned(s: State): State
    requires Shaped(s)
  {
    s.(candidates := set c | c in s.candidates && NoWorse(s, c, s.tip))
  }

  lemma ConnectBlockOk(s: State, b: BlockId, a: BlockId)
    requires Shaped(s) && Core(s, []) && ConnectedAt(s, s.tip) && b in s.tree && a in s.tree
    requires s.tree[b].prev == Some(s.tip) && !s.status[b].Failed() && Linked(s, b)
    requires Shaped(WithTip(s, b)) && Invalid(WithTip(s, b), a) == Invalid(s, a)
    ensures BlockOk(WithTip(s, b), [], a)
  {
    assert BlockOk(s, [], a) && BlockOk(s, [], b) && RootedAt(s.tree, a);
  }

  lemma ConnectFrame(s: State, b: BlockId)
    requires Shaped(s) && Core(s, []) && Connected(s, s.tip) && b in s.tree
    requires s.tree[b].prev == Some(s.tip) && s.good(b) && !s.status[b].Failed() && Linked(s, b)
    ensures Shaped(WithTip(s, b)) && Core(WithTip(s, b), []) && Connected(WithTip(s, b), b)
    ensures forall a :: a in s.tree ==> Invalid(WithTip(s, b), a) == Invalid(s, a)
    ensures forall a :: a in s.tree && Connected(s, a) ==> Connected(WithTip(s, b), a)
  {
    var s' := WithTip(s, b);
    forall a | a in s.tree ensures Invalid(s', a) == Invalid(s, a) { InvalidSame(s, s', a); }
    assert BlockOk(s, [], b) && ConnectedAt(s, s.tip);
    forall a | a in s.tree && Connected(s, a) ensures ConnectedAt(s', a) { assert ConnectedAt(s, a); }
    forall a | a in s.tree && Connected(s, a) ensures Connected(s', a) { ConnectedKept(s, s', a); }
    forall a | a in s'.tree ensures BlockOk(s', [], a) { ConnectBlockOk(s, b, a); }
    forall p ensures FiledOk(s', p) { assert FiledOk(s, p); }
  }

  /** Connecting one block and pruning the candidates keeps the search invariant. */
  lemma ConnectKeeps(s: State, base: BlockId, b: BlockId)
    requires Searching(s, base) && b in s.tree
    requires s.tree[b].prev == Some(s.tip) && s.good(b) && !s.status[b].Failed() && Linked(s, b)
    ensures Shaped(WithTip(s, b)) && Searching(Pruned(WithTip(s, b)), base)
  {
    assert RootedAt(s.tree, b);
    ConnectFrame(s, b);
    var s1 := WithTip(s, b);
    var s' := Pruned(s1);
    CoreWithTip(s1, s');
    SameStatuses(s1, s', b);
    SameStatuses(s1, s', base);
    forall a | a in s'.tree ensures CandidateAt(s', base, a) {
      assert CandidateAt(s, base, a);
      SameStatuses(s1, s', a);
    }
  }

  lemma CandidateIsLinked(s: State, base: BlockId, m: BlockId)
    requires Searching(s, base) && m in s.candidates
    ensures m in s.tree && Linked(s, m) && NoWorse(s, m, s.tip)
  {
    assert CandidateAt(s, base, m);
  }

  // ----- What a search aims at -----

  /** No block of m's ancestry is flagged. */
  ghost predicate Clear(s: State, m: BlockId)
    requires Shaped(s)
  {
    m in s.tree &&
    forall h {:trigger AncestorAt(s.tree, m, h)} :: 0 <= h <= s.tree[m].height ==>
      !s.status[AncestorAt(s.tree, m, h)].Failed()
  }

  /** The best candidate, when its way is clear: what FindMostWorkChain answers at once. */
  ghost predicate Target(s: State, m: BlockId)
    requires Shaped(s)
  {
    m in s.candidates && Clear(s, m) && forall c :: c in s.candidates ==> NoWorse(s, m, c)
  }

  lemma TargetInTree(s: State, m: BlockId)
    requires Shaped(s) && Target(s, m)
    ensures m in s.tree
  {
  }

  lemma TargetIsUnique(s: State, m: BlockId, best: BlockId)
    requires Shaped(s) && Target(s, m) && best in s.candidates
    requires forall c :: c in s.candidates ==> NoWorse(s, best, c)
    ensures best == m
  {
    WorseIsStrictTotalOrder(s.tree, s.status, m, best, m);
  }

  /** The way to the target leads off the active chain. */
  ghost predicate OffTarget(s: State)
    requires Shaped(s)
  {
    exists m :: Target(s, m) && !IsAncestor(s.tree, s.tip, m)
  }

  lemma OffTheTarget(s: State, m: BlockId)
    requires Shaped(s) && Target(s, m)
    ensures OffTarget(s) <==> !IsAncestor(s.tree, s.tip, m)
  {
    if OffTarget(s) {
      var n :| Target(s, n) && !IsAncestor(s.tree, s.tip, n);
      TargetIsUnique(s, m, n);
    }
  }

  lemma HasTarget(s: State)
    requires Shaped(s) && OffTarget(s)
    ensures exists m :: Target(s, m)
  {
  }

  /** On its target, the search is not off it. */
  lemma OnTarget(s: State, base: BlockId)
    requires Searching(s, base) && forall c :: c in s.candidates ==> NoWorse(s, s.tip, c)
    ensures !OffTarget(s)
  {
    if m :| Target(s, m) && !IsAncestor(s.tree, s.tip, m) {
      assert CandidateAt(s, base, m);
      WorseIsStrictTotalOrder(s.tree, s.status, m, s.tip, m);
    }
  }

  /** A search changes no sorting key. */
  lemma SameOrder(s: State, s': State, a: BlockId, b: BlockId)
    requires Shaped(s) && Shaped(s') && s'.tree == s.tree && Progressed(s.status, s'.status, s.good)
    requires a in s.tree && b in s.tree
    ensures NoWorse(s, a, b) == NoWorse(s', a, b)
  {
  }

  /** A move of the tip leaves the target what it was. */
  lemma TargetStays(s: State, s': State, m: BlockId)
    requires Shaped(s) && Shaped(s') && s' == s.(tip := s'.tip) && Target(s, m)
    ensures Target(s', m)
  {
    forall c | c in s'.candidates ensures NoWorse(s', m, c) { assert NoWorse(s, m, c); }
    forall h | 0 <= h <= s'.tree[m].height ensures !s'.status[AncestorAt(s'.tree, m, h)].Failed() {
      assert !s.status[AncestorAt(s.tree, m, h)].Failed();
    }
  }

  /** A tip that was walked back is no candidate, because it is below what the candidates were pruned to. */
  lemma LeftBehind(s: State, base: BlockId, t: BlockId)
    requires Searching(s, base) && IsAncestor(s.tree, t, s.tip) && t != s.tip
    ensures t !in s.candidates
  {
    AncestorWork(s.tree, s.tip, s.tree[t].height);
    assert CandidateAt(s, base, t);
  }

  /** f is the highest block that the ancestries of a and b share. */
  ghost predicate LastShared(t: Tree, f: BlockId, a: BlockId, b: BlockId)
    requires Rooted(t) && a in t && b in t
  {
    && IsAncestor(t, f, a) && IsAncestor(t, f, b)
    && forall c :: IsAncestor(t, c, a) && IsAncestor(t, c, b) ==> t[c].height <= t[f].height
  }

  // ----- Start and end of a search -----

  /** Once the tip is as good as the base, it can be the base. */
  lemma Rebase(s: State, base: BlockId)
    requires Searching(s, base) && NoWorse(s, s.tip, base)
    ensures Consistent(s)
  {
    forall b | b in s.tree ensures CandidateAt(s, s.tip, b) {
      assert CandidateAt(s, base, b);
      WorseIsStrictTotalOrder(s.tree, s.status, b, s.tip, base);
    }
  }

  /** The base or the tip is a candidate, so the search never runs out of candidates. */
  lemma SomethingLeft(s: State, base: BlockId)
    requires Searching(s, base)
    ensures if NoWorse(s, base, s.tip) then base in s.candidates else s.tip in s.candidates
  {
    assert CandidateAt(s, base, base) && CandidateAt(s, base, s.tip);
    ConnectedNotInvalid(s, base);
    ConnectedNotInvalid(s, s.tip);
    WorseIsStrictTotalOrder(s.tree, s.status, base, s.tip, base);
    WorseIsStrictTotalOrder(s.tree, s.status, s.tip, base, s.tip);
  }

  /** x is the comparator-maximal linked block with acceptable ancestry. */
  ghost predicate IsBest(s: State, x: BlockId)
    requires Shaped(s)
  {
    && x in s.tree && Linked(s, x) && Acceptable(s, x)
    && forall b :: b in s.tree && Linked(s, b) && Acceptable(s, b) ==> NoWorse(s, x, b)
  }

  /** There is only one such block, so the outcome of a search does not depend on how it went. */
  lemma BestIsUnique(s: State, x: BlockId, y: BlockId)
    requires Shaped(s) && IsBest(s, x) && IsBest(s, y)
    ensures x == y
  {
    WorseIsStrictTotalOrder(s.tree, s.status, x, y, x);
  }

  /** If no candidate beats the tip the search is over. */
  lemma SearchEnds(s: State, base: BlockId)
    requires Searching(s, base) && forall c :: c in s.candidates ==> NoWorse(s, s.tip, c)
    ensures Consistent(s) && IsBest(s, s.tip)
  {
    SomethingLeft(s, base);
    WorseIsStrictTotalOrder(s.tree, s.status, s.tip, base, s.tip);
    Rebase(s, base);
    ConnectedNotInvalid(s, s.tip);
    forall b | b in s.tree && Linked(s, b) && Acceptable(s, b) ensures NoWorse(s, s.tip, b) {
      AcceptableNotInvalid(s, b);
      assert CandidateAt(s, s.tip, b);
      WorseIsStrictTotalOrder(s.tree, s.status, s.tip, b, s.tip);
    }
  }

  /** A search changes no verdict: blocks are marked invalid only when ConnectBlock rejects them. */
  lemma {:induction false} AcceptableSame(s: State, s': State, b: BlockId)
    requires Shaped(s) && Shaped(s') && s'.tree == s.tree && s'.good == s.good && b in s.tree
    requires Progressed(s.status, s'.status, s.good)
    ensures Acceptable(s, b) == Acceptable(s', b)
    decreases s.tree[b].height
  {
    assert RootedAt(s.tree, b);
    if s.tree[b].prev.Some? { AcceptableSame(s, s', s.tree[b].prev.value); }
  }

  lemma BestBefore(s: State, s': State, x: BlockId)
    requires Shaped(s) && Shaped(s') && s'.tree == s.tree && s'.good == s.good
    requires Progressed(s.status, s'.status, s.good) && IsBest(s', x)
    ensures IsBest(s, x)
  {
    AcceptableSame(s, s', x);
    forall b | b in s.tree && Linked(s, b) && Acceptable(s, b) ensures NoWorse(s, x, b) {
      AcceptableSame(s, s', b);
      assert NoWorse(s', x, b);
    }
  }

  /** A search from start, with `from` as the best tip so far, that ended in s with no candidate better than the tip. */
  lemma SearchConcludes(start: State, from: BlockId, s: State, base: BlockId)
    requires Searching(start, from) && Searching(s, base) && s.tree == start.tree && s.good == start.good
    requires Progressed(start.status, s.status, start.good) && forall c :: c in s.candidates ==> NoWorse(s, s.tip, c)
    ensures Searching(s, s.tip) && IsBest(s, s.tip) && IsBest(start, s.tip) && !OffTarget(s)
    ensures NoWorse(start, s.tip, start.tip) && NoWorse(start, s.tip, from)
  {
    hide Core, Connected, CandidatesOk, OffTarget;
    SearchEnds(s, base);
    OnTarget(s, base);
    BestBefore(start, s, s.tip);
    ConnectedNotInvalid(start, start.tip);
    ConnectedNotInvalid(start, from);
    ConnectedNotInvalid(s, s.tip);
  }

  /** Blocks with more work than b: what is left to climb. */
  ghost function Heavier(t: Tree, b: BlockId): set<BlockId>
    requires b in t
  {
    set a | a in t && t[a].work > t[b].work
  }

  /** A round of the search comes closer: fewer unflagged blocks, or as many and a heavier tip. */
  ghost predicate Closer(s: State, s': State)
    requires Shaped(s) && Shaped(s') && s.tree == s'.tree
  {
    || Unflagged(s'.status) < Unflagged(s.status)
    || (Unflagged(s'.status) == Unflagged(s.status) && Heavier(s.tree, s'.tip) < Heavier(s.tree, s.tip))
  }

  lemma RoundComesCloser(s: State, s': State)
    requires Shaped(s) && Shaped(s') && s.tree == s'.tree && Progressed(s.status, s'.status, s.good)
    requires Unflagged(s'.status) < Unflagged(s.status) || s.tree[s.tip].work < s.tree[s'.tip].work
    ensures Closer(s, s')
  {
    assert Unflagged(s'.status) <= Unflagged(s.status);
    if s.tree[s.tip].work < s.tree[s'.tip].work {
      assert s'.tip in Heavier(s.tree, s.tip) && s'.tip !in Heavier(s.tree, s'.tip);
    }
  }

  // ----- InvalidateBlock -----

  ghost predicate Floor(s: State)
    requires Shaped(s)
  {
    forall c :: c in s.candidates ==> Linked(s, c) && NoWorse(s, c, s.tip)
  }

  /** While the tip is walked back below the invalidated block x. */
  ghost predicate Unwinding(s: State, x: BlockId) {
    && Shaped(s) && Core(s, []) && Floor(s)
    && x in s.tree && s.tree[x].prev.Some? && 0 < s.tree[x].height && s.status[x].failedValid
    && (if IsAncestor(s.tree, x, s.tip)
        then s.tree[x].prev.value in s.tree && Connected(s, s.tree[x].prev.value)
        else Connected(s, s.tip))
  }

  lemma StartUnwinding(s: State, base: BlockId, x: BlockId)
    requires Searching(s, base) && x in s.tree && s.tree[x].prev.Some?
    ensures Unwinding(MarkedInvalid(s, x), x)
  {
    var s' := MarkedInvalid(s, x);
    assert FlagsOnly(s, s');
    CoreUnderFlags(s, s');
    forall c | c in s'.candidates ensures Linked(s', c) && NoWorse(s', c, s'.tip) { assert CandidateAt(s, base, c); }
    assert RootedAt(s.tree, x);
    if IsAncestor(s.tree, x, s.tip) {
      PrevOfAncestor(s.tree, s.tip, s.tree[x].height);
      ConnectedAncestor(s, s.tip, s.tree[x].height - 1);
      ConnectedWithout(s, s', x, s.tree[x].prev.value);
    } else {
      ConnectedWithout(s, s', x, s.tip);
    }
  }

  ghost function Unwound(s: State): State
    requires s.tip in s.tree && s.tip in s.status && s.tree[s.tip].prev.Some?
  {
    Disconnected(FlaggedChild(s, s.tip))
  }

  /** The tip is flagged and no candidate any more; it may have to stay where it is. */
  lemma UnwindFlag(s: State, x: BlockId)
    requires Unwinding(s, x) && IsAncestor(s.tree, x, s.tip)
    ensures s.tree[s.tip].prev.Some? && Unwinding(FlaggedChild(s, s.tip), x)
  {
    assert RootedAt(s.tree, s.tip) && RootedAt(s.tree, x);
    var s1 := FlaggedChild(s, s.tip);
    assert FlagsOnly(s, s1);
    InvalidDescends(s, s.tip, s.tree[x].height);
    InvalidSame(s, s1, s.tip);
    CoreUnderFlags(s, s1);
    assert !IsAncestor(s.tree, s.tip, s.tree[x].prev.value);
    ConnectedWithout(s, s1, s.tip, s.tree[x].prev.value);
  }

  lemma UnwindStep(s: State, x: BlockId)
    requires Unwinding(s, x) && IsAncestor(s.tree, x, s.tip)
    ensures s.tree[s.tip].prev.Some? && Unwinding(Unwound(s), x)
  {
    assert RootedAt(s.tree, s.tip) && RootedAt(s.tree, x);
    var s1, s' := FlaggedChild(s, s.tip), Unwound(s);
    UnwindFlag(s, x);
    CoreWithTip(s1, s');
    SameStatuses(s1, s', s.tree[x].prev.value);
    if s.tip != x {
      PrevOfAncestor(s.tree, s.tip, s.tree[s.tip].height);
      AncestorOfAncestor(s.tree, s.tip, s.tree[s.tip].height - 1, s.tree[x].height);
    }
  }

  /** What the final scan of InvalidateBlock inserts. */
  ghost predicate Eligible(s: State, b: BlockId)
    requires Shaped(s)
  {
    b in s.tree && s.status[b].IsValid(VALID_TRANSACTIONS) && Linked(s, b) && NoWorse(s, b, s.tip)
  }

  ghost function Refilled(s: State): State
    requires Shaped(s)
  {
    s.(candidates := s.candidates + set b | b in s.tree && Eligible(s, b))
  }

  lemma RefillIsConsistent(s: State, x: BlockId)
    requires Unwinding(s, x) && !IsAncestor(s.tree, x, s.tip)
    ensures Consistent(Refilled(s))
  {
    var s' := Refilled(s);
    CoreWithTip(s, s');
    SameStatuses(s, s', s.tip);
    forall b | b in s'.tree ensures CandidateAt(s', s'.tip, b) {
      SameStatuses(s, s', b);
      assert BlockOk(s, [], b);
    }
  }

  /** The statuses st after the blocks of oldTip's ancestry above height h were flagged in st0. */
  ghost predicate FlaggedAt(t: Tree, st0: Statuses, st: Statuses, oldTip: BlockId, h: int, b: BlockId)
    requires Rooted(t) && oldTip in t && b in t && b in st0 && b in st
  {
    st[b] == st0[b].(failedChild := st0[b].failedChild || (IsAncestor(t, b, oldTip) && t[b].height > h))
  }

  ghost predicate FlaggedAbove(t: Tree, st0: Statuses, st: Statuses, oldTip: BlockId, h: int)
    requires Rooted(t) && oldTip in t && st0.Keys == t.Keys && st.Keys == t.Keys
  {
    forall b {:trigger FlaggedAt(t, st0, st, oldTip, h, b)} :: b in t ==> FlaggedAt(t, st0, st, oldTip, h, b)
  }

  /** The ancestors of b above height h. */
  ghost function AncestorsAbove(t: Tree, b: BlockId, h: int): set<BlockId>
    requires Rooted(t) && b in t
  {
    set a | a in t && IsAncestor(t, a, b) && t[a].height > h
  }

  /** From s to s' exactly the ancestors of top above height h were flagged and taken from the candidates. */
  ghost predicate FlaggedDownTo(s: State, s': State, top: BlockId, h: int)
    requires Shaped(s) && Shaped(s') && s'.tree == s.tree && top in s.tree
  {
    FlaggedAbove(s.tree, s.status, s'.status, top, h) && s'.candidates == s.candidates - AncestorsAbove(s.tree, top, h)
  }

  /** One step down from a descendant of x is x's parent or still a descendant. */
  lemma UnwindStays(t: Tree, x: BlockId, tip: BlockId)
    requires Rooted(t) && tip in t && IsAncestor(t, x, tip) && t[tip].prev.Some?
    ensures t[tip].prev.value in t && (x == tip || IsAncestor(t, x, t[tip].prev.value))
  {
    assert RootedAt(t, tip);
    PrevOfAncestor(t, tip, t[tip].height);
    if x != tip { AncestorOfAncestor(t, tip, t[tip].height - 1, t[x].height); }
  }

  /** One more active block flagged, one step further down. */
  lemma UnwindTrack(s0: State, s: State)
    requires Shaped(s0) && Shaped(s) && s.tree == s0.tree && IsAncestor(s.tree, s.tip, s0.tip) &&
      s.tree[s.tip].prev.Some?
    requires FlaggedDownTo(s0, s, s0.tip, s.tree[s.tip].height)
    ensures Unwound(s).tip in s.tree && s.tree[Unwound(s).tip].height == s.tree[s.tip].height - 1
    ensures IsAncestor(s.tree, Unwound(s).tip, s0.tip)
    ensures FlaggedDownTo(s0, Unwound(s), s0.tip, s.tree[s.tip].height - 1)
    ensures FlaggedDownTo(s0, FlaggedChild(s, s.tip), s0.tip, s.tree[s.tip].height - 1)
  {
    assert RootedAt(s.tree, s.tip);
    var h := s.tree[s.tip].height;
    PrevOfAncestor(s.tree, s0.tip, h);
    forall b | b in s.tree ensures FlaggedAt(s.tree, s0.status, Unwound(s).status, s0.tip, h - 1, b) {
      assert FlaggedAt(s.tree, s0.status, s.status, s0.tip, h, b);
    }
    assert AncestorsAbove(s.tree, s0.tip, h - 1) == AncestorsAbove(s.tree, s0.tip, h) + {s.tip};
  }

  /** Walking back from top flags the once active blocks from x up, as far as the walk got. */
  lemma FlaggedFrom(s: State, s': State, top: BlockId, x: BlockId, h: int, b: BlockId)
    requires Shaped(s) && Shaped(s') && s'.tree == s.tree && IsAncestor(s.tree, x, s.tip) && b in s.tree && top == s.tip
    requires FlaggedDownTo(s, s', top, h) && s.tree[x].height - 1 <= h
    ensures s'.status[b] == s.status[b].(failedChild :=
      (IsAncestor(s.tree, b, top) && IsAncestor(s.tree, x, b) && h < s.tree[b].height) || s.status[b].failedChild)
  {
    assert FlaggedAt(s.tree, s.status, s'.status, top, h, b);
    if IsAncestor(s.tree, b, top) && s.tree[x].height <= s.tree[b].height {
      AncestorOfAncestor(s.tree, top, s.tree[b].height, s.tree[x].height);
    }
  }

  lemma NoneFlagged(s: State, top: BlockId)
    requires Shaped(s) && top in s.tree
    ensures FlaggedDownTo(s, s, top, s.tree[top].height)
  {
    forall b | b in s.tree ensures FlaggedAt(s.tree, s.status, s.status, top, s.tree[top].height, b) {}
  }
}

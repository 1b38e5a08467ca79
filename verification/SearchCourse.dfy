/**
 The course of a search for the best chain, told from the state before it: what each round aims at,
 how far it climbs, and whether every block in the way can be disconnected (src/main.cpp).
 */
module SearchCourse {
  import opened Wrappers
  import opened BlockTree
  import opened ChainModel
  import opened SearchSteps
  import opened TipWalk

  // ----- What a search looks at -----

  /** The same blocks, sorting keys and verdicts, and the same blocks found invalid. */
  ghost predicate SameKeys(s: State, s': State) {
    && Shaped(s) && Shaped(s') && s'.tree == s.tree && s'.good == s.good
    && forall a {:trigger s'.status[a]} {:trigger s.status[a]} :: a in s.tree ==>
         && s'.status[a].failedValid == s.status[a].failedValid
         && s'.status[a].chainTx == s.status[a].chainTx && s'.status[a].sequenceId == s.status[a].sequenceId
  }

  lemma KeysStart(s: State)
    requires Shaped(s)
    ensures SameKeys(s, s)
  {
  }

  lemma KeysWithout(s: State, b: BlockId)
    requires Shaped(s)
    ensures SameKeys(s, s.(candidates := s.candidates - {b}))
  {
  }

  lemma KeysOn(s: State, s1: State, s2: State)
    requires SameKeys(s, s1) && SameKeys(s1, s2)
    ensures SameKeys(s, s2)
  {
  }

  /** Finding the same block invalid keeps two such states alike. */
  lemma KeysMarked(s: State, s': State, r: BlockId)
    requires SameKeys(s, s') && r in s.tree
    ensures SameKeys(MarkedInvalid(s, r), MarkedInvalid(s', r))
  {
  }

  lemma KeysAgree(s: State, s': State)
    requires SameKeys(s, s')
    ensures Shaped(s) && Shaped(s') && s'.tree == s.tree && s'.good == s.good
  {
  }

  lemma KeysInvalid(s: State, s': State, b: BlockId)
    requires SameKeys(s, s') && b in s.tree
    ensures Invalid(s', b) == Invalid(s, b) && Linked(s', b) == Linked(s, b)
  {
    InvalidSame(s, s', b);
  }

  /** The tip is one a search can start from. */
  ghost predicate Posed(s: State) {
    Shaped(s) && Core(s, []) && Linked(s, s.tip) && !Invalid(s, s.tip)
  }

  lemma SearchingIsPosed(s: State, base: BlockId)
    requires Searching(s, base)
    ensures Posed(s)
  {
    hide Core, CandidatesOk;
    ConnectedNotInvalid(s, s.tip);
  }

  // ----- What a round aims at -----

  /** The best linked block without an invalid ancestor. */
  ghost predicate Aim(s: State, m: BlockId)
    requires Shaped(s)
  {
    && m in s.tree && Linked(s, m) && !Invalid(s, m)
    && forall b {:trigger Invalid(s, b)} :: b in s.tree && Linked(s, b) && !Invalid(s, b) ==> NoWorse(s, m, b)
  }

  lemma AimIsUnique(s: State, m: BlockId, n: BlockId)
    requires Shaped(s) && Aim(s, m) && Aim(s, n)
    ensures m == n
  {
    WorseIsStrictTotalOrder(s.tree, s.status, m, n, m);
  }

  lemma AimExists(s: State)
    requires Posed(s)
    ensures exists m :: Aim(s, m)
  {
    hide Core, Worse, Linked;
    var c := set b | b in s.tree && Linked(s, b) && !Invalid(s, b);
    assert s.tip in c;
    var m := BestExists(s.tree, s.status, c);
    LastIsIn(s.tree, s.status, c, m);
    forall b | b in s.tree && Linked(s, b) && !Invalid(s, b) ensures NoWorse(s, m, b) {
      assert b in c;
    }
    assert Aim(s, m);
  }

  lemma AimSame(s: State, s': State, m: BlockId)
    requires SameKeys(s, s') && Aim(s, m)
    ensures Aim(s', m)
  {
    KeysInvalid(s, s', m);
    forall b | b in s.tree && Linked(s', b) && !Invalid(s', b) ensures NoWorse(s', m, b) {
      KeysInvalid(s, s', b);
      assert NoWorse(s, m, b);
    }
  }

  lemma {:induction false} ClearNotInvalid(s: State, b: BlockId)
    requires Shaped(s) && Clear(s, b)
    ensures !Invalid(s, b)
    decreases s.tree[b].height
  {
    assert RootedAt(s.tree, b);
    assert AncestorAt(s.tree, b, s.tree[b].height) == b;
    if s.tree[b].prev.Some? {
      var p := s.tree[b].prev.value;
      forall h | 0 <= h <= s.tree[p].height ensures !s.status[AncestorAt(s.tree, p, h)].Failed() {
        assert AncestorAt(s.tree, b, h) == AncestorAt(s.tree, p, h);
      }
      ClearNotInvalid(s, p);
    }
  }

  /** What FindMostWorkChain finds is the best of all linked blocks without an invalid ancestor, candidates or not. */
  lemma TargetIsAim(s: State, base: BlockId, m: BlockId)
    requires Searching(s, base) && Target(s, m)
    ensures Aim(s, m)
  {
    hide Core, Connected;
    ClearNotInvalid(s, m);
    SomethingLeft(s, base);
    assert CandidateAt(s, base, m);
    forall b | b in s.tree && Linked(s, b) && !Invalid(s, b) ensures NoWorse(s, m, b) {
      assert CandidateAt(s, base, b);
      WorseIsStrictTotalOrder(s.tree, s.status, m, base, b);
      WorseIsStrictTotalOrder(s.tree, s.status, m, s.tip, b);
      WorseIsStrictTotalOrder(s.tree, s.status, base, s.tip, b);
      WorseIsStrictTotalOrder(s.tree, s.status, s.tip, base, b);
    }
  }

  // ----- Where the way to it leaves the active chain -----

  lemma ForkIsUnique(t: Tree, f: BlockId, g: BlockId, a: BlockId, b: BlockId)
    requires Rooted(t) && a in t && b in t && LastShared(t, f, a, b) && LastShared(t, g, a, b)
    ensures f == g
  {
  }

  lemma {:induction false} ForkBelow(t: Tree, a: BlockId, b: BlockId, h: nat)
    requires Rooted(t) && a in t && b in t && h <= t[a].height && h <= t[b].height
    requires AncestorAt(t, a, 0) == AncestorAt(t, b, 0)
    requires forall c :: IsAncestor(t, c, a) && IsAncestor(t, c, b) ==> t[c].height <= h
    ensures exists f :: LastShared(t, f, a, b)
    decreases h
  {
    var c := AncestorAt(t, a, h);
    if AncestorAt(t, b, h) == c {
      assert LastShared(t, c, a, b);
    } else {
      forall c | IsAncestor(t, c, a) && IsAncestor(t, c, b) ensures t[c].height <= h - 1 {}
      ForkBelow(t, a, b, h - 1);
    }
  }

  lemma ForkExists(s: State, m: BlockId)
    requires Shaped(s) && Core(s, []) && m in s.tree
    ensures exists f :: LastShared(s.tree, f, m, s.tip)
  {
    GenesisIsAncestor(s, [], m);
    GenesisIsAncestor(s, [], s.tip);
    ForkBelow(s.tree, m, s.tip, Min(s.tree[m].height, s.tree[s.tip].height));
  }

  function Min(a: nat, b: nat): nat { if a <= b then a else b }

  // ----- How far it climbs -----

  /** From height h towards m, up to the first block that ConnectBlock rejects. */
  ghost function Reach(s: State, m: BlockId, h: nat): (k: nat)
    requires Shaped(s) && m in s.tree && h <= s.tree[m].height
    ensures h <= k <= s.tree[m].height
    decreases s.tree[m].height - h
  {
    if h < s.tree[m].height && s.good(AncestorAt(s.tree, m, h + 1)) then Reach(s, m, h + 1) else h
  }

  /** The coins after the ancestors of m above height h, up to height k, were connected. */
  ghost function CoinsUp<C>(connect: (C, BlockId) -> C, t: Tree, m: BlockId, c: C, h: nat, k: nat): C
    requires Rooted(t) && m in t && h <= k <= t[m].height
    decreases k
  {
    if h == k then c else connect(CoinsUp(connect, t, m, c, h, k - 1), AncestorAt(t, m, k))
  }

  lemma {:induction false} CoinsOn<C>(connect: (C, BlockId) -> C, t: Tree, m: BlockId, c: C, h: nat, k: nat, n: nat)
    requires Rooted(t) && m in t && h <= k <= n <= t[m].height
    ensures CoinsUp(connect, t, m, CoinsUp(connect, t, m, c, h, k), k, n) == CoinsUp(connect, t, m, c, h, n)
    decreases n
  {
    if k < n { CoinsOn(connect, t, m, c, h, k, n - 1); }
  }

  lemma {:induction false} ReachOn(s: State, m: BlockId, h: nat, k: nat)
    requires Shaped(s) && m in s.tree && h <= k <= s.tree[m].height && k <= Reach(s, m, h)
    ensures Reach(s, m, k) == Reach(s, m, h)
    decreases k
  {
    if h < k { ReachOn(s, m, h, k - 1); }
  }

  lemma {:induction false} ReachSame(s: State, s': State, m: BlockId, h: nat)
    requires Shaped(s) && Shaped(s') && s'.tree == s.tree && s'.good == s.good && m in s.tree && h <= s.tree[m].height
    ensures Reach(s', m, h) == Reach(s, m, h)
    decreases s.tree[m].height - h
  {
    if h < s.tree[m].height { ReachSame(s, s', m, h + 1); }
  }

  /** What climbing from height h towards m leaves, with the block above found invalid or not. */
  ghost predicate Climbed<C>(s: State, c: C, s': State, c': C, connect: (C, BlockId) -> C, m: BlockId, h: nat,
                             failed: bool)
    requires Shaped(s) && m in s.tree && h <= s.tree[m].height
  {
    && Shaped(s') && s'.tree == s.tree && IsAncestor(s.tree, s'.tip, m)
    && var k := s.tree[s'.tip].height;
    && h <= k <= Reach(s, m, h) && c' == CoinsUp(connect, s.tree, m, c, h, k)
    && if failed then k == Reach(s, m, h) < s.tree[m].height &&
         SameKeys(MarkedInvalid(s, AncestorAt(s.tree, m, k + 1)), s') else SameKeys(s, s')
  }

  lemma ClimbedNowhere<C>(s: State, c: C, connect: (C, BlockId) -> C, m: BlockId)
    requires Shaped(s) && m in s.tree && IsAncestor(s.tree, s.tip, m)
    ensures Climbed(s, c, s, c, connect, m, s.tree[s.tip].height, false)
  {
  }

  /** One more stretch. */
  lemma ClimbOn<C>(s: State, c: C, s1: State, c1: C, s2: State, c2: C, connect: (C, BlockId) -> C, m: BlockId, h: nat,
                   failed: bool)
    requires Shaped(s) && m in s.tree && h <= s.tree[m].height && Climbed(s, c, s1, c1, connect, m, h, false)
    requires Climbed(s1, c1, s2, c2, connect, m, s.tree[s1.tip].height, failed)
    ensures Climbed(s, c, s2, c2, connect, m, h, failed)
  {
    hide Reach, CoinsUp, SameKeys, MarkedInvalid, Rooted, SkipsBuilt;
    KeysAgree(s, s1);
    var k, n := s.tree[s1.tip].height, s.tree[s2.tip].height;
    ReachSame(s, s1, m, k);
    ReachOn(s, m, h, k);
    CoinsOn(connect, s.tree, m, c, h, k, n);
    if failed {
      KeysMarked(s, s1, AncestorAt(s.tree, m, n + 1));
      KeysOn(MarkedInvalid(s, AncestorAt(s.tree, m, n + 1)), MarkedInvalid(s1, AncestorAt(s.tree, m, n + 1)), s2);
    } else {
      KeysOn(s, s1, s2);
    }
  }

  /** One block that ConnectBlock accepts. */
  lemma ClimbOne<C>(s: State, c: C, s': State, connect: (C, BlockId) -> C, m: BlockId, h: nat)
    requires Shaped(s) && m in s.tree && h < s.tree[m].height && s.tip == AncestorAt(s.tree, m, h)
    requires s.good(AncestorAt(s.tree, m, h + 1)) && SameKeys(s, s') && s'.tip == AncestorAt(s.tree, m, h + 1)
    ensures Climbed(s, c, s', connect(c, s'.tip), connect, m, h, false)
  {
    assert Reach(s, m, h + 1) <= Reach(s, m, h);
    assert CoinsUp(connect, s.tree, m, c, h, h) == c;
  }

  /** One that it rejects. */
  lemma ClimbFails<C>(s: State, c: C, s': State, connect: (C, BlockId) -> C, m: BlockId, h: nat)
    requires Shaped(s) && m in s.tree && h < s.tree[m].height && s.tip == AncestorAt(s.tree, m, h)
    requires !s.good(AncestorAt(s.tree, m, h + 1)) && s' == MarkedInvalid(s, AncestorAt(s.tree, m, h + 1))
    ensures Shaped(s') ==> Climbed(s, c, s', c, connect, m, h, true)
  {
  }

  // ----- Whether the search succeeds -----

  ghost function AimOf(s: State): (m: BlockId)
    requires Posed(s)
    ensures Aim(s, m)
  {
    AimExists(s);
    var m :| Aim(s, m);
    m
  }

  ghost function ForkOf(s: State, m: BlockId): (f: BlockId)
    requires Posed(s) && m in s.tree
    ensures LastShared(s.tree, f, m, s.tip)
  {
    ForkExists(s, m);
    var f :| LastShared(s.tree, f, m, s.tip);
    f
  }

  ghost function Unmarked(s: State): set<BlockId>
    requires Shaped(s)
  {
    set b | b in s.tree && !s.status[b].failedValid
  }

  /** The climb towards m ended at height k, below a block that was rejected. */
  ghost function Rejected(s: State, m: BlockId, k: nat): State
    requires Shaped(s) && m in s.tree && k < s.tree[m].height
  {
    MarkedInvalid(s, AncestorAt(s.tree, m, k + 1)).(tip := AncestorAt(s.tree, m, k))
  }

  lemma {:induction false} OnlyAbove(s: State, r: BlockId, b: BlockId)
    requires Shaped(s) && r in s.tree && b in s.tree && !Invalid(s, b) && !IsAncestor(s.tree, r, b)
    ensures Shaped(MarkedInvalid(s, r)) && !Invalid(MarkedInvalid(s, r), b)
    decreases s.tree[b].height
  {
    assert RootedAt(s.tree, b);
    if s.tree[b].prev.Some? {
      var p := s.tree[b].prev.value;
      assert !IsAncestor(s.tree, r, p);
      OnlyAbove(s, r, p);
    }
  }

  lemma AncestorNotInvalid(s: State, m: BlockId, h: nat)
    requires Shaped(s) && m in s.tree && !Invalid(s, m) && h <= s.tree[m].height
    ensures !Invalid(s, AncestorAt(s.tree, m, h)) && !s.status[AncestorAt(s.tree, m, h)].failedValid
  {
    if Invalid(s, AncestorAt(s.tree, m, h)) { InvalidDescends(s, m, h); }
  }

  lemma MarkedCore(s: State, r: BlockId)
    requires Shaped(s) && Core(s, []) && r in s.tree
    ensures Shaped(MarkedInvalid(s, r)) && Core(MarkedInvalid(s, r), [])
  {
    var s' := MarkedInvalid(s, r);
    assert FlagsOnly(s, s');
    CoreUnderFlags(s, s');
  }

  lemma RejectedPosed(s: State, m: BlockId, k: nat)
    requires Posed(s) && m in s.tree && Linked(s, m) && !Invalid(s, m) && k < s.tree[m].height
    ensures Posed(Rejected(s, m, k)) && Unmarked(Rejected(s, m, k)) < Unmarked(s)
  {
    hide Core, Connected;
    var r, p := AncestorAt(s.tree, m, k + 1), AncestorAt(s.tree, m, k);
    var s1, s' := MarkedInvalid(s, r), Rejected(s, m, k);
    MarkedCore(s, r);
    CoreWithTip(s1, s');
    LinkedAncestor(s, [], m, k);
    AncestorNotInvalid(s, m, k);
    AncestorNotInvalid(s, m, k + 1);
    OnlyAbove(s, r, p);
    SameStatuses(s1, s', p);
    assert r in Unmarked(s) && r !in Unmarked(s');
  }

  /**
   Whether the search ends on the best block, told from the state before it.  Each round aims at the
   best linked block without an invalid ancestor.  Every active block above the fork with it must
   be disconnected in its turn; then the climb reaches it, or a block that is rejected, and the
   search goes on from there, with that block marked.
   */
  ghost predicate Succeeds<C>(s: State, c: C, connect: (C, BlockId) -> C, disconnect: (C, BlockId) -> Option<C>)
    requires Shaped(s)
    decreases Unmarked(s)
  {
    Posed(s) &&
    var m := AimOf(s);
    var h := s.tree[ForkOf(s, m)].height;
    var k := Reach(s, m, h);
    Undoable(s.tree, disconnect, c, s.tip, h) &&
    (k < s.tree[m].height ==>
       (RejectedPosed(s, m, k);
        var c' := CoinsUp(connect, s.tree, m, Walk(s.tree, disconnect, c, s.tip, h).0, h, k);
        Succeeds(Rejected(s, m, k), c', connect, disconnect)))
  }

  lemma AimParts(s: State, m: BlockId)
    requires Shaped(s) && Aim(s, m)
    ensures m in s.tree && Linked(s, m) && !Invalid(s, m)
  {
  }

  lemma ForkParts(t: Tree, f: BlockId, a: BlockId, b: BlockId)
    requires Rooted(t) && a in t && b in t && LastShared(t, f, a, b)
    ensures IsAncestor(t, f, a) && IsAncestor(t, f, b)
  {
  }

  lemma CourseIs<C>(s: State, c: C, connect: (C, BlockId) -> C, disconnect: (C, BlockId) -> Option<C>,
                    m: BlockId, f: BlockId)
    requires Posed(s) && Aim(s, m) && LastShared(s.tree, f, m, s.tip)
    ensures var h := s.tree[f].height; var k := Reach(s, m, h);
      Succeeds(s, c, connect, disconnect) <==>
        && Undoable(s.tree, disconnect, c, s.tip, h)
        && (k == s.tree[m].height ||
            Succeeds(Rejected(s, m, k), CoinsUp(connect, s.tree, m, Walk(s.tree, disconnect, c, s.tip, h).0, h, k),
                     connect, disconnect))
  {
    hide Core, Aim, LastShared, Undoable, Walk, CoinsUp, Reach, Rejected;
    AimParts(s, m);
    AimIsUnique(s, m, AimOf(s));
    ForkIsUnique(s.tree, f, ForkOf(s, m), m, s.tip);
  }

  lemma RejectedAlike(s: State, s': State, m: BlockId, k: nat)
    requires SameKeys(s, s') && m in s.tree && k < s.tree[m].height
    requires Shaped(Rejected(s, m, k)) && Shaped(Rejected(s', m, k))
    ensures SameKeys(Rejected(s, m, k), Rejected(s', m, k)) && Rejected(s, m, k).tip == Rejected(s', m, k).tip
  {
    KeysMarked(s, s', AncestorAt(s.tree, m, k + 1));
  }

  /** The course depends on nothing but the blocks, their keys and verdicts, and where the tip stands. */
  lemma {:induction false} CourseSame<C>(s: State, s': State, c: C, connect: (C, BlockId) -> C,
                                         disconnect: (C, BlockId) -> Option<C>)
    requires Posed(s) && Posed(s') && SameKeys(s, s') && s'.tip == s.tip
    ensures Succeeds(s, c, connect, disconnect) == Succeeds(s', c, connect, disconnect)
    decreases Unmarked(s)
  {
    hide Core, Undoable, Walk, CoinsUp, Succeeds, Aim, LastShared, SameKeys, Rejected, Reach, Unmarked, AncestorAt;
    KeysAgree(s, s');
    var m := AimOf(s);
    AimParts(s, m);
    var f := ForkOf(s, m);
    ForkParts(s.tree, f, m, s.tip);
    var h := s.tree[f].height;
    var k := Reach(s, m, h);
    AimSame(s, s', m);
    ReachSame(s, s', m, h);
    CourseIs(s, c, connect, disconnect, m, f);
    CourseIs(s', c, connect, disconnect, m, f);
    AimParts(s, m);
    AimParts(s', m);
    if k < s.tree[m].height {
      RejectedPosed(s, m, k);
      RejectedPosed(s', m, k);
      RejectedAlike(s, s', m, k);
      var c' := CoinsUp(connect, s.tree, m, Walk(s.tree, disconnect, c, s.tip, h).0, h, k);
      CourseSame(Rejected(s, m, k), Rejected(s', m, k), c', connect, disconnect);
    }
  }

  /** Once on its aim, the search has succeeded. */
  lemma CourseDone<C>(s: State, c: C, connect: (C, BlockId) -> C, disconnect: (C, BlockId) -> Option<C>)
    requires Posed(s) && Aim(s, s.tip)
    ensures Succeeds(s, c, connect, disconnect)
  {
    hide Core, Succeeds;
    assert LastShared(s.tree, s.tip, s.tip, s.tip);
    CourseIs(s, c, connect, disconnect, s.tip, s.tip);
  }

  /** Where the climb of one round stops early makes no difference. */
  lemma CourseClimb<C>(s: State, c: C, connect: (C, BlockId) -> C, disconnect: (C, BlockId) -> Option<C>,
                       m: BlockId, f: BlockId, s': State, c': C, failed: bool)
    requires Posed(s) && Aim(s, m) && LastShared(s.tree, f, m, s.tip) && Posed(s')
    requires Undoable(s.tree, disconnect, c, s.tip, s.tree[f].height)
    requires Shaped(s.(tip := f)) &&
      Climbed(s.(tip := f), Walk(s.tree, disconnect, c, s.tip, s.tree[f].height).0, s', c', connect, m,
              s.tree[f].height, failed)
    ensures Succeeds(s', c', connect, disconnect) == Succeeds(s, c, connect, disconnect)
  {
    hide Core, Aim, LastShared, Undoable, Walk, CoinsUp, Reach, Rejected, SameKeys, Climbed, Succeeds, Unmarked;
    var h := s.tree[f].height;
    AimParts(s, m);
    ForkParts(s.tree, f, m, s.tip);
    var sf, cf := s.(tip := f), Walk(s.tree, disconnect, c, s.tip, h).0;
    ClimbedParts(sf, cf, s', c', connect, m, h, failed);
    CourseIs(s, c, connect, disconnect, m, f);
    ReachSame(s, sf, m, h);
    var k := s.tree[s'.tip].height;
    if failed {
      RejectedPosed(s, m, k);
      RejectedKeys(s, f, m, k, s');
      CourseSame(Rejected(s, m, k), s', c', connect, disconnect);
    } else {
      KeysTip(s, f, s');
      AimSame(s, s', m);
      CourseFrom(s, cf, connect, disconnect, m, h, s', c');
    }
  }

  lemma ClimbedParts<C>(s: State, c: C, s': State, c': C, connect: (C, BlockId) -> C, m: BlockId, h: nat, failed: bool)
    requires Shaped(s) && m in s.tree && h <= s.tree[m].height && Climbed(s, c, s', c', connect, m, h, failed)
    ensures Shaped(s') && s'.tree == s.tree && IsAncestor(s.tree, s'.tip, m) && s'.tip in s.tree
    ensures var k := s.tree[s'.tip].height;
      h <= k <= Reach(s, m, h) && c' == CoinsUp(connect, s.tree, m, c, h, k)
      && s'.tip == AncestorAt(s.tree, m, k)
      && (failed ==> k == Reach(s, m, h) < s.tree[m].height
                     && SameKeys(MarkedInvalid(s, AncestorAt(s.tree, m, k + 1)), s'))
    ensures !failed ==> SameKeys(s, s')
  {
  }

  lemma KeysTip(s: State, f: BlockId, s': State)
    requires Shaped(s) && SameKeys(s.(tip := f), s')
    ensures SameKeys(s, s')
  {
  }

  lemma RejectedKeys(s: State, f: BlockId, m: BlockId, k: nat, s': State)
    requires Shaped(s) && m in s.tree && k < s.tree[m].height && Shaped(Rejected(s, m, k))
    requires SameKeys(MarkedInvalid(s.(tip := f), AncestorAt(s.tree, m, k + 1)), s')
    requires s'.tip == AncestorAt(s.tree, m, k)
    ensures SameKeys(Rejected(s, m, k), s') && Rejected(s, m, k).tip == s'.tip
  {
  }

  /** Going on from a place on the way up to the same aim. */
  lemma CourseFrom<C>(s: State, c: C, connect: (C, BlockId) -> C, disconnect: (C, BlockId) -> Option<C>,
                      m: BlockId, h: nat, s': State, c': C)
    requires Posed(s) && Posed(s') && SameKeys(s, s') && Aim(s, m) && Aim(s', m) && h <= s.tree[m].height
    requires IsAncestor(s.tree, s'.tip, m) && h <= s.tree[s'.tip].height <= Reach(s, m, h)
    requires c' == CoinsUp(connect, s.tree, m, c, h, s.tree[s'.tip].height)
    ensures var k := Reach(s, m, h);
      Succeeds(s', c', connect, disconnect) <==>
        k == s.tree[m].height ||
        Succeeds(Rejected(s, m, k), CoinsUp(connect, s.tree, m, c, h, k), connect, disconnect)
  {
    hide Core, Reach, CoinsUp, Succeeds, Undoable, Walk, Aim, SameKeys;
    KeysAgree(s, s');
    AimParts(s, m);
    var k, n := Reach(s, m, h), s.tree[s'.tip].height;
    OnTheWay(s.tree, m, s'.tip);
    CourseIs(s', c', connect, disconnect, m, s'.tip);
    WalkStops(s.tree, disconnect, c', s'.tip, n);
    ReachOn(s, m, h, n);
    ReachSame(s, s', m, n);
    CoinsOn(connect, s.tree, m, c, h, n, k);
    if k < s.tree[m].height {
      AimParts(s, m);
      AimParts(s', m);
      RejectedPosed(s, m, k);
      RejectedPosed(s', m, k);
      RejectedAlike(s, s', m, k);
      CourseSame(Rejected(s, m, k), Rejected(s', m, k), CoinsUp(connect, s.tree, m, c, h, k), connect, disconnect);
    }
  }

  lemma OnTheWay(t: Tree, m: BlockId, b: BlockId)
    requires Rooted(t) && m in t && IsAncestor(t, b, m)
    ensures LastShared(t, b, m, b)
  {
  }

  // ----- One round -----

  /** Nothing but flags below invalid blocks changed, and the tip is the target. */
  lemma RoundDone<C>(s: State, s': State, base: BlockId, c: C, connect: (C, BlockId) -> C,
                     disconnect: (C, BlockId) -> Option<C>)
    requires Searching(s, base) && Searching(s', base) && SameKeys(s, s') && s'.tip == s.tip && Target(s', s'.tip)
    ensures Succeeds(s, c, connect, disconnect)
  {
    hide *;
    SearchingIsPosed(s, base);
    SearchingIsPosed(s', base);
    TargetIsAim(s', base, s'.tip);
    KeysAgree(s, s');
    CourseDone(s', c, connect, disconnect);
    CourseSame(s, s', c, connect, disconnect);
  }

  lemma RoundFails<C>(s: State, from: BlockId, s1: State, base: BlockId, c: C, connect: (C, BlockId) -> C,
                      disconnect: (C, BlockId) -> Option<C>, m: BlockId, f: BlockId)
    requires Searching(s, from) && Searching(s1, base) && SameKeys(s, s1) && s1.tip == s.tip && Target(s1, m)
    requires m in s1.tree && LastShared(s1.tree, f, m, s1.tip)
    requires !Undoable(s1.tree, disconnect, c, s1.tip, s1.tree[f].height)
    ensures !Succeeds(s, c, connect, disconnect)
  {
    hide Core, Connected, CandidatesOk, Target, LastShared, Undoable, Succeeds, SameKeys, Aim;
    KeysAgree(s, s1);
    SearchingIsPosed(s, from);
    SearchingIsPosed(s1, base);
    TargetIsAim(s1, base, m);
    FailsAtOnce(s1, c, connect, disconnect, m, f);
    CourseSame(s, s1, c, connect, disconnect);
  }

  /** A round that went well leaves the course as it was, and has reached its end on the target. */
  lemma RoundGoesOn<C>(s: State, from: BlockId, s1: State, base: BlockId, c: C, connect: (C, BlockId) -> C,
                       disconnect: (C, BlockId) -> Option<C>, m: BlockId, f: BlockId, s': State, c': C, failed: bool)
    requires Searching(s, from) && Searching(s1, base) && SameKeys(s, s1) && s1.tip == s.tip && Target(s1, m)
    requires m in s1.tree && LastShared(s1.tree, f, m, s1.tip) && Searching(s', base)
    requires Undoable(s1.tree, disconnect, c, s1.tip, s1.tree[f].height) && f in s1.tree && Shaped(s1.(tip := f))
    requires s1.tree[f].height <= s1.tree[m].height &&
      Climbed(s1.(tip := f), Walk(s1.tree, disconnect, c, s1.tip, s1.tree[f].height).0, s', c', connect, m,
              s1.tree[f].height, failed)
    ensures Succeeds(s', c', connect, disconnect) == Succeeds(s, c, connect, disconnect)
    ensures s'.tip == m ==> Succeeds(s, c, connect, disconnect)
  {
    hide Core, Connected, CandidatesOk, Target, LastShared, Undoable, Walk, Succeeds, SameKeys, Aim, Climbed;
    hide Reach, CoinsUp;
    KeysAgree(s, s1);
    SearchingIsPosed(s, from);
    SearchingIsPosed(s1, base);
    SearchingIsPosed(s', base);
    TargetIsAim(s1, base, m);
    CourseClimb(s1, c, connect, disconnect, m, f, s', c', failed);
    CourseSame(s, s1, c, connect, disconnect);
    if s'.tip == m {
      ClimbedParts(s1.(tip := f), Walk(s1.tree, disconnect, c, s1.tip, s1.tree[f].height).0, s', c', connect, m,
                   s1.tree[f].height, failed);
      KeysTip(s1, f, s');
      AimSame(s1, s', m);
      CourseDone(s', c', connect, disconnect);
    }
  }

  // ----- What that means -----

  lemma {:induction false} AcceptableReach(s: State, m: BlockId, h: nat)
    requires Shaped(s) && m in s.tree && Acceptable(s, m) && h <= s.tree[m].height
    ensures Reach(s, m, h) == s.tree[m].height
    decreases s.tree[m].height - h
  {
    if h < s.tree[m].height {
      AcceptableAncestor(s, m, h + 1);
      AcceptableReach(s, m, h + 1);
    }
  }

  lemma {:induction false} AcceptableAncestor(s: State, b: BlockId, h: nat)
    requires Shaped(s) && b in s.tree && Acceptable(s, b) && h <= s.tree[b].height
    ensures s.good(AncestorAt(s.tree, b, h))
    decreases s.tree[b].height
  {
    assert RootedAt(s.tree, b);
    if h < s.tree[b].height { AcceptableAncestor(s, s.tree[b].prev.value, h); }
  }

  /**
   When ConnectBlock accepts the way to the aim, the search succeeds if and only if every active block
   above the fork with it can be disconnected in its turn.
   */
  lemma SucceedsIffUndoable<C>(s: State, c: C, connect: (C, BlockId) -> C, disconnect: (C, BlockId) -> Option<C>,
                               m: BlockId, f: BlockId)
    requires Posed(s) && Aim(s, m) && Acceptable(s, m) && LastShared(s.tree, f, m, s.tip)
    ensures Succeeds(s, c, connect, disconnect) <==> Undoable(s.tree, disconnect, c, s.tip, s.tree[f].height)
    ensures IsBest(s, m)
  {
    hide Core, Succeeds, Undoable, Walk, CoinsUp;
    CourseIs(s, c, connect, disconnect, m, f);
    AcceptableReach(s, m, s.tree[f].height);
    forall b | b in s.tree && Linked(s, b) && Acceptable(s, b) ensures NoWorse(s, m, b) { AcceptableNotInvalid(s, b); }
  }

  /** The same for the target that FindMostWorkChain finds at once; a way that leads on from the tip is always open. */
  lemma TargetDecides<C>(s: State, base: BlockId, c: C, connect: (C, BlockId) -> C,
                         disconnect: (C, BlockId) -> Option<C>, m: BlockId, f: BlockId)
    requires Searching(s, base) && Target(s, m) && Acceptable(s, m) && LastShared(s.tree, f, m, s.tip)
    ensures Succeeds(s, c, connect, disconnect) <==> Undoable(s.tree, disconnect, c, s.tip, s.tree[f].height)
    ensures IsAncestor(s.tree, s.tip, m) ==> Succeeds(s, c, connect, disconnect)
    ensures IsBest(s, m)
  {
    hide Core, Connected, CandidatesOk, Succeeds, Target, Acceptable, Walk;
    SearchingIsPosed(s, base);
    TargetIsAim(s, base, m);
    SucceedsIffUndoable(s, c, connect, disconnect, m, f);
    if IsAncestor(s.tree, s.tip, m) {
      OnTheWay(s.tree, m, s.tip);
      ForkIsUnique(s.tree, f, s.tip, m, s.tip);
      WalkStops(s.tree, disconnect, c, s.tip, s.tree[f].height);
    }
  }

  /**
   Whatever ConnectBlock says, the search fails when an active block in the way of its first aim cannot
   be disconnected.
   */
  lemma FailsAtOnce<C>(s: State, c: C, connect: (C, BlockId) -> C, disconnect: (C, BlockId) -> Option<C>,
                       m: BlockId, f: BlockId)
    requires Posed(s) && Aim(s, m) && LastShared(s.tree, f, m, s.tip)
    requires !Undoable(s.tree, disconnect, c, s.tip, s.tree[f].height)
    ensures !Succeeds(s, c, connect, disconnect)
  {
    hide Core, Succeeds, Undoable, Walk, CoinsUp;
    CourseIs(s, c, connect, disconnect, m, f);
  }

  /** The tip and everything the search may ever prefer to it lie below one block. */
  ghost predicate OneBranch(s: State, top: BlockId)
    requires Shaped(s) && s.tip in s.tree && top in s.tree
  {
    && IsAncestor(s.tree, s.tip, top)
    && forall b {:trigger Invalid(s, b)} :: b in s.tree && Linked(s, b) && !Invalid(s, b) && NoWorse(s, b, s.tip) ==>
         IsAncestor(s.tree, b, top)
  }

  lemma DescendantNoWorse(s: State, b: BlockId, h: nat)
    requires Shaped(s) && b in s.tree && h <= s.tree[b].height
    ensures NoWorse(s, b, AncestorAt(s.tree, b, h))
  {
    AncestorWork(s.tree, b, h);
    assert h == s.tree[b].height ==> AncestorAt(s.tree, b, h) == b;
  }

  /** Of two blocks below a third, the one that sorts as well is the higher one. */
  lemma HigherOnBranch(s: State, top: BlockId, b: BlockId, a: BlockId)
    requires Shaped(s) && top in s.tree && IsAncestor(s.tree, a, top) && IsAncestor(s.tree, b, top) && NoWorse(s, b, a)
    ensures IsAncestor(s.tree, a, b)
  {
    if s.tree[b].height < s.tree[a].height {
      AncestorOfAncestor(s.tree, top, s.tree[a].height, s.tree[b].height);
      AncestorWork(s.tree, a, s.tree[b].height);
      assert false;
    }
    AncestorOfAncestor(s.tree, top, s.tree[b].height, s.tree[a].height);
  }

  lemma OneBranchOn(s: State, top: BlockId, m: BlockId, k: nat)
    requires Posed(s) && top in s.tree && OneBranch(s, top) && IsAncestor(s.tree, m, top)
    requires IsAncestor(s.tree, s.tip, m) && s.tree[s.tip].height <= k < s.tree[m].height
    requires Shaped(Rejected(s, m, k))
    ensures OneBranch(Rejected(s, m, k), top)
  {
    var s' := Rejected(s, m, k);
    AncestorTransitive(s.tree, s'.tip, m, top);
    AncestorOfAncestor(s.tree, m, k, s.tree[s.tip].height);
    DescendantNoWorse(s, s'.tip, s.tree[s.tip].height);
    forall b | b in s.tree && Linked(s', b) && !Invalid(s', b) && NoWorse(s', b, s'.tip)
      ensures IsAncestor(s.tree, b, top)
    {
      if Invalid(s, b) { InvalidGrows(s, s', b); }
      WorseIsStrictTotalOrder(s.tree, s.status, b, s'.tip, s.tip);
      assert NoWorse(s, b, s.tip);
    }
  }

  /**
   When everything the search may prefer to its tip lies on one branch with it, it succeeds whatever
   can be disconnected and whatever ConnectBlock rejects on the way: it only ever climbs.
   */
  lemma {:induction false} OneBranchSucceeds<C>(s: State, c: C, connect: (C, BlockId) -> C,
                                                disconnect: (C, BlockId) -> Option<C>, top: BlockId)
    requires Posed(s) && top in s.tree && OneBranch(s, top)
    ensures Succeeds(s, c, connect, disconnect)
    decreases Unmarked(s)
  {
    hide Core, Succeeds, Undoable, Walk, CoinsUp, Reach, Rejected, Unmarked, AncestorAt;
    var m := AimOf(s);
    AimParts(s, m);
    HigherOnBranch(s, top, m, s.tip);
    OnTheWay(s.tree, m, s.tip);
    var h := s.tree[s.tip].height;
    var k := Reach(s, m, h);
    WalkStops(s.tree, disconnect, c, s.tip, h);
    CourseIs(s, c, connect, disconnect, m, s.tip);
    if k < s.tree[m].height {
      RejectedPosed(s, m, k);
      OneBranchOn(s, top, m, k);
      var c' := CoinsUp(connect, s.tree, m, Walk(s.tree, disconnect, c, s.tip, h).0, h, k);
      RejectedTree(s, m, k);
      OneBranchSucceeds(Rejected(s, m, k), c', connect, disconnect, top);
    }
  }

  lemma RejectedTree(s: State, m: BlockId, k: nat)
    requires Shaped(s) && m in s.tree && k < s.tree[m].height
    ensures Rejected(s, m, k).tree == s.tree
  {
  }
}

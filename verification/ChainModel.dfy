/**
 The block index as a value: statuses, candidate set, unlinked map and active tip
 (src/main.cpp), with the invariant that CheckBlockIndex asserts and what each change keeps of it.
 */
module ChainModel {
  import opened Wrappers
  import opened BlockTree

  // Validity levels (enum BlockStatus, src/chain.h).
  const VALID_TREE: nat := 2
  const VALID_TRANSACTIONS: nat := 3
  const VALID_CHAIN: nat := 4
  const VALID_SCRIPTS: nat := 5

  /** The fields of a CBlockIndex that change.  nStatus is split into its disjoint bit groups. */
  datatype Status = Status(
    validity: nat,
    haveData: bool,
    failedValid: bool,
    failedChild: bool,
    nTx: nat,
    chainTx: nat,
    sequenceId: nat)
  {
    predicate Failed() { failedValid || failedChild }

    /** CBlockIndex::IsValid. */
    predicate IsValid(upTo: nat) { !Failed() && validity >= upTo }

    /** CBlockIndex::RaiseValidity. */
    function RaiseValidity(upTo: nat): Status {
      if !Failed() && validity < upTo then this.(validity := upTo) else this
    }
  }

  type Statuses = map<BlockId, Status>

  /**
   What a search for the best chain may do to statuses: raise validity and set failure flags, the
   BLOCK_FAILED_VALID one only on blocks that ConnectBlock rejects.
   */
  ghost predicate Progress(x: Status, x': Status, good: bool) {
    && x'.haveData == x.haveData && x'.nTx == x.nTx && x'.chainTx == x.chainTx && x'.sequenceId == x.sequenceId
    && (x.failedValid ==> x'.failedValid) && (x.failedChild ==> x'.failedChild)
    && (x'.failedValid ==> x.failedValid || !good)
    && x.validity <= x'.validity
  }

  ghost predicate Progressed(st: Statuses, st': Statuses, good: BlockId -> bool) {
    st'.Keys == st.Keys && forall a :: a in st ==> Progress(st[a], st'[a], good(a))
  }

  /**
   Linked blocks carry distinct positive sequence ids below the next one to be given, so between
   linked blocks of equal work the one linked first always sorts higher.
   */
  ghost predicate IdsOk(st: Statuses, next: nat) {
    && (forall a {:trigger IdAt(st, next, a)} :: a in st ==> IdAt(st, next, a))
    && (forall a, b {:trigger IdsDiffer(st, a, b)} :: a in st && b in st && a != b ==> IdsDiffer(st, a, b))
  }

  ghost predicate IdAt(st: Statuses, next: nat, a: BlockId)
    requires a in st
  {
    st[a].chainTx > 0 ==> 0 < st[a].sequenceId < next
  }

  ghost predicate IdsDiffer(st: Statuses, a: BlockId, b: BlockId)
    requires a in st && b in st
  {
    st[a].chainTx > 0 && st[b].chainTx > 0 ==> st[a].sequenceId != st[b].sequenceId
  }

  lemma IdsKept(st: Statuses, st': Statuses, next: nat)
    requires IdsOk(st, next) && st'.Keys == st.Keys
    requires forall a :: a in st ==> st'[a].chainTx == st[a].chainTx && st'[a].sequenceId == st[a].sequenceId
    ensures IdsOk(st', next)
  {
    forall a | a in st' ensures IdAt(st', next, a) { assert IdAt(st, next, a); }
    forall a, b | a in st' && b in st' && a != b ensures IdsDiffer(st', a, b) { assert IdsDiffer(st, a, b); }
  }

  /** Giving the next id to one more block, or adding an unlinked one, keeps the ids distinct. */
  lemma IdsExtended(st: Statuses, p: BlockId, x: Status, next: nat)
    requires IdsOk(st, next) && next > 0 && (x.chainTx > 0 ==> x.sequenceId == next)
    ensures IdsOk(st[p := x], next + 1) && (x.chainTx == 0 ==> IdsOk(st[p := x], next))
  {
    var st' := st[p := x];
    forall a | a in st' ensures IdAt(st', next + 1, a) && (x.chainTx == 0 ==> IdAt(st', next, a)) {
      if a != p { assert IdAt(st, next, a); }
    }
    forall a, b | a in st' && b in st' && a != b ensures IdsDiffer(st', a, b) {
      if a != p && b != p { assert IdsDiffer(st, a, b); }
      if a != p { assert IdAt(st, next, a); }
      if b != p { assert IdAt(st, next, b); }
    }
  }

  ghost function Unflagged(st: Statuses): set<BlockId> {
    set b | b in st && !st[b].Failed()
  }

  lemma ProgressedOn(st: Statuses, st1: Statuses, st2: Statuses, good: BlockId -> bool)
    requires Progressed(st, st1, good) && Progressed(st1, st2, good)
    ensures Progressed(st, st2, good) && Unflagged(st1) <= Unflagged(st)
  {
  }

  lemma ProgressedStart(st: Statuses, good: BlockId -> bool)
    ensures Progressed(st, st, good)
  {
  }

  /**
   CBlockIndexWorkComparator: a sorts before b.  Less work first, then the later received, then the
   higher address.
   */
  predicate Worse(t: Tree, st: Statuses, a: BlockId, b: BlockId)
    requires a in t && b in t && a in st && b in st
  {
    if t[a].work != t[b].work then t[a].work < t[b].work
    else if st[a].sequenceId != st[b].sequenceId then st[a].sequenceId > st[b].sequenceId
    else a > b
  }

  /**
   Everything the protocol reads and writes.  `good` is ConnectBlock's verdict on each block.
   mapBlocksUnlinked is a multimap; equal keys keep their insertion order.
   */
  datatype State = State(
    tree: Tree,
    status: Statuses,
    candidates: set<BlockId>,
    unlinked: map<BlockId, seq<BlockId>>,
    tip: BlockId,
    genesis: BlockId,
    good: BlockId -> bool)

  ghost predicate Shaped(s: State) {
    && Rooted(s.tree) && SkipsBuilt(s.tree)
    && s.status.Keys == s.tree.Keys
    && s.tip in s.tree && s.genesis in s.tree && s.tree[s.genesis].prev == None
    && s.candidates <= s.tree.Keys
  }

  function Children(unlinked: map<BlockId, seq<BlockId>>, p: BlockId): seq<BlockId> {
    if p in unlinked then unlinked[p] else []
  }

  ghost predicate Linked(s: State, b: BlockId)
    requires Shaped(s) && b in s.tree
  {
    s.status[b].chainTx > 0
  }

  ghost predicate ParentLinked(s: State, b: BlockId)
    requires Shaped(s) && b in s.tree
  {
    assert RootedAt(s.tree, b);
    s.tree[b].prev.Some? ==> Linked(s, s.tree[b].prev.value)
  }

  /** Transactions in the chain up to b's parent. */
  ghost function ParentTx(s: State, b: BlockId): nat
    requires Shaped(s) && b in s.tree
  {
    assert RootedAt(s.tree, b);
    if s.tree[b].prev.Some? then s.status[s.tree[b].prev.value].chainTx else 0
  }

  /** Some block of b's ancestry, b included, was found invalid itself. */
  ghost predicate Invalid(s: State, b: BlockId)
    requires Shaped(s) && b in s.tree
    decreases s.tree[b].height
  {
    assert RootedAt(s.tree, b);
    s.status[b].failedValid || (s.tree[b].prev.Some? && Invalid(s, s.tree[b].prev.value))
  }

  /** ConnectBlock accepts all of b's ancestry and none of it was marked invalid. */
  ghost predicate Acceptable(s: State, b: BlockId)
    requires Shaped(s) && b in s.tree
    decreases s.tree[b].height
  {
    assert RootedAt(s.tree, b);
    s.good(b) && !s.status[b].failedValid &&
    (s.tree[b].prev.Some? ==> Acceptable(s, s.tree[b].prev.value))
  }

  /** b can stand in an active chain on its own account. */
  ghost predicate ConnectedAt(s: State, b: BlockId)
    requires Shaped(s) && b in s.tree
  {
    s.good(b) && !s.status[b].Failed() && Linked(s, b) &&
    (s.tree[b].prev.Some? ==> s.status[b].validity == VALID_SCRIPTS)
  }

  ghost predicate Connected(s: State, b: BlockId)
    requires Shaped(s) && b in s.tree
    decreases s.tree[b].height
  {
    assert RootedAt(s.tree, b);
    ConnectedAt(s, b) && (s.tree[b].prev.Some? ==> Connected(s, s.tree[b].prev.value))
  }

  // ----- The invariant -----

  /** VALID_CHAIN and VALID_SCRIPTS pass down to the parent, genesis excepted. */
  ghost predicate ValidityAt(s: State, b: BlockId)
    requires Shaped(s) && b in s.tree
  {
    assert RootedAt(s.tree, b);
    s.tree[b].prev.Some? && s.tree[s.tree[b].prev.value].prev.Some? ==>
      var v, pv := s.status[b].validity, s.status[s.tree[b].prev.value].validity;
      (v >= VALID_CHAIN ==> pv >= VALID_CHAIN) && (v >= VALID_SCRIPTS ==> pv >= VALID_SCRIPTS)
  }

  /**
   What holds of every entry.  q is the work queue of ReceivedBlockTransactions: entries whose
   parent is linked and that are about to be linked themselves; it is empty between operations.
   */
  ghost predicate BlockOk(s: State, q: seq<BlockId>, b: BlockId)
    requires Shaped(s) && b in s.tree
  {
    var x := s.status[b];
    && (s.tree[b].prev == None ==> b == s.genesis)
    && VALID_TREE <= x.validity <= VALID_SCRIPTS
    && (x.haveData <==> x.nTx > 0)
    && (x.validity >= VALID_TRANSACTIONS <==> x.nTx > 0)
    && (x.chainTx == 0 ==> x.sequenceId == 0)
    && (x.chainTx > 0 <==> x.haveData && ParentLinked(s, b) && b !in q)
    && (x.chainTx > 0 ==> x.chainTx == ParentTx(s, b) + x.nTx)
    && (x.Failed() ==> Invalid(s, b))
    && ValidityAt(s, b)
    && (s.tree[b].prev.Some? ==>
          (b in Children(s.unlinked, s.tree[b].prev.value) <==> x.haveData && x.chainTx == 0 && b !in q))
  }

  /** The entries filed under p are children of p, each filed once. */
  ghost predicate FiledOk(s: State, p: BlockId) {
    var c := Children(s.unlinked, p);
    && (forall i {:trigger c[i]} :: 0 <= i < |c| ==> c[i] in s.tree && s.tree[c[i]].prev == Some(p))
    && (forall i, j :: 0 <= i < j < |c| ==> c[i] != c[j])
  }

  ghost predicate Core(s: State, q: seq<BlockId>)
    requires Shaped(s)
  {
    && (forall b {:trigger BlockOk(s, q, b)} :: b in s.tree ==> BlockOk(s, q, b))
    && (forall p {:trigger FiledOk(s, p)} :: FiledOk(s, p))
  }

  /** a sorts at least as high as b. */
  ghost predicate NoWorse(s: State, a: BlockId, b: BlockId)
    requires Shaped(s) && a in s.tree && b in s.tree
  {
    !Worse(s.tree, s.status, a, b)
  }

  /**
   The candidate set relative to a block `base`: every candidate is linked and sorts no worse than
   the tip, and no linked block free of invalid ancestors that sorts as well as both is missing.
   */
  ghost predicate CandidateAt(s: State, base: BlockId, b: BlockId)
    requires Shaped(s) && b in s.tree && base in s.tree
  {
    && (b in s.candidates ==> Linked(s, b) && NoWorse(s, b, s.tip))
    && (Linked(s, b) && !Invalid(s, b) && NoWorse(s, b, base) && NoWorse(s, b, s.tip) ==> b in s.candidates)
  }

  ghost predicate CandidatesOk(s: State, base: BlockId)
    requires Shaped(s) && base in s.tree
  {
    forall b {:trigger CandidateAt(s, base, b)} :: b in s.tree ==> CandidateAt(s, base, b)
  }

  /** The invariant between operations when no search was cut short. */
  ghost predicate Consistent(s: State) {
    Shaped(s) && Core(s, []) && Connected(s, s.tip) && CandidatesOk(s, s.tip)
  }

  /**
   The invariant while a best chain is searched for, and after a search was cut short: the tip may
   have dropped below `base`, the best tip so far, but base is still a way back and no candidate as
   good as base was lost.
   */
  ghost predicate Searching(s: State, base: BlockId) {
    Shaped(s) && Core(s, []) && Connected(s, s.tip) && base in s.tree && Connected(s, base) && CandidatesOk(s, base)
  }

  // ----- The comparator -----

  lemma WorseIsStrictTotalOrder(t: Tree, st: Statuses, a: BlockId, b: BlockId, c: BlockId)
    requires a in t && b in t && c in t && a in st && b in st && c in st
    ensures !Worse(t, st, a, a)
    ensures Worse(t, st, a, b) ==> !Worse(t, st, b, a)
    ensures !Worse(t, st, a, b) && !Worse(t, st, b, a) ==> a == b
    ensures Worse(t, st, a, b) && Worse(t, st, b, c) ==> Worse(t, st, a, c)
    ensures !Worse(t, st, a, b) && !Worse(t, st, b, c) ==> !Worse(t, st, a, c)
  {
  }

  /** No entry of c sorts after m. */
  predicate IsLast(t: Tree, st: Statuses, c: set<BlockId>, m: BlockId)
    requires c <= t.Keys && c <= st.Keys
  {
    m in c && forall b {:trigger Worse(t, st, m, b)} :: b in c ==> !Worse(t, st, m, b)
  }

  /** No entry of c sorts before m. */
  predicate IsFirst(t: Tree, st: Statuses, c: set<BlockId>, m: BlockId)
    requires c <= t.Keys && c <= st.Keys
  {
    m in c && forall b {:trigger Worse(t, st, b, m)} :: b in c ==> !Worse(t, st, b, m)
  }

  lemma LastWithOneMore(t: Tree, st: Statuses, c: set<BlockId>, x: BlockId, m: BlockId)
    requires c <= t.Keys && c <= st.Keys && x in c && IsLast(t, st, c - {x}, m)
    ensures IsLast(t, st, c, if Worse(t, st, m, x) then x else m)
  {
    hide Worse;
    var best := if Worse(t, st, m, x) then x else m;
    forall b | b in c ensures !Worse(t, st, best, b) {
      WorseIsStrictTotalOrder(t, st, x, m, b);
      WorseIsStrictTotalOrder(t, st, m, x, b);
      if b != x { assert b in c - {x}; }
    }
  }

  lemma FirstWithOneMore(t: Tree, st: Statuses, c: set<BlockId>, x: BlockId, m: BlockId)
    requires c <= t.Keys && c <= st.Keys && x in c && IsFirst(t, st, c - {x}, m)
    ensures IsFirst(t, st, c, if Worse(t, st, x, m) then x else m)
  {
    hide Worse;
    var worst := if Worse(t, st, x, m) then x else m;
    forall b | b in c ensures !Worse(t, st, b, worst) {
      WorseIsStrictTotalOrder(t, st, b, m, x);
      WorseIsStrictTotalOrder(t, st, x, m, b);
      if b != x { assert b in c - {x}; }
    }
  }

  lemma OnlyOne(t: Tree, st: Statuses, x: BlockId)
    requires x in t && x in st
    ensures IsLast(t, st, {x}, x) && IsFirst(t, st, {x}, x)
  {
  }

  /** A non-empty set of entries has a best one: what rbegin() of the ordered set yields. */
  lemma {:induction false} BestExists(t: Tree, st: Statuses, c: set<BlockId>) returns (m: BlockId)
    requires c != {} && c <= t.Keys && c <= st.Keys
    ensures IsLast(t, st, c, m)
    decreases |c|
  {
    hide Worse, IsLast, IsFirst;
    var x :| x in c;
    if c == {x} {
      OnlyOne(t, st, x);
      m := x;
    } else {
      assert c - {x} != {};
      var n := BestExists(t, st, c - {x});
      LastWithOneMore(t, st, c, x, n);
      LastIsIn(t, st, c - {x}, n);
      m := if Worse(t, st, n, x) then x else n;
    }
  }

  lemma LastIsIn(t: Tree, st: Statuses, c: set<BlockId>, m: BlockId)
    requires c <= t.Keys && c <= st.Keys
    ensures IsLast(t, st, c, m) || IsFirst(t, st, c, m) ==> m in c
  {
  }

  /** And a worst one: what begin() yields. */
  lemma {:induction false} WorstExists(t: Tree, st: Statuses, c: set<BlockId>) returns (m: BlockId)
    requires c != {} && c <= t.Keys && c <= st.Keys
    ensures IsFirst(t, st, c, m)
    decreases |c|
  {
    hide Worse, IsLast, IsFirst;
    var x :| x in c;
    if c == {x} {
      OnlyOne(t, st, x);
      m := x;
    } else {
      assert c - {x} != {};
      var n := WorstExists(t, st, c - {x});
      FirstWithOneMore(t, st, c, x, n);
      LastIsIn(t, st, c - {x}, n);
      m := if Worse(t, st, x, n) then x else n;
    }
  }

  // ----- Ancestry facts -----

  /** A linked block's whole ancestry is linked and has its data. */
  lemma {:induction false} LinkedAncestor(s: State, q: seq<BlockId>, b: BlockId, h: nat)
    requires Shaped(s) && Core(s, q) && b in s.tree && Linked(s, b) && h <= s.tree[b].height
    ensures Linked(s, AncestorAt(s.tree, b, h)) && s.status[AncestorAt(s.tree, b, h)].haveData
    decreases s.tree[b].height
  {
    assert BlockOk(s, q, b) && RootedAt(s.tree, b);
    if h < s.tree[b].height { LinkedAncestor(s, q, s.tree[b].prev.value, h); }
  }

  lemma {:induction false} ConnectedAncestor(s: State, b: BlockId, h: nat)
    requires Shaped(s) && b in s.tree && h <= s.tree[b].height && Connected(s, b)
    ensures Connected(s, AncestorAt(s.tree, b, h))
    decreases s.tree[b].height
  {
    assert RootedAt(s.tree, b);
    if h < s.tree[b].height { ConnectedAncestor(s, s.tree[b].prev.value, h); }
  }

  lemma {:induction false} ConnectedNotInvalid(s: State, b: BlockId)
    requires Shaped(s) && b in s.tree && Connected(s, b)
    ensures !Invalid(s, b) && Acceptable(s, b) && Linked(s, b)
    decreases s.tree[b].height
  {
    assert RootedAt(s.tree, b);
    if s.tree[b].prev.Some? { ConnectedNotInvalid(s, s.tree[b].prev.value); }
  }

  lemma {:induction false} AcceptableNotInvalid(s: State, b: BlockId)
    requires Shaped(s) && b in s.tree && Acceptable(s, b)
    ensures !Invalid(s, b)
    decreases s.tree[b].height
  {
    assert RootedAt(s.tree, b);
    if s.tree[b].prev.Some? { AcceptableNotInvalid(s, s.tree[b].prev.value); }
  }

  /** Descendants of an invalid block are invalid. */
  lemma {:induction false} InvalidDescends(s: State, b: BlockId, h: nat)
    requires Shaped(s) && b in s.tree && h <= s.tree[b].height && Invalid(s, AncestorAt(s.tree, b, h))
    ensures Invalid(s, b)
    decreases s.tree[b].height
  {
    assert RootedAt(s.tree, b);
    if h < s.tree[b].height { InvalidDescends(s, s.tree[b].prev.value, h); }
  }

  /** Every block's ancestry ends in the one genesis block. */
  lemma GenesisIsAncestor(s: State, q: seq<BlockId>, b: BlockId)
    requires Shaped(s) && Core(s, q) && b in s.tree
    ensures AncestorAt(s.tree, b, 0) == s.genesis && s.tree[s.genesis].height == 0
  {
    var g := AncestorAt(s.tree, b, 0);
    assert RootedAt(s.tree, g) && BlockOk(s, q, g) && RootedAt(s.tree, s.genesis);
  }

  // ----- Frames: what a change of statuses leaves alone -----

  /** s' has every entry of s, with the same parent. */
  ghost predicate Extends(s: State, s': State)
    requires Shaped(s) && Shaped(s')
  {
    forall a :: a in s.tree ==> a in s'.tree && s'.tree[a] == s.tree[a]
  }

  lemma {:induction false} InvalidGrows(s: State, s': State, b: BlockId)
    requires Shaped(s) && Shaped(s') && Extends(s, s') && b in s.tree
    requires forall a :: a in s.tree && s.status[a].failedValid ==> s'.status[a].failedValid
    ensures Invalid(s, b) ==> Invalid(s', b)
    decreases s.tree[b].height
  {
    assert RootedAt(s.tree, b);
    if s.tree[b].prev.Some? { InvalidGrows(s, s', s.tree[b].prev.value); }
  }

  lemma {:induction false} InvalidSame(s: State, s': State, b: BlockId)
    requires Shaped(s) && Shaped(s') && Extends(s, s') && b in s.tree
    requires forall a :: a in s.tree ==> s.status[a].failedValid == s'.status[a].failedValid
    ensures Invalid(s, b) == Invalid(s', b)
    decreases s.tree[b].height
  {
    assert RootedAt(s.tree, b);
    if s.tree[b].prev.Some? { InvalidSame(s, s', s.tree[b].prev.value); }
  }

  lemma {:induction false} ConnectedKept(s: State, s': State, b: BlockId)
    requires Shaped(s) && Shaped(s') && Extends(s, s') && b in s.tree
    requires forall a :: a in s.tree && Connected(s, a) ==> ConnectedAt(s', a)
    ensures Connected(s, b) ==> Connected(s', b)
    decreases s.tree[b].height
  {
    assert RootedAt(s.tree, b);
    if s.tree[b].prev.Some? { ConnectedKept(s, s', s.tree[b].prev.value); }
  }
}

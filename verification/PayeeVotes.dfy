/** The masternode payee votes and their tally per height (src/masternode-payments.h, src/masternode-payments.cpp). */
module PayeeVotes {
  import opened Wrappers

  type Hash = nat
  type Payee = seq<nat>

  /** CMasternodePaymentWinner. */
  datatype Winner = Winner(masternode: nat, height: int, payee: Payee)

  /** CMasternodePayee. */
  datatype Tally = Tally(payee: Payee, votes: int)

  /** CMasternodeBlockPayees: the payees voted for at one height, in the order of their first votes. */
  type Row = seq<Tally>

  predicate Distinct(r: Row) {
    forall i, j :: 0 <= i < j < |r| ==> r[i].payee != r[j].payee
  }

  predicate AllPositive(r: Row) {
    forall k :: 0 <= k < |r| ==> r[k].votes > 0
  }

  /** The stored tally of p from place i on. */
  function VotesFrom(r: Row, p: Payee, i: nat): int
    requires i <= |r|
    decreases |r| - i
  {
    if i == |r| then 0 else if r[i].payee == p then r[i].votes else VotesFrom(r, p, i + 1)
  }

  function VotesIn(r: Row, p: Payee): int {
    VotesFrom(r, p, 0)
  }

  lemma {:induction false} VotesAt(r: Row, i: nat, k: nat)
    requires Distinct(r) && i <= k < |r|
    ensures VotesFrom(r, r[k].payee, i) == r[k].votes
    decreases k - i
  {
    if i < k { VotesAt(r, i + 1, k); }
  }

  lemma {:induction false} VotesAbsent(r: Row, p: Payee, i: nat)
    requires i <= |r| && forall k :: i <= k < |r| ==> r[k].payee != p
    ensures VotesFrom(r, p, i) == 0
    decreases |r| - i
  {
    if i < |r| { VotesAbsent(r, p, i + 1); }
  }

  /** r' is r with n more votes for p, and the same tally for everybody else. */
  ghost predicate Counted(r: Row, r': Row, p: Payee, n: int) {
    Distinct(r') && forall q {:trigger VotesIn(r', q)} :: VotesIn(r', q) == VotesIn(r, q) + if q == p then n else 0
  }

  lemma {:induction false} VotesRaised(r: Row, k: nat, n: int, q: Payee, i: nat)
    requires Distinct(r) && k < |r| && i <= |r|
    ensures VotesFrom(r[k := Tally(r[k].payee, r[k].votes + n)], q, i) ==
      VotesFrom(r, q, i) + if i <= k && q == r[k].payee then n else 0
    decreases |r| - i
  {
    if i < |r| { VotesRaised(r, k, n, q, i + 1); }
    if i <= k && q == r[k].payee {
      VotesAt(r, i, k);
      VotesAt(r[k := Tally(r[k].payee, r[k].votes + n)], i, k);
    }
  }

  lemma {:induction false} VotesAppended(r: Row, t: Tally, q: Payee, i: nat)
    requires i <= |r| && forall k :: 0 <= k < |r| ==> r[k].payee != t.payee
    ensures VotesFrom(r + [t], q, i) == VotesFrom(r, q, i) + if q == t.payee then t.votes else 0
    decreases |r| - i
  {
    if i < |r| {
      VotesAppended(r, t, q, i + 1);
      if q == t.payee { VotesAbsent(r, q, i); }
    }
  }

  /** CMasternodeBlockPayees::AddPayee. */
  method AddPayee(r: Row, payeeIn: Payee, nIncrement: int) returns (r': Row)
    requires Distinct(r)
    ensures Counted(r, r', payeeIn, nIncrement)
    ensures |r| <= |r'| <= |r| + 1 && forall k :: 0 <= k < |r| ==> r'[k].payee == r[k].payee
    ensures |r'| == |r| + 1 <==> forall k :: 0 <= k < |r| ==> r[k].payee != payeeIn
    ensures |r'| == |r| + 1 ==> r'[|r|].payee == payeeIn
    ensures r' != [] && (AllPositive(r) && nIncrement > 0 ==> AllPositive(r'))
  {
    var i := 0;
    while i < |r|
      invariant 0 <= i <= |r| && forall k :: 0 <= k < i ==> r[k].payee != payeeIn
    {
      if r[i].payee == payeeIn {
        r' := r[i := Tally(r[i].payee, r[i].votes + nIncrement)];
        forall q ensures VotesIn(r', q) == VotesIn(r, q) + if q == payeeIn then nIncrement else 0 {
          VotesRaised(r, i, nIncrement, q, 0);
        }
        return;
      }
      i := i + 1;
    }
    r' := r + [Tally(payeeIn, nIncrement)];
    forall q ensures VotesIn(r', q) == VotesIn(r, q) + if q == payeeIn then nIncrement else 0 {
      VotesAppended(r, Tally(payeeIn, nIncrement), q, 0);
    }
  }

  /** Nobody has more votes, and nobody before it as many. */
  predicate IsLeader(r: Row, i: nat)
    requires i < |r|
  {
    (forall k :: 0 <= k < |r| ==> r[k].votes <= r[i].votes) && forall k :: 0 <= k < i ==> r[k].votes < r[i].votes
  }

  /** CMasternodeBlockPayees::GetPayee: the earliest payee with the most votes. */
  method GetPayee(r: Row) returns (p: Option<Payee>)
    requires forall k :: 0 <= k < |r| ==> r[k].votes >= 0
    ensures p == None <==> r == []
    ensures p.Some? ==> exists i :: 0 <= i < |r| && r[i].payee == p.value && IsLeader(r, i)
  {
    var nVotes := -1;
    p := None;
    ghost var best := 0;
    var i := 0;
    while i < |r|
      invariant 0 <= i <= |r| && (i == 0 ==> p == None && nVotes == -1)
      invariant i > 0 ==> 0 <= best < i && p == Some(r[best].payee) && nVotes == r[best].votes
      invariant i > 0 ==> forall k :: 0 <= k < i ==> r[k].votes <= nVotes
      invariant i > 0 ==> forall k :: 0 <= k < best ==> r[k].votes < nVotes
    {
      if r[i].votes > nVotes {
        p, nVotes, best := Some(r[i].payee), r[i].votes, i;
      }
      i := i + 1;
    }
    assert |r| > 0 ==> IsLeader(r, best);
  }

  // ----- The order of the votes -----

  /** The place of the first of the votes, as they were added, with this height and payee. */
  function FirstVote(cast: seq<Winner>, height: int, p: Payee): (f: nat)
    ensures f <= |cast| && (f < |cast| ==> cast[f].height == height && cast[f].payee == p)
    ensures forall i :: 0 <= i < f ==> cast[i].height != height || cast[i].payee != p
    decreases |cast|
  {
    if cast == [] then 0
    else
      var n := |cast| - 1;
      var f := FirstVote(cast[..n], height, p);
      if f < n then f else if cast[n].height == height && cast[n].payee == p then n else n + 1
  }

  /** The row has the payees voted for, in the order of their first votes. */
  ghost predicate InOrder(cast: seq<Winner>, height: int, r: Row) {
    && (forall i {:trigger r[i]} :: 0 <= i < |r| ==> FirstVote(cast, height, r[i].payee) < |cast|)
    && (forall i, j :: 0 <= i < j < |r| ==>
          FirstVote(cast, height, r[i].payee) < FirstVote(cast, height, r[j].payee))
  }

  ghost predicate RowsInOrder(cast: seq<Winner>, rows: map<int, Row>) {
    forall h {:trigger rows[h]} :: h in rows ==> InOrder(cast, h, rows[h])
  }

  lemma OneMoreVote(cast: seq<Winner>, w: Winner, height: int, p: Payee)
    ensures FirstVote(cast + [w], height, p) ==
      if FirstVote(cast, height, p) < |cast| then FirstVote(cast, height, p)
      else if w.height == height && w.payee == p then |cast| else |cast| + 1
  {
    assert (cast + [w])[..|cast|] == cast;
  }

  /** Another height's row does not see the vote. */
  lemma OtherRowInOrder(cast: seq<Winner>, height: int, r: Row, w: Winner)
    requires InOrder(cast, height, r) && w.height != height
    ensures InOrder(cast + [w], height, r)
  {
    hide FirstVote;
    forall i | 0 <= i < |r| ensures FirstVote(cast + [w], height, r[i].payee) == FirstVote(cast, height, r[i].payee) {
      OneMoreVote(cast, w, height, r[i].payee);
    }
  }

  /** The payees of before are a prefix of those of row, and a payee after them is the vote's. */
  predicate Grown(before: Row, row: Row, p: Payee) {
    && |before| <= |row| <= |before| + 1
    && (forall k :: 0 <= k < |before| ==> row[k].payee == before[k].payee)
    && (|row| == |before| + 1 ==> row[|before|].payee == p)
  }

  lemma GrownAt(cast: seq<Winner>, before: Row, row: Row, w: Winner, i: nat)
    requires Grown(before, row, w.payee) && i < |row|
    requires |row| == |before| + 1 ==> FirstVote(cast, w.height, w.payee) == |cast|
    requires i < |before| ==> FirstVote(cast, w.height, before[i].payee) < |cast|
    ensures FirstVote(cast + [w], w.height, row[i].payee) ==
      if i < |before| then FirstVote(cast, w.height, before[i].payee) else |cast|
  {
    hide FirstVote;
    OneMoreVote(cast, w, w.height, row[i].payee);
  }

  /** A payee new to the row comes last, and is the last to be voted for. */
  lemma GrownRowInOrder(cast: seq<Winner>, before: Row, row: Row, w: Winner)
    requires InOrder(cast, w.height, before) && Grown(before, row, w.payee)
    requires |row| == |before| + 1 ==> FirstVote(cast, w.height, w.payee) == |cast|
    ensures InOrder(cast + [w], w.height, row)
  {
    hide FirstVote, Grown;
    forall i | 0 <= i < |row| ensures FirstVote(cast + [w], w.height, row[i].payee) < |cast| + 1 {
      GrownAt(cast, before, row, w, i);
    }
    forall i, j | 0 <= i < j < |row|
      ensures FirstVote(cast + [w], w.height, row[i].payee) < FirstVote(cast + [w], w.height, row[j].payee)
    {
      assert |row| <= |before| + 1 by { GrownLength(before, row, w.payee); }
      GrownAt(cast, before, row, w, i);
      GrownAt(cast, before, row, w, j);
    }
  }

  lemma GrownLength(before: Row, row: Row, p: Payee)
    requires Grown(before, row, p)
    ensures |row| <= |before| + 1
  {
  }

  /** One more vote keeps the rows in order. */
  lemma AddKeepsOrder(cast: seq<Winner>, rows: map<int, Row>, w: Winner, before: Row, row: Row)
    requires RowsInOrder(cast, rows) && before == if w.height in rows then rows[w.height] else []
    requires Grown(before, row, w.payee)
    requires |row| == |before| + 1 ==> FirstVote(cast, w.height, w.payee) == |cast|
    ensures RowsInOrder(cast + [w], rows[w.height := row])
  {
    hide InOrder, FirstVote, Grown;
    var rows' := rows[w.height := row];
    forall h | h in rows' ensures InOrder(cast + [w], h, rows'[h]) {
      if h == w.height {
        EmptyInOrder(cast, h);
        GrownRowInOrder(cast, before, row, w);
      } else {
        assert rows'[h] == rows[h];
        OtherRowInOrder(cast, h, rows[h], w);
      }
    }
  }

  lemma EmptyInOrder(cast: seq<Winner>, height: int)
    ensures InOrder(cast, height, [])
  {
  }

  /** The votes from the given height on, in their order. */
  function RecentVotes(cast: seq<Winner>, from: int): (r: seq<Winner>)
    decreases |cast|
  {
    if cast == [] then []
    else RecentVotes(cast[..|cast| - 1], from) + if cast[|cast| - 1].height >= from then [cast[|cast| - 1]] else []
  }

  /** Forgetting older votes changes no order. */
  lemma {:induction false} RecentInOrder(cast: seq<Winner>, from: int, height: int, p: Payee, q: Payee)
    requires height >= from
    ensures var recent := RecentVotes(cast, from);
      && (FirstVote(cast, height, p) < |cast| ==> FirstVote(recent, height, p) < |recent|)
      && (FirstVote(cast, height, p) == |cast| ==> FirstVote(recent, height, p) == |recent|)
      && (FirstVote(cast, height, p) < FirstVote(cast, height, q) ==>
            FirstVote(recent, height, p) < FirstVote(recent, height, q) || FirstVote(cast, height, p) == |cast|)
    decreases |cast|
  {
    if cast != [] {
      var n := |cast| - 1;
      RecentInOrder(cast[..n], from, height, p, q);
      RecentInOrder(cast[..n], from, height, q, p);
      if cast[n].height >= from {
        OneMoreVote(RecentVotes(cast[..n], from), cast[n], height, p);
        OneMoreVote(RecentVotes(cast[..n], from), cast[n], height, q);
      } else {
        assert RecentVotes(cast, from) == RecentVotes(cast[..n], from);
      }
    }
  }

  lemma CleanKeepsOrder(cast: seq<Winner>, rows: map<int, Row>, from: int)
    requires RowsInOrder(cast, rows)
    ensures RowsInOrder(RecentVotes(cast, from), RecentRows(rows, from))
  {
    hide FirstVote, RecentVotes;
    var recent, rows' := RecentVotes(cast, from), RecentRows(rows, from);
    forall h | h in rows' ensures InOrder(recent, h, rows'[h]) {
      assert InOrder(cast, h, rows[h]);
      var r := rows[h];
      forall i | 0 <= i < |r| ensures FirstVote(recent, h, r[i].payee) < |recent| {
        RecentInOrder(cast, from, h, r[i].payee, r[i].payee);
      }
      forall i, j | 0 <= i < j < |r| ensures FirstVote(recent, h, r[i].payee) < FirstVote(recent, h, r[j].payee) {
        RecentInOrder(cast, from, h, r[i].payee, r[j].payee);
      }
    }
  }

  // ----- Votes and tallies -----

  type Votes = map<Hash, Winner>

  /** The stored votes with this height and payee. */
  ghost function Voters(v: Votes, height: int, p: Payee): set<Hash> {
    set k | k in v && v[k].height == height && v[k].payee == p
  }

  ghost predicate RowOk(v: Votes, height: int, r: Row) {
    && Distinct(r) && r != []
    && (forall p {:trigger VotesIn(r, p)} :: VotesIn(r, p) == |Voters(v, height, p)|)
    && AllPositive(r)
  }

  /** The list of votes has those that are stored. */
  ghost predicate CastAt(v: Votes, cast: seq<Winner>, height: int, p: Payee) {
    FirstVote(cast, height, p) < |cast| <==> Voters(v, height, p) != {}
  }

  ghost predicate CastOk(v: Votes, cast: seq<Winner>) {
    forall h, p {:trigger CastAt(v, cast, h, p)} :: CastAt(v, cast, h, p)
  }

  lemma AddKeepsCast(v: Votes, cast: seq<Winner>, k: Hash, w: Winner)
    requires CastOk(v, cast) && k !in v
    ensures CastOk(v[k := w], cast + [w])
  {
    hide FirstVote;
    var v', cast' := v[k := w], cast + [w];
    forall h, p ensures CastAt(v', cast', h, p) {
      assert CastAt(v, cast, h, p);
      OneMoreVote(cast, w, h, p);
      if w.height == h && w.payee == p {
        assert k in Voters(v', h, p);
      } else {
        assert Voters(v', h, p) == Voters(v, h, p);
      }
    }
  }

  lemma {:induction false} NoneBelow(cast: seq<Winner>, from: int)
    ensures forall i :: 0 <= i < |RecentVotes(cast, from)| ==> RecentVotes(cast, from)[i].height >= from
    decreases |cast|
  {
    if cast != [] { NoneBelow(cast[..|cast| - 1], from); }
  }

  lemma CleanKeepsCast(v: Votes, cast: seq<Winner>, from: int)
    requires CastOk(v, cast)
    ensures CastOk(Recent(v, from), RecentVotes(cast, from))
  {
    hide FirstVote, RecentVotes;
    var v', cast' := Recent(v, from), RecentVotes(cast, from);
    forall h, p ensures CastAt(v', cast', h, p) {
      assert CastAt(v, cast, h, p);
      if h >= from {
        RecentInOrder(cast, from, h, p, p);
        assert Voters(v', h, p) == Voters(v, h, p);
      } else {
        NoneBelow(cast, from);
        assert Voters(v', h, p) == {};
      }
    }
  }

  /** A payee that is not in the row got no vote yet. */
  lemma NewPayee(v: Votes, rows: map<int, Row>, cast: seq<Winner>, height: int, p: Payee)
    requires Consistent(v, rows) && CastOk(v, cast)
    requires height in rows ==> forall k :: 0 <= k < |rows[height]| ==> rows[height][k].payee != p
    ensures FirstVote(cast, height, p) == |cast|
  {
    TallyIsCount(v, rows, height, p);
    if height in rows { VotesAbsent(rows[height], p, 0); }
    assert CastAt(v, cast, height, p);
  }

  /** Every row is the tally of the votes for its height, and every vote has its row. */
  ghost predicate Consistent(v: Votes, rows: map<int, Row>) {
    && (forall h {:trigger rows[h]} :: h in rows ==> RowOk(v, h, rows[h]))
    && (forall k {:trigger v[k]} :: k in v ==> v[k].height in rows)
  }

  /** The tally for every height and payee is the number of stored votes; without a row there are none. */
  lemma TallyIsCount(v: Votes, rows: map<int, Row>, height: int, p: Payee)
    requires Consistent(v, rows)
    ensures |Voters(v, height, p)| == if height in rows then VotesIn(rows[height], p) else 0
  {
    if height !in rows { assert Voters(v, height, p) == {}; }
  }

  lemma {:induction false} SomeVoteIn(r: Row, i: nat)
    requires i < |r| && Distinct(r) && AllPositive(r)
    ensures VotesIn(r, r[i].payee) > 0
  {
    VotesAt(r, 0, i);
  }

  /** No row without a vote. */
  lemma RowHasVote(v: Votes, rows: map<int, Row>, height: int) returns (k: Hash)
    requires Consistent(v, rows) && height in rows
    ensures k in v && v[k].height == height
  {
    var r := rows[height];
    SomeVoteIn(r, 0);
    assert Voters(v, height, r[0].payee) != {};
    k :| k in Voters(v, height, r[0].payee);
  }

  lemma MoreVoters(v: Votes, k: Hash, w: Winner, height: int, p: Payee)
    requires k !in v
    ensures |Voters(v[k := w], height, p)|
      == |Voters(v, height, p)| + if height == w.height && p == w.payee then 1 else 0
  {
    var now := Voters(v[k := w], height, p);
    if height == w.height && p == w.payee {
      assert now == Voters(v, height, p) + {k};
    } else {
      assert now == Voters(v, height, p);
    }
  }

  class CMasternodePayments {
    var mapMasternodePayeeVotes: Votes
    var mapMasternodeBlocks: map<int, Row>
    /** The stored votes in the order in which they were added. */
    ghost var cast: seq<Winner>

    ghost predicate Valid()
      reads this
    {
      && Consistent(mapMasternodePayeeVotes, mapMasternodeBlocks)
      && RowsInOrder(cast, mapMasternodeBlocks)
      && CastOk(mapMasternodePayeeVotes, cast)
    }

    constructor ()
      ensures Valid() && mapMasternodePayeeVotes == map[] && mapMasternodeBlocks == map[] && cast == []
    {
      mapMasternodePayeeVotes, mapMasternodeBlocks, cast := map[], map[], [];
    }

    /**
     AddWinningMasternode; known says that the block a hundred below the vote's height is known, and
     hash is the vote's.
     */
    method AddWinningMasternode(w: Winner, hash: Hash, known: bool) returns (added: bool)
      requires Valid()
      modifies this
      ensures Valid() && added == (known && hash !in old(mapMasternodePayeeVotes))
      ensures mapMasternodePayeeVotes ==
        if added then old(mapMasternodePayeeVotes)[hash := w] else old(mapMasternodePayeeVotes)
      ensures cast == if added then old(cast) + [w] else old(cast)
      ensures mapMasternodeBlocks - {w.height} == old(mapMasternodeBlocks) - {w.height}
    {
      hide RowOk, Counted, InOrder, FirstVote, CastAt, RowsInOrder, CastOk;
      if !known {
        return false;
      }
      if hash in mapMasternodePayeeVotes {
        return false;
      }
      ghost var v, rows := mapMasternodePayeeVotes, mapMasternodeBlocks;
      mapMasternodePayeeVotes := mapMasternodePayeeVotes[hash := w];
      if w.height !in mapMasternodeBlocks {
        mapMasternodeBlocks := mapMasternodeBlocks[w.height := []];
      }
      RowsDistinct(v, rows, w.height);
      ghost var before := mapMasternodeBlocks[w.height];
      var row := AddPayee(mapMasternodeBlocks[w.height], w.payee, 1);
      mapMasternodeBlocks := mapMasternodeBlocks[w.height := row];
      AddKeeps(v, rows, hash, w, before, row);
      if |row| == |before| + 1 { NewPayee(v, rows, cast, w.height, w.payee); }
      AddKeepsOrder(cast, rows, w, before, row);
      AddKeepsCast(v, cast, hash, w);
      cast := cast + [w];
      assert mapMasternodeBlocks == rows[w.height := row];
      return true;
    }

    /**
     CleanPaymentList with the chain at nHeight.  Rows and votes older than the limit go; while the
     loop runs, a row may be gone before the other votes of its height.
     */
    method CleanPaymentList(nHeight: int, nLimit: int)
      requires Valid()
      modifies this
      ensures Valid()
      ensures mapMasternodePayeeVotes == Recent(old(mapMasternodePayeeVotes), nHeight - nLimit)
      ensures mapMasternodeBlocks == RecentRows(old(mapMasternodeBlocks), nHeight - nLimit)
      ensures cast == RecentVotes(old(cast), nHeight - nLimit)
    {
      hide Consistent, Visited, OldHeights, Recent, RecentRows, RowsInOrder, CastOk, RecentVotes;
      ghost var v, rows := mapMasternodePayeeVotes, mapMasternodeBlocks;
      NothingVisited(v, rows, nHeight - nLimit);
      var todo := mapMasternodePayeeVotes.Keys;
      while todo != {}
        invariant todo <= v.Keys
        invariant cast == old(cast) && mapMasternodePayeeVotes == Visited(v, todo, nHeight - nLimit)
        invariant mapMasternodeBlocks == rows - OldHeights(v, todo, nHeight - nLimit)
        decreases |todo|
      {
        var it :| it in todo;
        VisitOne(v, rows, todo, it, nHeight - nLimit);
        var winner := mapMasternodePayeeVotes[it];
        if nHeight - winner.height > nLimit {
          mapMasternodePayeeVotes := mapMasternodePayeeVotes - {it};
          mapMasternodeBlocks := mapMasternodeBlocks - {winner.height};
        }
        todo := todo - {it};
      }
      CleanKeeps(v, rows, nHeight - nLimit);
      CleanKeepsOrder(cast, rows, nHeight - nLimit);
      CleanKeepsCast(v, cast, nHeight - nLimit);
      cast := RecentVotes(cast, nHeight - nLimit);
    }

    /**
     GetBlockPayee: of the payees with the most stored votes for the height, the one voted for first;
     none when there is no vote for it.
     */
    method GetBlockPayee(height: int) returns (p: Option<Payee>)
      requires Valid()
      ensures p == None <==> forall k :: k in mapMasternodePayeeVotes ==> mapMasternodePayeeVotes[k].height != height
      ensures p.Some? ==> Voters(mapMasternodePayeeVotes, height, p.value) != {}
      ensures p.Some? ==> forall q {:trigger Voters(mapMasternodePayeeVotes, height, q)} :: q != p.value ==>
        || |Voters(mapMasternodePayeeVotes, height, q)| < |Voters(mapMasternodePayeeVotes, height, p.value)|
        || (|Voters(mapMasternodePayeeVotes, height, q)| == |Voters(mapMasternodePayeeVotes, height, p.value)|
            && FirstVote(cast, height, p.value) < FirstVote(cast, height, q))
    {
      if height !in mapMasternodeBlocks {
        return None;
      }
      ghost var v, r := mapMasternodePayeeVotes, mapMasternodeBlocks[height];
      ghost var k := RowHasVote(v, mapMasternodeBlocks, height);
      p := GetPayee(mapMasternodeBlocks[height]);
      LeaderIsFirst(v, mapMasternodeBlocks, cast, height, p.value);
    }
  }

  lemma {:induction false} PlaceOf(r: Row, p: Payee, i: nat) returns (k: nat)
    requires i <= |r| && VotesFrom(r, p, i) != 0
    ensures i <= k < |r| && r[k].payee == p
    decreases |r| - i
  {
    k := i;
    if r[i].payee != p { k := PlaceOf(r, p, i + 1); }
  }

  /** The leader of a row, in terms of the votes. */
  lemma LeaderIsFirst(v: Votes, rows: map<int, Row>, cast: seq<Winner>, height: int, p: Payee)
    requires Consistent(v, rows) && RowsInOrder(cast, rows) && height in rows
    requires exists i :: 0 <= i < |rows[height]| && rows[height][i].payee == p && IsLeader(rows[height], i)
    ensures Voters(v, height, p) != {}
    ensures forall q {:trigger Voters(v, height, q)} :: q != p ==>
      || |Voters(v, height, q)| < |Voters(v, height, p)|
      || (|Voters(v, height, q)| == |Voters(v, height, p)| && FirstVote(cast, height, p) < FirstVote(cast, height, q))
  {
    hide FirstVote;
    var r := rows[height];
    var i :| 0 <= i < |r| && r[i].payee == p && IsLeader(r, i);
    assert RowOk(v, height, r) && InOrder(cast, height, r);
    SomeVoteIn(r, i);
    VotesAt(r, 0, i);
    TallyIsCount(v, rows, height, p);
    forall q | q != p
      ensures || |Voters(v, height, q)| < |Voters(v, height, p)|
              || (|Voters(v, height, q)| == |Voters(v, height, p)| &&
                  FirstVote(cast, height, p) < FirstVote(cast, height, q))
    {
      TallyIsCount(v, rows, height, q);
      if VotesIn(r, q) != 0 {
        var j := PlaceOf(r, q, 0);
        VotesAt(r, 0, j);
      }
    }
  }

  lemma RowsDistinct(v: Votes, rows: map<int, Row>, h: int)
    requires Consistent(v, rows)
    ensures h in rows ==> Distinct(rows[h])
  {
  }

  lemma AddKeeps(v: Votes, rows: map<int, Row>, k: Hash, w: Winner, before: Row, row: Row)
    requires Consistent(v, rows) && k !in v
    requires before == if w.height in rows then rows[w.height] else []
    requires Counted(before, row, w.payee, 1)
    requires row != [] && (AllPositive(before) ==> AllPositive(row))
    ensures Consistent(v[k := w], rows[w.height := row])
  {
    var v', rows' := v[k := w], rows[w.height := row];
    forall h | h in rows' ensures RowOk(v', h, rows'[h]) {
      if h == w.height {
        forall p ensures VotesIn(row, p) == |Voters(v', h, p)| {
          TallyIsCount(v, rows, h, p);
          MoreVoters(v, k, w, h, p);
        }
      } else {
        assert RowOk(v, h, rows[h]);
        forall p ensures VotesIn(rows[h], p) == |Voters(v', h, p)| { MoreVoters(v, k, w, h, p); }
      }
    }
  }

  /** The votes from the given height on. */
  ghost function Recent(v: Votes, from: int): Votes {
    map k | k in v && v[k].height >= from :: v[k]
  }

  ghost function RecentRows(rows: map<int, Row>, from: int): map<int, Row> {
    map h | h in rows && h >= from :: rows[h]
  }

  /** What is left when everything but todo was visited. */
  ghost function Visited(v: Votes, todo: set<Hash>, from: int): Votes {
    map k | k in v && (k in todo || v[k].height >= from) :: v[k]
  }

  ghost function OldHeights(v: Votes, todo: set<Hash>, from: int): set<int> {
    set k | k in v && k !in todo && v[k].height < from :: v[k].height
  }

  lemma NothingVisited(v: Votes, rows: map<int, Row>, from: int)
    ensures Visited(v, v.Keys, from) == v && rows - OldHeights(v, v.Keys, from) == rows
  {
  }

  lemma VisitOne(v: Votes, rows: map<int, Row>, todo: set<Hash>, k: Hash, from: int)
    requires k in todo && todo <= v.Keys
    ensures k in Visited(v, todo, from) && Visited(v, todo, from)[k] == v[k]
    ensures if v[k].height < from
            then Visited(v, todo - {k}, from) == Visited(v, todo, from) - {k} &&
                 rows - OldHeights(v, todo - {k}, from) == rows - OldHeights(v, todo, from) - {v[k].height}
            else Visited(v, todo - {k}, from) == Visited(v, todo, from) &&
                 OldHeights(v, todo - {k}, from) == OldHeights(v, todo, from)
  {
    if v[k].height < from {
      assert OldHeights(v, todo - {k}, from) == OldHeights(v, todo, from) + {v[k].height};
    }
  }

  /** At the end every row of an old height is gone, since it had a vote, and the other rows still count right. */
  lemma CleanKeeps(v: Votes, rows: map<int, Row>, from: int)
    requires Consistent(v, rows)
    ensures Visited(v, {}, from) == Recent(v, from)
    ensures rows - OldHeights(v, {}, from) == RecentRows(rows, from)
    ensures Consistent(Recent(v, from), RecentRows(rows, from))
  {
    var v', rows' := Recent(v, from), RecentRows(rows, from);
    forall h | h in rows ensures h in OldHeights(v, {}, from) <==> h < from {
      var k := RowHasVote(v, rows, h);
    }
    forall h | h in rows' ensures RowOk(v', h, rows'[h]) {
      assert RowOk(v, h, rows[h]);
      forall p ensures Voters(v', h, p) == Voters(v, h, p) {}
    }
    assert rows - OldHeights(v, {}, from) == rows';
  }
}

/**
  The search for a cheapest path from a start tile to the fixed goal tile,
  either as Dijkstra's algorithm or as A*, and the walk back along the
  recorded predecessors that turns the search's bookkeeping into a path.
 */
module Pathfinding {
  import opened VertexGraph

  /** The fixed goal tile of every search. */
  const GoalLoc: Loc := Loc(15, 4)

  datatype Option<T> = None | Some(value: T)

  /** An entry of the priority queue: a score and the location it was pushed for. */
  datatype Entry = Entry(score: int, loc: Loc)

  /** The outcome of a search: the path found, or no path when the queue runs empty. */
  datatype SearchResult = Path(locs: seq<Loc>) | Unreachable

  /** Each recorded location mapped to the location it was reached from (None for the start). */
  type Predecessors = map<Loc, Option<Loc>>

  // ---------------------------------------------------------------------------
  // List operations used by the path reconstruction
  // ---------------------------------------------------------------------------

  /** The position of the first occurrence of `x` in `s`. */
  function IndexOf<T(==)>(s: seq<T>, x: T): (i: nat)
    requires x in s
    ensures i < |s| && s[i] == x && x !in s[..i]
  {
    if s[0] == x then 0
    else
      var j := IndexOf(s[1..], x);
      assert s[..j + 1] == [s[0]] + s[1..][..j];
      j + 1
  }

  /**
    Removal of the first occurrence of `x`, as a list's `remove` does it;
    ValueError when `x` does not occur.
   */
  function RemoveFirst<T(==)>(s: seq<T>, x: T): (r: Result<seq<T>>)
    ensures r.ValueError? <==> x !in s
    ensures r.Ok? ==> multiset(r.value) == multiset(s) - multiset{x}
    ensures r.Ok? ==> exists i | 0 <= i < |s| :: s[i] == x && x !in s[..i] && r.value == s[..i] + s[i + 1..]
  {
    if x in s then
      var i := IndexOf(s, x);
      assert s == s[..i] + [x] + s[i + 1..];
      Ok(s[..i] + s[i + 1..])
    else
      ValueError
  }

  /** Removing the only occurrence of `x`, at the very end, leaves what came before it. */
  lemma RemoveFinal<T>(s: seq<T>, x: T)
    requires x !in s
    ensures RemoveFirst(s + [x], x) == Ok(s)
  {
    var t := s + [x];
    assert forall k | 0 <= k < |s| :: t[k] != x;
    var i := IndexOf(t, x);
    assert i == |s|;
    assert t[..i] + t[i + 1..] == s;
  }

  function Wrapped(s: seq<Loc>): (r: seq<Option<Loc>>)
    ensures |r| == |s| && forall i | 0 <= i < |s| :: r[i] == Some(s[i])
  {
    seq(|s|, i requires 0 <= i < |s| => Some(s[i]))
  }

  function Unwrapped(s: seq<Option<Loc>>): (r: seq<Loc>)
    requires forall i | 0 <= i < |s| :: s[i].Some?
    ensures |r| == |s| && forall i | 0 <= i < |s| :: s[i] == Some(r[i])
  {
    seq(|s|, i requires 0 <= i < |s| => s[i].value)
  }

  /** Wrapping, reversing, reversing back and unwrapping gives the locations back. */
  lemma UnwrapReversed(s: seq<Loc>)
    ensures forall i | 0 <= i < |s| :: Reverse(Wrapped(Reverse(s)))[i].Some?
    ensures Unwrapped(Reverse(Wrapped(Reverse(s)))) == s
  {
    var t := Unwrapped(Reverse(Wrapped(Reverse(s))));
    assert forall i | 0 <= i < |s| :: t[i] == s[i];
  }

  // ---------------------------------------------------------------------------
  // Chains of predecessors
  // ---------------------------------------------------------------------------

  /** Each location after the first was recorded with the one before it as predecessor. */
  ghost predicate LinksBack(cameFrom: Predecessors, q: seq<Loc>)
  {
    forall i | 0 < i < |q| :: q[i] in cameFrom && cameFrom[q[i]] == Some(q[i - 1])
  }

  /** A chain of predecessors that starts at a location recorded without predecessor. */
  ghost predicate IsChain(cameFrom: Predecessors, q: seq<Loc>)
  {
    |q| > 0 && q[0] in cameFrom && cameFrom[q[0]] == None && LinksBack(cameFrom, q)
  }

  /** Every recorded predecessor has a smaller rank than its successor, so no chain cycles. */
  ghost predicate RankedPredecessors(cameFrom: Predecessors, rank: map<Loc, int>)
  {
    && (forall v | v in cameFrom :: v in rank && rank[v] >= 0)
    && (forall v | v in cameFrom && cameFrom[v].Some? && cameFrom[v].value in cameFrom ::
          rank[cameFrom[v].value] < rank[v])
  }

  /**
    Predecessors determine chains: a walk back from the last location of a
    chain follows the chain, so it is a suffix of the chain.
   */
  lemma {:induction false} ChainSuffix(cameFrom: Predecessors, q: seq<Loc>, w: seq<Loc>)
    requires IsChain(cameFrom, q) && |w| > 0 && LinksBack(cameFrom, w)
    ensures Last(q) == Last(w) ==> |w| <= |q| && w == q[|q| - |w|..]
    decreases |w|
  {
    if Last(q) == Last(w) && |w| > 1 {
      var w' := w[1..];
      assert LinksBack(cameFrom, w');
      ChainSuffix(cameFrom, q, w');
      var j := |q| - |w'|;
      assert w[1] == q[j];
      assert cameFrom[q[j]] == Some(w[0]);
      assert j > 0;
      assert w[0] == q[j - 1];
      assert w == [q[j - 1]] + q[j..];
    }
  }

  /** A non-empty sequence is its front followed by its last element. */
  lemma SplitLast<T>(s: seq<T>)
    requires |s| > 0
    ensures s == s[..|s| - 1] + [Last(s)]
  {
  }

  /** One step of the walk back: the predecessor of the first location walked extends the walk. */
  lemma WalkBack(cameFrom: Predecessors, walked: seq<Loc>, x: Loc)
    requires |walked| > 0 && LinksBack(cameFrom, walked)
    requires walked[0] in cameFrom && cameFrom[walked[0]] == Some(x)
    ensures LinksBack(cameFrom, [x] + walked) && Last([x] + walked) == Last(walked)
    ensures Wrapped(Reverse(([x] + walked)[..|walked|])) == Wrapped(Reverse(walked[..|walked| - 1])) + [Some(x)]
  {
    var w := [x] + walked;
    assert w[..|walked|] == [x] + walked[..|walked| - 1];
    var a := Wrapped(Reverse(w[..|walked|]));
    var b := Wrapped(Reverse(walked[..|walked| - 1])) + [Some(x)];
    assert |a| == |b|;
    assert forall i | 0 <= i < |a| :: a[i] == b[i];
  }

  /**
    Where the walk back stops: at a location recorded without predecessor,
    where the walk is a chain and the one None collected is the last entry;
    or at an unrecorded location, and then no chain ends at `currentLoc`.
   */
  lemma WalkEnded(cameFrom: Predecessors, currentLoc: Loc, walked: seq<Loc>, cur: Option<Loc>)
    requires |walked| > 0 && Last(walked) == currentLoc && LinksBack(cameFrom, walked)
    requires cur.Some? ==> cur.value == walked[0] && cur.value !in cameFrom
    requires cur.None? ==> walked[0] in cameFrom && cameFrom[walked[0]] == None
    ensures walked == walked[..|walked| - 1] + [currentLoc]
    ensures cur.None? ==> IsChain(cameFrom, walked)
    ensures cur.None? ==> var front := Wrapped(Reverse(walked[..|walked| - 1]));
      RemoveFirst(front + [None], None) == Ok(front)
    ensures cur.Some? ==> forall q | IsChain(cameFrom, q) :: Last(q) != currentLoc
  {
    SplitLast(walked);
    if cur.None? {
      RemoveFinal(Wrapped(Reverse(walked[..|walked| - 1])), None);
    } else {
      forall q | IsChain(cameFrom, q)
        ensures Last(q) != currentLoc
      {
        ChainSuffix(cameFrom, q, walked);
      }
    }
  }

  /**
    `_reconstruct_path`: walks from `currentLoc` back through the recorded
    predecessors, collecting each one (the start's missing predecessor as
    None), drops the first None, reverses the list and appends the goal.
    The walk stops at a location that has no entry; the removal raises
    ValueError when the walk never met a start. `rank` is a proof device
    only: the walk terminates because predecessors are ranked.
   */
  method ReconstructPath(cameFrom: Predecessors, currentLoc: Loc, ghost rank: map<Loc, int>)
    returns (r: Result<seq<Loc>>)
    requires RankedPredecessors(cameFrom, rank)
    ensures r.Ok? <==> exists q :: IsChain(cameFrom, q) && Last(q) == currentLoc
    ensures r.Ok? ==> |r.value| > 0 && Last(r.value) == GoalLoc
    ensures r.Ok? ==> IsChain(cameFrom, r.value[..|r.value| - 1] + [currentLoc])
  {
    var fullPath: seq<Option<Loc>> := [];
    var cur: Option<Loc> := Some(currentLoc);
    ghost var walked := [currentLoc];
    while cur.Some? && cur.value in cameFrom
      invariant |walked| > 0 && Last(walked) == currentLoc && LinksBack(cameFrom, walked)
      invariant cur.Some? ==> cur.value == walked[0] && fullPath == Wrapped(Reverse(walked[..|walked| - 1]))
      invariant cur.None? ==> walked[0] in cameFrom && cameFrom[walked[0]] == None
      invariant cur.None? ==> fullPath == Wrapped(Reverse(walked[..|walked| - 1])) + [None]
      decreases if cur.Some? && cur.value in cameFrom then rank[cur.value] + 1 else 0
    {
      cur := cameFrom[cur.value];
      if cur.Some? {
        WalkBack(cameFrom, walked, cur.value);
        walked := [cur.value] + walked;
      }
      fullPath := fullPath + [cur];
    }

    ghost var prefix := walked[..|walked| - 1];
    WalkEnded(cameFrom, currentLoc, walked, cur);
    if cur.Some? {
      assert None !in fullPath;
    }

    var removed := RemoveFirst(fullPath, None);
    match removed
    case ValueError =>
      assert cur.Some?;
      r := ValueError;
    case Ok(rest) =>
      assert cur.None? && rest == Wrapped(Reverse(prefix));
      UnwrapReversed(prefix);
      var path := Reverse(rest);
      r := Ok(Unwrapped(path) + [GoalLoc]);
      assert r.value == prefix + [GoalLoc];
      assert r.value[..|r.value| - 1] == prefix;
  }

  // ---------------------------------------------------------------------------
  // The priority queue
  // ---------------------------------------------------------------------------

  /** A non-empty queue holds an entry whose score is as small as any. */
  lemma {:induction false} MinEntryExists(pq: multiset<Entry>)
    requires pq != multiset{}
    ensures exists m | m in pq :: forall e | e in pq :: m.score <= e.score
    decreases |pq|
  {
    var x :| x in pq;
    var rest := pq - multiset{x};
    assert forall e | e in pq :: e == x || e in rest;
    var m := x;
    if rest != multiset{} {
      MinEntryExists(rest);
      var n :| n in rest && forall e | e in rest :: n.score <= e.score;
      if n.score < x.score {
        m := n;
      }
    }
    assert m in pq && forall e | e in pq :: m.score <= e.score;
  }

  // ---------------------------------------------------------------------------
  // The search
  // ---------------------------------------------------------------------------

  /**
    The score pushed with a location reached at cost `cost`: the cost alone in
    Dijkstra mode, the cost plus the heuristic estimate otherwise.
   */
  function Score(isDstra: bool, heuristic: Loc -> nat, cost: int, loc: Loc): (s: int)
    ensures s >= cost
    ensures isDstra ==> s == cost
    ensures !isDstra ==> s == cost + heuristic(loc)
  {
    if isDstra then cost else cost + heuristic(loc)
  }

  /**
    `v` was reached over an edge from its recorded predecessor, and its cost is
    at least the predecessor's cost plus the weight of that edge.
   */
  ghost predicate SoundLink(adj: Adjacency, cameFrom: Predecessors, cost: map<Loc, int>, v: Loc)
  {
    && v in cameFrom && v in cost
    && cameFrom[v].Some?
    && cameFrom[v].value in cost && cameFrom[v].value in adj
    && v in adj[cameFrom[v].value]
    && cost[v] >= cost[cameFrom[v].value] + adj[cameFrom[v].value][v]
  }

  /**
    The bookkeeping of the search: the start is recorded at cost 0 without a
    predecessor, every cost is non-negative, and every other recorded location
    is soundly linked to its predecessor.
   */
  ghost predicate PredecessorsSound(adj: Adjacency, start: Loc, cameFrom: Predecessors, cost: map<Loc, int>)
  {
    && start in cost && cost[start] == 0
    && cameFrom.Keys == cost.Keys && cost.Keys <= adj.Keys
    && cameFrom[start] == None
    && (forall v | v in cost :: cost[v] >= 0)
    && (forall v | v in cameFrom && v != start :: SoundLink(adj, cameFrom, cost, v))
  }

  /** Every queued entry is for a recorded location and scores no lower than its current cost. */
  ghost predicate QueueSound(pq: multiset<Entry>, cost: map<Loc, int>)
  {
    forall e | e in pq :: e.loc in cost && e.score >= cost[e.loc]
  }

  /** Every neighbour of `v` is recorded at a cost no higher than through `v`. */
  ghost predicate Expanded(adj: Adjacency, cost: map<Loc, int>, v: Loc)
  {
    v in adj && v in cost && forall n | n in adj[v] :: n in cost && cost[n] <= cost[v] + adj[v][n]
  }

  /**
    `v` has been expanded since its cost last changed, or is queued with the
    score of its current cost; the start may instead still be queued with its
    initial score 0.
   */
  ghost predicate Settled(adj: Adjacency, start: Loc, cost: map<Loc, int>, pq: multiset<Entry>, isDstra: bool,
                          heuristic: Loc -> nat, v: Loc)
    requires v in cost
  {
    || Expanded(adj, cost, v)
    || Entry(Score(isDstra, heuristic, cost[v], v), v) in pq
    || (v == start && Entry(0, start) in pq)
  }

  /** Every recorded location outside `skip` is settled. */
  ghost predicate Frontier(adj: Adjacency, start: Loc, cost: map<Loc, int>, pq: multiset<Entry>, isDstra: bool,
                           heuristic: Loc -> nat, skip: set<Loc>)
  {
    forall v | v in cost && v !in skip :: Settled(adj, start, cost, pq, isDstra, heuristic, v)
  }

  /** Once the goal is recorded, it stays queued until it is popped. */
  ghost predicate GoalQueued(cost: map<Loc, int>, pq: multiset<Entry>)
  {
    GoalLoc in cost ==> exists e | e in pq :: e.loc == GoalLoc
  }

  /** The invariant of the search loop, between two rounds. */
  ghost predicate SearchInvariant(adj: Adjacency, start: Loc, cameFrom: Predecessors, cost: map<Loc, int>,
                                  pq: multiset<Entry>, isDstra: bool, heuristic: Loc -> nat)
  {
    && PredecessorsSound(adj, start, cameFrom, cost)
    && QueueSound(pq, cost)
    && Frontier(adj, start, cost, pq, isDstra, heuristic, {})
    && GoalQueued(cost, pq)
  }

  /**
    The invariant while the edges from `cur` are relaxed: as between rounds,
    except that `cur` itself may be neither expanded nor queued, and each
    neighbour not in `todo` is recorded at a cost no higher than through `cur`.
   */
  ghost predicate RelaxInvariant(adj: Adjacency, start: Loc, cur: Loc, cameFrom: Predecessors, cost: map<Loc, int>,
                                 pq: multiset<Entry>, isDstra: bool, heuristic: Loc -> nat, todo: set<Loc>)
  {
    && PredecessorsSound(adj, start, cameFrom, cost)
    && QueueSound(pq, cost)
    && Frontier(adj, start, cost, pq, isDstra, heuristic, {cur})
    && GoalQueued(cost, pq)
    && cur in cost
    && cur in adj && todo <= adj[cur].Keys
    && (forall n | n in adj[cur] && n !in todo :: n in cost && cost[n] <= cost[cur] + adj[cur][n])
  }

  /** Popping an entry other than the goal's leaves the invariant for relaxing the edges from its location. */
  lemma PopKeepsInvariant(adj: Adjacency, start: Loc, cameFrom: Predecessors, cost: map<Loc, int>,
                          pq: multiset<Entry>, isDstra: bool, heuristic: Loc -> nat, top: Entry)
    requires SearchInvariant(adj, start, cameFrom, cost, pq, isDstra, heuristic)
    requires top in pq && top.loc != GoalLoc
    ensures RelaxInvariant(adj, start, top.loc, cameFrom, cost, pq - multiset{top}, isDstra, heuristic, adj[top.loc].Keys)
  {
    var rest := pq - multiset{top};
    assert forall e | e in pq && e != top :: e in rest;
    assert forall e | e in rest :: e in pq;
    if GoalLoc in cost {
      var g :| g in pq && g.loc == GoalLoc;
      assert g in rest;
    }
  }

  /** Recording a new or lower cost for a neighbour `n` of `cur`, with `cur` as predecessor, keeps the bookkeeping sound. */
  lemma SoundAfterUpdate(adj: Adjacency, start: Loc, cur: Loc, cameFrom: Predecessors, cost: map<Loc, int>,
                         n: Loc, c: int)
    requires WellFormed(adj) && PositiveWeights(adj) && PredecessorsSound(adj, start, cameFrom, cost)
    requires cur in cost && n in adj[cur] && c == cost[cur] + adj[cur][n]
    requires n !in cost || c < cost[n]
    ensures PredecessorsSound(adj, start, cameFrom[n := Some(cur)], cost[n := c])
  {
    var cameFrom', cost' := cameFrom[n := Some(cur)], cost[n := c];
    assert n != cur && n != start && n in adj;
    forall v | v in cameFrom' && v != start
      ensures SoundLink(adj, cameFrom', cost', v)
    {
      if v != n {
        assert SoundLink(adj, cameFrom, cost, v);
      }
    }
    assert start in cost' && cost'[start] == 0;
    assert cameFrom'.Keys == cost'.Keys;
    assert cost'.Keys <= adj.Keys;
    assert cameFrom'[start] == None;
    assert forall v | v in cost' :: cost'[v] >= 0;
  }

  /** After the same update, every location other than `cur` is still settled. */
  lemma FrontierAfterUpdate(adj: Adjacency, start: Loc, cur: Loc, cost: map<Loc, int>, pq: multiset<Entry>,
                            isDstra: bool, heuristic: Loc -> nat, n: Loc, c: int)
    requires Frontier(adj, start, cost, pq, isDstra, heuristic, {cur})
    requires n !in cost || c < cost[n]
    ensures Frontier(adj, start, cost[n := c], pq + multiset{Entry(Score(isDstra, heuristic, c, n), n)},
                     isDstra, heuristic, {cur})
  {
    var cost' := cost[n := c];
    var pq' := pq + multiset{Entry(Score(isDstra, heuristic, c, n), n)};
    forall v | v in cost' && v !in {cur}
      ensures Settled(adj, start, cost', pq', isDstra, heuristic, v)
    {
      if v != n {
        assert Settled(adj, start, cost, pq, isDstra, heuristic, v);
        if Expanded(adj, cost, v) {
          assert Expanded(adj, cost', v);
        }
      }
    }
  }

  /**
    Relaxing the edge from `cur` to a neighbour that is new or now cheaper:
    recording the cost through `cur` and `cur` as predecessor and queueing the
    neighbour with its score keeps the invariant, with the neighbour done.
   */
  lemma RelaxUpdate(adj: Adjacency, start: Loc, cur: Loc, cameFrom: Predecessors, cost: map<Loc, int>,
                    pq: multiset<Entry>, isDstra: bool, heuristic: Loc -> nat, todo: set<Loc>, n: Loc, c: int)
    requires WellFormed(adj) && PositiveWeights(adj)
    requires RelaxInvariant(adj, start, cur, cameFrom, cost, pq, isDstra, heuristic, todo)
    requires n in todo && c == cost[cur] + adj[cur][n]
    requires n !in cost || c < cost[n]
    ensures RelaxInvariant(adj, start, cur, cameFrom[n := Some(cur)], cost[n := c],
                           pq + multiset{Entry(Score(isDstra, heuristic, c, n), n)}, isDstra, heuristic, todo - {n})
  {
    assert n != cur;
    SoundAfterUpdate(adj, start, cur, cameFrom, cost, n, c);
    FrontierAfterUpdate(adj, start, cur, cost, pq, isDstra, heuristic, n, c);
    QueueAfterUpdate(cost, pq, n, c, Score(isDstra, heuristic, c, n));
    RelaxedAfterUpdate(adj, cur, cost, todo, n, c);
  }

  /** Queueing the updated neighbour with a score no lower than its cost keeps the queue sound and the goal queued. */
  lemma QueueAfterUpdate(cost: map<Loc, int>, pq: multiset<Entry>, n: Loc, c: int, score: int)
    requires QueueSound(pq, cost) && GoalQueued(cost, pq)
    requires (n !in cost || c < cost[n]) && score >= c
    ensures QueueSound(pq + multiset{Entry(score, n)}, cost[n := c])
    ensures GoalQueued(cost[n := c], pq + multiset{Entry(score, n)})
  {
    var entry := Entry(score, n);
    var pq' := pq + multiset{entry};
    assert forall e | e in pq' :: e in pq || e == entry;
    if GoalLoc in cost && GoalLoc != n {
      var g :| g in pq && g.loc == GoalLoc;
      assert g in pq';
    }
    assert entry in pq';
  }

  /** After the update, the neighbour joins the neighbours of `cur` recorded no dearer than through `cur`. */
  lemma RelaxedAfterUpdate(adj: Adjacency, cur: Loc, cost: map<Loc, int>, todo: set<Loc>, n: Loc, c: int)
    requires cur in cost && cur in adj && n != cur && n in todo && todo <= adj[cur].Keys
    requires forall m | m in adj[cur] && m !in todo :: m in cost && cost[m] <= cost[cur] + adj[cur][m]
    requires c == cost[cur] + adj[cur][n]
    ensures forall m | m in adj[cur] && m !in todo - {n} ::
      m in cost[n := c] && cost[n := c][m] <= cost[n := c][cur] + adj[cur][m]
  {
  }

  /** Relaxing an edge that does not lead more cheaply to the neighbour changes nothing. */
  lemma RelaxSkip(adj: Adjacency, start: Loc, cur: Loc, cameFrom: Predecessors, cost: map<Loc, int>,
                  pq: multiset<Entry>, isDstra: bool, heuristic: Loc -> nat, todo: set<Loc>, n: Loc, c: int)
    requires RelaxInvariant(adj, start, cur, cameFrom, cost, pq, isDstra, heuristic, todo)
    requires n in todo && c == cost[cur] + adj[cur][n]
    requires !(n !in cost || c < cost[n])
    ensures RelaxInvariant(adj, start, cur, cameFrom, cost, pq, isDstra, heuristic, todo - {n})
  {
  }

  /** Once every edge from `cur` is relaxed, `cur` is expanded and the round's invariant holds again. */
  lemma RelaxDone(adj: Adjacency, start: Loc, cur: Loc, cameFrom: Predecessors, cost: map<Loc, int>,
                  pq: multiset<Entry>, isDstra: bool, heuristic: Loc -> nat)
    requires RelaxInvariant(adj, start, cur, cameFrom, cost, pq, isDstra, heuristic, {})
    ensures SearchInvariant(adj, start, cameFrom, cost, pq, isDstra, heuristic)
  {
    assert Expanded(adj, cost, cur);
  }

  /** Every cost is at most its value at `cost0`, and no recorded location was dropped. */
  ghost predicate CostsDecreased(cost0: map<Loc, int>, cost: map<Loc, int>)
  {
    cost0.Keys <= cost.Keys && forall v | v in cost0 :: cost[v] <= cost0[v]
  }

  /** A location was recorded, or a recorded cost decreased, since `cost0`. */
  ghost predicate Progressed(cost0: map<Loc, int>, cost: map<Loc, int>)
  {
    cost.Keys != cost0.Keys || exists v | v in cost0 :: cost[v] < cost0[v]
  }

  /** Recording a new location or a lower cost is progress. */
  lemma UpdateProgresses(cost0: map<Loc, int>, cost: map<Loc, int>, n: Loc, c: int)
    requires CostsDecreased(cost0, cost)
    requires n !in cost || c < cost[n]
    ensures CostsDecreased(cost0, cost[n := c]) && Progressed(cost0, cost[n := c])
  {
    if n in cost0 {
      assert cost[n := c][n] < cost0[n];
    }
  }

  /** The pairs (v, c) with c below v's cost: shrinks whenever a cost decreases. */
  ghost function Slack(cost: map<Loc, int>): set<(Loc, int)>
  {
    set v, c | v in cost && 0 <= c < cost[v] :: (v, c)
  }

  /**
    Progress makes the search's measure smaller: fewer unrecorded vertices,
    or as many and less slack in the recorded costs.
   */
  lemma ProgressDecreasesMeasure(vertices: set<Loc>, cost0: map<Loc, int>, cost: map<Loc, int>)
    requires CostsDecreased(cost0, cost) && Progressed(cost0, cost)
    requires cost.Keys <= vertices && forall v | v in cost :: cost[v] >= 0
    ensures || vertices - cost.Keys < vertices - cost0.Keys
            || (vertices - cost.Keys == vertices - cost0.Keys && Slack(cost) < Slack(cost0))
  {
    if cost.Keys != cost0.Keys {
      var k :| k in cost.Keys && k !in cost0.Keys;
      assert k in vertices - cost0.Keys && k !in vertices - cost.Keys;
    } else {
      var v :| v in cost0 && cost[v] < cost0[v];
      assert (v, cost[v]) in Slack(cost0) && (v, cost[v]) !in Slack(cost);
      assert Slack(cost) <= Slack(cost0);
    }
  }

  /**
    Following recorded predecessors from the start walks along edges of the
    graph, and the walk costs no more than the recorded cost of its end.
   */
  lemma {:induction false} ChainFollowsEdges(adj: Adjacency, start: Loc, cameFrom: Predecessors,
                                             cost: map<Loc, int>, q: seq<Loc>)
    requires PositiveWeights(adj) && PredecessorsSound(adj, start, cameFrom, cost)
    requires IsChain(cameFrom, q)
    ensures q[0] == start && IsPath(adj, q)
    ensures Last(q) in cost && PathCost(adj, q) <= cost[Last(q)]
    decreases |q|
  {
    if |q| > 1 {
      var q' := q[..|q| - 1];
      assert LinksBack(cameFrom, q');
      ChainFollowsEdges(adj, start, cameFrom, cost, q');
      var p, v := Last(q'), Last(q);
      assert cameFrom[v] == Some(p);
      assert v in adj[p];
      assert IsPath(adj, q);
      assert q[..|q| - 1] == q';
    }
  }

  /** No location occurs twice. */
  ghost predicate NoRepeats(p: seq<Loc>)
  {
    forall i, j | 0 <= i < j < |p| :: p[i] != p[j]
  }

  /** A chain of predecessors never visits a location twice. */
  lemma ChainNoRepeats(adj: Adjacency, start: Loc, cameFrom: Predecessors, cost: map<Loc, int>, q: seq<Loc>)
    requires PositiveWeights(adj) && PredecessorsSound(adj, start, cameFrom, cost)
    requires IsChain(cameFrom, q)
    ensures NoRepeats(q)
  {
    ChainCostsIncrease(adj, start, cameFrom, cost, q);
    forall i, j | 0 <= i < j < |q|
      ensures q[i] != q[j]
    {
      assert cost[q[i]] < cost[q[j]];
    }
  }

  /** The recorded costs strictly increase along a chain of predecessors. */
  lemma {:induction false} ChainCostsIncrease(adj: Adjacency, start: Loc, cameFrom: Predecessors,
                                              cost: map<Loc, int>, q: seq<Loc>)
    requires PositiveWeights(adj) && PredecessorsSound(adj, start, cameFrom, cost)
    requires IsChain(cameFrom, q)
    ensures forall i | 0 <= i < |q| :: q[i] in cost
    ensures forall i, j | 0 <= i < j < |q| :: cost[q[i]] < cost[q[j]]
    decreases |q|
  {
    if |q| == 1 {
      assert q[0] in cameFrom;
    } else {
      var q' := q[..|q| - 1];
      assert IsChain(cameFrom, q') by {
        assert forall i | 0 <= i < |q'| :: q'[i] == q[i];
      }
      ChainCostsIncrease(adj, start, cameFrom, cost, q');
      var p, v := q[|q| - 2], q[|q| - 1];
      assert cameFrom[v] == Some(p) && v != start;
      assert SoundLink(adj, cameFrom, cost, v);
      assert cost[p] < cost[v];
      forall i, j | 0 <= i < j < |q|
        ensures q[i] in cost && q[j] in cost && cost[q[i]] < cost[q[j]]
      {
        assert q[i] == q'[i];
        if j < |q| - 1 {
          assert q[j] == q'[j];
        } else if i < |q| - 2 {
          assert cost[q'[i]] < cost[q'[|q'| - 1]];
        }
      }
    }
  }

  /** A chain extends by a location recorded with the chain's end as predecessor. */
  lemma ChainExtend(cameFrom: Predecessors, q: seq<Loc>, v: Loc)
    requires IsChain(cameFrom, q) && v in cameFrom && cameFrom[v] == Some(Last(q))
    ensures IsChain(cameFrom, q + [v]) && Last(q + [v]) == v
  {
    var q' := q + [v];
    assert forall i | 0 <= i < |q| :: q'[i] == q[i];
  }

  /** Every recorded location is the end of a chain of predecessors. */
  lemma {:induction false} ChainExists(adj: Adjacency, start: Loc, cameFrom: Predecessors,
                                       cost: map<Loc, int>, v: Loc)
    requires PositiveWeights(adj) && PredecessorsSound(adj, start, cameFrom, cost)
    requires v in cost
    ensures exists q :: IsChain(cameFrom, q) && Last(q) == v
    decreases cost[v]
  {
    if v == start {
      assert IsChain(cameFrom, [start]);
    } else {
      assert SoundLink(adj, cameFrom, cost, v);
      var p := cameFrom[v].value;
      assert cost[p] < cost[v];
      ChainExists(adj, start, cameFrom, cost, p);
      var q :| IsChain(cameFrom, q) && Last(q) == p;
      ChainExtend(cameFrom, q, v);
    }
  }

  /**
    In Dijkstra mode, every path from the start either ends at a recorded
    location whose cost is no higher than the path's, or some queued entry
    scores no higher than the path.
   */
  lemma {:induction false} FrontierBound(adj: Adjacency, start: Loc, cameFrom: Predecessors, cost: map<Loc, int>,
                                         pq: multiset<Entry>, heuristic: Loc -> nat, p: seq<Loc>)
    requires PositiveWeights(adj) && PredecessorsSound(adj, start, cameFrom, cost)
    requires Frontier(adj, start, cost, pq, true, heuristic, {})
    requires IsPath(adj, p) && p[0] == start
    ensures (Last(p) in cost && cost[Last(p)] <= PathCost(adj, p)) || exists e | e in pq :: e.score <= PathCost(adj, p)
    decreases |p|
  {
    if |p| > 1 {
      var p' := p[..|p| - 1];
      assert IsPath(adj, p');
      FrontierBound(adj, start, cameFrom, cost, pq, heuristic, p');
      var x, n := Last(p'), Last(p);
      assert n in adj[x] && adj[x][n] > 0;
      assert PathCost(adj, p) == PathCost(adj, p') + adj[x][n];
      if x in cost && cost[x] <= PathCost(adj, p') && !Expanded(adj, cost, x) {
        if Entry(cost[x], x) in pq {
          assert Entry(cost[x], x).score <= PathCost(adj, p);
        } else {
          assert Entry(0, start) in pq && 0 <= PathCost(adj, p);
        }
      }
    }
  }

  /**
    Popping the goal's entry: the path whose locations before the goal
    follow the recorded predecessors is a path of the graph from the start to
    the goal, is the goal alone when the start is the goal, and in Dijkstra
    mode costs no more than any path from the start to the goal.
   */
  lemma GoalPopped(adj: Adjacency, start: Loc, cameFrom: Predecessors, cost: map<Loc, int>,
                   pq: multiset<Entry>, isDstra: bool, heuristic: Loc -> nat, top: Entry, path: seq<Loc>)
    requires PositiveWeights(adj) && SearchInvariant(adj, start, cameFrom, cost, pq, isDstra, heuristic)
    requires top in pq && (forall e | e in pq :: top.score <= e.score) && top.loc == GoalLoc
    requires |path| > 0 && Last(path) == GoalLoc && IsChain(cameFrom, path[..|path| - 1] + [GoalLoc])
    ensures IsPath(adj, path) && path[0] == start && Reachable(adj, start, GoalLoc) && NoRepeats(path)
    ensures start == GoalLoc ==> path == [GoalLoc]
    ensures isDstra ==> forall p | IsPath(adj, p) && p[0] == start && Last(p) == GoalLoc ::
      PathCost(adj, path) <= PathCost(adj, p)
  {
    assert path == path[..|path| - 1] + [GoalLoc];
    ChainFollowsEdges(adj, start, cameFrom, cost, path);
    ChainNoRepeats(adj, start, cameFrom, cost, path);
    assert Avoids(path, {});
    if isDstra {
      forall p | IsPath(adj, p) && p[0] == start && Last(p) == GoalLoc
        ensures cost[GoalLoc] <= PathCost(adj, p)
      {
        FrontierBound(adj, start, cameFrom, cost, pq, heuristic, p);
      }
    }
  }

  /** When the queue runs empty, every recorded location is expanded and the goal cannot be reached. */
  lemma QueueExhausted(adj: Adjacency, start: Loc, cameFrom: Predecessors, cost: map<Loc, int>,
                       isDstra: bool, heuristic: Loc -> nat)
    requires SearchInvariant(adj, start, cameFrom, cost, multiset{}, isDstra, heuristic)
    ensures !Reachable(adj, start, GoalLoc)
  {
    assert GoalLoc !in cost;
    assert ClosedRegion(adj, cost.Keys, cost.Keys + {});
    forall p | IsPath(adj, p) && p[0] == start && Avoids(p, {})
      ensures Last(p) != GoalLoc
    {
      PathStaysInRegion(adj, cost.Keys, {}, p);
    }
  }

  /**
    The round that pops the goal's entry: the path is reconstructed from the
    recorded predecessors, and is a path of the graph from the start to the
    goal, the goal alone when the start is the goal, and in Dijkstra mode a
    cheapest one.
   */
  method PathToGoal(ghost adj: Adjacency, startLoc: Loc, cameFrom: Predecessors, ghost costToLoc: map<Loc, int>,
                    ghost priorityq: multiset<Entry>, ghost isDstra: bool, ghost heuristic: Loc -> nat, ghost top: Entry)
    returns (path: seq<Loc>)
    requires PositiveWeights(adj) && SearchInvariant(adj, startLoc, cameFrom, costToLoc, priorityq, isDstra, heuristic)
    requires top in priorityq && (forall e | e in priorityq :: top.score <= e.score) && top.loc == GoalLoc
    ensures IsPath(adj, path) && path[0] == startLoc && Last(path) == GoalLoc && NoRepeats(path)
    ensures Reachable(adj, startLoc, GoalLoc)
    ensures startLoc == GoalLoc ==> path == [GoalLoc]
    ensures isDstra ==> forall p | IsPath(adj, p) && p[0] == startLoc && Last(p) == GoalLoc ::
      PathCost(adj, path) <= PathCost(adj, p)
  {
    ChainExists(adj, startLoc, cameFrom, costToLoc, GoalLoc);
    var found := ReconstructPath(cameFrom, GoalLoc, costToLoc);
    path := found.value;
    GoalPopped(adj, startLoc, cameFrom, costToLoc, priorityq, isDstra, heuristic, top, path);
  }

  // ---------------------------------------------------------------------------
  // What one expansion computes
  // ---------------------------------------------------------------------------

  /** The edge from `cur` leads to its neighbour `n` more cheaply than `n`'s recorded cost, or `n` is unrecorded. */
  ghost predicate Improves(adj: Adjacency, cur: Loc, cost: map<Loc, int>, n: Loc)
    requires cur in cost && cur in adj && n in adj[cur]
  {
    n !in cost || cost[cur] + adj[cur][n] < cost[n]
  }

  /** The neighbours of `cur` in `done` that the edge from `cur` improves under the costs `cost`. */
  ghost function Improved(adj: Adjacency, cur: Loc, cost: map<Loc, int>, done: set<Loc>): (r: set<Loc>)
    requires cur in cost && cur in adj
    ensures r <= done && r <= adj[cur].Keys
  {
    set n | n in done && n in adj[cur] && Improves(adj, cur, cost, n)
  }

  /** Each improved neighbour's cost through `cur`. */
  ghost function ImprovedCosts(adj: Adjacency, cur: Loc, cost: map<Loc, int>, done: set<Loc>): map<Loc, int>
    requires cur in cost && cur in adj
  {
    map n | n in Improved(adj, cur, cost, done) :: cost[cur] + adj[cur][n]
  }

  /** `cur` as the predecessor of each improved neighbour. */
  ghost function ImprovedLinks(adj: Adjacency, cur: Loc, cost: map<Loc, int>, done: set<Loc>): Predecessors
    requires cur in cost && cur in adj
  {
    map n | n in Improved(adj, cur, cost, done) :: Some(cur)
  }

  /** The entries pushed for the improved neighbours: one per neighbour, scored from its new cost. */
  ghost function ImprovedEntries(adj: Adjacency, cur: Loc, cost: map<Loc, int>, isDstra: bool,
                                 heuristic: Loc -> nat, done: set<Loc>): set<Entry>
    requires cur in cost && cur in adj
  {
    set n | n in Improved(adj, cur, cost, done) :: Entry(Score(isDstra, heuristic, cost[cur] + adj[cur][n], n), n)
  }

  /**
    The state after the edges from `cur` to the neighbours in `done` have been
    relaxed, starting from `cameFrom0`, `cost0` and `pq0`: each improved
    neighbour is recorded at exactly its cost through `cur`, with `cur` as
    predecessor; every other location keeps its cost and predecessor (or stays
    unrecorded); and the queue gained exactly one entry per improved neighbour.
   */
  ghost predicate RelaxedNeighbours(adj: Adjacency, cur: Loc, cameFrom0: Predecessors, cost0: map<Loc, int>,
                                    pq0: multiset<Entry>, isDstra: bool, heuristic: Loc -> nat, done: set<Loc>,
                                    cameFrom: Predecessors, cost: map<Loc, int>, pq: multiset<Entry>)
    requires cur in cost0 && cur in adj
  {
    && cost == cost0 + ImprovedCosts(adj, cur, cost0, done)
    && cameFrom == cameFrom0 + ImprovedLinks(adj, cur, cost0, done)
    && pq == pq0 + multiset(ImprovedEntries(adj, cur, cost0, isDstra, heuristic, done))
  }

  /** Before any edge is relaxed, nothing has changed. */
  lemma RelaxedNone(adj: Adjacency, cur: Loc, cameFrom: Predecessors, cost: map<Loc, int>, pq: multiset<Entry>,
                    isDstra: bool, heuristic: Loc -> nat)
    requires cur in cost && cur in adj
    ensures RelaxedNeighbours(adj, cur, cameFrom, cost, pq, isDstra, heuristic, {}, cameFrom, cost, pq)
  {
    assert Improved(adj, cur, cost, {}) == {};
    assert cost + ImprovedCosts(adj, cur, cost, {}) == cost;
    assert cameFrom + ImprovedLinks(adj, cur, cost, {}) == cameFrom;
    assert ImprovedEntries(adj, cur, cost, isDstra, heuristic, {}) == {};
  }

  /**
    While the neighbours are relaxed one at a time, `cur` keeps its cost, and
    the test on the current costs for a neighbour not yet relaxed is the test on
    the costs before the expansion.
   */
  lemma RelaxedTest(adj: Adjacency, cur: Loc, cameFrom0: Predecessors, cost0: map<Loc, int>, pq0: multiset<Entry>,
                    isDstra: bool, heuristic: Loc -> nat, done: set<Loc>,
                    cameFrom: Predecessors, cost: map<Loc, int>, pq: multiset<Entry>, n: Loc)
    requires cur in cost0 && cur in adj && cur !in adj[cur] && n in adj[cur] && n !in done
    requires RelaxedNeighbours(adj, cur, cameFrom0, cost0, pq0, isDstra, heuristic, done, cameFrom, cost, pq)
    ensures cur in cost && cost[cur] == cost0[cur]
    ensures (n !in cost || cost[cur] + adj[cur][n] < cost[n]) <==> Improves(adj, cur, cost0, n)
  {
    var imp := ImprovedCosts(adj, cur, cost0, done);
    assert cur !in imp && n !in imp;
  }

  /** Adding a neighbour `n` to those relaxed adds it to the improved ones exactly when its edge improves it. */
  lemma ImprovedAdd(adj: Adjacency, cur: Loc, cost0: map<Loc, int>, done: set<Loc>, n: Loc)
    requires cur in cost0 && cur in adj && n in adj[cur]
    ensures Improved(adj, cur, cost0, done + {n})
      == if Improves(adj, cur, cost0, n) then Improved(adj, cur, cost0, done) + {n} else Improved(adj, cur, cost0, done)
  {
  }

  /** An improving neighbour not relaxed before adds exactly its own entry to those pushed. */
  lemma ImprovedEntriesAdd(adj: Adjacency, cur: Loc, cost0: map<Loc, int>, isDstra: bool, heuristic: Loc -> nat,
                           done: set<Loc>, n: Loc)
    requires cur in cost0 && cur in adj && n in adj[cur] && n !in done && Improves(adj, cur, cost0, n)
    ensures var e := Entry(Score(isDstra, heuristic, cost0[cur] + adj[cur][n], n), n);
      multiset(ImprovedEntries(adj, cur, cost0, isDstra, heuristic, done + {n}))
        == multiset(ImprovedEntries(adj, cur, cost0, isDstra, heuristic, done)) + multiset{e}
  {
    var e := Entry(Score(isDstra, heuristic, cost0[cur] + adj[cur][n], n), n);
    var before := ImprovedEntries(adj, cur, cost0, isDstra, heuristic, done);
    var after := ImprovedEntries(adj, cur, cost0, isDstra, heuristic, done + {n});
    ImprovedAdd(adj, cur, cost0, done, n);
    assert e !in before;
    assert after == before + {e};
  }

  /** Relaxing an improving edge to a further neighbour records it, and pushes its one entry. */
  lemma RelaxedUpdateStep(adj: Adjacency, cur: Loc, cameFrom0: Predecessors, cost0: map<Loc, int>,
                          pq0: multiset<Entry>, isDstra: bool, heuristic: Loc -> nat, done: set<Loc>,
                          cameFrom: Predecessors, cost: map<Loc, int>, pq: multiset<Entry>, n: Loc, c: int)
    requires cur in cost0 && cur in adj && n in adj[cur] && n !in done && Improves(adj, cur, cost0, n)
    requires RelaxedNeighbours(adj, cur, cameFrom0, cost0, pq0, isDstra, heuristic, done, cameFrom, cost, pq)
    requires c == cost0[cur] + adj[cur][n]
    ensures RelaxedNeighbours(adj, cur, cameFrom0, cost0, pq0, isDstra, heuristic, done + {n},
                              cameFrom[n := Some(cur)], cost[n := c], pq + multiset{Entry(Score(isDstra, heuristic, c, n), n)})
  {
    ImprovedEntriesAdd(adj, cur, cost0, isDstra, heuristic, done, n);
    ImprovedMapsAdd(adj, cur, cost0, done, n);
    OverrideUpdate(cost0, ImprovedCosts(adj, cur, cost0, done), n, c);
    OverrideUpdate(cameFrom0, ImprovedLinks(adj, cur, cost0, done), n, Some(cur));
  }

  /** An improving neighbour not relaxed before adds exactly its own cost and predecessor. */
  lemma ImprovedMapsAdd(adj: Adjacency, cur: Loc, cost0: map<Loc, int>, done: set<Loc>, n: Loc)
    requires cur in cost0 && cur in adj && n in adj[cur] && Improves(adj, cur, cost0, n)
    ensures ImprovedCosts(adj, cur, cost0, done + {n})
      == ImprovedCosts(adj, cur, cost0, done)[n := cost0[cur] + adj[cur][n]]
    ensures ImprovedLinks(adj, cur, cost0, done + {n}) == ImprovedLinks(adj, cur, cost0, done)[n := Some(cur)]
  {
    ImprovedAdd(adj, cur, cost0, done, n);
  }

  /** Overriding with a map updated at one key updates the override at that key. */
  lemma OverrideUpdate<V>(m: map<Loc, V>, extra: map<Loc, V>, k: Loc, x: V)
    ensures m + extra[k := x] == (m + extra)[k := x]
  {
  }

  /** Relaxing an edge that improves nothing changes nothing. */
  lemma RelaxedSkipStep(adj: Adjacency, cur: Loc, cameFrom0: Predecessors, cost0: map<Loc, int>,
                        pq0: multiset<Entry>, isDstra: bool, heuristic: Loc -> nat, done: set<Loc>,
                        cameFrom: Predecessors, cost: map<Loc, int>, pq: multiset<Entry>, n: Loc)
    requires cur in cost0 && cur in adj && n in adj[cur] && !Improves(adj, cur, cost0, n)
    requires RelaxedNeighbours(adj, cur, cameFrom0, cost0, pq0, isDstra, heuristic, done, cameFrom, cost, pq)
    ensures RelaxedNeighbours(adj, cur, cameFrom0, cost0, pq0, isDstra, heuristic, done + {n}, cameFrom, cost, pq)
  {
    ImprovedAdd(adj, cur, cost0, done, n);
  }

  /** A neighbour in a well-formed graph is another vertex. */
  lemma NeighbourIsVertex(adj: Adjacency, v: Loc, n: Loc)
    requires WellFormed(adj) && v in adj && n in adj[v]
    ensures n in adj && n != v && v !in adj[v]
  {
  }

  /**
    One pass of the per-neighbour loop: relaxes the edge from `currentLoc` to
    `neighbourLoc`. When the neighbour is new or reached more cheaply through
    `currentLoc`, it is recorded with that cost and predecessor and queued
    with its score; otherwise nothing changes. `cameFrom0`, `cost0` and `pq0`
    are the state before the loop, and `done` the neighbours already relaxed.
   */
  method RelaxEdge(graph: WeightedGraph, startLoc: Loc, currentLoc: Loc, isDstra: bool, heuristic: Loc -> nat,
                   ghost cameFrom0: Predecessors, ghost cost0: map<Loc, int>, ghost pq0: multiset<Entry>,
                   ghost done: set<Loc>, ghost todo: set<Loc>,
                   cameFrom: Predecessors, costToLoc: map<Loc, int>, priorityq: multiset<Entry>, neighbourLoc: Loc)
    returns (cameFrom': Predecessors, costToLoc': map<Loc, int>, priorityq': multiset<Entry>, updated: bool)
    requires graph.Valid() && PositiveWeights(graph.vertices) && currentLoc in graph.vertices
    requires RelaxInvariant(graph.vertices, startLoc, currentLoc, cameFrom, costToLoc, priorityq, isDstra, heuristic,
                            todo)
    requires neighbourLoc in todo && done == graph.vertices[currentLoc].Keys - todo && currentLoc in cost0
    requires RelaxedNeighbours(graph.vertices, currentLoc, cameFrom0, cost0, pq0, isDstra, heuristic, done,
                               cameFrom, costToLoc, priorityq)
    requires CostsDecreased(cost0, costToLoc)
    ensures RelaxInvariant(graph.vertices, startLoc, currentLoc, cameFrom', costToLoc', priorityq', isDstra, heuristic,
                           todo - {neighbourLoc})
    ensures RelaxedNeighbours(graph.vertices, currentLoc, cameFrom0, cost0, pq0, isDstra, heuristic,
                              done + {neighbourLoc}, cameFrom', costToLoc', priorityq')
    ensures CostsDecreased(cost0, costToLoc')
    ensures updated ==> Progressed(cost0, costToLoc')
    ensures !updated ==> cameFrom' == cameFrom && costToLoc' == costToLoc && priorityq' == priorityq
  {
    ghost var adj := graph.vertices;
    NeighbourIsVertex(adj, currentLoc, neighbourLoc);
    cameFrom', costToLoc', priorityq' := cameFrom, costToLoc, priorityq;
    // The cost to the neighbour through the current location.
    var cost := costToLoc[currentLoc] + graph.GetWeight(currentLoc, neighbourLoc);
    RelaxedTest(adj, currentLoc, cameFrom0, cost0, pq0, isDstra, heuristic, done,
                cameFrom, costToLoc, priorityq, neighbourLoc);
    if neighbourLoc !in costToLoc || cost < costToLoc[neighbourLoc] {
      RelaxUpdate(adj, startLoc, currentLoc, cameFrom, costToLoc, priorityq, isDstra, heuristic, todo,
                  neighbourLoc, cost);
      UpdateProgresses(cost0, costToLoc, neighbourLoc, cost);
      RelaxedUpdateStep(adj, currentLoc, cameFrom0, cost0, pq0, isDstra, heuristic, done,
                        cameFrom, costToLoc, priorityq, neighbourLoc, cost);
      costToLoc' := costToLoc[neighbourLoc := cost];
      cameFrom' := cameFrom[neighbourLoc := Some(currentLoc)];
      // The heuristic is left out of the score in Dijkstra mode.
      var score := Score(isDstra, heuristic, cost, neighbourLoc);
      priorityq' := priorityq + multiset{Entry(score, neighbourLoc)};
      updated := true;
    } else {
      RelaxSkip(adj, startLoc, currentLoc, cameFrom, costToLoc, priorityq, isDstra, heuristic, todo,
                neighbourLoc, cost);
      RelaxedSkipStep(adj, currentLoc, cameFrom0, cost0, pq0, isDstra, heuristic, done,
                      cameFrom, costToLoc, priorityq, neighbourLoc);
      updated := false;
    }
  }

  /** Moving `n` from the neighbours left to those relaxed keeps the two apart; none left means all relaxed. */
  lemma MovedToDone(all: set<Loc>, todo: set<Loc>, n: Loc)
    ensures n in todo && todo <= all ==> (all - todo) + {n} == all - (todo - {n})
    ensures all - {} == all
  {
  }

  /**
    The expansion step of a search round: relaxes the edge from `currentLoc`
    to each of its neighbours in turn, recording a neighbour with its cost
    through `currentLoc` and queueing it whenever it is new or reached more
    cheaply than before. The result is the closed form `RelaxedNeighbours`
    over all the neighbours. Either nothing changes, or some location is newly
    recorded or recorded at a lower cost.
   */
  method ExpandNeighbours(graph: WeightedGraph, startLoc: Loc, currentLoc: Loc, isDstra: bool,
                          heuristic: Loc -> nat, cameFrom: Predecessors, costToLoc: map<Loc, int>,
                          priorityq: multiset<Entry>)
    returns (cameFrom': Predecessors, costToLoc': map<Loc, int>, priorityq': multiset<Entry>)
    requires graph.Valid() && PositiveWeights(graph.vertices) && currentLoc in graph.vertices
    requires RelaxInvariant(graph.vertices, startLoc, currentLoc, cameFrom, costToLoc, priorityq, isDstra, heuristic,
                            graph.vertices[currentLoc].Keys)
    ensures SearchInvariant(graph.vertices, startLoc, cameFrom', costToLoc', priorityq', isDstra, heuristic)
    ensures CostsDecreased(costToLoc, costToLoc')
    ensures costToLoc' == costToLoc ==> priorityq' == priorityq
    ensures costToLoc' != costToLoc ==> Progressed(costToLoc, costToLoc')
    ensures RelaxedNeighbours(graph.vertices, currentLoc, cameFrom, costToLoc, priorityq, isDstra, heuristic,
                              graph.vertices[currentLoc].Keys, cameFrom', costToLoc', priorityq')
  {
    ghost var adj := graph.vertices;
    cameFrom', costToLoc', priorityq' := cameFrom, costToLoc, priorityq;
    var neighbours := graph.GetNeighbours(currentLoc);
    var todo := neighbours.value;
    ghost var done: set<Loc> := {};
    ghost var progressed := false;
    RelaxedNone(adj, currentLoc, cameFrom, costToLoc, priorityq, isDstra, heuristic);
    while todo != {}
      invariant RelaxInvariant(adj, startLoc, currentLoc, cameFrom', costToLoc', priorityq', isDstra, heuristic, todo)
      invariant done == adj[currentLoc].Keys - todo
      invariant RelaxedNeighbours(adj, currentLoc, cameFrom, costToLoc, priorityq, isDstra, heuristic, done,
                                  cameFrom', costToLoc', priorityq')
      invariant CostsDecreased(costToLoc, costToLoc')
      invariant !progressed ==> costToLoc' == costToLoc && priorityq' == priorityq
      invariant progressed ==> Progressed(costToLoc, costToLoc')
      decreases todo
    {
      var neighbourLoc :| neighbourLoc in todo;
      var updated;
      cameFrom', costToLoc', priorityq', updated :=
        RelaxEdge(graph, startLoc, currentLoc, isDstra, heuristic, cameFrom, costToLoc, priorityq, done, todo,
                  cameFrom', costToLoc', priorityq', neighbourLoc);
      progressed := progressed || updated;
      MovedToDone(adj[currentLoc].Keys, todo, neighbourLoc);
      todo := todo - {neighbourLoc};
      done := done + {neighbourLoc};
    }
    MovedToDone(adj[currentLoc].Keys, {}, currentLoc);
    RelaxDone(adj, startLoc, currentLoc, cameFrom', costToLoc', priorityq', isDstra, heuristic);
  }

  /**
    `a_star_pathfinding`: searches from `startLoc` to the goal (15, 4). The
    queue starts with the start at score 0; each round pops an entry of least
    score, stops with the reconstructed path when it is the goal, and
    otherwise relaxes the edges to every neighbour, recording a neighbour
    and queueing it whenever it is new or reached more cheaply than before.
    When the queue runs empty no path is returned.

    The result is a path of the graph from the start to the goal exactly when
    the goal can be reached; in Dijkstra mode it is a cheapest such path.
   */
  method AStarPathfinding(graph: WeightedGraph, startLoc: Loc, isDstra: bool, heuristic: Loc -> nat)
    returns (r: SearchResult)
    requires graph.Valid() && PositiveWeights(graph.vertices) && startLoc in graph.vertices
    ensures r.Path? ==> IsPath(graph.vertices, r.locs) && r.locs[0] == startLoc && Last(r.locs) == GoalLoc
    ensures r.Path? ==> NoRepeats(r.locs)
    ensures r.Unreachable? <==> !Reachable(graph.vertices, startLoc, GoalLoc)
    ensures startLoc == GoalLoc ==> r == Path([GoalLoc])
    ensures isDstra && r.Path? ==>
      forall p | IsPath(graph.vertices, p) && p[0] == startLoc && Last(p) == GoalLoc ::
        PathCost(graph.vertices, r.locs) <= PathCost(graph.vertices, p)
  {
    ghost var adj := graph.vertices;
    var priorityq: multiset<Entry> := multiset{Entry(0, startLoc)};
    var cameFrom: Predecessors := map[startLoc := None];
    var costToLoc: map<Loc, int> := map[startLoc := 0];

    while priorityq != multiset{}
      invariant SearchInvariant(adj, startLoc, cameFrom, costToLoc, priorityq, isDstra, heuristic)
      decreases adj.Keys - costToLoc.Keys, Slack(costToLoc), |priorityq|
    {
      MinEntryExists(priorityq);
      var top :| top in priorityq && forall e | e in priorityq :: top.score <= e.score;
      var currentLoc := top.loc;

      if currentLoc == GoalLoc {
        var path := PathToGoal(adj, startLoc, cameFrom, costToLoc, priorityq, isDstra, heuristic, top);
        return Path(path);
      }
      PopKeepsInvariant(adj, startLoc, cameFrom, costToLoc, priorityq, isDstra, heuristic, top);
      priorityq := priorityq - multiset{top};

      ghost var cost0, queue0 := costToLoc, priorityq;
      cameFrom, costToLoc, priorityq :=
        ExpandNeighbours(graph, startLoc, currentLoc, isDstra, heuristic, cameFrom, costToLoc, priorityq);
      if costToLoc != cost0 {
        ProgressDecreasesMeasure(adj.Keys, cost0, costToLoc);
      }
    }

    QueueExhausted(adj, startLoc, cameFrom, costToLoc, isDstra, heuristic);
    r := Unreachable;
  }
}

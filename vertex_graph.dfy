/**
  The weighted, undirected graph over tile locations and the conversion of a
  tile map into such a graph.

  A graph stores, for every vertex (a tile location), the dictionary of its
  neighbours and the weight of the edge to each of them.
 */
module VertexGraph {

  /** A tile location on the map: its column and its row. */
  datatype Loc = Loc(col: int, row: int)

  /** The four kinds of tile; only obstacles are impassable. */
  datatype Tile = Normal | Slow | Goal | Obstacle

  /** Errors raised by graph queries. */
  datatype Result<T> = Ok(value: T) | ValueError

  /** Every vertex mapped to its neighbours and the weight of the edge to each. */
  type Adjacency = map<Loc, map<Loc, int>>

  /** Width and height of the tile map scanned for edges. */
  const Width: int := 16
  const Height: int := 9

  function Last<T>(s: seq<T>): T
    requires |s| > 0
  {
    s[|s| - 1]
  }

  // ---------------------------------------------------------------------------
  // Shape of an adjacency map
  // ---------------------------------------------------------------------------

  /** No vertex is its own neighbour. */
  ghost predicate NoSelfLoops(adj: Adjacency)
  {
    forall a | a in adj :: a !in adj[a]
  }

  /** Every neighbour is a vertex that lists the edge back, with the same weight. */
  ghost predicate Symmetric(adj: Adjacency)
  {
    forall a, b | a in adj && b in adj[a] :: b in adj && a in adj[b] && adj[b][a] == adj[a][b]
  }

  /** The representation invariant of a graph. */
  ghost predicate WellFormed(adj: Adjacency)
  {
    NoSelfLoops(adj) && Symmetric(adj)
  }

  /** Every edge has a strictly positive weight. */
  ghost predicate PositiveWeights(adj: Adjacency)
  {
    forall a, b | a in adj && b in adj[a] :: adj[a][b] > 0
  }

  // ---------------------------------------------------------------------------
  // Paths and reachability
  // ---------------------------------------------------------------------------

  /** A non-empty sequence of vertices, each adjacent to the one before it. */
  ghost predicate IsPath(adj: Adjacency, p: seq<Loc>)
  {
    && |p| > 0
    && (forall i | 0 <= i < |p| :: p[i] in adj)
    && (forall i | 0 < i < |p| :: p[i] in adj[p[i - 1]])
  }

  /** The total weight of the edges along a path. */
  ghost function PathCost(adj: Adjacency, p: seq<Loc>): int
    requires IsPath(adj, p)
    decreases |p|
  {
    if |p| == 1 then 0
    else
      assert IsPath(adj, p[..|p| - 1]);
      PathCost(adj, p[..|p| - 1]) + adj[p[|p| - 2]][p[|p| - 1]]
  }

  /** No vertex of the path lies in `avoid`. */
  ghost predicate Avoids(p: seq<Loc>, avoid: set<Loc>)
  {
    forall i | 0 <= i < |p| :: p[i] !in avoid
  }

  /** Some path leads from `a` to `b` without entering `avoid`. */
  ghost predicate ReachableAvoiding(adj: Adjacency, a: Loc, b: Loc, avoid: set<Loc>)
  {
    exists p :: IsPath(adj, p) && p[0] == a && Last(p) == b && Avoids(p, avoid)
  }

  /** Some path leads from `a` to `b`. */
  ghost predicate Reachable(adj: Adjacency, a: Loc, b: Loc)
  {
    ReachableAvoiding(adj, a, b, {})
  }

  /** Every neighbour of a vertex in `region` lies in `seen`. */
  ghost predicate ClosedRegion(adj: Adjacency, region: set<Loc>, seen: set<Loc>)
    requires region <= adj.Keys
  {
    forall x, n | x in region && n in adj[x] :: n in seen
  }

  function Reverse<T>(s: seq<T>): (r: seq<T>)
    ensures |r| == |s| && forall i | 0 <= i < |s| :: r[i] == s[|s| - 1 - i]
  {
    seq(|s|, i requires 0 <= i < |s| => s[|s| - 1 - i])
  }

  /** The edges of an undirected graph can be walked backwards: reachability is symmetric. */
  lemma ReachableSymmetric(adj: Adjacency, a: Loc, b: Loc)
    requires WellFormed(adj)
    requires Reachable(adj, a, b)
    ensures Reachable(adj, b, a)
  {
    var p :| IsPath(adj, p) && p[0] == a && Last(p) == b && Avoids(p, {});
    var q := Reverse(p);
    forall i | 0 < i < |q|
      ensures q[i] in adj[q[i - 1]]
    {
      assert q[i - 1] == p[|p| - i] && q[i] == p[|p| - 1 - i];
      assert p[|p| - i] in adj[p[|p| - 1 - i]];
    }
    assert IsPath(adj, q) && q[0] == b && Last(q) == a && Avoids(q, {});
  }

  /**
    A path that leaves a region only through `avoid`, when every neighbour of
    the region lies in the region or in `avoid`, never leaves the region.
   */
  lemma {:induction false} PathStaysInRegion(adj: Adjacency, region: set<Loc>, avoid: set<Loc>, p: seq<Loc>)
    requires region <= adj.Keys
    requires ClosedRegion(adj, region, region + avoid)
    requires IsPath(adj, p) && Avoids(p, avoid) && p[0] in region
    ensures forall i | 0 <= i < |p| :: p[i] in region
    decreases |p|
  {
    if |p| > 1 {
      var q := p[..|p| - 1];
      assert IsPath(adj, q) && Avoids(q, avoid) && q[0] == p[0];
      PathStaysInRegion(adj, region, avoid, q);
      assert forall i | 0 <= i < |p| - 1 :: p[i] == q[i];
      var x, n := p[|p| - 2], p[|p| - 1];
      assert x in region && n in adj[x] && n !in avoid;
      assert n in region + avoid;
    }
  }

  /** The adjacency map with the edge between `a` and `b` written, in both directions, as `w`. */
  function WithEdge(adj: Adjacency, a: Loc, b: Loc, w: int): Adjacency
    requires a in adj && b in adj
  {
    adj[a := adj[a][b := w]][b := adj[b][a := w]]
  }

  /**
    Writing an edge between two distinct vertices keeps the graph well formed,
    gives the edge weight `w` in both directions, adds each endpoint to the
    other's neighbours and leaves every other vertex and every other weight as it was.
   */
  lemma WithEdgeMeaning(adj: Adjacency, a: Loc, b: Loc, w: int)
    requires WellFormed(adj) && a in adj && b in adj && a != b
    ensures WellFormed(WithEdge(adj, a, b, w))
    ensures WithEdge(adj, a, b, w).Keys == adj.Keys
    ensures WithEdge(adj, a, b, w)[a][b] == w && WithEdge(adj, a, b, w)[b][a] == w
    ensures WithEdge(adj, a, b, w)[a].Keys == adj[a].Keys + {b}
    ensures WithEdge(adj, a, b, w)[b].Keys == adj[b].Keys + {a}
    ensures forall x | x in adj && x != a && x != b :: WithEdge(adj, a, b, w)[x] == adj[x]
    ensures forall x, y | x in adj && y in adj[x] && {x, y} != {a, b} :: WithEdge(adj, a, b, w)[x][y] == adj[x][y]
  {
    var g := WithEdge(adj, a, b, w);
    forall x, y | x in g && y in g[x]
      ensures y in g && x in g[y] && g[y][x] == g[x][y]
    {
      if {x, y} != {a, b} {
        assert x in adj && y in adj[x];
      }
    }
  }

  // ---------------------------------------------------------------------------
  // The graph object
  // ---------------------------------------------------------------------------

  /** A weighted undirected graph whose vertices are tile locations. */
  class WeightedGraph {
    /** Each vertex's location mapped to its neighbour dictionary. */
    var vertices: Adjacency

    ghost predicate Valid()
      reads this
    {
      WellFormed(vertices)
    }

    /** An empty graph: no vertices, no edges. */
    constructor ()
      ensures Valid() && vertices == map[]
    {
      vertices := map[];
    }

    /** Adds a vertex with no neighbours, or does nothing when `item` is already a vertex. */
    method AddVertex(item: Loc)
      requires Valid()
      modifies this
      ensures Valid()
      ensures item in old(vertices) ==> vertices == old(vertices)
      ensures item !in old(vertices) ==> vertices == old(vertices)[item := map[]]
    {
      if item !in vertices {
        vertices := vertices[item := map[]];
      }
    }

    /**
      Writes the edge between `item1` and `item2` with the given weight in both
      directions, replacing any earlier weight; does nothing when either item is
      not a vertex.
     */
    method AddEdge(item1: Loc, item2: Loc, weight: int)
      requires Valid() && item1 != item2
      modifies this
      ensures Valid()
      ensures item1 !in old(vertices) || item2 !in old(vertices) ==> vertices == old(vertices)
      ensures item1 in old(vertices) && item2 in old(vertices) ==>
        vertices == WithEdge(old(vertices), item1, item2, weight)
    {
      if item1 in vertices && item2 in vertices {
        var v1 := vertices[item1];
        var v2 := vertices[item2];
        vertices := vertices[item1 := v1[item2 := weight]];
        vertices := vertices[item2 := v2[item1 := weight]];
      }
    }

    /** The weight of the edge between two vertices, 0 when they are not adjacent. */
    function GetWeight(item1: Loc, item2: Loc): (r: int)
      reads this
      requires item1 in vertices && item2 in vertices
      ensures r != 0 ==> item2 in vertices[item1] && r == vertices[item1][item2]
    {
      if item2 in vertices[item1] then vertices[item1][item2] else 0
    }

    /**
      The locations adjacent to `item`, all of them, or ValueError when `item`
      is not a vertex. Each neighbour is a vertex other than `item` that lists
      `item` back.
     */
    function GetNeighbours(item: Loc): (r: Result<set<Loc>>)
      reads this
      requires Valid()
      ensures r.Ok? <==> item in vertices
      ensures r.Ok? ==> forall n :: n in r.value <==> n in vertices[item]
      ensures r.Ok? ==> item !in r.value
      ensures r.Ok? ==> forall n | n in r.value :: n in vertices && item in vertices[n]
    {
      if item in vertices then Ok(vertices[item].Keys) else ValueError
    }

    /** Every vertex location and nothing else; so every neighbour of a listed vertex is listed too. */
    function GetAllVertices(): (r: set<Loc>)
      reads this
      requires Valid()
      ensures forall a :: a in r <==> a in vertices
      ensures forall a | a in r :: forall n | n in vertices[a] :: n in r
    {
      vertices.Keys
    }

    /**
      Whether `target` can be reached from `item` without entering a vertex of
      `visited`. The search marks every vertex it leaves in `visited`, so the
      extended set is returned; when nothing is found, every neighbour of a
      newly marked vertex is marked too and `target` is not among them.
     */
    method CheckConnected(item: Loc, target: Loc, visited: set<Loc>) returns (found: bool, visitedOut: set<Loc>)
      requires Valid() && item in vertices && item !in visited
      ensures found <==> ReachableAvoiding(vertices, item, target, visited)
      ensures visited <= visitedOut
      ensures !found ==> item in visitedOut && visitedOut - visited <= vertices.Keys
      ensures !found ==> target !in visitedOut - visited
      ensures !found ==> ClosedRegion(vertices, visitedOut - visited, visitedOut)
      decreases vertices.Keys - visited
    {
      if item == target {
        assert IsPath(vertices, [item]) && Avoids([item], visited);
        return true, visited;
      }
      visitedOut := visited + {item};
      var todo := vertices[item].Keys;
      while todo != {}
        invariant todo <= vertices[item].Keys
        invariant visited + {item} <= visitedOut
        invariant visitedOut - visited <= vertices.Keys
        invariant target !in visitedOut - visited
        invariant forall n | n in vertices[item] && n !in todo :: n in visitedOut
        invariant ClosedRegion(vertices, visitedOut - visited - {item}, visitedOut)
        decreases todo
      {
        var u :| u in todo;
        todo := todo - {u};
        if u !in visitedOut {
          ghost var before := visitedOut;
          var f;
          f, visitedOut := CheckConnected(u, target, visitedOut);
          if f {
            ghost var p :| IsPath(vertices, p) && p[0] == u && Last(p) == target && Avoids(p, before);
            ghost var q := [item] + p;
            assert IsPath(vertices, q) && q[0] == item && Last(q) == target && Avoids(q, visited);
            return true, visitedOut;
          }
        }
      }
      found := false;
      assert ClosedRegion(vertices, visitedOut - visited, visitedOut);
      forall p | IsPath(vertices, p) && p[0] == item && Avoids(p, visited)
        ensures Last(p) != target
      {
        PathStaysInRegion(vertices, visitedOut - visited, visited, p);
      }
    }

    /**
      Whether both items are vertices and some path joins them;
      every vertex is connected to itself.
     */
    method Connected(item1: Loc, item2: Loc) returns (r: bool)
      requires Valid()
      ensures r <==> item1 in vertices && item2 in vertices && Reachable(vertices, item1, item2)
      ensures item1 in vertices && item1 == item2 ==> r
    {
      if item1 in vertices && item2 in vertices {
        var visited;
        r, visited := CheckConnected(item1, item2, {});
      } else {
        r := false;
      }
    }
  }

  // ---------------------------------------------------------------------------
  // Queries of a well-formed graph
  // ---------------------------------------------------------------------------

  /** The weight query is symmetric, and 0 exactly when the items are not adjacent. */
  lemma GetWeightMeaning(g: WeightedGraph, a: Loc, b: Loc)
    requires g.Valid() && PositiveWeights(g.vertices)
    requires a in g.vertices && b in g.vertices
    ensures g.GetWeight(a, b) == g.GetWeight(b, a)
    ensures g.GetWeight(a, b) == 0 <==> b !in g.vertices[a]
  {
  }

  // ---------------------------------------------------------------------------
  // Converting a tile map into a graph
  // ---------------------------------------------------------------------------

  /** The cost of entering a tile: normal 1, slow 5, goal 1, obstacle 0. */
  function TileCost(t: Tile): int
  {
    match t
    case Normal => 1
    case Slow => 5
    case Goal => 1
    case Obstacle => 0
  }

  function Right(a: Loc): Loc { Loc(a.col + 1, a.row) }

  function Below(a: Loc): Loc { Loc(a.col, a.row + 1) }

  /** The cells whose right and lower neighbours are examined. */
  predicate InScan(a: Loc)
  {
    0 <= a.col < Width && 0 <= a.row < Height
  }

  /** Scanning cell `a` considers the pair (a, b). */
  ghost predicate Scanned(a: Loc, b: Loc)
  {
    InScan(a) && (b == Right(a) || b == Below(a))
  }

  /** The position of the pair (a, b) in the scan: column by column, row by row, right before below. */
  ghost function ScanRank(a: Loc, b: Loc): int
  {
    2 * (a.col * Height + a.row) + (if b == Right(a) then 0 else 1)
  }

  ghost predicate ScannedBefore(a: Loc, b: Loc, rank: int)
  {
    Scanned(a, b) && ScanRank(a, b) < rank
  }

  /** The locations of a tile map that become vertices. */
  ghost predicate IsVertexTile(rep: map<Loc, Tile>, a: Loc)
  {
    a in rep && rep[a] != Obstacle
  }

  /** The pair (a, b), in either orientation, has been scanned before `rank`. */
  ghost predicate LinkedBefore(a: Loc, b: Loc, rank: int)
  {
    ScannedBefore(a, b, rank) || ScannedBefore(b, a, rank)
  }

  /** The neighbours of tile `a` once the pairs of rank below `rank` have been scanned. */
  ghost function NeighboursBefore(rep: map<Loc, Tile>, a: Loc, rank: int): map<Loc, int>
    requires a in rep
  {
    map b | b in rep && IsVertexTile(rep, b) && LinkedBefore(a, b, rank) :: TileCost(rep[a]) + TileCost(rep[b])
  }

  /** The graph after the pairs of rank below `rank` have been scanned. */
  ghost function PartialGridGraph(rep: map<Loc, Tile>, rank: int): Adjacency
  {
    map a | a in rep && IsVertexTile(rep, a) :: NeighboursBefore(rep, a, rank)
  }

  /**
    The graph of a tile map: a vertex per non-obstacle tile, and an edge between
    two such tiles that are horizontal or vertical neighbours with the scanned
    one inside the 16 x 9 map, weighted by the sum of the two tile costs.
   */
  ghost function GridGraph(rep: map<Loc, Tile>): Adjacency
  {
    map a | a in rep && IsVertexTile(rep, a) ::
      map b | b in rep && IsVertexTile(rep, b) && (Scanned(a, b) || Scanned(b, a)) ::
        TileCost(rep[a]) + TileCost(rep[b])
  }

  /** Maps with the same keys and the same value at every key are equal. */
  lemma MapsEqual<K, V>(m1: map<K, V>, m2: map<K, V>)
    requires m1.Keys == m2.Keys
    requires forall k | k in m1 :: m1[k] == m2[k]
    ensures m1 == m2
  {
  }

  /** Two pairs of the scan with the same rank are the same pair. */
  lemma ScanRankInjective(a: Loc, b: Loc, c: Loc, d: Loc)
    requires Scanned(a, b) && Scanned(c, d) && ScanRank(a, b) == ScanRank(c, d)
    ensures a == c && b == d
  {
  }

  /** Scanning the pair (a, b) links a and b and no other pair. */
  lemma LinkedBeforeStep(a: Loc, b: Loc, x: Loc, y: Loc)
    requires Scanned(a, b)
    ensures LinkedBefore(x, y, ScanRank(a, b) + 1) <==>
      LinkedBefore(x, y, ScanRank(a, b)) || (x == a && y == b) || (x == b && y == a)
  {
    if ScannedBefore(x, y, ScanRank(a, b) + 1) && !ScannedBefore(x, y, ScanRank(a, b)) {
      ScanRankInjective(x, y, a, b);
    }
    if ScannedBefore(y, x, ScanRank(a, b) + 1) && !ScannedBefore(y, x, ScanRank(a, b)) {
      ScanRankInjective(y, x, a, b);
    }
  }

  /** Scanning the pair (a, b) changes the neighbours of `x` only when `x` is a or b. */
  lemma NeighboursBeforeStep(rep: map<Loc, Tile>, a: Loc, b: Loc, x: Loc)
    requires Scanned(a, b) && x in rep
    ensures var r := ScanRank(a, b);
      NeighboursBefore(rep, x, r + 1) ==
        if x == a && IsVertexTile(rep, b) then NeighboursBefore(rep, x, r)[b := TileCost(rep[a]) + TileCost(rep[b])]
        else if x == b && IsVertexTile(rep, a) then NeighboursBefore(rep, x, r)[a := TileCost(rep[b]) + TileCost(rep[a])]
        else NeighboursBefore(rep, x, r)
  {
    var r := ScanRank(a, b);
    assert a != b;
    forall y
      ensures LinkedBefore(x, y, r + 1) <==> LinkedBefore(x, y, r) || (x == a && y == b) || (x == b && y == a)
    {
      LinkedBeforeStep(a, b, x, y);
    }
  }

  /** Scanning a pair of vertex tiles adds the edge between them. */
  lemma PartialGridGraphAddsEdge(rep: map<Loc, Tile>, a: Loc, b: Loc)
    requires Scanned(a, b) && IsVertexTile(rep, a) && IsVertexTile(rep, b)
    ensures PartialGridGraph(rep, ScanRank(a, b) + 1) ==
      WithEdge(PartialGridGraph(rep, ScanRank(a, b)), a, b, TileCost(rep[a]) + TileCost(rep[b]))
  {
    var r := ScanRank(a, b);
    var before := PartialGridGraph(rep, r);
    var after := PartialGridGraph(rep, r + 1);
    var w := TileCost(rep[a]) + TileCost(rep[b]);
    var expected := WithEdge(before, a, b, w);
    assert after.Keys == expected.Keys;
    assert forall x | x in after :: after[x] == expected[x] by {
      forall x | x in after
        ensures after[x] == expected[x]
      {
        NeighboursBeforeStep(rep, a, b, x);
        if x == a {
          assert after[x] == before[a][b := w];
        } else if x == b {
          assert after[x] == before[b][a := w];
        } else {
          assert after[x] == before[x];
        }
      }
    }
    MapsEqual(after, expected);
  }

  /** Scanning a pair with an obstacle or a missing tile adds nothing. */
  lemma PartialGridGraphSkips(rep: map<Loc, Tile>, a: Loc, b: Loc)
    requires Scanned(a, b) && !(IsVertexTile(rep, a) && IsVertexTile(rep, b))
    ensures PartialGridGraph(rep, ScanRank(a, b) + 1) == PartialGridGraph(rep, ScanRank(a, b))
  {
    var r := ScanRank(a, b);
    var before := PartialGridGraph(rep, r);
    var after := PartialGridGraph(rep, r + 1);
    assert after.Keys == before.Keys;
    forall x | x in after
      ensures after[x] == before[x]
    {
      NeighboursBeforeStep(rep, a, b, x);
    }
    MapsEqual(after, before);
  }

  /**
    One step of the scan: writing the edge of the pair (a, b) when both tiles
    are in the map and are vertices turns the graph before that pair into the
    graph after it.
   */
  lemma ScanPairStep(rep: map<Loc, Tile>, a: Loc, b: Loc, rank: int, before: Adjacency, after: Adjacency)
    requires Scanned(a, b) && rank == ScanRank(a, b)
    requires before == PartialGridGraph(rep, rank)
    requires a in rep && b in rep && a in before && b in before ==>
      after == WithEdge(before, a, b, TileCost(rep[a]) + TileCost(rep[b]))
    requires !(a in rep && b in rep && a in before && b in before) ==> after == before
    ensures after == PartialGridGraph(rep, rank + 1)
  {
    if IsVertexTile(rep, a) && IsVertexTile(rep, b) {
      PartialGridGraphAddsEdge(rep, a, b);
    } else {
      PartialGridGraphSkips(rep, a, b);
    }
  }

  /** The whole scan yields the graph of the tile map. */
  lemma PartialGridGraphComplete(rep: map<Loc, Tile>)
    ensures PartialGridGraph(rep, 2 * (Width * Height)) == GridGraph(rep)
  {
    var full := PartialGridGraph(rep, 2 * (Width * Height));
    var g := GridGraph(rep);
    forall x | x in g
      ensures full[x] == g[x]
    {
      forall y
        ensures LinkedBefore(x, y, 2 * (Width * Height)) <==> Scanned(x, y) || Scanned(y, x)
      {
      }
    }
  }

  /** The graph of a tile map is well formed, and its weights are positive. */
  lemma GridGraphWellFormed(rep: map<Loc, Tile>)
    ensures WellFormed(GridGraph(rep)) && PositiveWeights(GridGraph(rep))
  {
  }

  /**
    A tile of the map is a vertex exactly when it is not an obstacle; edges join
    horizontal or vertical neighbours, weighted 2, 6 or 10 by the sum of their tile costs.
   */
  lemma GridGraphShape(rep: map<Loc, Tile>)
    ensures forall a | a in rep :: a in GridGraph(rep) <==> rep[a] != Obstacle
    ensures forall a, b | a in GridGraph(rep) && b in GridGraph(rep)[a] ::
      GridGraph(rep)[a][b] == TileCost(rep[a]) + TileCost(rep[b]) && GridGraph(rep)[a][b] in {2, 6, 10}
    ensures forall a, b | a in GridGraph(rep) && b in GridGraph(rep)[a] ::
      (b == Right(a) || b == Below(a) || a == Right(b) || a == Below(b))
  {
  }

  /**
    One scanned pair of the second pass of dict_to_graph: the edge from `a` to
    `b`, added when both tiles are in the map, turns the graph before the pair
    into the graph after it.
   */
  method ConnectPair(graph: WeightedGraph, representation: map<Loc, Tile>, a: Loc, b: Loc, ghost rank: int)
    requires Scanned(a, b) && rank == ScanRank(a, b)
    requires graph.Valid() && graph.vertices == PartialGridGraph(representation, rank)
    modifies graph
    ensures graph.Valid()
    ensures graph.vertices == PartialGridGraph(representation, rank + 1)
  {
    ghost var before := graph.vertices;
    if a in representation && b in representation {
      graph.AddEdge(a, b, TileCost(representation[a]) + TileCost(representation[b]));
    }
    ScanPairStep(representation, a, b, rank, before, graph.vertices);
  }

  /** Cell (i, j) is scanned towards its right at position 2 * (i * Height + j), and downwards just after. */
  lemma CellPairs(i: int, j: int)
    requires 0 <= i < Width && 0 <= j < Height
    ensures Scanned(Loc(i, j), Loc(i + 1, j)) && ScanRank(Loc(i, j), Loc(i + 1, j)) == 2 * (i * Height + j)
    ensures Scanned(Loc(i, j), Loc(i, j + 1)) && ScanRank(Loc(i, j), Loc(i, j + 1)) == 2 * (i * Height + j) + 1
  {
  }

  /**
    One cell of the second pass of dict_to_graph: the edges from (i, j) to the
    location on its right and to the location below it, each added when both
    ends are in the tile map.
   */
  method ConnectCell(graph: WeightedGraph, representation: map<Loc, Tile>, i: int, j: int, ghost rank: int)
    requires 0 <= i < Width && 0 <= j < Height && rank == 2 * (i * Height + j)
    requires graph.Valid() && graph.vertices == PartialGridGraph(representation, rank)
    modifies graph
    ensures graph.Valid()
    ensures graph.vertices == PartialGridGraph(representation, rank + 2)
  {
    var v0 := Loc(i, j);
    var v1 := Loc(i + 1, j);
    var v2 := Loc(i, j + 1);

    CellPairs(i, j);
    ConnectPair(graph, representation, v0, v1, rank);
    ConnectPair(graph, representation, v0, v2, rank + 1);
  }

  /**
    Builds the graph of a tile map: first a vertex for every non-obstacle tile,
    then, for every cell of the 16 x 9 map, the edges to its right and lower
    neighbours when both tiles are in the map.
   */
  method DictToGraph(representation: map<Loc, Tile>) returns (graph: WeightedGraph)
    ensures fresh(graph) && graph.Valid()
    ensures graph.vertices == GridGraph(representation)
  {
    graph := new WeightedGraph();

    // Pass 1: a vertex per tile that is not an obstacle.
    var todo := representation.Keys;
    while todo != {}
      invariant todo <= representation.Keys
      invariant graph.Valid()
      invariant graph.vertices == map a | a in representation.Keys - todo && IsVertexTile(representation, a) :: map[]
      decreases todo
    {
      var location :| location in todo;
      if representation[location] != Obstacle {
        graph.AddVertex(location);
      }
      todo := todo - {location};
    }
    assert graph.vertices == PartialGridGraph(representation, 0);

    // Pass 2: scan the cells column by column, joining each to its right and lower neighbours.
    ghost var rank := 0;
    for i := 0 to Width
      invariant rank == 2 * (i * Height)
      invariant graph.Valid()
      invariant graph.vertices == PartialGridGraph(representation, rank)
    {
      for j := 0 to Height
        invariant rank == 2 * (i * Height + j)
        invariant graph.Valid()
        invariant graph.vertices == PartialGridGraph(representation, rank)
      {
        ConnectCell(graph, representation, i, j, rank);
        rank := rank + 2;
      }
    }
    PartialGridGraphComplete(representation);
  }
}

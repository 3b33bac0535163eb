/** What a dependency graph means, free of the indices the node keeps for speed.

    `DependencyGraph` (crates/block-producer/src/mempool/graph/mod.rs) stores a pending set, a
    vertex map, two mutually inverse adjacency maps, a root set and a processed set. All of it is
    determined by three things: each node's parents, the data of the promoted nodes, and the
    processed nodes. That is a `Dag`. */
module Dags {
  import opened Prelude

  /** Each node's parents. */
  type Edges = map<nat, set<nat>>

  datatype GraphError =
    | DuplicateKey(key: nat)
    | MissingParents(keys: set<nat>)
    | UnknownNodes(keys: set<nat>)
    | UnprocessedNodes(keys: set<nat>)
    | DanglingNodes(keys: set<nat>)
    | InvalidRootNode(key: nat)
    | InvalidPendingNode(key: nat)

  // ---------------------------------------------------------------------------------------------
  // Descendants

  function Children(e: Edges, s: set<nat>): set<nat> {
    set k | k in e && e[k] * s != {}
  }

  ghost predicate Closed(e: Edges, s: set<nat>) {
    forall k, p :: k in e && p in e[k] && p in s ==> k in s
  }

  lemma ClosedWithChildren(e: Edges, s: set<nat>)
    requires Children(e, s) <= s
    ensures Closed(e, s)
  {
    forall k, p | k in e && p in e[k] && p in s ensures k in s {
      assert p in e[k] * s;
      assert k in Children(e, s);
    }
  }

  /** `s` together with everything that depends on it, directly or not. */
  ghost function Descendants(e: Edges, s: set<nat>): (r: set<nat>)
    ensures s <= r <= s + e.Keys
    ensures Closed(e, r)
    decreases e.Keys - s
  {
    var next := s + Children(e, s);
    if next == s then
      ClosedWithChildren(e, s);
      s
    else
      assert e.Keys - next < e.Keys - s by { var x :| x in next && x !in s; }
      Descendants(e, next)
  }

  /** The descendants are the least set that holds the seeds and is closed under dependents. */
  lemma {:induction false} DescendantsLeast(e: Edges, s: set<nat>, t: set<nat>)
    requires s <= t && Closed(e, t)
    ensures Descendants(e, s) <= t
    decreases e.Keys - s
  {
    var next := s + Children(e, s);
    if next != s {
      forall k | k in next ensures k in t {
        if k !in s {
          var p :| p in e[k] * s;
        }
      }
      assert e.Keys - next < e.Keys - s by { var x :| x in next && x !in s; }
      DescendantsLeast(e, next, t);
    }
  }

  /** A path of dependents: each node after the first has its predecessor as a parent. */
  ghost predicate Path(e: Edges, path: seq<nat>) {
    forall i :: 0 < i < |path| ==> path[i] in e && path[i - 1] in e[path[i]]
  }

  ghost predicate Reaches(e: Edges, s: set<nat>, x: nat) {
    exists path :: Path(e, path) && path != [] && path[0] in s && path[|path| - 1] == x
  }

  lemma {:induction false} PathStaysInside(e: Edges, t: set<nat>, path: seq<nat>)
    requires Closed(e, t) && Path(e, path) && path != [] && path[0] in t
    ensures path[|path| - 1] in t
    decreases |path|
  {
    if |path| > 1 {
      PathStaysInside(e, t, path[..|path| - 1]);
      assert path[|path| - 2] in e[path[|path| - 1]];
    }
  }

  /** The fixed-point definition agrees with reachability along edges. */
  lemma {:induction false} DescendantsAreReachable(e: Edges, s: set<nat>, x: nat)
    requires x in e || x in s
    ensures x in Descendants(e, s) <==> Reaches(e, s, x)
  {
    var d := Descendants(e, s);
    if Reaches(e, s, x) {
      var path :| Path(e, path) && path != [] && path[0] in s && path[|path| - 1] == x;
      PathStaysInside(e, d, path);
    }
    var t := set y | y in s + e.Keys && Reaches(e, s, y);
    forall y | y in s ensures y in t {
      assert Path(e, [y]);
      assert [y][0] in s && [y][|[y]| - 1] == y;
    }
    forall k, p | k in e && p in e[k] && p in t ensures k in t {
      var path :| Path(e, path) && path != [] && path[0] in s && path[|path| - 1] == p;
      assert Path(e, path + [k]);
      assert (path + [k])[0] in s && (path + [k])[|path + [k]| - 1] == k;
    }
    DescendantsLeast(e, s, t);
  }

  /** A descendant is a seed or has a parent that is a descendant. */
  lemma {:induction false} DescendantHasCause(e: Edges, s: set<nat>, x: nat)
    requires x in Descendants(e, s) && x !in s
    ensures x in e && exists p :: p in e[x] && p in Descendants(e, s)
  {
    var d := Descendants(e, s);
    if forall p :: p in e[x] ==> p !in d {
      DescendantsLeast(e, s, d - {x});
    }
  }

  // ---------------------------------------------------------------------------------------------
  // Acyclicity: every non-empty set of nodes has a member none of whose parents is in the set.

  ghost predicate HasSource(e: Edges, s: set<nat>) {
    exists k :: k in s && k in e && e[k] !! s
  }

  ghost predicate Acyclic(e: Edges) {
    forall s: set<nat> :: s != {} && s <= e.Keys ==> HasSource(e, s)
  }

  lemma AcyclicInsert(e: Edges, k: nat, ps: set<nat>)
    requires Acyclic(e) && k !in e && ps <= e.Keys
    requires forall x :: x in e ==> e[x] <= e.Keys
    ensures Acyclic(e[k := ps])
  {
    var e' := e[k := ps];
    forall s: set<nat> | s != {} && s <= e'.Keys ensures HasSource(e', s) {
      var t := s - {k};
      if t == {} {
        assert s == {k};
        assert k in s && e'[k] !! s;
      } else {
        assert HasSource(e, t);
        var m :| m in t && m in e && e[m] !! t;
        assert m in s && e'[m] !! s;
      }
    }
  }

  lemma AcyclicShrink(e: Edges, e': Edges)
    requires Acyclic(e) && e'.Keys <= e.Keys
    requires forall x :: x in e' ==> e'[x] <= e[x]
    ensures Acyclic(e')
  {
    forall s: set<nat> | s != {} && s <= e'.Keys ensures HasSource(e', s) {
      assert HasSource(e, s);
      var m :| m in s && m in e && e[m] !! s;
      assert m in s && m in e' && e'[m] !! s;
    }
  }

  // ---------------------------------------------------------------------------------------------
  // The graph

  datatype Dag<V> = Dag(parents: Edges, vertices: map<nat, V>, processed: set<nat>) {

    /** Inserted nodes whose data has not arrived. */
    function Pending(): set<nat> {
      parents.Keys - vertices.Keys
    }

    /** Promoted, unprocessed nodes all of whose parents are processed. */
    function Roots(): set<nat> {
      set k | k in vertices && k in parents && k !in processed && parents[k] <= processed
    }

    ghost predicate WellFormed() {
      var wellFormed :=
        && vertices.Keys <= parents.Keys
        && processed <= vertices.Keys
        && (forall k :: k in parents ==> parents[k] <= parents.Keys)
        && (forall k :: k in processed ==> parents[k] <= processed)
        && Acyclic(parents);
      wellFormed
    }

    /** Adds a node whose data is not known yet. */
    function InsertPending(key: nat, ps: set<nat>): Result<Dag<V>, GraphError> {
      if key in parents then Err(DuplicateKey(key))
      else if !(ps <= parents.Keys) then Err(MissingParents(ps - parents.Keys))
      else Ok(this.(parents := parents[key := ps]))
    }

    /** Supplies a pending node's data. */
    function PromotePending(key: nat, value: V): Result<Dag<V>, GraphError> {
      if key !in Pending() then Err(InvalidPendingNode(key))
      else Ok(this.(vertices := vertices[key := value]))
    }

    function ProcessRoot(key: nat): Result<Dag<V>, GraphError> {
      if key !in Roots() then Err(InvalidRootNode(key))
      else Ok(this.(processed := processed + {key}))
    }

    /** Puts processed nodes, and every processed node that depends on them, back in the queue. */
    ghost function RevertSubgraphs(keys: set<nat>): Result<Dag<V>, GraphError> {
      if !(keys <= vertices.Keys) then Err(UnknownNodes(keys - vertices.Keys))
      else if !(keys <= processed) then Err(UnprocessedNodes(keys - processed))
      else Ok(this.(processed := processed - Descendants(parents, keys)))
    }

    function ParentsOfAll(keys: set<nat>): set<nat> {
      set k, p | k in keys && k in parents && p in parents[k] :: p
    }

    /** Forgets processed nodes whose parents are forgotten with them. */
    function PruneProcessed(keys: set<nat>): Result<Dag<V>, GraphError> {
      if !(keys <= parents.Keys) then Err(UnknownNodes(keys - parents.Keys))
      else if !(keys <= processed) then Err(UnprocessedNodes(keys - processed))
      else if !(ParentsOfAll(keys) <= keys) then Err(DanglingNodes(ParentsOfAll(keys) - keys))
      else Ok(Dag(Shrunk(parents, keys),
                  vertices - keys,
                  processed - keys))
    }

    /** Removes nodes and everything that depends on them. */
    ghost function PurgeSubgraphs(keys: set<nat>): Result<Dag<V>, GraphError> {
      if !(keys <= parents.Keys) then Err(UnknownNodes(keys - parents.Keys))
      else Ok(Without(Descendants(parents, keys)))
    }

    /** The graph restricted to the nodes outside `gone`. */
    function Without(gone: set<nat>): Dag<V> {
      Dag(parents - gone, vertices - gone, processed - gone)
    }
  }

  // ---------------------------------------------------------------------------------------------
  // The adjacency maps: `children` is the inverse of `parents`.

  ghost predicate Inverse(parents: Edges, children: Edges) {
    && children.Keys == parents.Keys
    && forall k, c :: k in children ==> (c in children[k] <==> c in parents && k in parents[c])
  }

  /** Adds `x` to the entries of `keys`. */
  function Link(m: Edges, keys: set<nat>, x: nat): Edges {
    map k | k in m :: if k in keys then m[k] + {x} else m[k]
  }

  /** Removes `x` from the entries of `keys`. */
  function Unlink(m: Edges, keys: set<nat>, x: nat): Edges {
    map k | k in m :: if k in keys then m[k] - {x} else m[k]
  }

  lemma InverseInsert(parents: Edges, children: Edges, key: nat, ps: set<nat>)
    requires Inverse(parents, children) && key !in parents && ps <= parents.Keys
    requires forall k :: k in parents ==> parents[k] <= parents.Keys
    ensures Inverse(parents[key := ps], Link(children, ps, key)[key := {}])
  {
  }

  /** The entries outside `gone`, without mention of `gone`. */
  function Shrunk(m: Edges, gone: set<nat>): Edges {
    map k | k in m && k !in gone :: m[k] - gone
  }

  lemma InversePurge(parents: Edges, children: Edges, gone: set<nat>)
    requires Inverse(parents, children)
    requires Closed(parents, gone)
    ensures Inverse(parents - gone, Shrunk(children, gone))
  {
  }

  lemma InversePrune(parents: Edges, children: Edges, keys: set<nat>)
    requires Inverse(parents, children)
    requires forall k :: k in keys && k in parents ==> parents[k] <= keys
    ensures Inverse(Shrunk(parents, keys), children - keys)
  {
  }

  lemma ShrinkNone(m: Edges)
    ensures Shrunk(m, {}) == m
  {
    forall k | k in m ensures Shrunk(m, {})[k] == m[k] {
    }
  }

  lemma ShrinkOneMore(m: Edges, gone: set<nat>, key: nat, users: set<nat>)
    requires forall k :: k in m && key in m[k] ==> k in users
    ensures Unlink(Shrunk(m, gone) - {key}, users, key) == Shrunk(m, gone + {key})
  {
    var a := Unlink(Shrunk(m, gone) - {key}, users, key);
    var b := Shrunk(m, gone + {key});
    assert a.Keys == b.Keys;
    forall k | k in b ensures a[k] == b[k] {
    }
  }

  /** The work-list invariant of a purge: what depends on a removed node is removed or waiting. */
  ghost predicate Explored(e: Edges, removed: set<nat>, waiting: set<nat>) {
    forall k, p :: k in e && p in e[k] && p in removed ==> k in removed + waiting
  }

  lemma {:induction false} ExploreOneMore(parents: Edges, children: Edges, keys: set<nat>,
                                          removed: set<nat>, waiting: set<nat>, key: nat,
                                          more: set<nat>)
    requires Inverse(parents, children) && key in parents && key !in parents[key]
    requires removed !! waiting && Explored(parents, removed, waiting)
    requires keys <= removed + waiting <= Descendants(parents, keys)
    requires key in waiting && more == children[key] - removed - keys
    ensures removed + {key} !! waiting - {key} + more
    ensures Explored(parents, removed + {key}, waiting - {key} + more)
    ensures keys <= removed + {key} + (waiting - {key} + more) <= Descendants(parents, keys)
  {
  }

  // ---------------------------------------------------------------------------------------------
  // Every operation keeps the graph well formed.

  lemma NoSelfLoop<V>(d: Dag<V>, key: nat)
    requires d.WellFormed() && key in d.parents
    ensures key !in d.parents[key]
  {
    assert HasSource(d.parents, {key});
  }

  lemma InsertKeepsWellFormed<V>(d: Dag<V>, key: nat, ps: set<nat>)
    requires d.WellFormed() && d.InsertPending(key, ps).Ok?
    ensures d.InsertPending(key, ps).value.WellFormed()
  {
    AcyclicInsert(d.parents, key, ps);
  }

  lemma PruneKeepsWellFormed<V>(d: Dag<V>, keys: set<nat>)
    requires d.WellFormed() && d.PruneProcessed(keys).Ok?
    ensures d.PruneProcessed(keys).value.WellFormed()
  {
    AcyclicShrink(d.parents, d.PruneProcessed(keys).value.parents);
  }

  lemma PurgeKeepsWellFormed<V>(d: Dag<V>, keys: set<nat>)
    requires d.WellFormed() && d.PurgeSubgraphs(keys).Ok?
    ensures d.PurgeSubgraphs(keys).value.WellFormed()
  {
    AcyclicShrink(d.parents, d.PurgeSubgraphs(keys).value.parents);
  }

  /** What the insertion of a node does to the indices. */
  lemma InsertKeepsIndices<V>(d: Dag<V>, key: nat, ps: set<nat>)
    requires d.WellFormed() && d.InsertPending(key, ps).Ok?
    ensures d.InsertPending(key, ps).value.Roots() == d.Roots()
    ensures d.InsertPending(key, ps).value.Pending() == d.Pending() + {key}
  {
  }

  /** Only the promoted node can become a root. */
  lemma PromoteKeepsIndices<V>(d: Dag<V>, key: nat, value: V)
    requires d.WellFormed() && d.PromotePending(key, value).Ok?
    ensures var d' := d.PromotePending(key, value).value;
      && d'.WellFormed()
      && d'.Pending() == d.Pending() - {key}
      && d'.Roots() == d.Roots() + if d.parents[key] <= d.processed then {key} else {}
  {
  }

  /** Only children of a processed root can become roots. */
  lemma ProcessKeepsIndices<V>(d: Dag<V>, children: Edges, key: nat)
    requires d.WellFormed() && key in d.Roots() && Inverse(d.parents, children)
    ensures key !in children[key]
    ensures Process(d, key).Pending() == d.Pending()
    ensures Process(d, key).Roots() == d.Roots() - {key} +
      set k | k in children[key] && k !in d.Pending() && d.parents[k] <= d.processed + {key}
    ensures children[key] <= d.parents.Keys - d.processed
  {
    NoSelfLoop(d, key);
  }

  /** Pruning changes neither the roots nor the pending nodes. */
  lemma PruneKeepsIndices<V>(d: Dag<V>, keys: set<nat>)
    requires d.WellFormed() && d.PruneProcessed(keys).Ok?
    ensures d.PruneProcessed(keys).value.Roots() == d.Roots()
    ensures d.PruneProcessed(keys).value.Pending() == d.Pending()
    ensures forall k :: k in keys ==> d.parents[k] <= keys
  {
    var d' := d.PruneProcessed(keys).value;
    forall k | k in keys ensures d.parents[k] <= keys {
      forall p | p in d.parents[k] ensures p in keys {
        assert p in d.ParentsOfAll(keys);
      }
    }
    forall k | k in d'.parents
      ensures d'.parents[k] <= d'.processed <==> d.parents[k] <= d.processed
    {
      LessBoth(d.parents[k], d'.parents[k], d.processed, d'.processed, keys);
    }
  }

  /** The data of nodes in the order of their keys. */
  function InKeyOrder<V>(vertices: map<nat, V>, keys: set<nat>): seq<V>
    requires keys <= vertices.Keys
    decreases keys
  {
    if keys == {} then [] else
      var k := Min(keys);
      [vertices[k]] + InKeyOrder(vertices, keys - {k})
  }

  lemma {:induction false} FirstInKeyOrder<V>(vertices: map<nat, V>, keys: set<nat>, before: seq<V>)
    requires keys != {} && keys <= vertices.Keys
    ensures before + InKeyOrder(vertices, keys) ==
            before + [vertices[Min(keys)]] + InKeyOrder(vertices, keys - {Min(keys)})
  {
  }

  /** Taking the same elements out of two sets, the larger of which has them all. */
  lemma LessBoth(a: set<nat>, a': set<nat>, b: set<nat>, b': set<nat>, keys: set<nat>)
    requires a' == a - keys && b' == b - keys && keys <= b
    ensures a' <= b' <==> a <= b
  {
    if a' <= b' {
      forall x | x in a ensures x in b {
        assert x in keys || x in a';
      }
    }
  }

  /** A purge leaves the roots and the pending nodes that survive, and makes no new ones. */
  lemma {:induction false} PurgeKeepsIndices<V>(d: Dag<V>, keys: set<nat>)
    requires d.WellFormed() && d.PurgeSubgraphs(keys).Ok?
    ensures d.PurgeSubgraphs(keys).value.Roots() == d.Roots() - Descendants(d.parents, keys)
    ensures d.PurgeSubgraphs(keys).value.Pending() == d.Pending() - Descendants(d.parents, keys)
  {
  }

  lemma RevertKeepsWellFormed<V>(d: Dag<V>, keys: set<nat>)
    requires d.WellFormed() && d.RevertSubgraphs(keys).Ok?
    ensures d.RevertSubgraphs(keys).value.WellFormed()
  {
    var gone := Descendants(d.parents, keys);
    forall k | k in d.processed - gone ensures d.parents[k] <= d.processed - gone {
      forall p | p in d.parents[k] ensures p in d.processed - gone {
      }
    }
  }

  /** The graph with one more processed node. */
  function Process<V>(d: Dag<V>, root: nat): Dag<V> {
    d.(processed := d.processed + {root})
  }

  lemma ProcessKeepsWellFormed<V>(d: Dag<V>, root: nat)
    requires d.WellFormed() && root in d.Roots()
    ensures Process(d, root).WellFormed()
    ensures d.ProcessRoot(root) == Ok(Process(d, root))
    ensures root in d.vertices.Keys - d.processed
  {
  }

  /** After a revert, a root was a root before or is one of the reverted keys, which is why the
      node re-examines only those. */
  lemma RevertedRoots<V>(d: Dag<V>, keys: set<nat>, k: nat)
    requires d.WellFormed() && d.RevertSubgraphs(keys).Ok?
    requires k in d.RevertSubgraphs(keys).value.Roots()
    ensures k in d.Roots() + keys
  {
    if k in d.processed && k !in keys {
      DescendantHasCause(d.parents, keys, k);
    }
  }

  lemma RevertedCandidates<V>(d: Dag<V>, keys: set<nat>)
    requires d.WellFormed() && d.RevertSubgraphs(keys).Ok?
    ensures d.RevertSubgraphs(keys).value.Roots() <= d.Roots() + keys
  {
    forall k | k in d.RevertSubgraphs(keys).value.Roots() ensures k in d.Roots() + keys {
      RevertedRoots(d, keys, k);
    }
  }

  /** Among processed nodes it makes no difference whether the revert walks through pending
      nodes: `visited` is what a walk that skips them collects. */
  lemma {:induction false} RevertSkipsPending<V>(d: Dag<V>, keys: set<nat>, visited: set<nat>)
    requires d.WellFormed()
    requires keys <= visited <= Descendants(d.parents, keys)
    requires forall k, p :: k in d.vertices && p in d.parents[k] && p in visited ==> k in visited
    ensures d.processed - visited == d.processed - Descendants(d.parents, keys)
  {
    var t := visited + (d.parents.Keys - d.processed) + (keys - d.parents.Keys);
    assert Closed(d.parents, t);
    DescendantsLeast(d.parents, keys, t);
  }

  /** The queue never deadlocks: when nothing is pending and something is unprocessed, some node
      is ready. */
  lemma RootExists<V>(d: Dag<V>)
    requires d.WellFormed() && d.Pending() == {} && d.processed != d.vertices.Keys
    ensures d.Roots() != {}
  {
    var s := d.vertices.Keys - d.processed;
    assert forall k :: k in d.parents ==> k in d.vertices || k in d.Pending();
    assert HasSource(d.parents, s);
    var k :| k in s && k in d.parents && d.parents[k] !! s;
    assert k in d.Roots();
  }

  /** With pending nodes: something is ready exactly when some unprocessed promoted node does not
      wait, directly or through others, for a pending one. */
  lemma ReadyUnlessBlocked<V>(d: Dag<V>)
    requires d.WellFormed()
    ensures d.Roots() != {} <==>
            d.vertices.Keys - d.processed - Descendants(d.parents, d.Pending()) != {}
  {
    var blocked := Descendants(d.parents, d.Pending());
    // No root is blocked: the blocked nodes minus the roots already hold every pending node and
    // all that depends on them.
    var t := blocked - d.Roots() - d.processed;
    forall k, p | k in d.parents && p in d.parents[k] && p in t ensures k in t {
      assert p !in d.processed;
    }
    DescendantsLeast(d.parents, d.Pending(), t);
    assert d.Roots() <= d.vertices.Keys - d.processed - blocked;

    var s := d.vertices.Keys - d.processed - blocked;
    if s != {} {
      assert HasSource(d.parents, s);
      var k :| k in s && k in d.parents && d.parents[k] !! s;
      assert d.parents[k] <= d.processed;
      assert k in d.Roots();
    }
  }
}

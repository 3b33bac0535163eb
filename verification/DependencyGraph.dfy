/** The dependency graph as the node stores it: two mutually inverse adjacency maps, a pending
    set, a root set kept up to date incrementally, and work-list traversals. Every method is
    proved to compute the corresponding operation on `Dag`. */
module DependencyGraphs {
  import opened Prelude
  import opened Dags

  class DependencyGraph<V> {
    var pending: set<nat>
    var vertices: map<nat, V>
    var parents: map<nat, set<nat>>
    var children: map<nat, set<nat>>
    var roots: set<nat>
    var processed: set<nat>

    ghost function Model(): Dag<V>
      reads this
    {
      Dag(parents, vertices, processed)
    }

    /** The redundant fields carry no information of their own. */
    ghost predicate Valid()
      reads this
    {
      var valid :=
        && Model().WellFormed()
        && pending == Model().Pending()
        && roots == Model().Roots()
        && Inverse(parents, children);
      valid
    }

    constructor ()
      ensures Valid()
      ensures Model() == Dag(map[], map[], {})
    {
      pending, vertices, parents, children, roots, processed := {}, map[], map[], map[], {}, {};
    }

    predicate Contains(key: nat)
      reads this
    {
      key in pending || key in vertices
    }

    /** The given keys that are not nodes, pending or not. */
    method Unknown(keys: set<nat>) returns (missing: set<nat>)
      requires pending == Model().Pending() && vertices.Keys <= parents.Keys
      ensures missing == keys - parents.Keys
      ensures missing == {} <==> keys <= parents.Keys
    {
      missing := set k | k in keys && !Contains(k);
      DifferenceEmpty(keys, parents.Keys);
    }

    method InsertPending(key: nat, ps: set<nat>) returns (r: Outcome<GraphError>)
      requires Valid()
      modifies this
      ensures Valid()
      ensures Model() == old(Model()).InsertPending(key, ps).Else(old(Model()))
      ensures r == old(Model()).InsertPending(key, ps).Report()
    {
      if Contains(key) {
        return Fail(DuplicateKey(key));
      }
      var missing := Unknown(ps);
      if missing != {} {
        return Fail(MissingParents(missing));
      }
      InsertKeepsWellFormed(Model(), key, ps);
      InsertKeepsIndices(Model(), key, ps);
      InverseInsert(parents, children, key, ps);
      hide Dag.WellFormed, Dag.Roots, Dag.Pending, Inverse;

      // The child map gets the reverse of the new edges.
      children := Linked(children, ps, key);
      pending := pending + {key};
      parents := parents[key := ps];
      children := children[key := {}];
      r := Pass;
    }

    /** Adds `x` to the entries of the given keys. */
    static method Linked(m: map<nat, set<nat>>, keys: set<nat>, x: nat)
        returns (r: map<nat, set<nat>>)
      requires keys <= m.Keys
      ensures r == Link(m, keys, x)
    {
      r := m;
      var todo := keys;
      while todo != {}
        invariant todo <= keys
        invariant r == Link(m, keys - todo, x)
        decreases todo
      {
        var k :| k in todo;
        r := r[k := r[k] + {x}];
        todo := todo - {k};
      }
    }

    /** Removes `x` from the entries of those keys that still have one. */
    static method Unlinked(m: map<nat, set<nat>>, keys: set<nat>, x: nat)
        returns (r: map<nat, set<nat>>)
      ensures r == Unlink(m, keys, x)
    {
      r := m;
      var todo := keys;
      while todo != {}
        invariant todo <= keys
        invariant r == Unlink(m, keys - todo, x)
        decreases todo
      {
        var k :| k in todo;
        if k in r {
          r := r[k := r[k] - {x}];
        }
        todo := todo - {k};
      }
    }

    method PromotePending(key: nat, value: V) returns (r: Outcome<GraphError>)
      requires Valid()
      modifies this
      ensures Valid()
      ensures Model() == old(Model()).PromotePending(key, value).Else(old(Model()))
      ensures r == old(Model()).PromotePending(key, value).Report()
    {
      if key !in pending {
        return Fail(InvalidPendingNode(key));
      }
      PromoteKeepsIndices(Model(), key, value);
      hide Dag.WellFormed, Dag.Roots, Inverse;
      pending := pending - {key};
      vertices := vertices[key := value];
      TryMakeRoot(key);
      r := Pass;
    }

    /** A node whose parents are all processed becomes a root. The two debug assertions
        of the node are preconditions: it exists and is not processed. */
    method TryMakeRoot(key: nat)
      requires key !in pending ==> key in vertices && key !in processed
      requires key in parents
      modifies `roots
      ensures roots == old(roots) +
        if key !in pending && parents[key] <= processed then {key} else {}
    {
      if key in pending {
        return;
      }
      if parents[key] <= processed {
        roots := roots + {key};
      }
    }

    /** Examines several nodes, one after the other. */
    method TryMakeRoots(keys: set<nat>)
      requires forall k :: k in keys && k !in pending ==> k in vertices && k !in processed
      requires keys <= parents.Keys
      modifies `roots
      ensures roots == old(roots) +
        set k | k in keys && k !in pending && parents[k] <= processed
    {
      var todo := keys;
      while todo != {}
        invariant todo <= keys
        invariant roots == old(roots) +
          set k | k in keys - todo && k !in pending && parents[k] <= processed
        decreases todo
      {
        var k :| k in todo;
        TryMakeRoot(k);
        todo := todo - {k};
      }
    }

    method ProcessRoot(key: nat) returns (r: Outcome<GraphError>)
      requires Valid()
      modifies this
      ensures Valid()
      ensures Model() == old(Model()).ProcessRoot(key).Else(old(Model()))
      ensures r == old(Model()).ProcessRoot(key).Report()
    {
      if key !in roots {
        return Fail(InvalidRootNode(key));
      }
      ProcessKeepsWellFormed(Model(), key);
      ProcessKeepsIndices(Model(), children, key);
      hide Dag.WellFormed, Dag.Roots, Inverse;
      roots := roots - {key};
      processed := processed + {key};
      TryMakeRoots(children[key]);
      r := Pass;
    }

    method RevertSubgraphs(keys: set<nat>) returns (r: Outcome<GraphError>)
      requires Valid()
      modifies this
      ensures Valid()
      ensures Model() == old(Model()).RevertSubgraphs(keys).Else(old(Model()))
      ensures r == old(Model()).RevertSubgraphs(keys).Report()
    {
      var missing := keys - vertices.Keys;
      DifferenceEmpty(keys, vertices.Keys);
      if missing != {} {
        return Fail(UnknownNodes(missing));
      }
      var unprocessed := keys - processed;
      DifferenceEmpty(keys, processed);
      if unprocessed != {} {
        return Fail(UnprocessedNodes(unprocessed));
      }
      Restore(keys);
      r := Pass;
    }

    method Restore(keys: set<nat>)
      requires Valid()
      requires keys <= processed && Model().RevertSubgraphs(keys).Ok?
      modifies this
      ensures Valid()
      ensures Model() == old(Model()).RevertSubgraphs(keys).value
    {
      ghost var before := Model();
      ghost var after := before.RevertSubgraphs(keys).value;
      RevertKeepsWellFormed(before, keys);
      RevertedCandidates(before, keys);
      Requeue(keys);
      assert Model() == after && Inverse(parents, children);
      hide Dag.WellFormed, Inverse, Descendants, Dag.RevertSubgraphs, Dag.Pending;

      // Only the given keys and the current roots can be roots now.
      var candidates := roots + keys;
      roots := {};
      TryMakeRoots(candidates);
    }

    /** The walk of `RevertSubgraphs`: unmarks the nodes and their promoted descendants. */
    method Requeue(keys: set<nat>)
      requires Valid()
      requires keys <= vertices.Keys
      modifies `processed
      ensures processed == old(processed) - Descendants(parents, keys)
    {
      ghost var before := Model();
      ghost var gone := Descendants(parents, keys);
      var reverted: set<nat> := {};
      var toRevert := keys;
      while toRevert != {}
        invariant processed == old(processed) - reverted
        invariant reverted !! toRevert
        invariant keys <= reverted + toRevert <= gone
        invariant toRevert <= vertices.Keys
        invariant forall k, p :: k in vertices && p in parents[k] && p in reverted ==>
          k in reverted + toRevert
        decreases vertices.Keys - reverted
      {
        var key := Min(toRevert);
        processed := processed - {key};
        // Children which are pending are left alone.
        var more := set c | c in children[key] - reverted && c in vertices;
        NoSelfLoop(before, key);
        toRevert := toRevert - {key} + more;
        reverted := reverted + {key};
      }
      RevertSkipsPending(before, keys, reverted);
    }

    method PruneProcessed(keys: set<nat>) returns (r: Result<seq<V>, GraphError>)
      requires Valid()
      modifies this
      ensures Valid()
      ensures Model() == old(Model()).PruneProcessed(keys).Else(old(Model()))
      ensures r == if old(Model()).PruneProcessed(keys).Ok?
                   then Ok(InKeyOrder(old(vertices), keys))
                   else Err(old(Model()).PruneProcessed(keys).error)
    {
      var missing := Unknown(keys);
      if missing != {} {
        return Err(UnknownNodes(missing));
      }
      var unprocessed := keys - processed;
      DifferenceEmpty(keys, processed);
      if unprocessed != {} {
        return Err(UnprocessedNodes(unprocessed));
      }
      // No parent may be left dangling.
      var dangling := Dag(parents, vertices, processed).ParentsOfAll(keys) - keys;
      DifferenceEmpty(Model().ParentsOfAll(keys), keys);
      if dangling != {} {
        return Err(DanglingNodes(dangling));
      }
      PruneKeepsWellFormed(Model(), keys);
      PruneKeepsIndices(Model(), keys);
      InversePrune(parents, children, keys);
      var pruned := Prune(keys);
      r := Ok(pruned);
    }

    method Prune(keys: set<nat>) returns (pruned: seq<V>)
      requires Inverse(parents, children)
      requires keys <= vertices.Keys && keys <= parents.Keys
      modifies `vertices, `processed, `parents, `children
      ensures vertices == old(vertices) - keys
      ensures processed == old(processed) - keys
      ensures parents == Shrunk(old(parents), keys)
      ensures children == old(children) - keys
      ensures pruned == InKeyOrder(old(vertices), keys)
    {
      ShrinkNone(parents);
      var todo := keys;
      ghost var done: set<nat> := {};
      pruned := [];
      while todo != {}
        invariant todo !! done && todo + done == keys
        invariant vertices == old(vertices) - done
        invariant processed == old(processed) - done
        invariant parents == Shrunk(old(parents), done)
        invariant children == old(children) - done
        invariant pruned + InKeyOrder(old(vertices), todo) == InKeyOrder(old(vertices), keys)
        decreases todo
      {
        var key := Min(todo);
        FirstInKeyOrder(old(vertices), todo, pruned);
        assert key in children;
        hide InKeyOrder;
        pruned := pruned + [vertices[key]];
        ShrinkOneMore(old(parents), done, key, children[key]);
        Forget(key);
        todo := todo - {key};
        done := done + {key};
      }
      assert done == keys;
    }

    method Forget(key: nat)
      requires key in children
      modifies `vertices, `processed, `parents, `children
      ensures vertices == old(vertices) - {key} && processed == old(processed) - {key}
      ensures children == old(children) - {key}
      ensures parents == Unlink(old(parents) - {key}, old(children)[key], key)
    {
      vertices := vertices - {key};
      processed := processed - {key};
      parents := parents - {key};
      var orphans := children[key];
      children := children - {key};
      parents := Unlinked(parents, orphans, key);
    }

    method PurgeSubgraphs(keys: set<nat>)
        returns (r: Result<set<nat>, GraphError>)
      requires Valid()
      modifies this
      ensures Valid()
      ensures Model() == old(Model()).PurgeSubgraphs(keys).Else(old(Model()))
      ensures r == if old(Model()).PurgeSubgraphs(keys).Ok?
                   then Ok(Descendants(old(parents), keys))
                   else Err(old(Model()).PurgeSubgraphs(keys).error)
    {
      var missing := Unknown(keys);
      if missing != {} {
        return Err(UnknownNodes(missing));
      }
      PurgeKeepsWellFormed(Model(), keys);
      PurgeKeepsIndices(Model(), keys);
      InversePurge(parents, children, Descendants(parents, keys));
      forall k | k in parents ensures k !in parents[k] {
        NoSelfLoop(Model(), k);
      }
      var removed := Purge(keys);
      r := Ok(removed);
    }

    method Purge(keys: set<nat>) returns (removed: set<nat>)
      requires Inverse(parents, children)
      requires forall k :: k in parents ==> parents[k] <= parents.Keys && k !in parents[k]
      requires keys <= parents.Keys
      modifies this
      ensures removed == Descendants(old(parents), keys)
      ensures vertices == old(vertices) - removed
      ensures pending == old(pending) - removed
      ensures processed == old(processed) - removed
      ensures roots == old(roots) - removed
      ensures parents == old(parents) - removed
      ensures children == Shrunk(old(children), removed)
    {
      ghost var gone := Descendants(parents, keys);
      ShrinkNone(children);
      var visited := keys;
      var toRemove := keys;
      removed := {};
      while toRemove != {}
        invariant removed !! toRemove
        invariant keys <= removed + toRemove <= gone
        invariant vertices == old(vertices) - removed
        invariant pending == old(pending) - removed
        invariant processed == old(processed) - removed
        invariant roots == old(roots) - removed
        invariant parents == old(parents) - removed
        invariant children == Shrunk(old(children), removed)
        invariant Explored(old(parents), removed, toRemove)
        decreases parents.Keys
      {
        var key := Min(toRemove);
        ShrinkOneMore(old(children), removed, key, parents[key]);
        var orphans := RemoveNode(key);
        // Children must also be purged, unless they were asked for in the first place.
        var unvisited := orphans - visited;
        ExploreOneMore(old(parents), old(children), keys, removed, toRemove, key, unvisited);
        toRemove := toRemove - {key} + unvisited;
        removed := removed + {key};
      }
      assert Closed(old(parents), removed);
      DescendantsLeast(old(parents), keys, removed);
    }

    /** Removes one node, returning its children. */
    method RemoveNode(key: nat) returns (orphans: set<nat>)
      requires key in parents && key in children
      modifies this
      ensures vertices == old(vertices) - {key}
      ensures pending == old(pending) - {key}
      ensures processed == old(processed) - {key}
      ensures roots == old(roots) - {key}
      ensures parents == old(parents) - {key}
      ensures children == Unlink(old(children) - {key}, old(parents)[key], key)
      ensures orphans == old(children)[key]
    {
      vertices := vertices - {key};
      pending := pending - {key};
      processed := processed - {key};
      roots := roots - {key};
      orphans := children[key];
      children := children - {key};

      // The reverse of its edges goes from the child map.
      var ps := parents[key];
      parents := parents - {key};
      children := Unlinked(children, ps, key);
    }
  }
}

/** The category tree closure of `src/repositories/category.repository.ts`. */
module Category {
  import opened Common

  datatype Node = Node(id: string, parentId: Option<string>)

  /** An empty parent id counts as none. */
  predicate HasParent(node: Node, p: string) {
    node.parentId == Some(p) && p != ""
  }

  // ---------- what the subtree of a category is

  /** The node's parent is in the set. */
  predicate HangsUnder(node: Node, ids: set<string>) {
    node.parentId.Some? && node.parentId.value != "" && node.parentId.value in ids
  }

  /** The set holds the root and, with a category, every node that names it as its parent. */
  ghost predicate Closed(all: seq<Node>, root: string, ids: set<string>) {
    root in ids && forall i :: 0 <= i < |all| && HangsUnder(all[i], ids) ==> all[i].id in ids
  }

  /** `path` leads from the root to `id`, each id being that of a node whose parent is the id before. */
  ghost predicate IsPath(all: seq<Node>, root: string, id: string, path: seq<string>) {
    && path != [] && path[0] == root && path[|path| - 1] == id
    && forall k :: 0 < k < |path| ==> IsChild(all, path[k - 1], path[k])
  }

  ghost predicate IsChild(all: seq<Node>, parent: string, id: string) {
    exists i :: 0 <= i < |all| && all[i].id == id && HasParent(all[i], parent)
  }

  ghost predicate Reachable(all: seq<Node>, root: string, id: string) {
    exists path :: IsPath(all, root, id, path)
  }

  lemma RootIsReachable(all: seq<Node>, root: string)
    ensures Reachable(all, root, root)
  {
    assert IsPath(all, root, root, [root]);
  }

  lemma ChildIsReachable(all: seq<Node>, root: string, parent: string, id: string)
    requires Reachable(all, root, parent) && IsChild(all, parent, id)
    ensures Reachable(all, root, id)
  {
    var path :| IsPath(all, root, parent, path);
    assert IsPath(all, root, id, path + [id]);
  }

  /** A closed set holds everything reachable: paths, cyclic ones included, cannot leave it. */
  lemma {:induction false} ClosedHoldsPath(
    all: seq<Node>, root: string, id: string, path: seq<string>, ids: set<string>)
    requires Closed(all, root, ids) && IsPath(all, root, id, path)
    ensures id in ids
    decreases |path|
  {
    if |path| > 1 {
      var parent := path[|path| - 2];
      assert IsChild(all, path[|path| - 2], path[|path| - 1]);
      assert IsPath(all, root, parent, path[..|path| - 1]);
      ClosedHoldsPath(all, root, parent, path[..|path| - 1], ids);
    }
  }

  /**
   A closed set of reachable ids is exactly the set of reachable ids, and it is included in every
   closed set. This is why the loop may stop when a pass adds nothing.
   */
  lemma ClosedAndReachableIsLeast(all: seq<Node>, root: string, ids: set<string>)
    requires Closed(all, root, ids)
    requires forall id :: id in ids ==> Reachable(all, root, id)
    ensures forall id :: id in ids <==> Reachable(all, root, id)
    ensures forall other :: Closed(all, root, other) ==> ids <= other
  {
    forall id, other | Reachable(all, root, id) && Closed(all, root, other) ensures id in other {
      var path :| IsPath(all, root, id, path);
      ClosedHoldsPath(all, root, id, path, other);
    }
    assert forall id :: Reachable(all, root, id) ==> id in ids;
  }

  // ---------- the loop

  /**
   Passes over the nodes until one adds nothing. `ids` lists the set in the order of insertion. It
   ends on every node list, cyclic parents included, with exactly the ids reachable from the root.
   */
  method ResolveTreeIds(rootId: string, all: seq<Node>) returns (ids: seq<string>)
    ensures NoDuplicates(ids)
    ensures |ids| > 0 && ids[0] == rootId
    ensures forall id :: id in ids <==> Reachable(all, rootId, id)
    ensures Closed(all, rootId, Elements(ids))
    ensures forall other :: Closed(all, rootId, other) ==> Elements(ids) <= other
  {
    ids := [rootId];
    ghost var nodeIds := set node | node in all :: node.id;
    var added := true;
    RootIsReachable(all, rootId);
    while added
      invariant NoDuplicates(ids) && |ids| > 0 && ids[0] == rootId
      invariant forall id :: id in ids ==> Reachable(all, rootId, id)
      invariant !added ==> Closed(all, rootId, Elements(ids))
      decreases nodeIds - Elements(ids), added
    {
      added := false;
      ghost var before := Elements(ids);
      for k := 0 to |all|
        invariant NoDuplicates(ids) && |ids| > 0 && ids[0] == rootId
        invariant forall id :: id in ids ==> Reachable(all, rootId, id)
        invariant before <= Elements(ids)
        invariant if added then nodeIds - Elements(ids) < nodeIds - before else Elements(ids) == before
        invariant !added ==> forall i :: 0 <= i < k && HangsUnder(all[i], before) ==> all[i].id in before
      {
        var node := all[k];
        if HangsUnder(node, Elements(ids)) && node.id !in ids {
          assert HasParent(node, node.parentId.value) && IsChild(all, node.parentId.value, node.id);
          ChildIsReachable(all, rootId, node.parentId.value, node.id);
          ghost var was := Elements(ids);
          ids := ids + [node.id];
          assert Elements(ids) == was + {node.id};
          assert node.id in nodeIds - was && node.id !in nodeIds - Elements(ids);
          added := true;
        }
      }
    }
    ClosedAndReachableIsLeast(all, rootId, Elements(ids));
  }
}

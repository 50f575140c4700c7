/** The tree-sitter cursor the operators walk with. A cursor made with
    `node.walk()` starts on that node and never moves above it: at the start
    node `goto_next_sibling` and `goto_parent` both fail. The cursor's state is
    the path of child indices from the start node (innermost step first); the
    ghost fields give the walk's view of it. */
module Cursors {
  import opened Syntax

  class TreeCursor {
    const root: Node
    var path: Path

    /** The current node with its distance below the start node. */
    ghost var here: Item
    /** The subtrees, nearest first, that follow the current subtree in preorder. */
    ghost var pending: seq<Item>
    /** The nodes that precede the current node in preorder. */
    ghost var done: seq<Item>
    /** The current node has no next sibling below the start node. */
    ghost var atLast: bool

    ghost predicate Valid()
      reads this
    {
      && ValidPath(root, path)
      && here == Item(Sub(root, path), |path|)
      && pending == After(root, path)
      && done == Before(root, path)
      && |done| < |Preorder(root, 0)|
      && atLast == (path == [] || path[0] + 1 >= |Sub(root, path[1..]).children|)
    }

    /** `node.walk()` */
    constructor (n: Node)
      ensures Valid()
      ensures root == n && path == [] && here == Item(n, 0) && pending == [] && done == []
    {
      root := n;
      path := [];
      here := Item(n, 0);
      pending := [];
      done := [];
      atLast := true;
    }

    /** `cursor.node()` */
    method Node() returns (n: Node)
      requires Valid()
      ensures n == here.node
    {
      n := Sub(root, path);
    }

    /** Re-establishes the ghost fields after a move. */
    ghost method Sync()
      requires ValidPath(root, path)
      modifies this
      ensures Valid() && path == old(path)
    {
      WholeSplit(root, path);
      here := Item(Sub(root, path), |path|);
      pending := After(root, path);
      done := Before(root, path);
      atLast := path == [] || path[0] + 1 >= |Sub(root, path[1..]).children|;
    }

    method GotoFirstChild() returns (moved: bool)
      requires Valid()
      modifies this
      ensures Valid()
      ensures moved <==> old(here).node.children != []
      ensures moved ==> |path| == |old(path)| + 1
      ensures moved ==> [here] + pending == Items(old(here).node.children, old(here).depth + 1) + old(pending)
      ensures moved ==> done == old(done) + [old(here)]
      ensures !moved ==> path == old(path) && here == old(here) && pending == old(pending)
                         && done == old(done) && atLast == old(atLast)
    {
      var cur := Sub(root, path);
      if cur.children == [] {
        return false;
      }
      path := [0] + path;
      assert path[1..] == old(path);
      assert cur.children[..0] == [];
      Sync();
      return true;
    }

    method GotoNextSibling() returns (moved: bool)
      requires Valid()
      modifies this
      ensures Valid()
      ensures moved <==> !old(atLast)
      ensures moved ==> |path| == |old(path)| && [here] + pending == old(pending)
      ensures moved ==> done == old(done) + Preorder(old(here).node, old(here).depth)
      ensures !moved ==> path == old(path) && here == old(here) && pending == old(pending)
                         && done == old(done) && atLast == old(atLast)
    {
      if path == [] {
        return false;
      }
      var i, q := path[0], path[1..];
      var siblings := Sub(root, q).children;
      if i + 1 >= |siblings| {
        return false;
      }
      path := [i + 1] + q;
      assert path[1..] == q;
      ItemsFrom(siblings, i + 1, |path|);
      PreorderForestSnoc(siblings, i, |path|);
      Sync();
      return true;
    }

    method GotoParent() returns (moved: bool)
      requires Valid()
      modifies this
      ensures Valid()
      ensures moved <==> old(path) != []
      ensures moved ==> path == old(path)[1..]
      ensures moved && old(atLast) ==> pending == old(pending)
      ensures moved && old(atLast) ==> done + Preorder(here.node, here.depth) == old(done) + Preorder(old(here).node, old(here).depth)
      ensures !moved ==> path == old(path) && here == old(here) && pending == old(pending)
                         && done == old(done) && atLast == old(atLast)
    {
      if path == [] {
        return false;
      }
      var i, q := path[0], path[1..];
      ghost var parent := Sub(root, q);
      if i + 1 >= |parent.children| {
        ghost var ch, d := parent.children, |path|;
        assert ch[i + 1..] == [];
        assert ch[..i + 1] == ch;
        PreorderForestSnoc(ch, i, d);
        ParentAlgebra(Before(root, q), [Item(parent, |q|)], PreorderForest(ch[..i], d), Preorder(ch[i], d),
                      Preorder(parent, |q|), done, Preorder(here.node, here.depth));
      }
      path := q;
      Sync();
      return true;
    }

    /** The idiom every operator repeats after a node without children:
        `while !goto_next_sibling() { if !goto_parent() { <walk ends> } }`.
        It moves to the next node in preorder that is not below the current
        one, and fails, at the start node, when there is none. */
    method Climb() returns (found: bool)
      requires Valid()
      modifies this
      ensures Valid()
      ensures found ==> [here] + pending == old(pending)
      ensures found ==> done == old(done) + Preorder(old(here).node, old(here).depth)
      ensures !found ==> old(pending) == [] && path == []
      ensures !found ==> old(done) + Preorder(old(here).node, old(here).depth) == Preorder(root, 0)
    {
      ghost var end := done + Preorder(here.node, here.depth);
      var across := GotoNextSibling();
      while !across
        invariant Valid()
        invariant across ==> [here] + pending == old(pending) && done == end
        invariant !across ==> pending == old(pending) && atLast && done + Preorder(here.node, here.depth) == end
        decreases |path|
      {
        var up := GotoParent();
        if !up {
          return false;
        }
        across := GotoNextSibling();
      }
      return true;
    }

    /** The step that ends the body of every walk:
        `if goto_first_child() { continue }` followed by `Climb`. It moves to
        the next node in preorder, and fails when the walk is complete. */
    method Advance() returns (more: bool)
      requires Valid()
      modifies this
      ensures Valid()
      ensures more ==> [here] + pending == Items(old(here).node.children, old(here).depth + 1) + old(pending)
      ensures more ==> done == old(done) + [old(here)]
      ensures !more ==> old(here).node.children == [] && old(pending) == []
      ensures !more ==> old(done) + [old(here)] == Preorder(root, 0)
    {
      more := GotoFirstChild();
      if more {
        return;
      }
      PreorderLeaf(here);
      assert Items(here.node.children, here.depth + 1) == [];
      more := Climb();
    }
  }

  /** The bookkeeping step of `GotoParent`, over plain sequences: the
      parent's subtree ends where its last child's subtree ends. */
  lemma ParentAlgebra(b: seq<Item>, x: seq<Item>, early: seq<Item>, last: seq<Item>,
                      parent: seq<Item>, child: seq<Item>, sub: seq<Item>)
    requires parent == x + (early + last) && child == b + x + early && sub == last
    ensures b + parent == child + sub
  {
  }
}

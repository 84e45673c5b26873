/**
 * The scene-node tree of `tree/src/tree.rs`: nodes with a process-wide unique
 * id, simple geometry, a background colour and an ordered list of owned
 * children, and a tree holding at most one root.
 *
 * The hidden `static mut MAX_ID` counter is an explicit `IdAllocator` object
 * that every node constructor is handed.  A node owns its children: the ghost
 * footprint `Repr` of a node holds the node and everything below it, and the
 * footprints of two siblings never overlap.
 */
module SceneTree {
  import opened Wrappers

  /** Rust's `i32`, the type of the geometry fields and their setters. */
  newtype i32 = x: int | -0x8000_0000 <= x < 0x8000_0000

  /** An 8-bit colour channel. */
  newtype u8 = x: int | 0 <= x < 256

  /** The colour built by `Color::from_argb(a, r, g, b)`. */
  datatype Color = Color(a: u8, r: u8, g: u8, b: u8)

  /** Every fresh node gets this background colour: ARGB (100, 0, 0, 0). */
  const DefaultBackground: Color := Color(100, 0, 0, 0)

  /**
   * The `MAX_ID` counter. It starts at 0 and only grows; `issued` records, as
   * ghost state, every id handed out so far.
   */
  class IdAllocator {
    var maxId: nat
    ghost var issued: seq<nat>

    /** The ids issued are exactly 1, 2, ..., maxId, in that order. */
    ghost predicate Valid()
      reads this
    {
      |issued| == maxId && forall k :: 0 <= k < |issued| ==> issued[k] == k + 1
    }

    constructor ()
      ensures Valid() && maxId == 0 && issued == []
    {
      maxId := 0;
      issued := [];
    }

    /** No id is issued twice by one counter. */
    lemma IssuedDistinct()
      requires Valid()
      ensures forall i, j :: 0 <= i < j < |issued| ==> issued[i] < issued[j]
    {
    }

    /** `MAX_ID += 1; MAX_ID`: the new id is larger than every id issued before. */
    method Next() returns (id: nat)
      requires Valid()
      modifies this
      ensures Valid()
      ensures id == old(maxId) + 1 && maxId == id
      ensures issued == old(issued) + [id]
      ensures forall k :: 0 <= k < |old(issued)| ==> old(issued)[k] < id
    {
      maxId := maxId + 1;
      id := maxId;
      issued := issued + [id];
    }
  }

  class Node {
    const id: nat
    var x: i32
    var y: i32
    var width: i32
    var height: i32
    var backgroundColor: Color
    var children: seq<Node>
    ghost var Repr: set<Node>

    /**
     * Ownership: every child lies inside this node's footprint, not around it,
     * is itself valid, and the footprints of two siblings are disjoint. The
     * invariant reads only the `children` and `Repr` fields, so changing the
     * geometry or the colour of any node keeps every ancestor valid.
     */
    ghost predicate Valid()
      reads this`Repr, this`children, Repr`Repr, Repr`children
      decreases Repr, 1
    {
      this in Repr && ValidChildren(children)
    }

    /**
     * `cs` would be a valid child list of this node. It does not read this
     * node's own `children` field, so it survives the assignment of a new list.
     */
    ghost predicate ValidChildren(cs: seq<Node>)
      reads this`Repr, Repr`Repr, (Repr - {this})`children
      decreases Repr, 0
    {
      && this in Repr
      && (forall i :: 0 <= i < |cs| ==>
            && cs[i] in Repr
            && cs[i] != this
            && cs[i].Repr <= Repr
            && this !in cs[i].Repr
            && cs[i].Valid())
      && SiblingsDisjoint(cs)
    }

    /**
     * All nodes strictly below this one in pre-order: each child, then the
     * child's own descendants, then the next sibling. This node is not part
     * of it.
     */
    ghost function Descendants(): seq<Node>
      requires Valid()
      reads this`Repr, this`children, Repr`Repr, Repr`children
      decreases Repr, 1
    {
      DescendantsFrom(0)
    }

    /** The pre-order flattening of the subtrees of `children[i..]`. */
    ghost function DescendantsFrom(i: nat): seq<Node>
      requires Valid() && i <= |children|
      reads this`Repr, this`children, Repr`Repr, Repr`children
      decreases Repr, 0, |children| - i
    {
      if i == |children| then []
      else
        ChildSmaller(i);
        [children[i]] + children[i].Descendants() + DescendantsFrom(i + 1)
    }

    /** `Node::new`: takes the next id; zero geometry, no children, the default colour. */
    constructor (alloc: IdAllocator)
      requires alloc.Valid()
      modifies alloc
      ensures alloc.Valid() && alloc.maxId == old(alloc.maxId) + 1
      ensures alloc.issued == old(alloc.issued) + [id]
      ensures id == alloc.maxId
      ensures x == 0 && y == 0 && width == 0 && height == 0
      ensures backgroundColor == DefaultBackground
      ensures children == []
      ensures Valid() && Repr == {this}
    {
      var newId := alloc.Next();
      id := newId;
      x, y, width, height := 0, 0, 0, 0;
      backgroundColor := DefaultBackground;
      children := [];
      Repr := {this};
    }

    /** `append`: the node moves in as the last child (Rust boxes it first). */
    method Append(node: Node)
      requires Valid() && node.Valid() && node.Repr !! Repr
      modifies this`children, this`Repr
      ensures Valid()
      ensures children == old(children) + [node]
      ensures Repr == old(Repr) + node.Repr
      ensures x == old(x) && y == old(y) && width == old(width) && height == old(height)
      ensures backgroundColor == old(backgroundColor)
    {
      AppendBoxed(node);
    }

    /** `append_boxed`: pushes an already boxed node onto the child list. */
    method AppendBoxed(boxedNode: Node)
      requires Valid() && boxedNode.Valid() && boxedNode.Repr !! Repr
      modifies this`children, this`Repr
      ensures Valid()
      ensures children == old(children) + [boxedNode]
      ensures Repr == old(Repr) + boxedNode.Repr
      ensures x == old(x) && y == old(y) && width == old(width) && height == old(height)
      ensures backgroundColor == old(backgroundColor)
    {
      children := children + [boxedNode];
      Repr := Repr + boxedNode.Repr;
      assert forall i :: 0 <= i < |old(children)| ==> children[i] == old(children)[i];
      assert forall i :: 0 <= i < |old(children)| ==> children[i].Repr <= old(Repr);
    }

    /**
     * Whether `path`, read as child indices from this node downwards, leads
     * to a node: the chain of `get_child_by_index` calls it stands for does
     * not panic.
     */
    ghost predicate PathOk(path: seq<nat>)
      requires Valid()
      reads this`Repr, this`children, Repr`Repr, Repr`children
      decreases Repr
    {
      path == [] ||
      (path[0] < |children| && (ChildSmaller(path[0]); children[path[0]].PathOk(path[1..])))
    }

    /** The node that `path` leads to. */
    ghost function NodeAt(path: seq<nat>): Node
      requires Valid() && PathOk(path)
      reads this`Repr, this`children, Repr`Repr, Repr`children
      decreases Repr
    {
      if path == [] then this
      else
        ChildSmaller(path[0]);
        children[path[0]].NodeAt(path[1..])
    }

    /**
     * `get_child_by_index` down `path`, then `append` on the node reached: the
     * node becomes that node's last child, no other child list changes, and
     * every node on the way takes the appended subtree into its footprint, so
     * the whole tree stays valid and the new node is one of its descendants.
     */
    method AppendAt(path: seq<nat>, node: Node)
      requires Valid() && PathOk(path) && node.Valid() && node.Repr !! Repr
      modifies Repr`children, Repr`Repr
      ensures Valid() && PathOk(path)
      ensures NodeAt(path) == old(NodeAt(path))
      ensures NodeAt(path).children == old(NodeAt(path).children) + [node]
      ensures forall o :: o in old(Repr) && o != old(NodeAt(path)) ==> o.children == old(o.children)
      ensures Repr == old(Repr) + node.Repr
      ensures node in Descendants()
      decreases Repr
    {
      if path == [] {
        AppendBoxed(node);
        ChildIsDescendant(|children| - 1);
      } else {
        var k := path[0];
        var child := children[k];
        ChildSmaller(k);
        assert ValidChildren(children);
        forall i | 0 <= i < |children| && i != k
          ensures children[i] in children[i].Repr && children[i].Repr !! child.Repr
        {
          assert children[i].Valid();
        }
        label Before:
        child.AppendAt(path[1..], node);
        Repr := Repr + node.Repr;
        forall i | 0 <= i < |children| && i != k
          ensures children[i].Repr == old@Before(children[i].Repr) && children[i].Valid()
        {
        }
        assert ValidChildren(children);
        DescendantOfChild(k, node);
      }
    }

    /**
     * `append` on a node anywhere in the tree, then `find_node_by_id` from
     * the root: the appended node's id is found.
     */
    method AppendAtThenFind(path: seq<nat>, node: Node) returns (found: Option<Node>)
      requires Valid() && PathOk(path) && node.Valid() && node.Repr !! Repr
      modifies Repr`children, Repr`Repr
      ensures Valid()
      ensures found.Some? && found.value.id == node.id
    {
      AppendAt(path, node);
      found := FindNodeById(node.id);
      DescendantIsFound(node);
    }

    /**
     * `remove_by_id`: `retain` keeps the direct children whose id differs,
     * in their order; deeper descendants are not looked at.
     */
    method RemoveById(nodeId: nat)
      requires Valid()
      modifies this`children
      ensures Valid()
      ensures children == WithoutId(old(children), nodeId)
    {
      var cs := children;
      var kept: seq<Node> := [];
      var i := 0;
      while i < |cs|
        invariant i <= |cs|
        invariant kept == WithoutId(cs[..i], nodeId)
      {
        assert cs[..i + 1] == cs[..i] + [cs[i]];
        WithoutIdConcat(cs[..i], [cs[i]], nodeId);
        if cs[i].id != nodeId {
          kept := kept + [cs[i]];
        }
        i := i + 1;
      }
      assert cs[..i] == cs;
      ValidChildrenWithoutId(cs, nodeId);
      children := kept;
    }

    /** Dropping children keeps a valid child list valid. */
    lemma ValidChildrenWithoutId(cs: seq<Node>, nodeId: nat)
      requires ValidChildren(cs)
      ensures ValidChildren(WithoutId(cs, nodeId))
    {
      var kept := WithoutId(cs, nodeId);
      WithoutIdDisjoint(cs, nodeId);
      forall k | 0 <= k < |kept| ensures exists m :: 0 <= m < |cs| && cs[m] == kept[k] {
        assert kept[k] in cs;
      }
    }

    /** `get_children_len`. */
    method GetChildrenLen() returns (len: nat)
      ensures len == |children|
    {
      len := |children|;
    }

    /** `get_child_by_index`: indexing past the end panics, so it is the caller's obligation. */
    method GetChildByIndex(index: nat) returns (r: Option<Node>)
      requires index < |children|
      ensures r == Some(children[index])
    {
      r := Some(children[index]);
    }

    method GetBackgroundColor() returns (c: Color)
      ensures c == backgroundColor
    {
      c := backgroundColor;
    }

    method SetBackgroundColor(color: Color)
      modifies this`backgroundColor
      ensures backgroundColor == color
    {
      backgroundColor := color;
    }

    method SetWidth(width: i32)
      modifies this`width
      ensures this.width == width
    {
      this.width := width;
    }

    method SetHeight(height: i32)
      modifies this`height
      ensures this.height == height
    {
      this.height := height;
    }

    method GetWidth() returns (w: i32)
      ensures w == width
    {
      w := width;
    }

    method GetHeight() returns (h: i32)
      ensures h == height
    {
      h := height;
    }

    /**
     * `find_node_by_id`: the first node in pre-order among the descendants
     * that carries the id. The node itself is never compared.
     */
    method FindNodeById(nodeId: nat) returns (r: Option<Node>)
      requires Valid()
      ensures r == FirstWithId(Descendants(), nodeId)
      ensures r.Some? ==> r.value.id == nodeId && r.value in Descendants() && r.value != this
      ensures r.None? <==> forall k :: 0 <= k < |Descendants()| ==> Descendants()[k].id != nodeId
    {
      r := RecursiveFindChildNodeById(this, nodeId);
      DescendantsInRepr();
      FirstWithIdSpec(Descendants(), nodeId);
    }

    /**
     * `recursive_find_child_node_by_id`: for each child in order, compare the
     * child, then search the child's subtree; return at the first hit.
     */
    static method RecursiveFindChildNodeById(parent: Node, childNodeId: nat) returns (r: Option<Node>)
      requires parent.Valid()
      ensures r == FirstWithId(parent.Descendants(), childNodeId)
      decreases parent.Repr
    {
      if |parent.children| == 0 {
        return None;
      }
      ghost var goal := FirstWithId(parent.Descendants(), childNodeId);
      var n := |parent.children|;
      var i := 0;
      while i < n
        invariant i <= n
        invariant goal == FirstWithId(parent.DescendantsFrom(i), childNodeId)
      {
        var child := parent.children[i];
        parent.ChildSmaller(i);
        if child.id == childNodeId {
          parent.FirstWithIdFrom(i, childNodeId);
          return Some(child);
        }
        var found := RecursiveFindChildNodeById(child, childNodeId);
        parent.FirstWithIdFrom(i, childNodeId);
        if found.Some? {
          return found;
        }
        i := i + 1;
      }
      return None;
    }

    /** A child is valid and its footprint is strictly smaller: the search terminates. */
    lemma ChildSmaller(i: nat)
      requires Valid() && i < |children|
      ensures children[i].Valid() && children[i].Repr < Repr
    {
      assert ValidChildren(children);
    }

    /**
     * One step of the search: at child `i`, the first match is the child, or
     * else the first match in its subtree, or else one among the later siblings.
     */
    lemma FirstWithIdFrom(i: nat, nodeId: nat)
      requires Valid() && i < |children| && children[i].Valid()
      ensures FirstWithId(DescendantsFrom(i), nodeId) ==
        if children[i].id == nodeId then Some(children[i])
        else if FirstWithId(children[i].Descendants(), nodeId).Some? then FirstWithId(children[i].Descendants(), nodeId)
        else FirstWithId(DescendantsFrom(i + 1), nodeId)
    {
      var below := children[i].Descendants();
      var rest := DescendantsFrom(i + 1);
      assert DescendantsFrom(i) == [children[i]] + (below + rest);
      FirstWithIdStep(children[i], below, rest, nodeId);
    }

    /** No node is its own descendant, and every descendant lies in the footprint. */
    lemma {:induction false} DescendantsInRepr()
      requires Valid()
      ensures forall d :: d in Descendants() ==> d in Repr && d != this
      decreases Repr, 1
    {
      DescendantsFromInRepr(0);
    }

    lemma {:induction false} DescendantsFromInRepr(i: nat)
      requires Valid() && i <= |children|
      ensures forall d :: d in DescendantsFrom(i) ==> d in Repr && d != this
      decreases Repr, 0, |children| - i
    {
      if i < |children| {
        children[i].DescendantsInRepr();
        DescendantsFromInRepr(i + 1);
      }
    }

    /** Every direct child is among the descendants, so a search finds it. */
    lemma {:induction false} ChildIsDescendant(k: nat)
      requires Valid() && k < |children|
      ensures children[k] in Descendants()
    {
      ChildIsDescendantFrom(0, k);
    }

    lemma {:induction false} ChildIsDescendantFrom(i: nat, k: nat)
      requires Valid() && i <= k < |children|
      ensures children[k] in DescendantsFrom(i)
      decreases k - i
    {
      if i < k {
        ChildIsDescendantFrom(i + 1, k);
      }
    }

    /** Every descendant of a child is a descendant. */
    lemma DescendantOfChild(k: nat, d: Node)
      requires Valid() && k < |children| && children[k].Valid() && d in children[k].Descendants()
      ensures d in Descendants()
    {
      DescendantOfChildFrom(0, k, d);
    }

    lemma {:induction false} DescendantOfChildFrom(i: nat, k: nat, d: Node)
      requires Valid() && i <= k < |children| && children[k].Valid() && d in children[k].Descendants()
      ensures d in DescendantsFrom(i)
      decreases k - i
    {
      if i < k {
        DescendantOfChildFrom(i + 1, k, d);
      }
    }

    /**
     * Searching for the id of any descendant succeeds with a node of that id:
     * after `AppendAt` from the root, the appended node is found from the root.
     */
    lemma DescendantIsFound(d: Node)
      requires Valid() && d in Descendants()
      ensures FirstWithId(Descendants(), d.id).Some?
      ensures FirstWithId(Descendants(), d.id).value.id == d.id
    {
      FirstWithIdSpec(Descendants(), d.id);
      var j :| 0 <= j < |Descendants()| && Descendants()[j] == d;
      assert Descendants()[j].id == d.id;
    }

    /**
     * Searching for the id of a direct child always succeeds with a node of
     * that id; in particular right after `append` of that child.
     */
    lemma FindDirectChild(k: nat)
      requires Valid() && k < |children|
      ensures FirstWithId(Descendants(), children[k].id).Some?
      ensures FirstWithId(Descendants(), children[k].id).value.id == children[k].id
    {
      ChildIsDescendant(k);
      FirstWithIdSpec(Descendants(), children[k].id);
      var j :| 0 <= j < |Descendants()| && Descendants()[j] == children[k];
      assert Descendants()[j].id == children[k].id;
    }
  }

  /** The footprints of distinct positions of a child list do not overlap. */
  ghost predicate SiblingsDisjoint(cs: seq<Node>)
    reads cs`Repr
  {
    forall i, j :: 0 <= i < j < |cs| ==> cs[i].Repr !! cs[j].Repr
  }

  /** The child list `retain` leaves: the nodes whose id differs, in order. */
  function WithoutId(cs: seq<Node>, nodeId: nat): (r: seq<Node>)
    ensures forall k :: 0 <= k < |r| ==> r[k] in cs && r[k].id != nodeId
    ensures forall k :: 0 <= k < |cs| && cs[k].id != nodeId ==> cs[k] in r
    ensures |r| <= |cs|
  {
    if cs == [] then []
    else if cs[0].id == nodeId then WithoutId(cs[1..], nodeId)
    else [cs[0]] + WithoutId(cs[1..], nodeId)
  }

  /** Filtering distributes over concatenation: the survivors keep their order. */
  lemma {:induction false} WithoutIdConcat(a: seq<Node>, b: seq<Node>, nodeId: nat)
    ensures WithoutId(a + b, nodeId) == WithoutId(a, nodeId) + WithoutId(b, nodeId)
  {
    if a == [] {
      assert a + b == b;
    } else {
      assert (a + b)[0] == a[0] && (a + b)[1..] == a[1..] + b;
      WithoutIdConcat(a[1..], b, nodeId);
      if a[0].id != nodeId {
        assert WithoutId(a + b, nodeId) == [a[0]] + WithoutId(a[1..] + b, nodeId);
      }
    }
  }

  /** Removing an id that no child carries changes nothing. */
  lemma {:induction false} WithoutIdAbsent(cs: seq<Node>, nodeId: nat)
    requires forall k :: 0 <= k < |cs| ==> cs[k].id != nodeId
    ensures WithoutId(cs, nodeId) == cs
  {
    if cs != [] {
      WithoutIdAbsent(cs[1..], nodeId);
    }
  }

  /** A second `remove_by_id` with the same id is a no-op. */
  lemma WithoutIdIdempotent(cs: seq<Node>, nodeId: nat)
    ensures WithoutId(WithoutId(cs, nodeId), nodeId) == WithoutId(cs, nodeId)
  {
    var r := WithoutId(cs, nodeId);
    forall k | 0 <= k < |r| ensures r[k].id != nodeId {
      assert r[k] in r;
    }
    WithoutIdAbsent(r, nodeId);
  }

  /** Exactly the children carrying the id disappear: the length drops by their number. */
  lemma {:induction false} WithoutIdLength(cs: seq<Node>, nodeId: nat)
    ensures |WithoutId(cs, nodeId)| == |cs| - CountId(cs, nodeId)
  {
    if cs != [] {
      WithoutIdLength(cs[1..], nodeId);
    }
  }

  /**
   * The converse of `WithoutIdAbsent`: `remove_by_id` leaves the list as it
   * was only when no child carries the id.
   */
  lemma WithoutIdUnchanged(cs: seq<Node>, nodeId: nat)
    requires WithoutId(cs, nodeId) == cs
    ensures forall k :: 0 <= k < |cs| ==> cs[k].id != nodeId
  {
    WithoutIdLength(cs, nodeId);
  }

  /** How many nodes of the list carry the id. */
  function CountId(cs: seq<Node>, nodeId: nat): (c: nat)
    ensures c <= |cs|
    ensures c == 0 <==> forall k :: 0 <= k < |cs| ==> cs[k].id != nodeId
  {
    if cs == [] then 0
    else (if cs[0].id == nodeId then 1 else 0) + CountId(cs[1..], nodeId)
  }

  /** Filtering keeps the siblings' footprints disjoint: ownership survives `retain`. */
  lemma {:induction false} WithoutIdDisjoint(cs: seq<Node>, nodeId: nat)
    requires SiblingsDisjoint(cs)
    ensures SiblingsDisjoint(WithoutId(cs, nodeId))
  {
    if cs != [] {
      var t := cs[1..];
      assert SiblingsDisjoint(t) by {
        forall i, j | 0 <= i < j < |t| ensures t[i].Repr !! t[j].Repr {
          assert t[i] == cs[i + 1] && t[j] == cs[j + 1];
        }
      }
      WithoutIdDisjoint(t, nodeId);
      if cs[0].id != nodeId {
        var rt := WithoutId(t, nodeId);
        var r := [cs[0]] + rt;
        forall i, j | 0 <= i < j < |r| ensures r[i].Repr !! r[j].Repr {
          if i == 0 {
            assert r[j] == rt[j - 1] && rt[j - 1] in t;
            var m :| 0 <= m < |t| && t[m] == rt[j - 1];
            assert cs[m + 1] == t[m];
          } else {
            assert r[i] == rt[i - 1] && r[j] == rt[j - 1];
          }
        }
      }
    }
  }

  /** The first node of the list that carries the id, if any. */
  function FirstWithId(s: seq<Node>, nodeId: nat): Option<Node>
  {
    if s == [] then None
    else if s[0].id == nodeId then Some(s[0])
    else FirstWithId(s[1..], nodeId)
  }

  /**
   * What the search returns: nothing exactly when no node of the list
   * carries the id, and otherwise the earliest node that does.
   */
  lemma {:induction false} FirstWithIdSpec(s: seq<Node>, nodeId: nat)
    ensures FirstWithId(s, nodeId).None? <==> forall k :: 0 <= k < |s| ==> s[k].id != nodeId
    ensures FirstWithId(s, nodeId).Some? ==>
      exists k :: 0 <= k < |s| && s[k] == FirstWithId(s, nodeId).value && s[k].id == nodeId &&
        forall j :: 0 <= j < k ==> s[j].id != nodeId
  {
    if s != [] && s[0].id != nodeId {
      FirstWithIdSpec(s[1..], nodeId);
      if FirstWithId(s, nodeId).Some? {
        var k :| 0 <= k < |s| - 1 && s[1..][k] == FirstWithId(s, nodeId).value && s[1..][k].id == nodeId &&
          forall j :: 0 <= j < k ==> s[1..][j].id != nodeId;
        assert s[k + 1] == s[1..][k];
        assert forall j :: 1 <= j < k + 1 ==> s[j] == s[1..][j - 1];
      }
    }
  }

  /** The first match in `[c] + s` is `c` itself if it carries the id, else the first in `s`. */
  lemma FirstWithIdCons(c: Node, s: seq<Node>, nodeId: nat)
    ensures FirstWithId([c] + s, nodeId) == if c.id == nodeId then Some(c) else FirstWithId(s, nodeId)
  {
    assert ([c] + s)[0] == c && ([c] + s)[1..] == s;
  }

  /** The first match in `a + b` is the first in `a`, or else the first in `b`. */
  lemma {:induction false} FirstWithIdConcat(a: seq<Node>, b: seq<Node>, nodeId: nat)
    ensures FirstWithId(a + b, nodeId) == if FirstWithId(a, nodeId).Some? then FirstWithId(a, nodeId) else FirstWithId(b, nodeId)
  {
    if a == [] {
      assert a + b == b;
    } else {
      assert a == [a[0]] + a[1..];
      assert a + b == [a[0]] + (a[1..] + b);
      FirstWithIdCons(a[0], a[1..], nodeId);
      FirstWithIdCons(a[0], a[1..] + b, nodeId);
      FirstWithIdConcat(a[1..], b, nodeId);
    }
  }

  /** One step of the pre-order search: the child, then its subtree, then the later siblings. */
  lemma FirstWithIdStep(c: Node, below: seq<Node>, rest: seq<Node>, nodeId: nat)
    ensures FirstWithId([c] + (below + rest), nodeId) ==
      if c.id == nodeId then Some(c)
      else if FirstWithId(below, nodeId).Some? then FirstWithId(below, nodeId)
      else FirstWithId(rest, nodeId)
  {
    FirstWithIdCons(c, below + rest, nodeId);
    FirstWithIdConcat(below, rest, nodeId);
  }

  /*
   * Parts of the module's own test that concern a single node or the tree
   * holder. Each part starts from a fresh counter, as the test does.
   */

  /** Ids come out as 1, 2, 3, 4, 5 in creation order. */
  method TestIds() returns (ids: seq<nat>)
    ensures ids == [1, 2, 3, 4, 5]
  {
    var alloc := new IdAllocator();
    var root := new Node(alloc);
    var node0 := new Node(alloc);
    var node1 := new Node(alloc);
    var node2 := new Node(alloc);
    var boxedNode4 := new Node(alloc);
    ids := [root.id, node0.id, node1.id, node2.id, boxedNode4.id];
  }

  /** A fresh node has the default colour and zero size; each setter reads back. */
  method TestSetters() returns (before: (Color, i32, i32), after: (Color, i32, i32))
    ensures before == (Color(100, 0, 0, 0), 0, 0)
    ensures after == (Color(99, 255, 255, 255), 100, 50)
  {
    var alloc := new IdAllocator();
    var node := new Node(alloc);
    var color := node.GetBackgroundColor();
    var w := node.GetWidth();
    var h := node.GetHeight();
    before := (color, w, h);
    node.SetBackgroundColor(Color(99, 255, 255, 255));
    node.SetWidth(100);
    node.SetHeight(50);
    color := node.GetBackgroundColor();
    w := node.GetWidth();
    h := node.GetHeight();
    after := (color, w, h);
  }

  /** A new tree has no root; after `set_root` the root is the node just set. */
  method TestRoot() returns (before: bool, after: Option<nat>)
    ensures !before
    ensures after == Some(1)
  {
    var alloc := new IdAllocator();
    var tree := new Tree();
    var empty := tree.GetRoot();
    before := empty.Some?;
    var root := new Node(alloc);
    tree.SetRoot(root);
    var got := tree.GetRoot();
    after := Some(got.value.id);
  }

  /** `Tree`: at most one root. */
  class Tree {
    var root: Option<Node>

    /** `Tree::new`: no root yet. */
    constructor ()
      ensures root == None
    {
      root := None;
    }

    method GetRoot() returns (r: Option<Node>)
      ensures r == root
    {
      r := root;
    }

    /** `set_root`: replaces any previous root. */
    method SetRoot(node: Node)
      modifies this
      ensures root == Some(node)
    {
      root := Some(node);
    }
  }
}

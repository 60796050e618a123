/** The HTML rewrite as it runs: nodes on the heap, children unlinked and attributes compacted in place. */
module HtmlTree {

  import opened Options
  import opened FilterMaps
  import opened Html

  class HtmlNode {
    const element: bool
    const data: string
    var attrs: seq<Attribute>
    var children: seq<HtmlNode>
    /** The value of the tree below this node. */
    ghost var tree: Node
    /** Every node that was below this one when it was built, and itself. */
    ghost const repr: set<HtmlNode>

    ghost predicate Valid()
      reads this, repr
      decreases repr
    {
      && Apart()
      && (forall c <- children :: c in repr && c.repr < repr && c.Valid())
      && tree == Node(element, data, attrs, Trees(children))
    }

    /** The subtrees share nothing with each other or with this node. */
    ghost predicate Apart()
      reads this
    {
      && this in repr
      && (forall c <- children :: c in repr && c.repr <= repr && this !in c.repr)
      && (forall i, j :: 0 <= i < j < |children| ==> children[i].repr !! children[j].repr)
    }

    constructor (element: bool, data: string, attrs: seq<Attribute>, children: seq<HtmlNode>)
      requires forall c <- children :: c.Valid()
      requires forall i, j :: 0 <= i < j < |children| ==> children[i].repr !! children[j].repr
      ensures Valid() && tree == Node(element, data, attrs, Trees(children))
    {
      this.element, this.data, this.attrs, this.children := element, data, attrs, children;
      this.tree := Node(element, data, attrs, Trees(children));
      this.repr := {this} + set c <- children, n <- c.repr :: n;
    }

    /** The attribute loop: kept attributes move down over dropped ones, then the tail is cut off. */
    method CompactAttrs(load: bool, hosted: HostCheck)
      modifies this`attrs
      ensures attrs == Adjusted(data, load, hosted, old(attrs))
    {
      var n, k := 0, 0;
      ghost var f := a => Adjust(data, load, hosted, a);
      while k < |attrs|
        invariant 0 <= n <= k <= |attrs| == |old(attrs)|
        invariant forall j :: k <= j < |attrs| ==> attrs[j] == old(attrs)[j]
        invariant attrs[..n] == FilterMap(old(attrs), f, k)
      {
        var a := attrs[k];
        match Adjust(data, load, hosted, a) {
          case Some(b) =>
            assert attrs[n := b][..n + 1] == attrs[..n] + [b];
            attrs := attrs[n := b];
            n := n + 1;
          case None =>
        }
        k := k + 1;
      }
      attrs := attrs[..n];
    }

    method LeadsOut() returns (b: bool)
      ensures b == HasLink(attrs)
    {
      for i := 0 to |attrs|
        invariant forall k :: 0 <= k < i ==> !IsLink(attrs[k])
      {
        if IsLink(attrs[i]) { return true; }
      }
      return false;
    }

    method CleanAttrs(load: bool, hosted: HostCheck)
      modifies this`attrs
      ensures attrs == RewriteAttrs(data, load, hosted, old(attrs))
    {
      CompactAttrs(load, hosted);
      if data == "a" {
        var linked := LeadsOut();
        if linked { attrs := attrs + [TARGET, REL]; }
      }
    }

    /** The children are whole trees; the value of this node itself may be out of date. */
    ghost predicate Sound()
      reads this, repr
    {
      Apart() && forall c <- children :: c.Valid()
    }

    /** Brings this node's value up to date. */
    ghost method Settle()
      requires Sound()
      modifies this`tree
      ensures Valid() && tree == Node(element, data, attrs, Trees(children))
    {
      tree := Node(element, data, attrs, Trees(children));
    }

    method DropChild(i: nat)
      requires Sound() && i < |children|
      modifies this`children
      ensures Sound() && children == old(children[..i] + children[i + 1..])
    {
      children := children[..i] + children[i + 1..];
    }

    method Tidy(load: bool, hosted: HostCheck)
      requires Valid()
      modifies this`attrs, this`tree
      ensures Valid()
      ensures tree == old(tree).(attrs := if element then RewriteAttrs(data, load, hosted, old(tree).attrs)
                                          else old(tree).attrs)
    {
      if element { CleanAttrs(load, hosted); }
      assert Trees(children) == old(Trees(children));
      Settle();
    }

    /** Rewrites one child in place and leaves its siblings alone. */
    method RewriteChild(i: nat, load: bool, hosted: HostCheck)
      requires Sound() && i < |children|
      modifies children[i].repr
      ensures Sound()
      ensures children[i].tree == Rewrite(old(children[i].tree), load, hosted)
      ensures forall j :: 0 <= j < |children| && j != i ==> children[j].tree == old(children[j].tree)
      decreases repr, 0
    {
      var child := children[i];
      assert child.Valid();
      child.Tidy(load, hosted);
      child.RemoveUnsafeNodes(load, hosted);
      forall j | 0 <= j < |children| && j != i
        ensures children[j].Valid() && children[j].tree == old(children[j].tree)
      {
        assert old(children[j].Valid());
        assert children[j].repr !! child.repr;
      }
    }

    /** A blocked child is unlinked. */
    method SkipChild(i: nat, load: bool, hosted: HostCheck)
      requires Sound() && i < |children| && Blocked(children[i].tree)
      modifies this`children
      ensures Sound() && |children| == old(|children|) - 1
      ensures Halfway(Trees(children), i, load, hosted) == old(Halfway(Trees(children), i, load, hosted))
    {
      ghost var before := Trees(children);
      DropChild(i);
      assert Trees(children) == before[..i] + before[i + 1..];
      DropHalfway(before, i, load, hosted);
    }

    /** Any other child is rewritten. */
    method KeepChild(i: nat, load: bool, hosted: HostCheck)
      requires Sound() && i < |children| && !Blocked(children[i].tree)
      modifies children[i].repr
      ensures Sound() && children == old(children) && attrs == old(attrs)
      ensures Halfway(Trees(children), i + 1, load, hosted) == old(Halfway(Trees(children), i, load, hosted))
      decreases repr, 1
    {
      ghost var before := Trees(children);
      RewriteChild(i, load, hosted);
      assert Trees(children) == before[i := Rewrite(before[i], load, hosted)];
      StepHalfway(before, i, load, hosted);
    }

    /** One turn of the loop over the children; `next` is where it goes on. */
    method VisitChild(i: nat, load: bool, hosted: HostCheck) returns (next: nat)
      requires Sound() && i < |children|
      modifies repr
      ensures Sound() && attrs == old(attrs)
      ensures next <= |children| && |children| - next == old(|children|) - i - 1
      ensures Halfway(Trees(children), next, load, hosted) == old(Halfway(Trees(children), i, load, hosted))
      decreases repr, 2
    {
      var child := children[i];
      assert child.Valid();
      if child.element && child.data in BLOCKED {
        SkipChild(i, load, hosted);
        next := i;
      } else {
        KeepChild(i, load, hosted);
        next := i + 1;
      }
    }

    /** Rewrites the tree below this node in place. */
    method RemoveUnsafeNodes(load: bool, hosted: HostCheck)
      requires Valid()
      modifies repr
      ensures Valid() && tree == RemoveUnsafe(old(tree), load, hosted)
      ensures MadeSafe(load, hosted, old(tree), tree)
      decreases repr, 3
    {
      var i := 0;
      assert Halfway(Trees(children), 0, load, hosted) == RewriteChildren(tree.children, load, hosted);
      while i < |children|
        invariant 0 <= i <= |children| && Sound() && attrs == old(attrs)
        invariant Halfway(Trees(children), i, load, hosted) == RewriteChildren(old(tree).children, load, hosted)
        decreases |children| - i
      {
        i := VisitChild(i, load, hosted);
      }
      assert Halfway(Trees(children), i, load, hosted) == Trees(children);
      Settle();
      RewriteMakesSafe(old(tree), load, hosted);
    }
  }

  /** The first `i` trees are done, the others are still to be rewritten. */
  ghost function Halfway(ts: seq<Node>, i: nat, load: bool, hosted: HostCheck): seq<Node>
    requires i <= |ts|
  {
    ts[..i] + RewriteChildren(ts[i..], load, hosted)
  }

  lemma DropHalfway(ts: seq<Node>, i: nat, load: bool, hosted: HostCheck)
    requires i < |ts| && Blocked(ts[i])
    ensures Halfway(ts[..i] + ts[i + 1..], i, load, hosted) == Halfway(ts, i, load, hosted)
  {
    assert (ts[..i] + ts[i + 1..])[i..] == ts[i..][1..];
  }

  lemma StepHalfway(ts: seq<Node>, i: nat, load: bool, hosted: HostCheck)
    requires i < |ts| && !Blocked(ts[i])
    ensures Halfway(ts[i := Rewrite(ts[i], load, hosted)], i + 1, load, hosted) == Halfway(ts, i, load, hosted)
  {
    assert ts[i := Rewrite(ts[i], load, hosted)][i + 1..] == ts[i..][1..];
  }

  ghost function Trees(nodes: seq<HtmlNode>): (ts: seq<Node>)
    reads nodes
    ensures |ts| == |nodes| && forall i :: 0 <= i < |ts| ==> ts[i] == nodes[i].tree
  {
    seq(|nodes|, i requires 0 <= i < |nodes| reads nodes => nodes[i].tree)
  }
}

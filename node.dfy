/** A graph vertex of the layout (pyfdl's `Node`): a location and an ordered
    list of outgoing connections to child nodes.

    Node equality in the source compares locations, not identities, so every
    membership test and every removal on a connection list below works on the
    LOCATIONS of the listed nodes. */
module NodeGraph {
  import opened Points

  /** Some node of `s` stands at `p`: Python's `in` on a list of nodes,
      whose equality compares locations. */
  predicate Holds(s: seq<Node>, p: Point)
    reads s`location
    ensures Holds(s, p) ==> |s| > 0
  {
    exists i :: 0 <= i < |s| && s[i].location == p
  }

  /** Appending a node adds exactly its location to those a list holds:
      what `addChild` relies on when it appends. */
  lemma HoldsAppend(s: seq<Node>, n: Node, p: Point)
    ensures Holds(s + [n], p) <==> Holds(s, p) || n.location == p
  {
    if Holds(s, p) {
      var i :| 0 <= i < |s| && s[i].location == p;
      assert (s + [n])[i] == s[i];
    }
    assert (s + [n])[|s|] == n;
  }

  /** No two nodes of `s` stand at the same point. */
  ghost predicate DistinctLocations(s: seq<Node>)
    reads s`location
  {
    forall i, j :: 0 <= i < j < |s| ==> s[i].location != s[j].location
  }

  /** Python's `list.remove` under location equality, with the `ValueError`
      case giving back the list unchanged. */
  function RemoveFirst(s: seq<Node>, p: Point): (r: seq<Node>)
    reads s`location
    ensures !Holds(s, p) ==> r == s
    ensures Holds(s, p) ==> |r| == |s| - 1
  {
    if s == [] then []
    else if s[0].location == p then s[1..]
    else [s[0]] + RemoveFirst(s[1..], p)
  }

  /** Position of the first node of `s` standing at `p`, or `|s|` when
      there is none. */
  function FirstAt(s: seq<Node>, p: Point): (k: nat)
    reads s`location
    ensures k <= |s|
    ensures k < |s| ==> s[k].location == p
    ensures forall j :: 0 <= j < k ==> s[j].location != p
    ensures k == |s| <==> !Holds(s, p)
  {
    if s == [] then 0
    else if s[0].location == p then 0
    else 1 + FirstAt(s[1..], p)
  }

  /** `RemoveFirst` drops exactly the node at `FirstAt`; the nodes before it
      and after it stay, in order. */
  lemma {:induction false} RemoveFirstDropsFirstMatch(s: seq<Node>, p: Point)
    ensures FirstAt(s, p) < |s| ==>
              RemoveFirst(s, p) == s[..FirstAt(s, p)] + s[FirstAt(s, p) + 1..]
  {
    if s != [] && s[0].location != p {
      RemoveFirstDropsFirstMatch(s[1..], p);
      var k := FirstAt(s[1..], p);
      if k < |s| - 1 {
        assert s[1..][..k] == s[1..k + 1];
        assert s[1..][k + 1..] == s[k + 2..];
        assert [s[0]] + s[1..k + 1] == s[..k + 1];
      }
    }
  }

  /** Removing a node never brings in a new location. */
  lemma {:induction false} RemoveFirstOnlyDrops(s: seq<Node>, p: Point, q: Point)
    ensures Holds(RemoveFirst(s, p), q) ==> Holds(s, q)
  {
    if s != [] && s[0].location != p {
      RemoveFirstOnlyDrops(s[1..], p, q);
      var r := RemoveFirst(s, p);
      var t := RemoveFirst(s[1..], p);
      assert r == [s[0]] + t;
      if Holds(r, q) {
        var i :| 0 <= i < |r| && r[i].location == q;
        if i > 0 {
          assert Holds(t, q) by { assert t[i - 1].location == q; }
          var j :| 0 <= j < |s| - 1 && s[1..][j].location == q;
          assert s[j + 1].location == q;
        } else {
          assert s[0].location == q;
        }
      }
    }
  }

  /** On a list with distinct locations, removal keeps the locations
      distinct and leaves no node at the removed point. */
  lemma {:induction false} DistinctAfterRemoveFirst(s: seq<Node>, p: Point)
    requires DistinctLocations(s)
    ensures DistinctLocations(RemoveFirst(s, p))
    ensures !Holds(RemoveFirst(s, p), p)
  {
    if s != [] && s[0].location != p {
      assert DistinctLocations(s[1..]);
      DistinctAfterRemoveFirst(s[1..], p);
      var r := RemoveFirst(s, p);
      var t := RemoveFirst(s[1..], p);
      assert r == [s[0]] + t;
      forall i, j | 0 <= i < j < |r|
        ensures r[i].location != r[j].location
      {
        if i == 0 {
          RemoveFirstOnlyDrops(s[1..], p, r[j].location);
          assert Holds(t, r[j].location) by { assert t[j - 1] == r[j]; }
          var k :| 0 <= k < |s| - 1 && s[1..][k].location == r[j].location;
          assert s[k + 1].location == r[j].location;
        } else {
          assert t[i - 1] == r[i] && t[j - 1] == r[j];
        }
      }
      forall i | 0 <= i < |r|
        ensures r[i].location != p
      {
        if i > 0 { assert t[i - 1] == r[i]; }
      }
    } else if s != [] {
      var r := RemoveFirst(s, p);
      assert r == s[1..];
      forall i | 0 <= i < |r|
        ensures r[i].location != p
      {
        assert s[i + 1] == r[i];
      }
    }
  }

  /** Removal never brings in a location, keeps the locations of a list
      distinct, and then leaves no node at the removed point. */
  lemma RemoveFirstKeepsDistinct(s: seq<Node>, p: Point)
    ensures forall q :: Holds(RemoveFirst(s, p), q) ==> Holds(s, q)
    ensures DistinctLocations(s) ==> DistinctLocations(RemoveFirst(s, p))
    ensures DistinctLocations(s) ==> !Holds(RemoveFirst(s, p), p)
  {
    forall q | Holds(RemoveFirst(s, p), q)
      ensures Holds(s, q)
    {
      RemoveFirstOnlyDrops(s, p, q);
    }
    if DistinctLocations(s) {
      DistinctAfterRemoveFirst(s, p);
    }
  }

  class Node {
    var location: Point
    var children: seq<Node>

    /** The list holds no two nodes at the same location and no node located
        where its owner is: what adding children keeps, as long as no
        location changes. */
    ghost predicate Valid()
      reads `location, `children, children`location
    {
      DistinctLocations(children) && !Holds(children, location)
    }

    /** A fresh node sits at the default point and has no connections. */
    constructor ()
      ensures location == Default() && children == []
      ensures Valid()
    {
      location := Default();
      children := [];
    }

    /** The `x` getter: the first coordinate of the location. */
    function X(): (x: int)
      reads this
      ensures x == location.x
    {
      location.x
    }

    /** The `y` getter: the second coordinate of the location. */
    function Y(): (y: int)
      reads this
      ensures y == location.y
    {
      location.y
    }

    method SetLocation(p: Point)
      modifies this
      ensures location == p && children == old(children)
    {
      location := p;
    }

    /** Setting `x` changes that coordinate of the location and nothing else. */
    method SetX(x: int)
      modifies this
      ensures X() == x && Y() == old(Y()) && children == old(children)
    {
      location := location.(x := x);
    }

    /** Setting `y` changes that coordinate of the location and nothing else. */
    method SetY(y: int)
      modifies this
      ensures Y() == y && X() == old(X()) && children == old(children)
    {
      location := location.(y := y);
    }

    /** Nodes are equal when they stand at the same point. */
    predicate Equals(other: Node)
      reads this, other
      ensures Equals(other) <==> location == other.location
    {
      X() == other.X() && Y() == other.Y() && location == other.location
    }

    /** A snapshot of the connection list; the caller's copy is a value, so
        changing it cannot reach the node. */
    method Connections() returns (r: seq<Node>)
      ensures r == children
    {
      r := children[..];
    }

    /** Connects `child` unless it equals this node or an equal node is
        already connected. */
    method AddChild(child: Node) returns (added: bool)
      modifies this
      ensures location == old(location)
      ensures added <==> old(!child.Equals(this) && !Holds(children, child.location))
      ensures children == if added then old(children) + [child] else old(children)
      ensures old(Valid()) ==> Valid()
    {
      if !child.Equals(this) && !Holds(children, child.location) {
        children := children + [child];
        added := true;
      } else {
        added := false;
      }
    }

    /** Exactly `parent.AddChild(this)`: only the parent's list can change. */
    method AddParent(parent: Node) returns (added: bool)
      modifies parent
      ensures parent.location == old(parent.location)
      ensures added <==> old(!Equals(parent) && !Holds(parent.children, location))
      ensures parent.children == if added then old(parent.children) + [this] else old(parent.children)
      ensures old(parent.Valid()) ==> parent.Valid()
    {
      added := parent.AddChild(this);
    }

    /** `self._connections.remove(...)` for a node located at `p`, with the
        `ValueError` caught: the first connection at `p` goes, and the result
        says whether there was one. */
    method RemoveConnection(p: Point) returns (found: bool)
      modifies this
      ensures location == old(location)
      ensures found <==> old(Holds(children, p))
      ensures children == RemoveFirst(old(children), p)
      ensures old(Valid()) ==> Valid() && !Holds(children, p)
    {
      RemoveFirstKeepsDistinct(children, p);
      found := Holds(children, p);
      children := RemoveFirst(children, p);
    }

    /** Removes the first connection equal to `other` from this node, then
        tests whether `other` holds this node. The second removal works on the
        copy `other.Connections()` gives back, so `other` keeps its list.
        The result says whether both removals found their node. */
    method DisConnect(other: Node) returns (bothHeld: bool)
      modifies this
      ensures location == old(location)
      ensures children == RemoveFirst(old(children), other.location)
      ensures other != this ==> other.children == old(other.children)
      ensures bothHeld <==> old(Holds(children, other.location)) && Holds(other.children, location)
      ensures old(Valid()) ==> Valid()
    {
      var selfFound := RemoveConnection(other.location);
      var otherSide := other.Connections();
      var otherFound := Holds(otherSide, location);
      // The removal lands on the copy, which is then dropped.
      otherSide := RemoveFirst(otherSide, location);
      bothHeld := selfFound && otherFound;
    }

    /** Disconnection as its documentation describes it: the edge is removed
        from both lists. On lists without duplicate locations this leaves
        neither node holding the other (`RemoveFirstKeepsDistinct`). */
    method DisConnectBoth(other: Node) returns (bothHeld: bool)
      modifies this, other
      ensures location == old(location) && other.location == old(other.location)
      ensures other != this ==> children == RemoveFirst(old(children), other.location)
      ensures other != this ==> other.children == RemoveFirst(old(other.children), location)
      ensures other != this ==>
        (bothHeld <==> old(Holds(children, other.location) && Holds(other.children, location)))
      ensures other == this ==> children == RemoveFirst(RemoveFirst(old(children), location), location)
      ensures other == this ==>
        (bothHeld <==> old(Holds(children, location)) && Holds(RemoveFirst(old(children), location), location))
    {
      var selfFound := RemoveConnection(other.location);
      var otherFound := other.RemoveConnection(location);
      bothHeld := selfFound && otherFound;
    }
  }

  /** The two getters together give back the location, so the three
      comparisons of node equality agree with comparing locations alone. */
  lemma CoordinatesDetermineLocation(a: Node, b: Node)
    ensures a.location == Point(a.X(), a.Y())
    ensures a.X() == b.X() && a.Y() == b.Y() <==> a.location == b.location
  {
  }

  /** Node equality is reflexive. */
  lemma EqualsReflexive(a: Node)
    ensures a.Equals(a)
  {
  }

  /** Node equality is symmetric. */
  lemma EqualsSymmetric(a: Node, b: Node)
    ensures a.Equals(b) <==> b.Equals(a)
  {
  }

  /** Adding the same child twice leaves one edge; the second call fails. */
  method AddChildTwice(a: Node, b: Node) returns (first: bool, second: bool)
    modifies a
    ensures !second
    ensures a.children == if first then old(a.children) + [b] else old(a.children)
  {
    first := a.AddChild(b);
    if first {
      assert a.children[|a.children| - 1] == b;
    }
    second := a.AddChild(b);
  }

  /** Two distinct nodes at one location count as the same child: the second
      is refused although it is a different object. */
  method SameLocationIsDuplicate() returns (distinct: bool, first: bool, second: bool)
    ensures distinct && first && !second
  {
    var parent := new Node();
    var b := new Node();
    var c := new Node();
    b.SetX(7);
    c.SetX(7);
    distinct := b != c;
    first := parent.AddChild(b);
    assert parent.children[0].location == c.location;
    second := parent.AddChild(c);
  }

  /** With only the edge `a -> b`, disconnecting reports failure but still
      removes that edge from `a`. */
  method DisConnectOneSided() returns (bothHeld: bool, aChildren: nat)
    ensures !bothHeld && aChildren == 0
  {
    var a := new Node();
    var b := new Node();
    b.SetY(3);
    var added := a.AddChild(b);
    bothHeld := a.DisConnect(b);
    aChildren := |a.children|;
  }

  /** With edges both ways, `a.DisConnect(b)` reports success yet `b` still
      holds its edge to `a`. */
  method DisConnectKeepsReverseEdge() returns (bothHeld: bool, reverseLeft: bool)
    ensures bothHeld && reverseLeft
  {
    var a := new Node();
    var b := new Node();
    b.SetY(3);
    var ab := a.AddChild(b);
    var ba := b.AddChild(a);
    bothHeld := a.DisConnect(b);
    reverseLeft := Holds(b.children, a.location);
  }

  /** On nodes without duplicate or self-located connections, the corrected
      disconnection keeps both valid and leaves neither holding the other. */
  method DisConnectBothLeavesNeither(a: Node, b: Node) returns (bothHeld: bool)
    requires a.Valid() && b.Valid()
    modifies a, b
    ensures a.Valid() && b.Valid()
    ensures !Holds(a.children, b.location) && !Holds(b.children, a.location)
  {
    ghost var aOld := a.children;
    ghost var bOld := b.children;
    bothHeld := a.DisConnectBoth(b);
    RemoveFirstKeepsDistinct(aOld, b.location);
    RemoveFirstKeepsDistinct(bOld, a.location);
    if a == b {
      RemoveFirstKeepsDistinct(RemoveFirst(aOld, a.location), a.location);
    }
  }

  /** The corrected disconnection on the same two nodes removes both edges. */
  method DisConnectBothRemovesReverseEdge() returns (bothHeld: bool, reverseLeft: bool)
    ensures bothHeld && !reverseLeft
  {
    var a := new Node();
    var b := new Node();
    b.SetY(3);
    var ab := a.AddChild(b);
    var ba := b.AddChild(a);
    bothHeld := a.DisConnectBoth(b);
    reverseLeft := Holds(b.children, a.location);
  }
}

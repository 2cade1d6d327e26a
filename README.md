# pyfdl graph nodes and points, in Dafny

A model of the two data components of the pyfdl force-directed layout
library: the integer `Point` with its sentinel test and per-axis
subtraction, and the graph `Node` with its location, its ordered list of
outgoing connections, and the operations that add and remove connections.

- `point.dfy` (module `Points`): `Point` is a datatype. `Point.py` is pure,
  so subtraction and the sentinel test are functions, and their algebra is
  stated as lemmas.
- `node.dfy` (module `NodeGraph`): `Node` is a class. Its `location` field
  holds a `Point` value and its `children` field holds a `seq<Node>`. The
  methods change these fields as `Node.py` changes `_location` and
  `_connections`. The getters `X()` and `Y()` read the two coordinates of
  `location`.

Node equality in `Node.py` compares locations, not identities. So Python's
`in` and `list.remove` on a connection list are modelled on locations:
`Holds` tests whether some listed node stands at a point, and `RemoveFirst`
drops the first such node, in the manner of `list.remove`. Two distinct
nodes at the same coordinates therefore count as the same child, and
`SameLocationIsDuplicate` shows it.

`disConnect` removes `other` from this node's own list. It then calls
`remove` on `other.connections`, but that getter hands out a copy. So the
second removal only tests membership, and `other`'s list never changes.
`Node.DisConnect` models exactly this. The second test reads `other`'s list
after the first removal, which matters when `other` is the node itself.

The method comment on `noCoordinates` says the result is False for the
sentinel point, but the code returns True. The model follows the code.

Python's `assert parent is not None` / `assert child is not None` become
Dafny's non-null reference types: a `Node` argument cannot be null.

## Model

| member | source | states |
|---|---|---|
| `Points.Default` | src/pyfdl/Point.py:4-12 | a point built with no arguments has both coordinates at the sentinel value 0 |
| `Points.NoCoordinates` | src/pyfdl/Point.py:14-23 | true exactly when the point is the default point, that is when both coordinates are 0 |
| `Points.AbsDiff` | src/pyfdl/Point.py:27-28 | `abs(a - b)`: non-negative, and equal to one of `a - b` and `b - a` |
| `Points.Sub` | src/pyfdl/Point.py:25-30 | `p - q` is a new point; each component is the absolute per-axis difference, never negative; the result is the sentinel exactly when `p == q` |
| `Points.DefaultHasNoCoordinates` | src/pyfdl/Point.py:11-12 | `Point()` is `(0, 0)` and passes the sentinel test |
| `Points.SubSymmetric` | src/pyfdl/Point.py:27-28 | `p - q == q - p` |
| `Points.SubSelf` | src/pyfdl/Point.py:20-30 | `p - p == (0, 0)`, so it has no coordinates |
| `Points.SubTriangle` | src/pyfdl/Point.py:27-28 | each component of `p - r` is at most the sum of those of `p - q` and `q - r` |
| `Points.SubExamples` | tests/pyfdl/TestPoint.py:27-47 | `(100,100) - (500,500) == (400,400)` and `(-100,-100) - (500,500) == (600,600)` |
| `NodeGraph.Holds` | src/pyfdl/Node.py:115 | Python's `in` on a connection list under location equality: true exactly when some listed node stands at the point, and never of an empty list; the `ValueError` test at line 153 is the same question |
| `NodeGraph.HoldsAppend` | src/pyfdl/Node.py:115-117 | appending a node to a list adds exactly that node's location to those the list holds |
| `NodeGraph.FirstAt` | src/pyfdl/Node.py:148 | the position of the first listed node that equals the removed one: the node there stands at the point and no earlier node does; it is the length of the list exactly when no node stands there |
| `NodeGraph.RemoveFirst` | src/pyfdl/Node.py:147-150 | `list.remove` under location equality: the list is unchanged when no node stands at the point, otherwise it is one node shorter |
| `NodeGraph.RemoveFirstDropsFirstMatch` | src/pyfdl/Node.py:148 | the node removed is the one at `FirstAt`; every other node keeps its identity and its order |
| `NodeGraph.RemoveFirstOnlyDrops` | src/pyfdl/Node.py:148 | every location present after the removal was present before it |
| `NodeGraph.DistinctAfterRemoveFirst` | src/pyfdl/Node.py:148 | on a list without duplicate locations, the removal keeps it without duplicates and leaves no node at the removed point |
| `NodeGraph.RemoveFirstKeepsDistinct` | src/pyfdl/Node.py:145-160 | the two facts above for every point at once: removal never adds a location, keeps a duplicate-free list duplicate-free, and then leaves no node at the removed point |
| `NodeGraph.Node.constructor` | src/pyfdl/Node.py:24-30 | a new node stands at the default point with no connections, and its list satisfies `Valid` |
| `NodeGraph.Node.X` | src/pyfdl/Node.py:66-68 | the `x` getter reads the first coordinate of the location |
| `NodeGraph.Node.Y` | src/pyfdl/Node.py:74-76 | the `y` getter reads the second coordinate of the location |
| `NodeGraph.CoordinatesDetermineLocation` | src/pyfdl/Node.py:66-76 | the location is the point of the two getters, so comparing `x` and `y` agrees with comparing locations |
| `NodeGraph.Node.SetLocation` | src/pyfdl/Node.py:62-64 | the location is replaced; the connections stay |
| `NodeGraph.Node.SetX` | src/pyfdl/Node.py:70-72 | only the x coordinate changes; y and the connections stay |
| `NodeGraph.Node.SetY` | src/pyfdl/Node.py:78-80 | only the y coordinate changes; x and the connections stay |
| `NodeGraph.Node.Equals` | src/pyfdl/Node.py:162-168 | two nodes are equal exactly when their locations are equal |
| `NodeGraph.EqualsReflexive` | src/pyfdl/Node.py:162-168 | every node equals itself |
| `NodeGraph.EqualsSymmetric` | src/pyfdl/Node.py:162-168 | `a == b` exactly when `b == a` |
| `NodeGraph.Node.Connections` | src/pyfdl/Node.py:96-102 | the result has the same nodes in the same order as the internal list; it is a value, so changing it cannot change the node |
| `NodeGraph.Node.AddChild` | src/pyfdl/Node.py:104-120 | adds exactly when the child is not equal to this node and no equal node is listed; on success the new list is the old one with the child at the end, otherwise nothing changes; the location never changes; no duplicates and no self-equal entry (`Valid`) is preserved |
| `NodeGraph.Node.AddParent` | src/pyfdl/Node.py:122-133 | the same result and effect as `parent.AddChild(this)`; only the parent's list may change, and the parent's `Valid` is preserved |
| `NodeGraph.Node.RemoveConnection` | src/pyfdl/Node.py:147-150 | the first connection at the point is removed (the list is otherwise unchanged, see `RemoveFirst`); the result is true exactly when one was there, the `ValueError` case otherwise; the location stays; on a valid node `Valid` is kept and no connection at the point is left |
| `NodeGraph.Node.DisConnect` | src/pyfdl/Node.py:135-160 | this node's list loses its first node equal to `other`, whatever the result; `other`'s list is untouched unless `other` is this node; the result is true exactly when this node held `other` and `other` (read after the first removal) holds this node; `Valid` is preserved |
| `NodeGraph.AddChildTwice` | src/pyfdl/Node.py:115-120 | adding the same child twice leaves at most one new edge, and the second call returns false |
| `NodeGraph.SameLocationIsDuplicate` | src/pyfdl/Node.py:115 | two distinct nodes at one location: the first is added, the second is refused as a duplicate |
| `NodeGraph.DisConnectOneSided` | src/pyfdl/Node.py:145-160 | with only the edge `a -> b`, `a.disConnect(b)` returns false yet removes that edge |
| `NodeGraph.DisConnectKeepsReverseEdge` | src/pyfdl/Node.py:152-153 | with edges both ways, `a.disConnect(b)` returns true while `b` still holds its edge to `a` |
| `NodeGraph.Node.DisConnectBoth` | src/pyfdl/Node.py:135-160 | the removal the method comment describes, with the result kept to the code's both-sides rule: for two different nodes, each list loses its first node equal to the other node and the result is true exactly when both held the other; for a node and itself, its list loses its first two entries at its own location and the result is true exactly when both removals found one; no location changes |
| `NodeGraph.DisConnectBothLeavesNeither` | src/pyfdl/Node.py:135-143 | on two valid nodes, the corrected disconnection keeps both valid and leaves neither holding the other |
| `NodeGraph.DisConnectBothRemovesReverseEdge` | src/pyfdl/Node.py:135-143 | on the two nodes of `DisConnectKeepsReverseEdge`, the corrected disconnection returns true and removes the reverse edge as well |

## Findings

| source | as written | input that shows it | evidently intended | confidence | as-written member | corrected member |
|---|---|---|---|---|---|---|
| src/pyfdl/Node.py:153 | `other.connections.remove(self)` removes from the copy the `connections` getter returns, so `other` keeps its edge to this node | nodes `a` at (0,0) and `b` at (0,3) with edges `a -> b` and `b -> a`; `a.disConnect(b)` returns true and `b` still holds `a` | the method comment says it removes any connection between the two nodes, so `other`'s own list should lose the edge too | not executed; read from the code and its comment | `NodeGraph.DisConnectKeepsReverseEdge` | `NodeGraph.Node.DisConnectBoth` |

`NodeGraph.Node.DisConnect` keeps the behaviour as written, because that is
what the library does. `NodeGraph.Node.DisConnectBoth` is the corrected
operation.

## Left out

- The `diagram` property and the `child.diagram = self.diagram` call in `addChild` (src/pyfdl/Node.py:82-94, 116): they register the node with a `Diagram`. `Diagram` is not part of this model.
- The abstract `size` property and the drawing methods `drawConnector` and `drawNode`: these are rendering concerns for a wx device context.
- The logger created in `Node.__init__`.
- Aliasing of `Point` objects: the `x` and `y` setters change the shared `Point` object in place. The model treats a point as a value, so a point shared by two nodes cannot change through one of them.
- `NodeGraph.Node.Valid` holds only while no listed node and not the owner changes location. A location change can make two entries equal without any list changing. The methods promise to keep `Valid`, but they do not restore it.
- `NodeGraph.Node.DisConnectBoth`: its own contract states the exact new lists and the result, but not that `Valid` is kept or that neither node then holds the other; `DisConnectBothLeavesNeither` states both for any two valid nodes. Its result follows the code's rule (both sides held the edge), not the comment's "True if a connection existed", which would also be true for a one-sided edge.
- The layout engine, `Vector`, the force computation, iteration and convergence: they are not in the files modelled here.
- Configuration persistence, the layout status record, the demo programs and the test double `FakeNode`.

/**
 The hash-pruned dual walk of two tries (crates/cli/examples/diff_roots.rs, crates/cli/examples/diff_self.rs):
 what it reports, what it passes over, and exactly when the report is the difference of the two tries.
 */
module DiffWalk {
  import opened Options
  import opened Trie

  /** A value at a full key. */
  datatype Leaf = Leaf(key: Key, value: Bytes)

  /** A leaf of one side, and whether the walk reports it or passes over it. */
  datatype Mark = Mark(leaf: Leaf, shown: bool)

  // ----- the walk as functions

  function OwnLeaf(n: Node, at: Key): (r: seq<Leaf>) {
    if n.value.Some? then [Leaf(at, n.value.value)] else []
  }

  /** The leaves under a node reached along `p`, in the order `collect` meets them. */
  function NodeLeaves(n: Node, p: Key, s: Store): (r: seq<Leaf>)
    requires Sound(s)
    decreases n
  {
    var at := p + n.path;
    OwnLeaf(n, at) + RefLeaves(n.left, at + [false], s) + RefLeaves(n.right, at + [true], s)
  }

  function RefLeaves(r: Ref, p: Key, s: Store): (ls: seq<Leaf>)
    requires Sound(s)
    decreases r
  {
    var n := Resolve(r, s);
    if n.None? then [] else NodeLeaves(n.value, p, s)
  }

  function Marked(ls: seq<Leaf>, shown: bool): (ms: seq<Mark>)
    ensures |ms| == |ls| && forall i :: 0 <= i < |ls| ==> ms[i] == Mark(ls[i], shown)
  {
    seq(|ls|, i requires 0 <= i < |ls| => Mark(ls[i], shown))
  }

  /** One side of `diff`: the leaves of `a` in walk order, marked with whether walking it against `b` reports them. */
  function Walk(a: Ref, b: Ref, p: Key, s: Store): (ms: seq<Mark>)
    requires Sound(s)
    decreases a
  {
    if HashOfRef(a) == HashOfRef(b) then Marked(RefLeaves(a, p, s), false)
    else
      var an, bn := Resolve(a, s), Resolve(b, s);
      if an.None? then []
      else if bn.None? then Marked(NodeLeaves(an.value, p, s), true)
      else
        var at := p + an.value.path;
        Marked(OwnLeaf(an.value, at), true)
        + Walk(an.value.left, bn.value.left, at + [false], s)
        + Walk(an.value.right, bn.value.right, at + [true], s)
  }

  /** The pair of absent nodes with different hashes that the code calls unreachable. */
  predicate Stuck(a: Ref, b: Ref, s: Store)
    requires Sound(s)
    decreases a
  {
    HashOfRef(a) != HashOfRef(b) &&
    var an, bn := Resolve(a, s), Resolve(b, s);
    if an.None? then bn.None?
    else bn.Some? && (Stuck(an.value.left, bn.value.left, s) || Stuck(an.value.right, bn.value.right, s))
  }

  /** Wherever the walk passes over a pair of equal subtrees that hold a leaf, it reached both along the same bits. */
  predicate Aligned(a: Ref, b: Ref, p: Key, q: Key, s: Store)
    requires Sound(s)
    decreases a
  {
    if HashOfRef(a) == HashOfRef(b) then RefLeaves(a, p, s) == [] || p == q
    else
      var an, bn := Resolve(a, s), Resolve(b, s);
      if an.None? || bn.None? then true
      else
        var at, bt := p + an.value.path, q + bn.value.path;
        && Aligned(an.value.left, bn.value.left, at + [false], bt + [false], s)
        && Aligned(an.value.right, bn.value.right, at + [true], bt + [true], s)
  }

  /** The leaves marked as reported, or those passed over. */
  function Pick(ms: seq<Mark>, shown: bool): (ls: seq<Leaf>) {
    if ms == [] then [] else (if ms[0].shown == shown then [ms[0].leaf] else []) + Pick(ms[1..], shown)
  }

  function AllLeaves(ms: seq<Mark>): (ls: seq<Leaf>)
    ensures |ls| == |ms| && forall i :: 0 <= i < |ms| ==> ls[i] == ms[i].leaf
  {
    seq(|ms|, i requires 0 <= i < |ms| => ms[i].leaf)
  }

  // ----- the walk loses and invents nothing

  lemma {:induction false} WalkIsAll(a: Ref, b: Ref, p: Key, s: Store)
    requires Sound(s)
    ensures AllLeaves(Walk(a, b, p, s)) == RefLeaves(a, p, s)
    decreases a
  {
    hide HashOfRef, OwnLeaf, AllLeaves;
    var an, bn := Resolve(a, s), Resolve(b, s);
    if HashOfRef(a) != HashOfRef(b) && an.Some? && bn.Some? {
      var at := p + an.value.path;
      WalkIsAll(an.value.left, bn.value.left, at + [false], s);
      WalkIsAll(an.value.right, bn.value.right, at + [true], s);
    }
  }

  function PickOne(m: Mark, shown: bool): (ls: seq<Leaf>) {
    if m.shown == shown then [m.leaf] else []
  }

  lemma {:induction false} PickStep(ms: seq<Mark>, shown: bool)
    ensures ms == [] ==> Pick(ms, shown) == []
    ensures ms != [] ==> Pick(ms, shown) == PickOne(ms[0], shown) + Pick(ms[1..], shown)
  {
  }

  lemma {:induction false} PickConcat(a: seq<Mark>, b: seq<Mark>, shown: bool)
    ensures Pick(a + b, shown) == Pick(a, shown) + Pick(b, shown)
  {
    hide Pick, PickOne;
    PickStep(a, shown);
    PickStep(a + b, shown);
    if a == [] {
      assert a + b == b;
    } else {
      assert (a + b)[1..] == a[1..] + b;
      PickConcat(a[1..], b, shown);
    }
  }

  lemma {:induction false} PickMarked(ls: seq<Leaf>, mark: bool, shown: bool)
    ensures Pick(Marked(ls, mark), shown) == (if mark == shown then ls else [])
  {
    if ls != [] {
      assert Marked(ls, mark)[1..] == Marked(ls[1..], mark);
      PickMarked(ls[1..], mark, shown);
    }
  }

  // ----- equal hashes, equal leaves

  lemma {:induction false} NoLeaves(n: Node, p: Key, s: Store)
    requires Sound(s) && IsEmptyTrie(n)
    ensures NodeLeaves(n, p, s) == []
  {
  }

  lemma {:induction false} SameHashSameLeaves(a: Ref, b: Ref, p: Key, s: Store)
    requires Sound(s) && Complete(a, s) && Complete(b, s) && HashOfRef(a) == HashOfRef(b)
    ensures RefLeaves(a, p, s) == RefLeaves(b, p, s)
    decreases a
  {
    if a.Empty? || b.Empty? {
    } else {
      var n, m := Resolve(a, s).value, Resolve(b, s).value;
      assert HashOf(n) == HashOf(m);
      if IsEmptyTrie(n) || IsEmptyTrie(m) {
        NoLeaves(n, p, s);
        NoLeaves(m, p, s);
      } else {
        assert Message(n) == Message(m);
        SameWritten(n.left, m.left);
        SameWritten(n.right, m.right);
        SameHashSameLeaves(n.left, m.left, p + n.path + [false], s);
        SameHashSameLeaves(n.right, m.right, p + n.path + [true], s);
      }
    }
  }

  lemma {:induction false} SameWritten(x: Ref, y: Ref)
    requires Written(x) == Written(y)
    ensures HashOfRef(x) == HashOfRef(y)
  {
  }

  /** With every hash in the store, two nodes that differ are never both absent. */
  lemma {:induction false} NeverStuck(a: Ref, b: Ref, s: Store)
    requires Sound(s) && Complete(a, s) && Complete(b, s)
    ensures !Stuck(a, b, s)
    decreases a
  {
    hide HashOf;
    var an, bn := Resolve(a, s), Resolve(b, s);
    if HashOfRef(a) != HashOfRef(b) && an.Some? && bn.Some? {
      NeverStuck(an.value.left, bn.value.left, s);
      NeverStuck(an.value.right, bn.value.right, s);
    }
  }

  // ----- the order of keys

  /** Lexicographic, a prefix before what extends it: the order in which a walk meets keys. */
  predicate Before(a: Key, b: Key) {
    if b == [] then false
    else if a == [] then true
    else if a[0] == b[0] then Before(a[1..], b[1..])
    else !a[0]
  }

  lemma {:induction false} BeforeAsymmetric(a: Key, b: Key)
    requires Before(a, b)
    ensures !Before(b, a) && a != b
  {
    if a != [] && a[0] == b[0] {
      BeforeAsymmetric(a[1..], b[1..]);
    }
  }

  lemma {:induction false} BeforePrefixed(p: Key, a: Key, b: Key)
    ensures Before(p + a, p + b) == Before(a, b)
  {
    if p == [] {
      assert p + a == a && p + b == b;
    } else {
      assert (p + a)[1..] == p[1..] + a && (p + b)[1..] == p[1..] + b;
      BeforePrefixed(p[1..], a, b);
    }
  }

  ghost predicate Sorted(ls: seq<Leaf>) {
    forall i, j :: 0 <= i < j < |ls| ==> Before(ls[i].key, ls[j].key)
  }

  ghost predicate AllUnder(ls: seq<Leaf>, p: Key) {
    forall i :: 0 <= i < |ls| ==> p <= ls[i].key
  }

  lemma {:induction false} LeavesUnder(r: Ref, p: Key, s: Store)
    requires Sound(s)
    ensures AllUnder(RefLeaves(r, p, s), p)
    decreases r
  {
    var n := Resolve(r, s);
    if n.Some? {
      NodeLeavesUnder(n.value, p, s);
    }
  }

  lemma {:induction false} NodeLeavesUnder(n: Node, p: Key, s: Store)
    requires Sound(s)
    ensures AllUnder(NodeLeaves(n, p, s), p)
    decreases n
  {
    hide RefLeaves;
    var at := p + n.path;
    LeavesUnder(n.left, at + [false], s);
    LeavesUnder(n.right, at + [true], s);
    UnderShorter(RefLeaves(n.left, at + [false], s), p, at + [false]);
    UnderShorter(RefLeaves(n.right, at + [true], s), p, at + [true]);
  }

  lemma {:induction false} UnderShorter(ls: seq<Leaf>, p: Key, q: Key)
    requires AllUnder(ls, q) && p <= q
    ensures AllUnder(ls, p)
  {
    forall i | 0 <= i < |ls|
      ensures p <= ls[i].key
    {
      assert q <= ls[i].key;
    }
  }

  // own key, then the left keys, then the right keys
  lemma {:induction false} OwnBeforeChild(at: Key, bit: bool, k: Key)
    requires at + [bit] <= k
    ensures Before(at, k)
  {
    var x := k[|at|..];
    assert k == at + x && at == at + [];
    BeforePrefixed(at, [], x);
  }

  lemma {:induction false} LeftBeforeRight(at: Key, j: Key, k: Key)
    requires at + [false] <= j && at + [true] <= k
    ensures Before(j, k)
  {
    var x, y := j[|at|..], k[|at|..];
    assert j == at + x && k == at + y;
    assert x[0] == j[|at|] == (at + [false])[|at|] && y[0] == k[|at|] == (at + [true])[|at|];
    BeforePrefixed(at, x, y);
  }

  lemma {:induction false} SortedConcat(a: seq<Leaf>, b: seq<Leaf>)
    requires Sorted(a) && Sorted(b)
    requires forall i, j :: 0 <= i < |a| && 0 <= j < |b| ==> Before(a[i].key, b[j].key)
    ensures Sorted(a + b)
  {
    hide Before;
  }

  lemma {:induction false} LeavesSorted(r: Ref, p: Key, s: Store)
    requires Sound(s)
    ensures Sorted(RefLeaves(r, p, s))
    decreases r
  {
    hide NodeLeaves;
    var n := Resolve(r, s);
    if n.Some? {
      NodeLeavesSorted(n.value, p, s);
    }
  }

  lemma {:induction false} NodeLeavesSorted(n: Node, p: Key, s: Store)
    requires Sound(s)
    ensures Sorted(NodeLeaves(n, p, s))
    decreases n
  {
    hide RefLeaves, Before;
    var at := p + n.path;
    var own, left, right := OwnLeaf(n, at), RefLeaves(n.left, at + [false], s), RefLeaves(n.right, at + [true], s);
    LeavesSorted(n.left, at + [false], s);
    LeavesSorted(n.right, at + [true], s);
    LeavesUnder(n.left, at + [false], s);
    LeavesUnder(n.right, at + [true], s);
    forall i | 0 <= i < |left| ensures Before(at, left[i].key) { OwnBeforeChild(at, false, left[i].key); }
    forall i | 0 <= i < |right| ensures Before(at, right[i].key) { OwnBeforeChild(at, true, right[i].key); }
    forall i, j | 0 <= i < |left| && 0 <= j < |right|
      ensures Before(left[i].key, right[j].key)
    {
      LeftBeforeRight(at, left[i].key, right[j].key);
    }
    SortedConcat(own, left);
    SortedConcat(own + left, right);
  }

  // ----- sorted lists with the same elements are the same list

  lemma {:induction false} SortedUnique(a: seq<Leaf>, b: seq<Leaf>)
    requires Sorted(a) && Sorted(b) && forall l :: l in a <==> l in b
    ensures a == b
    decreases |a|
  {
    hide Before;
    if a != [] || b != [] {
      assert a != [] && b != [] by { SameEmptiness(a, b); }
      assert a[0] in b && b[0] in a;
      var i :| 0 <= i < |b| && b[i] == a[0];
      var j :| 0 <= j < |a| && a[j] == b[0];
      if i > 0 && j > 0 {
        BeforeAsymmetric(a[0].key, b[0].key);
      }
      assert a[0] == b[0];
      TailsAgree(a, b);
      SortedUnique(a[1..], b[1..]);
    }
  }

  lemma {:induction false} SameEmptiness(a: seq<Leaf>, b: seq<Leaf>)
    requires forall l :: l in a <==> l in b
    ensures a == [] <==> b == []
  {
    if a != [] {
      assert a[0] in b;
    }
    if b != [] {
      assert b[0] in a;
    }
  }

  lemma {:induction false} TailsAgree(a: seq<Leaf>, b: seq<Leaf>)
    requires a != [] && b != [] && a[0] == b[0] && Sorted(a) && Sorted(b) && forall l :: l in a <==> l in b
    ensures forall l :: l in a[1..] <==> l in b[1..]
  {
    hide Before;
    forall l | l in a[1..] ensures l in b[1..] { InTail(a, b, l); }
    forall l | l in b[1..] ensures l in a[1..] { InTail(b, a, l); }
  }

  lemma {:induction false} InTail(a: seq<Leaf>, b: seq<Leaf>, l: Leaf)
    requires a != [] && b != [] && a[0] == b[0] && Sorted(a) && l in a[1..] && l in b
    ensures l in b[1..]
  {
    hide Before;
    var i :| 0 <= i < |a[1..]| && a[1..][i] == l;
    BeforeAsymmetric(a[0].key, a[i + 1].key);
    var j :| 0 <= j < |b| && b[j] == l;
    assert j > 0 && b[1..][j - 1] == l;
  }

  // ----- a listed leaf is exactly a successful lookup

  lemma {:induction false} ListedIffFound(r: Ref, p: Key, k: Key, v: Bytes, s: Store)
    requires Sound(s)
    ensures Leaf(p + k, v) in RefLeaves(r, p, s) <==> GetRef(r, k, s) == Some(v)
    decreases r
  {
    hide NodeLeaves, Get;
    var n := Resolve(r, s);
    if n.Some? {
      NodeListedIffFound(n.value, p, k, v, s);
    }
  }

  lemma {:induction false} OwnListed(n: Node, p: Key, k: Key, v: Bytes)
    ensures Leaf(p + k, v) in OwnLeaf(n, p + n.path) <==> k == n.path && n.value == Some(v)
  {
    if p + k == p + n.path {
      assert k == (p + k)[|p|..] && n.path == (p + n.path)[|p|..];
    }
  }

  lemma {:induction false} NodeListedIffFound(n: Node, p: Key, k: Key, v: Bytes, s: Store)
    requires Sound(s)
    ensures Leaf(p + k, v) in NodeLeaves(n, p, s) <==> Get(n, k, s) == Some(v)
    decreases n
  {
    hide RefLeaves, OwnLeaf, Resolve, CommonLength, TurnAt;
    var at := p + n.path;
    var left, right := RefLeaves(n.left, at + [false], s), RefLeaves(n.right, at + [true], s);
    var l := Leaf(p + k, v);
    assert l in NodeLeaves(n, p, s) <==> l in OwnLeaf(n, at) || l in left || l in right;
    OwnListed(n, p, k, v);
    LeavesUnder(n.left, at + [false], s);
    LeavesUnder(n.right, at + [true], s);
    if l in left { UnderTurns(n, p, k, false); }
    if l in right { UnderTurns(n, p, k, true); }
    var turn := TurnAt(n, k);
    if turn.Descends? {
      assert p + k == (at + [turn.bit]) + turn.rest;
      ListedIffFound(Child(n, turn.bit), at + [turn.bit], turn.rest, v, s);
    }
  }

  /** A key under one of a node's children turns that way at the node. */
  lemma {:induction false} UnderTurns(n: Node, p: Key, k: Key, bit: bool)
    requires p + n.path + [bit] <= p + k
    ensures TurnAt(n, k).Descends? && TurnAt(n, k).bit == bit
  {
    var q := n.path + [bit];
    assert p + n.path + [bit] == p + q;
    assert q <= k by {
      assert (p + k)[|p|..] == k && (p + q)[|p|..] == q;
    }
    assert k[..|n.path|] == n.path && k[|n.path|] == bit;
  }

  // ----- the leaves passed over

  function Passed(a: Ref, b: Ref, p: Key, s: Store): (ls: seq<Leaf>)
    requires Sound(s)
    decreases a
  {
    if HashOfRef(a) == HashOfRef(b) then RefLeaves(a, p, s)
    else
      var an, bn := Resolve(a, s), Resolve(b, s);
      if an.None? || bn.None? then []
      else
        var at := p + an.value.path;
        Passed(an.value.left, bn.value.left, at + [false], s) + Passed(an.value.right, bn.value.right, at + [true], s)
  }

  lemma {:induction false} PassedIsHidden(a: Ref, b: Ref, p: Key, s: Store)
    requires Sound(s)
    ensures Pick(Walk(a, b, p, s), false) == Passed(a, b, p, s)
    decreases a
  {
    hide HashOfRef, RefLeaves, NodeLeaves, Pick, OwnLeaf;
    var an, bn := Resolve(a, s), Resolve(b, s);
    if HashOfRef(a) == HashOfRef(b) {
      PickMarked(RefLeaves(a, p, s), false, false);
    } else if an.None? {
      PickMarked([], false, false);
      assert Marked([], false) == [];
    } else if bn.None? {
      PickMarked(NodeLeaves(an.value, p, s), true, false);
    } else {
      var at := p + an.value.path;
      var own := Marked(OwnLeaf(an.value, at), true);
      var left := Walk(an.value.left, bn.value.left, at + [false], s);
      var right := Walk(an.value.right, bn.value.right, at + [true], s);
      PassedIsHidden(an.value.left, bn.value.left, at + [false], s);
      PassedIsHidden(an.value.right, bn.value.right, at + [true], s);
      PickMarked(OwnLeaf(an.value, at), true, false);
      PickConcat(own, left, false);
      PickConcat(own + left, right, false);
    }
  }

  function Rebase(ls: seq<Leaf>, p: Key): (r: seq<Leaf>)
    ensures |r| == |ls| && forall i :: 0 <= i < |ls| ==> r[i] == Leaf(p + ls[i].key, ls[i].value)
  {
    seq(|ls|, i requires 0 <= i < |ls| => Leaf(p + ls[i].key, ls[i].value))
  }

  lemma {:induction false} RebaseTwice(ls: seq<Leaf>, p: Key, q: Key)
    ensures Rebase(Rebase(ls, q), p) == Rebase(ls, p + q)
  {
    forall i | 0 <= i < |ls| ensures Rebase(Rebase(ls, q), p)[i] == Rebase(ls, p + q)[i] {
      assert p + (q + ls[i].key) == (p + q) + ls[i].key;
    }
  }

  /** Where a subtree hangs changes only the front of its keys. */
  lemma {:induction false} LeavesRebase(r: Ref, p: Key, s: Store)
    requires Sound(s)
    ensures RefLeaves(r, p, s) == Rebase(RefLeaves(r, [], s), p)
    decreases r, 0
  {
    hide NodeLeaves;
    var n := Resolve(r, s);
    if n.Some? {
      NodeLeavesRebase(n.value, p, s);
    }
  }

  lemma {:induction false} NodeLeavesRebase(n: Node, p: Key, s: Store)
    requires Sound(s)
    ensures NodeLeaves(n, p, s) == Rebase(NodeLeaves(n, [], s), p)
    decreases n, 0
  {
    hide RefLeaves;
    assert [] + n.path == n.path;
    ChildRebase(n.left, p, n.path, false, s);
    ChildRebase(n.right, p, n.path, true, s);
    assert OwnLeaf(n, p + n.path) == Rebase(OwnLeaf(n, n.path), p);
  }

  lemma {:induction false} ChildRebase(r: Ref, p: Key, path: Key, bit: bool, s: Store)
    requires Sound(s)
    ensures RefLeaves(r, p + path + [bit], s) == Rebase(RefLeaves(r, path + [bit], s), p)
    decreases r, 1
  {
    LeavesRebase(r, p + path + [bit], s);
    LeavesRebase(r, path + [bit], s);
    RebaseTwice(RefLeaves(r, [], s), p, path + [bit]);
    assert p + path + [bit] == p + (path + [bit]);
  }

  lemma {:induction false} PassedLength(a: Ref, b: Ref, p: Key, q: Key, s: Store)
    requires Sound(s) && Complete(a, s) && Complete(b, s)
    ensures |Passed(a, b, p, s)| == |Passed(b, a, q, s)|
    decreases a
  {
    hide HashOf, RefLeaves;
    var an, bn := Resolve(a, s), Resolve(b, s);
    if HashOfRef(a) == HashOfRef(b) {
      SameHashSameLeaves(a, b, p, s);
      LeavesRebase(b, p, s);
      LeavesRebase(b, q, s);
    } else if an.Some? && bn.Some? {
      var at, bt := p + an.value.path, q + bn.value.path;
      PassedLength(an.value.left, bn.value.left, at + [false], bt + [false], s);
      PassedLength(an.value.right, bn.value.right, at + [true], bt + [true], s);
    }
  }

  /** Equal nonempty listings of one subtree hang from equal prefixes. */
  lemma {:induction false} PrefixDecided(a: Ref, b: Ref, p: Key, q: Key, s: Store)
    requires Sound(s) && Complete(a, s) && Complete(b, s) && HashOfRef(a) == HashOfRef(b)
    ensures RefLeaves(a, p, s) == RefLeaves(b, q, s) <==> RefLeaves(a, p, s) == [] || p == q
  {
    hide HashOfRef, RefLeaves;
    SameHashSameLeaves(a, b, [], s);
    LeavesRebase(a, p, s);
    LeavesRebase(b, q, s);
    var base := RefLeaves(a, [], s);
    if base != [] && Rebase(base, p) == Rebase(base, q) {
      var x := base[0].key;
      assert Rebase(base, p)[0] == Rebase(base, q)[0];
      assert p + x == q + x && |p| == |q|;
      assert p == (p + x)[..|p|] && q == (q + x)[..|q|];
    }
  }

  /** The two sides pass over the same leaves exactly when the walk is aligned. */
  lemma {:induction false} PassedAgreeIff(a: Ref, b: Ref, p: Key, q: Key, s: Store)
    requires Sound(s) && Complete(a, s) && Complete(b, s)
    ensures Passed(a, b, p, s) == Passed(b, a, q, s) <==> Aligned(a, b, p, q, s)
    decreases a
  {
    hide HashOf, RefLeaves;
    var an, bn := Resolve(a, s), Resolve(b, s);
    if HashOfRef(a) == HashOfRef(b) {
      PrefixDecided(a, b, p, q, s);
    } else if an.Some? && bn.Some? {
      var at, bt := p + an.value.path, q + bn.value.path;
      PassedAgreeIff(an.value.left, bn.value.left, at + [false], bt + [false], s);
      PassedAgreeIff(an.value.right, bn.value.right, at + [true], bt + [true], s);
      PassedLength(an.value.left, bn.value.left, at + [false], bt + [false], s);
      ConcatSplit(Passed(an.value.left, bn.value.left, at + [false], s),
                  Passed(an.value.right, bn.value.right, at + [true], s),
                  Passed(bn.value.left, an.value.left, bt + [false], s),
                  Passed(bn.value.right, an.value.right, bt + [true], s));
    }
  }

  lemma {:induction false} ConcatSplit(a: seq<Leaf>, b: seq<Leaf>, c: seq<Leaf>, d: seq<Leaf>)
    requires |a| == |c|
    ensures a + b == c + d <==> a == c && b == d
  {
    if a + b == c + d {
      assert a == (a + b)[..|a|] && c == (c + d)[..|c|];
      assert b == (a + b)[|a|..] && d == (c + d)[|c|..];
    }
  }

  // ----- reported or passed over, never both

  lemma {:induction false} PickMember(ms: seq<Mark>, shown: bool, l: Leaf)
    ensures l in Pick(ms, shown) <==> Mark(l, shown) in ms
  {
    if ms != [] {
      PickMember(ms[1..], shown, l);
    }
  }

  lemma {:induction false} PickSorted(ms: seq<Mark>, shown: bool)
    requires Sorted(AllLeaves(ms))
    ensures Sorted(Pick(ms, shown))
  {
    hide Before;
    if ms != [] {
      var rest := ms[1..];
      assert AllLeaves(rest) == AllLeaves(ms)[1..];
      PickSorted(rest, shown);
      forall l | l in Pick(rest, shown)
        ensures Before(ms[0].leaf.key, l.key)
      {
        PickMember(rest, shown, l);
        var i :| 0 <= i < |rest| && rest[i] == Mark(l, shown);
        assert AllLeaves(ms)[i + 1] == l && AllLeaves(ms)[0] == ms[0].leaf;
      }
      SortedConcat(if ms[0].shown == shown then [ms[0].leaf] else [], Pick(rest, shown));
    }
  }

  /** A leaf of the trie is in exactly one of the two lists, and no key is in both. */
  lemma {:induction false} PickPartition(ms: seq<Mark>, l: Leaf)
    requires Sorted(AllLeaves(ms))
    ensures l in AllLeaves(ms) <==> l in Pick(ms, true) || l in Pick(ms, false)
    ensures l in Pick(ms, true) ==> l !in Pick(ms, false)
  {
    hide Before;
    PickMember(ms, true, l);
    PickMember(ms, false, l);
    if l in AllLeaves(ms) {
      var i :| 0 <= i < |ms| && AllLeaves(ms)[i] == l;
      assert ms[i] == Mark(l, ms[i].shown);
    }
    if Mark(l, true) in ms {
      var i :| 0 <= i < |ms| && ms[i] == Mark(l, true);
      assert AllLeaves(ms)[i] == l;
      if Mark(l, false) in ms {
        var j :| 0 <= j < |ms| && ms[j] == Mark(l, false);
        assert AllLeaves(ms)[j] == l;
        if i < j { BeforeAsymmetric(l.key, l.key); } else { BeforeAsymmetric(l.key, l.key); }
      }
    }
    if Mark(l, false) in ms {
      var j :| 0 <= j < |ms| && ms[j] == Mark(l, false);
      assert AllLeaves(ms)[j] == l;
    }
  }

  // ----- the report

  /** What `diff` reports of `a` when walked against `b` from the roots. */
  function Report(a: Ref, b: Ref, s: Store): (ls: seq<Leaf>)
    requires Sound(s)
  {
    Pick(Walk(a, b, [], s), true)
  }

  /** Where the two tries differ both reports show what their trie holds; where they agree so do the reports. */
  ghost predicate ExactAt(a: Ref, b: Ref, s: Store, k: Key, v: Bytes)
    requires Sound(s)
  {
    var ina, inb := Leaf(k, v) in Report(a, b, s), Leaf(k, v) in Report(b, a, s);
    if GetRef(a, k, s) == GetRef(b, k, s) then ina == inb
    else ina == (GetRef(a, k, s) == Some(v)) && inb == (GetRef(b, k, s) == Some(v))
  }

  ghost predicate Exact(a: Ref, b: Ref, s: Store)
    requires Sound(s)
  {
    forall k, v :: ExactAt(a, b, s, k, v)
  }

  /** Every leaf a trie holds is either reported or passed over, and every reported leaf is found at its key. */
  lemma {:induction false} ReportPartition(a: Ref, b: Ref, k: Key, v: Bytes, s: Store)
    requires Sound(s)
    ensures var l := Leaf(k, v);
            && (GetRef(a, k, s) == Some(v) <==> l in Report(a, b, s) || l in Passed(a, b, [], s))
            && (l in Report(a, b, s) ==> l !in Passed(a, b, [], s))
  {
    hide Walk, RefLeaves, GetRef, Passed, Pick, Before;
    var ms := Walk(a, b, [], s);
    WalkIsAll(a, b, [], s);
    LeavesSorted(a, [], s);
    PickPartition(ms, Leaf(k, v));
    PassedIsHidden(a, b, [], s);
    assert [] + k == k;
    ListedIffFound(a, [], k, v, s);
  }

  /** The report is the difference of the two tries exactly when the walk is aligned. */
  lemma {:induction false} ExactIffAligned(a: Ref, b: Ref, s: Store)
    requires Sound(s) && Complete(a, s) && Complete(b, s)
    ensures Exact(a, b, s) <==> Aligned(a, b, [], [], s)
  {
    hide GetRef, Report, Passed, Aligned, ExactAt, Sound, Complete;
    PassedAgreeIff(a, b, [], [], s);
    if Aligned(a, b, [], [], s) {
      forall k, v ensures ExactAt(a, b, s, k, v) { AlignedIsExact(a, b, k, v, s); }
    }
    if Exact(a, b, s) {
      forall l ensures l in Passed(a, b, [], s) <==> l in Passed(b, a, [], s) { ExactPassesSame(a, b, l, s); }
      PassedSorted(a, b, s);
      PassedSorted(b, a, s);
      SortedUnique(Passed(a, b, [], s), Passed(b, a, [], s));
    }
  }

  lemma {:induction false} AlignedIsExact(a: Ref, b: Ref, k: Key, v: Bytes, s: Store)
    requires Sound(s) && Passed(a, b, [], s) == Passed(b, a, [], s)
    ensures ExactAt(a, b, s, k, v)
  {
    hide GetRef, Report, Passed;
    ReportPartition(a, b, k, v, s);
    ReportPartition(b, a, k, v, s);
  }

  lemma {:induction false} ExactPassesSame(a: Ref, b: Ref, l: Leaf, s: Store)
    requires Sound(s) && Exact(a, b, s)
    ensures l in Passed(a, b, [], s) <==> l in Passed(b, a, [], s)
  {
    hide GetRef, Report, Passed;
    assert ExactAt(a, b, s, l.key, l.value);
    ReportPartition(a, b, l.key, l.value, s);
    ReportPartition(b, a, l.key, l.value, s);
  }

  lemma {:induction false} PassedSorted(a: Ref, b: Ref, s: Store)
    requires Sound(s)
    ensures Sorted(Passed(a, b, [], s))
  {
    hide Walk, RefLeaves, Passed, Pick, Before;
    WalkIsAll(a, b, [], s);
    LeavesSorted(a, [], s);
    PickSorted(Walk(a, b, [], s), false);
    PassedIsHidden(a, b, [], s);
  }

  /** Against itself nothing is shown. */
  lemma {:induction false} WalkSame(r: Ref, p: Key, s: Store)
    requires Sound(s)
    ensures Pick(Walk(r, r, p, s), true) == []
  {
    hide RefLeaves;
    PickMarked(RefLeaves(r, p, s), false, true);
  }

  /** Two nodes without a value and with the same children show nothing of each other. */
  lemma {:induction false} SharedWalk(a: Node, b: Node, s: Store)
    requires Sound(s) && a.value == None && a.left == b.left && a.right == b.right
    ensures Report(Held(a), Held(b), s) == []
  {
    hide HashOf;
    var at := [] + a.path;
    if HashOf(a) == HashOf(b) {
      PickMarked(RefLeaves(Held(a), [], s), false, true);
    } else {
      var left, right := Walk(a.left, b.left, at + [false], s), Walk(a.right, b.right, at + [true], s);
      WalkSame(a.left, at + [false], s);
      WalkSame(a.right, at + [true], s);
      PickConcat(left, right, true);
      assert [] + left + right == left + right;
      assert Walk(Held(a), Held(b), [], s) == left + right;
    }
  }

  /** A leaf under a node is found at the node's path, the turn to it, and its own path. */
  lemma {:induction false} FindsLeft(n: Node, v: Bytes, k: Key)
    requires n.left == Held(Node([], Some(v), Empty, Empty)) && k == n.path + [false]
    ensures Get(n, k, map[]) == Some(v)
  {
    assert k[..|n.path|] == n.path;
    var t := TurnAt(n, k);
    assert t.Descends?;
    assert t.rest == [] && !t.bit by { assert k[|n.path|] == (n.path + [t.bit] + t.rest)[|n.path|]; }
    assert TurnAt(n.left.node, []).Ends?;
    assert Find(n.left.node, [], map[]) == Some(n.left.node);
  }

  lemma {:induction false} MissesAll(n: Node, k: Key)
    requires n.path != [] && k != [] && n.path[0] != k[0]
    ensures Get(n, k, map[]) == None
  {
    assert |n.path| <= |k| ==> k[..|n.path|][0] != n.path[0];
  }

  const SEVEN_ZEROS: Key := [false, false, false, false, false, false, false]

  /**
   Two tries of one-byte keys, such as inserting builds, that share a pair of leaves under different prefixes: the
   shared hashes are passed over, so neither report mentions the keys at which the tries differ.
   */
  lemma {:induction false} SharedSubtreeMissed(v: Bytes, w: Bytes) returns (a: Ref, b: Ref)
    ensures Complete(a, map[]) && Complete(b, map[]) && !Aligned(a, b, [], [], map[])
    ensures GetRef(a, SEVEN_ZEROS + [false], map[]) == Some(v) && GetRef(b, SEVEN_ZEROS + [false], map[]) == None
    ensures Report(a, b, map[]) == [] && Report(b, a, map[]) == []
    ensures a.Held? && a.node.left.Held? && a.node.right.Held? && b.Held? && b.node.left.Held? && b.node.right.Held?
  {
    hide Aligned, Report, HashOf;
    var x, y := Held(Node([], Some(v), Empty, Empty)), Held(Node([], Some(w), Empty, Empty));
    var m, n := Node(SEVEN_ZEROS, None, x, y), Node([true] + SEVEN_ZEROS[1..], None, x, y);
    a, b := Held(m), Held(n);
    var k := SEVEN_ZEROS + [false];
    SharedWalk(m, n, map[]);
    SharedWalk(n, m, map[]);
    FindsLeft(m, v, k);
    MissesAll(n, k);
    assert Complete(x, map[]) && Complete(y, map[]);
    ExactIffAligned(a, b, map[]);
    assert !ExactAt(a, b, map[], k, v);
  }
}

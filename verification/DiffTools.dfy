/**
 The two diff tools as written: shared prefix and output vectors pushed and truncated in place, and the classification
 of the leaves they report (crates/cli/examples/diff_roots.rs, crates/cli/examples/diff_self.rs).
 */
module DiffTools {
  import opened Options
  import opened Trie
  import opened DiffWalk
  import opened KeyPacking

  /** A reported leaf: its packed key and the value the node holds. */
  datatype Row = Row(key: Bytes, value: Option<Bytes>)

  function RowOf(l: Leaf): (r: Row) {
    Row(Packed(l.key), Some(l.value))
  }

  function Rows(ls: seq<Leaf>): (rs: seq<Row>)
    ensures |rs| == |ls| && forall i :: 0 <= i < |ls| ==> rs[i] == RowOf(ls[i])
  {
    seq(|ls|, i requires 0 <= i < |ls| => RowOf(ls[i]))
  }

  lemma {:induction false} RowsConcat(a: seq<Leaf>, b: seq<Leaf>)
    ensures Rows(a + b) == Rows(a) + Rows(b)
  {
    hide RowOf;
  }

  lemma {:induction false} NodeRows(n: Node, p: Key, s: Store)
    requires Sound(s)
    ensures var at := p + n.path;
            Rows(NodeLeaves(n, p, s)) == Rows(OwnLeaf(n, at)) + Rows(RefLeaves(n.left, at + [false], s))
                + Rows(RefLeaves(n.right, at + [true], s))
  {
    hide RowOf, OwnLeaf, RefLeaves, Rows;
    var at := p + n.path;
    var own, left, right := OwnLeaf(n, at), RefLeaves(n.left, at + [false], s), RefLeaves(n.right, at + [true], s);
    RowsConcat(own, left);
    RowsConcat(own + left, right);
  }

  /** One side of the walk: the bits walked so far, and the leaves reported. */
  class Side {
    var prefix: Key
    var out: seq<Row>

    constructor ()
      ensures prefix == [] && out == []
    {
      prefix, out := [], [];
    }

    method Report(n: Node)
      modifies this
      ensures prefix == old(prefix) && out == old(out) + Rows(OwnLeaf(n, prefix))
    {
      if n.value.Some? {
        var key := Pack(prefix);
        out := out + [Row(key, n.value)];
        assert Rows(OwnLeaf(n, prefix)) == [RowOf(Leaf(prefix, n.value.value))];
      } else {
        assert Rows(OwnLeaf(n, prefix)) == [];
      }
    }

    /** `collect`: every leaf under the node is reported and the prefix is as it was. */
    method Collect(n: Node, s: Store)
      requires Sound(s)
      modifies this
      ensures prefix == old(prefix) && out == old(out) + Rows(NodeLeaves(n, prefix, s))
      decreases n
    {
      hide RowOf, OwnLeaf, NodeLeaves, RefLeaves, Rows;
      NodeRows(n, prefix, s);
      var start := |prefix|;
      prefix := prefix + n.path;
      Report(n);
      CollectChild(n.left, false, s);
      CollectChild(n.right, true, s);
      prefix := prefix[..start];
    }

    method CollectChild(r: Ref, bit: bool, s: Store)
      requires Sound(s)
      modifies this
      ensures prefix == old(prefix) && out == old(out) + Rows(RefLeaves(r, prefix + [bit], s))
      decreases r
    {
      hide RowOf, NodeLeaves;
      var child := Resolve(r, s);
      if child.Some? {
        prefix := prefix + [bit];
        Collect(child.value, s);
        prefix := prefix[..|prefix| - 1];
        assert prefix == old(prefix);
      }
    }
  }

  /** What walking `a` against `b` along `p` adds to a side's report. */
  function Gain(a: Ref, b: Ref, p: Key, s: Store): (rs: seq<Row>)
    requires Sound(s)
  {
    Rows(Pick(Walk(a, b, p, s), true))
  }

  lemma {:induction false} GainParts(a: Ref, b: Ref, p: Key, s: Store)
    requires Sound(s)
    ensures HashOfRef(a) == HashOfRef(b) ==> Gain(a, b, p, s) == []
    ensures HashOfRef(a) != HashOfRef(b) && Resolve(a, s).None? ==> Gain(a, b, p, s) == []
    ensures HashOfRef(a) != HashOfRef(b) && Resolve(a, s).Some? && Resolve(b, s).None? ==>
              Gain(a, b, p, s) == Rows(NodeLeaves(Resolve(a, s).value, p, s))
  {
    hide HashOfRef, RefLeaves, NodeLeaves, Pick, RowOf;
    if HashOfRef(a) == HashOfRef(b) {
      PickMarked(RefLeaves(a, p, s), false, true);
    } else if Resolve(a, s).None? {
      PickMarked([], true, true);
      assert Marked([], true) == [];
    } else if Resolve(b, s).None? {
      PickMarked(NodeLeaves(Resolve(a, s).value, p, s), true, true);
    }
  }

  lemma {:induction false} GainPair(a: Ref, b: Ref, p: Key, s: Store)
    requires Sound(s) && HashOfRef(a) != HashOfRef(b) && Resolve(a, s).Some? && Resolve(b, s).Some?
    ensures var an, bn := Resolve(a, s).value, Resolve(b, s).value;
            var at := p + an.path;
            Gain(a, b, p, s) == Rows(OwnLeaf(an, at)) + Gain(an.left, bn.left, at + [false], s)
                + Gain(an.right, bn.right, at + [true], s)
  {
    hide HashOfRef, Pick, RowOf, OwnLeaf;
    var an, bn := Resolve(a, s).value, Resolve(b, s).value;
    var at := p + an.path;
    var own, left, right := Marked(OwnLeaf(an, at), true), Walk(an.left, bn.left, at + [false], s),
        Walk(an.right, bn.right, at + [true], s);
    PickMarked(OwnLeaf(an, at), true, true);
    PickConcat(own, left, true);
    PickConcat(own + left, right, true);
    RowsConcat(Pick(own, true), Pick(left, true));
    RowsConcat(Pick(own, true) + Pick(left, true), Pick(right, true));
  }

  /** `diff`: both reports grow by what the walk shows of their side, and both prefixes are as they were. */
  method Diff(a: Ref, b: Ref, sa: Side, sb: Side, s: Store) returns (ok: bool)
    requires Sound(s) && sa != sb
    modifies sa, sb
    ensures ok <==> !Stuck(a, b, s)
    ensures ok ==> sa.prefix == old(sa.prefix) && sb.prefix == old(sb.prefix)
    ensures ok ==> sa.out == old(sa.out) + Gain(a, b, old(sa.prefix), s)
    ensures ok ==> sb.out == old(sb.out) + Gain(b, a, old(sb.prefix), s)
    decreases a
  {
    hide HashOfRef, Gain, OwnLeaf, NodeLeaves;
    GainParts(a, b, sa.prefix, s);
    GainParts(b, a, sb.prefix, s);
    if HashOfRef(a) == HashOfRef(b) {
      return true;
    }
    var an, bn := Resolve(a, s), Resolve(b, s);
    if an.None? && bn.None? {
      return false;
    }
    if an.None? {
      sb.Collect(bn.value, s);
      return true;
    }
    if bn.None? {
      sa.Collect(an.value, s);
      return true;
    }
    GainPair(a, b, sa.prefix, s);
    GainPair(b, a, sb.prefix, s);
    ok := DiffPair(an.value, bn.value, sa, sb, s);
  }

  method DiffPair(an: Node, bn: Node, sa: Side, sb: Side, s: Store) returns (ok: bool)
    requires Sound(s) && sa != sb
    modifies sa, sb
    ensures ok <==> !Stuck(an.left, bn.left, s) && !Stuck(an.right, bn.right, s)
    ensures ok ==> sa.prefix == old(sa.prefix) && sb.prefix == old(sb.prefix)
    ensures ok ==>
              var at := old(sa.prefix) + an.path;
              sa.out == old(sa.out) + (Rows(OwnLeaf(an, at)) + Gain(an.left, bn.left, at + [false], s)
                                       + Gain(an.right, bn.right, at + [true], s))
    ensures ok ==>
              var bt := old(sb.prefix) + bn.path;
              sb.out == old(sb.out) + (Rows(OwnLeaf(bn, bt)) + Gain(bn.left, an.left, bt + [false], s)
                                       + Gain(bn.right, an.right, bt + [true], s))
    decreases an
  {
    hide Gain, OwnLeaf, Stuck;
    var astart, bstart := |sa.prefix|, |sb.prefix|;
    sa.prefix := sa.prefix + an.path;
    sb.prefix := sb.prefix + bn.path;
    sa.Report(an);
    sb.Report(bn);
    sa.prefix, sb.prefix := sa.prefix + [false], sb.prefix + [false];
    ok := Diff(an.left, bn.left, sa, sb, s);
    if !ok {
      return;
    }
    sa.prefix, sb.prefix := sa.prefix[..|sa.prefix| - 1], sb.prefix[..|sb.prefix| - 1];
    assert sa.prefix == old(sa.prefix) + an.path && sb.prefix == old(sb.prefix) + bn.path;
    sa.prefix, sb.prefix := sa.prefix + [true], sb.prefix + [true];
    ok := Diff(an.right, bn.right, sa, sb, s);
    if !ok {
      return;
    }
    sa.prefix, sb.prefix := sa.prefix[..astart], sb.prefix[..bstart];
  }

  // ----- the delta printed by diff_self

  datatype Change =
    | Added(after: Option<Bytes>)
    | Removed(before: Option<Bytes>)
    | Changed(before: Option<Bytes>, after: Option<Bytes>)

  /** Collecting rows into a map keeps the last one under each key. */
  function ToMap(rows: seq<Row>): (m: map<Bytes, Option<Bytes>>) {
    if rows == [] then map[] else ToMap(rows[..|rows| - 1])[rows[|rows| - 1].key := rows[|rows| - 1].value]
  }

  /** What is printed under a key, if anything. */
  function Line(before: map<Bytes, Option<Bytes>>, after: map<Bytes, Option<Bytes>>, k: Bytes): (c: Option<Change>) {
    if k in before then
      if k in after then (if before[k] != after[k] then Some(Changed(before[k], after[k])) else None)
      else Some(Removed(before[k]))
    else if k in after then Some(Added(after[k]))
    else None
  }

  /** The classification loop over the union of the two key sets. */
  method Classify(arows: seq<Row>, brows: seq<Row>) returns (delta: map<Bytes, Change>)
    ensures forall k :: k in delta <==> Line(ToMap(arows), ToMap(brows), k).Some?
    ensures forall k :: k in delta ==> Line(ToMap(arows), ToMap(brows), k) == Some(delta[k])
  {
    hide ToMap;
    var before, after := ToMap(arows), ToMap(brows);
    delta := map[];
    var keys := before.Keys + after.Keys;
    while keys != {}
      invariant keys <= before.Keys + after.Keys
      invariant forall k :: k in delta <==> k !in keys && Line(before, after, k).Some?
      invariant forall k :: k in delta ==> Line(before, after, k) == Some(delta[k])
      decreases keys
    {
      var k :| k in keys;
      var line := Line(before, after, k);
      if line.Some? {
        delta := delta[k := line.value];
      }
      keys := keys - {k};
    }
  }

  /** All the keys a trie holds values at are whole bytes. */
  ghost predicate ByteKeys(r: Ref, s: Store)
    requires Sound(s)
  {
    forall k: Key :: GetRef(r, k, s).Some? ==> |k| % 8 == 0
  }

  ghost predicate DistinctKeys(rows: seq<Row>) {
    forall i, j :: 0 <= i < j < |rows| ==> rows[i].key != rows[j].key
  }

  /** With distinct keys the map built from the rows answers for each of them. */
  lemma {:induction false} MapOfRows(rows: seq<Row>, k: Bytes)
    requires DistinctKeys(rows)
    ensures k in ToMap(rows) <==> exists i :: 0 <= i < |rows| && rows[i].key == k
    ensures forall i :: 0 <= i < |rows| && rows[i].key == k ==> ToMap(rows)[k] == rows[i].value
  {
    if rows != [] {
      var n := |rows| - 1;
      MapOfRows(rows[..n], k);
      assert forall i :: 0 <= i < n ==> rows[..n][i] == rows[i];
    }
  }

  lemma {:induction false} ReportKeys(a: Ref, b: Ref, s: Store)
    requires Sound(s) && ByteKeys(a, s)
    ensures var ls := DiffWalk.Report(a, b, s);
            && (forall i :: 0 <= i < |ls| ==> |ls[i].key| % 8 == 0)
            && DistinctKeys(Rows(ls))
  {
    hide Pick, Walk, RefLeaves, Before, GetRef, Packed;
    var ms := Walk(a, b, [], s);
    WalkIsAll(a, b, [], s);
    LeavesSorted(a, [], s);
    PickSorted(ms, true);
    var ls := DiffWalk.Report(a, b, s);
    forall i | 0 <= i < |ls| ensures |ls[i].key| % 8 == 0 {
      assert Leaf(ls[i].key, ls[i].value) in ls;
      ReportPartition(a, b, ls[i].key, ls[i].value, s);
    }
    forall i, j | 0 <= i < j < |ls| ensures Packed(ls[i].key) != Packed(ls[j].key) {
      BeforeAsymmetric(ls[i].key, ls[j].key);
      if Packed(ls[i].key) == Packed(ls[j].key) {
        PackedInjective(ls[i].key, ls[j].key);
      }
    }
  }

  /** The map built from one side's report answers a whole-byte key as the report does. */
  lemma {:induction false} ReportMap(a: Ref, b: Ref, k: Key, s: Store)
    requires Sound(s) && ByteKeys(a, s) && |k| % 8 == 0
    ensures var m := ToMap(Rows(DiffWalk.Report(a, b, s)));
            && (Packed(k) in m <==> exists v :: Leaf(k, v) in DiffWalk.Report(a, b, s))
            && (forall v :: Leaf(k, v) in DiffWalk.Report(a, b, s) ==> m[Packed(k)] == Some(v))
  {
    hide DiffWalk.Report, Packed, ToMap, ByteKeys;
    var ls := DiffWalk.Report(a, b, s);
    ReportKeys(a, b, s);
    MapOfRows(Rows(ls), Packed(k));
    if Packed(k) in ToMap(Rows(ls)) {
      var i :| 0 <= i < |ls| && Rows(ls)[i].key == Packed(k);
      PackedInjective(ls[i].key, k);
      assert ls[i] == Leaf(k, ls[i].value);
    }
    forall v | Leaf(k, v) in ls ensures Packed(k) in ToMap(Rows(ls)) && ToMap(Rows(ls))[Packed(k)] == Some(v) {
      var i :| 0 <= i < |ls| && ls[i] == Leaf(k, v);
      assert Rows(ls)[i].key == Packed(k);
    }
  }

  /** How the value at a key changed from one trie to the other. */
  function TrueChange(before: Option<Bytes>, after: Option<Bytes>): (c: Option<Change>) {
    if before == after then None
    else if before.None? then Some(Added(after))
    else if after.None? then Some(Removed(before))
    else Some(Changed(before, after))
  }

  /** What is printed under the key is how its value changed. */
  ghost predicate LineIsTrue(a: Ref, b: Ref, k: Key, s: Store)
    requires Sound(s)
  {
    Line(ToMap(Rows(DiffWalk.Report(a, b, s))), ToMap(Rows(DiffWalk.Report(b, a, s))), Packed(k))
    == TrueChange(GetRef(a, k, s), GetRef(b, k, s))
  }

  lemma {:induction false} AlignedLine(a: Ref, b: Ref, k: Key, s: Store)
    requires Sound(s) && Complete(a, s) && Complete(b, s) && ByteKeys(a, s) && ByteKeys(b, s)
    requires Aligned(a, b, [], [], s) && |k| % 8 == 0
    ensures LineIsTrue(a, b, k, s)
  {
    hide DiffWalk.Report, Packed, ToMap, ByteKeys, GetRef, Aligned, Complete, Rows;
    ExactIffAligned(a, b, s);
    ReportMap(a, b, k, s);
    ReportMap(b, a, k, s);
    var ma, mb := ToMap(Rows(DiffWalk.Report(a, b, s))), ToMap(Rows(DiffWalk.Report(b, a, s)));
    var x, y := GetRef(a, k, s), GetRef(b, k, s);
    if x == y {
      SameLines(a, b, k, s);
    } else {
      OneSide(a, b, k, s);
      OneSide(b, a, k, s);
    }
  }

  /** A true line leaves the reports nothing to be wrong about at its key. */
  lemma {:induction false} TrueLineExact(a: Ref, b: Ref, k: Key, v: Bytes, s: Store)
    requires Sound(s) && ByteKeys(a, s) && ByteKeys(b, s) && |k| % 8 == 0 && LineIsTrue(a, b, k, s)
    ensures ExactAt(a, b, s, k, v)
  {
    hide DiffWalk.Report, Packed, ToMap, ByteKeys, GetRef, Rows;
    ReportMap(a, b, k, s);
    ReportMap(b, a, k, s);
  }

  /** Keys that are not whole bytes are in neither trie and in neither report. */
  lemma {:induction false} OtherKeysExact(a: Ref, b: Ref, k: Key, v: Bytes, s: Store)
    requires Sound(s) && ByteKeys(a, s) && ByteKeys(b, s) && |k| % 8 != 0
    ensures ExactAt(a, b, s, k, v)
  {
    hide DiffWalk.Report, GetRef, Passed;
    ReportPartition(a, b, k, v, s);
    ReportPartition(b, a, k, v, s);
  }

  /**
   On two tries with whole-byte keys the printed delta is the true one, each key printed exactly when its value differs
   and under the heading that says how, if and only if the walk is aligned.
   */
  lemma {:induction false} DeltaIsExact(a: Ref, b: Ref, s: Store)
    requires Sound(s) && Complete(a, s) && Complete(b, s) && ByteKeys(a, s) && ByteKeys(b, s)
    ensures Aligned(a, b, [], [], s) <==> forall k: Key :: |k| % 8 == 0 ==> LineIsTrue(a, b, k, s)
  {
    hide ByteKeys, Aligned, Complete, ExactAt, LineIsTrue, Sound;
    ExactIffAligned(a, b, s);
    if Aligned(a, b, [], [], s) {
      forall k: Key | |k| % 8 == 0 ensures LineIsTrue(a, b, k, s) { AlignedLine(a, b, k, s); }
    } else if forall k: Key :: |k| % 8 == 0 ==> LineIsTrue(a, b, k, s) {
      forall k, v ensures ExactAt(a, b, s, k, v) {
        if |k| % 8 == 0 { TrueLineExact(a, b, k, v, s); } else { OtherKeysExact(a, b, k, v, s); }
      }
    }
  }

  lemma {:induction false} OneSide(a: Ref, b: Ref, k: Key, s: Store)
    requires Sound(s) && ByteKeys(a, s) && |k| % 8 == 0 && GetRef(a, k, s) != GetRef(b, k, s)
    requires (forall v :: ExactAt(a, b, s, k, v)) || (forall v :: ExactAt(b, a, s, k, v))
    ensures var m := ToMap(Rows(DiffWalk.Report(a, b, s)));
            (Packed(k) in m <==> GetRef(a, k, s).Some?) && (Packed(k) in m ==> m[Packed(k)] == GetRef(a, k, s))
  {
    hide DiffWalk.Report, Packed, ToMap, ByteKeys, GetRef, Rows;
    ReportMap(a, b, k, s);
    forall v ensures Leaf(k, v) in DiffWalk.Report(a, b, s) <==> GetRef(a, k, s) == Some(v) {
      assert ExactAt(a, b, s, k, v) || ExactAt(b, a, s, k, v);
    }
    if GetRef(a, k, s).Some? {
      assert Leaf(k, GetRef(a, k, s).value) in DiffWalk.Report(a, b, s);
    }
  }

  lemma {:induction false} SameLines(a: Ref, b: Ref, k: Key, s: Store)
    requires Sound(s) && ByteKeys(a, s) && ByteKeys(b, s) && |k| % 8 == 0 && GetRef(a, k, s) == GetRef(b, k, s)
    requires forall v :: ExactAt(a, b, s, k, v)
    ensures Line(ToMap(Rows(DiffWalk.Report(a, b, s))), ToMap(Rows(DiffWalk.Report(b, a, s))), Packed(k)) == None
  {
    hide DiffWalk.Report, Packed, ToMap, ByteKeys, GetRef, Rows;
    ReportMap(a, b, k, s);
    ReportMap(b, a, k, s);
    forall v ensures Leaf(k, v) in DiffWalk.Report(a, b, s) <==> Leaf(k, v) in DiffWalk.Report(b, a, s) {
      assert ExactAt(a, b, s, k, v);
    }
  }
}

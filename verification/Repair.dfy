/**
 Making a segment chunk answer lookups its build never issued (crates/cli/examples/repair_chunk.rs): the batched
 descent, the write-back patch store in front of the archive, and the checkpointed pass over state roots.
 */
module Repair {
  import opened Options
  import opened Trie

  // ----- the batched descent

  /** A child reference the descent resolves, and the bits that lead to it. */
  datatype Visit = Visit(at: Key, ref: Ref)

  /** The keys that go on to one child, each with the bits it has left. */
  function Onward(n: Node, keys: seq<Key>, bit: bool): (rest: seq<Key>) {
    if keys == [] then []
    else
      var turn := TurnAt(n, keys[0]);
      (if turn.Descends? && turn.bit == bit then [turn.rest] else []) + Onward(n, keys[1..], bit)
  }

  /** Everything one descent carrying all the keys resolves below a node. */
  function Visits(n: Node, keys: seq<Key>, p: Key, s: Store): (vs: seq<Visit>)
    requires Sound(s)
    decreases n
  {
    ChildVisits(n.left, Onward(n, keys, false), p + n.path + [false], s)
    + ChildVisits(n.right, Onward(n, keys, true), p + n.path + [true], s)
  }

  function ChildVisits(r: Ref, keys: seq<Key>, at: Key, s: Store): (vs: seq<Visit>)
    requires Sound(s)
    decreases r
  {
    if keys == [] then []
    else
      var child := Resolve(r, s);
      [Visit(at, r)] + (if child.Some? then Visits(child.value, keys, at, s) else [])
  }

  /** Everything the descent of one key resolves. */
  function Path(n: Node, key: Key, p: Key, s: Store): (vs: seq<Visit>)
    requires Sound(s)
    decreases n
  {
    var turn := TurnAt(n, key);
    if !turn.Descends? then []
    else
      var at, r := p + n.path + [turn.bit], Child(n, turn.bit);
      var child := Resolve(r, s);
      [Visit(at, r)] + (if child.Some? then Path(child.value, turn.rest, at, s) else [])
  }

  lemma {:induction false} OnwardMember(n: Node, keys: seq<Key>, bit: bool, rest: Key)
    ensures rest in Onward(n, keys, bit) <==> exists k :: k in keys && TurnAt(n, k) == Descends(bit, rest)
  {
    hide TurnAt;
    if keys != [] {
      OnwardMember(n, keys[1..], bit, rest);
      assert keys == [keys[0]] + keys[1..];
      if rest in Onward(n, keys[1..], bit) {
        var k :| k in keys[1..] && TurnAt(n, k) == Descends(bit, rest);
        assert k in keys;
      }
    }
  }

  /** The batched descent resolves exactly what the separate descents would between them. */
  lemma {:induction false} BatchIsUnion(n: Node, keys: seq<Key>, p: Key, s: Store, v: Visit)
    requires Sound(s)
    ensures v in Visits(n, keys, p, s) <==> exists k :: k in keys && v in Path(n, k, p, s)
    decreases n, 0
  {
    hide TurnAt, Onward, ChildVisits;
    ChildIsUnion(n, keys, false, p, s, v);
    ChildIsUnion(n, keys, true, p, s, v);
    if v in Visits(n, keys, p, s) {
      assert exists k :: k in keys && v in Path(n, k, p, s);
    }
    if k :| k in keys && v in Path(n, k, p, s) {
      assert TurnAt(n, k).Descends?;
      var bit := TurnAt(n, k).bit;
      assert v in ChildVisits(Child(n, bit), Onward(n, keys, bit), p + n.path + [bit], s);
    }
  }

  lemma {:induction false} ChildIsUnion(n: Node, keys: seq<Key>, bit: bool, p: Key, s: Store, v: Visit)
    requires Sound(s)
    ensures v in ChildVisits(Child(n, bit), Onward(n, keys, bit), p + n.path + [bit], s)
       <==> exists k :: k in keys && TurnAt(n, k).Descends? && TurnAt(n, k).bit == bit && v in Path(n, k, p, s)
    decreases Child(n, bit), 1
  {
    hide TurnAt, Onward, Visits;
    var rests, at, r := Onward(n, keys, bit), p + n.path + [bit], Child(n, bit);
    var child := Resolve(r, s);
    if child.Some? {
      BatchIsUnion(child.value, rests, at, s, v);
    }
    if v in ChildVisits(r, rests, at, s) {
      var rest :| rest in rests && (v == Visit(at, r) || (child.Some? && v in Path(child.value, rest, at, s))) by {
        assert rests[0] in rests;
      }
      OnwardMember(n, keys, bit, rest);
      var k :| k in keys && TurnAt(n, k) == Descends(bit, rest);
      assert v in Path(n, k, p, s);
    }
    if k :| k in keys && TurnAt(n, k).Descends? && TurnAt(n, k).bit == bit && v in Path(n, k, p, s) {
      OnwardMember(n, keys, bit, TurnAt(n, k).rest);
      assert v in ChildVisits(r, rests, at, s);
    }
  }

  // ----- each position once

  ghost predicate Below(vs: seq<Visit>, p: Key) {
    forall i :: 0 <= i < |vs| ==> p <= vs[i].at
  }

  ghost predicate DistinctPositions(vs: seq<Visit>) {
    forall i, j :: 0 <= i < j < |vs| ==> vs[i].at != vs[j].at
  }

  lemma {:induction false} VisitsBelow(n: Node, keys: seq<Key>, p: Key, s: Store)
    requires Sound(s)
    ensures forall i :: 0 <= i < |Visits(n, keys, p, s)| ==>
            p <= Visits(n, keys, p, s)[i].at && |p| < |Visits(n, keys, p, s)[i].at|
    decreases n, 0
  {
    hide Onward, ChildVisits;
    var vs := Visits(n, keys, p, s);
    var left, right := ChildVisits(n.left, Onward(n, keys, false), p + n.path + [false], s),
        ChildVisits(n.right, Onward(n, keys, true), p + n.path + [true], s);
    ChildVisitsBelow(n.left, Onward(n, keys, false), p + n.path + [false], s);
    ChildVisitsBelow(n.right, Onward(n, keys, true), p + n.path + [true], s);
    forall i | 0 <= i < |vs| ensures p <= vs[i].at && |p| < |vs[i].at| {
      if i < |left| {
        assert vs[i] == left[i] && p <= p + n.path + [false] <= left[i].at;
      } else {
        assert vs[i] == right[i - |left|] && p <= p + n.path + [true] <= right[i - |left|].at;
      }
    }
  }

  lemma {:induction false} ChildVisitsBelow(r: Ref, keys: seq<Key>, at: Key, s: Store)
    requires Sound(s)
    ensures Below(ChildVisits(r, keys, at, s), at)
    decreases r, 1
  {
    hide Visits;
    var child := Resolve(r, s);
    if keys != [] && child.Some? {
      VisitsBelow(child.value, keys, at, s);
    }
  }

  /** However many keys pass through it, no position of the trie is resolved twice. */
  lemma {:induction false} BatchVisitsOnce(n: Node, keys: seq<Key>, p: Key, s: Store)
    requires Sound(s)
    ensures DistinctPositions(Visits(n, keys, p, s))
    decreases n, 0
  {
    hide Onward, ChildVisits;
    var at := p + n.path;
    var left, right := ChildVisits(n.left, Onward(n, keys, false), at + [false], s),
        ChildVisits(n.right, Onward(n, keys, true), at + [true], s);
    ChildVisitsOnce(n.left, Onward(n, keys, false), at + [false], s);
    ChildVisitsOnce(n.right, Onward(n, keys, true), at + [true], s);
    ChildVisitsBelow(n.left, Onward(n, keys, false), at + [false], s);
    ChildVisitsBelow(n.right, Onward(n, keys, true), at + [true], s);
    forall i, j | 0 <= i < |left| && 0 <= j < |right| ensures left[i].at != right[j].at {
      assert left[i].at[|at|] == (at + [false])[|at|] && right[j].at[|at|] == (at + [true])[|at|];
    }
  }

  lemma {:induction false} ChildVisitsOnce(r: Ref, keys: seq<Key>, at: Key, s: Store)
    requires Sound(s)
    ensures DistinctPositions(ChildVisits(r, keys, at, s))
    decreases r, 1
  {
    hide Visits;
    var child := Resolve(r, s);
    if keys != [] && child.Some? {
      BatchVisitsOnce(child.value, keys, at, s);
      VisitsBelow(child.value, keys, at, s);
    }
  }

  // ----- what a lookup reads

  /** The hashes asked of the store along some visits. */
  function Asked(vs: seq<Visit>): (hs: set<Digest>) {
    set i | 0 <= i < |vs| && vs[i].ref.Hash? :: vs[i].ref.digest
  }

  /** The nodes a lookup reads, from the root down. */
  function NodesOn(n: Node, key: Key, s: Store): (ns: seq<Node>)
    requires Sound(s)
    decreases n
  {
    var turn := TurnAt(n, key);
    if !turn.Descends? then [n]
    else
      var child := Resolve(Child(n, turn.bit), s);
      [n] + (if child.Some? then NodesOn(child.value, turn.rest, s) else [])
  }

  /** A lookup from a state root: nothing if the root itself is missing. */
  function Reads(root: Digest, key: Key, s: Store): (ns: Option<seq<Node>>)
    requires Sound(s)
  {
    if root in s then Some(NodesOn(s[root], key, s)) else None
  }

  ghost predicate Within(part: Store, whole: Store) {
    part.Keys <= whole.Keys
  }

  /** A part of a store that holds whatever the whole would be asked for along a path reads the same nodes. */
  lemma {:induction false} SameReads(n: Node, key: Key, p: Key, part: Store, whole: Store)
    requires Sound(part) && Sound(whole) && Within(part, whole)
    requires Asked(Path(n, key, p, whole)) * whole.Keys <= part.Keys
    ensures NodesOn(n, key, part) == NodesOn(n, key, whole)
    decreases n
  {
    hide TurnAt;
    var turn := TurnAt(n, key);
    if turn.Descends? {
      var at, r := p + n.path + [turn.bit], Child(n, turn.bit);
      var vs := Path(n, key, p, whole);
      assert vs[0] == Visit(at, r);
      if r.Hash? {
        assert r.digest in Asked(vs);
      }
      var child := Resolve(r, whole);
      assert Resolve(r, part) == child;
      if child.Some? {
        AskedTail(vs, Path(child.value, turn.rest, at, whole));
        SameReads(child.value, turn.rest, at, part, whole);
      }
    }
  }

  lemma {:induction false} AskedTail(vs: seq<Visit>, tail: seq<Visit>)
    requires vs != [] && vs[1..] == tail
    ensures Asked(tail) <= Asked(vs)
  {
    forall h | h in Asked(tail) ensures h in Asked(vs) {
      var i :| 0 <= i < |tail| && tail[i].ref.Hash? && tail[i].ref.digest == h;
      assert vs[i + 1] == tail[i];
    }
  }

  // ----- a repaired root

  /** Every hash a pass over this root asks for. */
  function Needs(root: Digest, keys: seq<Key>, s: Store): (hs: set<Digest>)
    requires Sound(s)
  {
    {root} + if root in s then Asked(Visits(s[root], keys, [], s)) else {}
  }

  ghost predicate Repaired(root: Digest, keys: seq<Key>, chunk: Store, whole: Store)
    requires Sound(whole)
  {
    Needs(root, keys, whole) * whole.Keys <= chunk.Keys
  }

  /** On a repaired root the chunk alone answers every one of the keys as chunk and archive together would. */
  lemma {:induction false} RepairedAnswers(root: Digest, keys: seq<Key>, k: Key, chunk: Store, whole: Store)
    requires Sound(chunk) && Sound(whole) && Within(chunk, whole) && Repaired(root, keys, chunk, whole) && k in keys
    ensures Reads(root, k, chunk) == Reads(root, k, whole)
  {
    hide Visits, Path, NodesOn;
    if root in whole {
      assert root in chunk && chunk[root] == whole[root];
      var n := whole[root];
      forall h | h in Asked(Path(n, k, [], whole)) ensures h in Asked(Visits(n, keys, [], whole)) {
        var vs := Path(n, k, [], whole);
        var i :| 0 <= i < |vs| && vs[i].ref.Hash? && vs[i].ref.digest == h;
        BatchIsUnion(n, keys, [], whole, vs[i]);
        assert vs[i] in Visits(n, keys, [], whole);
      }
      SameReads(n, k, [], chunk, whole);
    }
  }

  /** With what the archive alone would read, where the archive holds the root and the nodes along the key's path. */
  lemma {:induction false} RepairedAsArchive(root: Digest, keys: seq<Key>, k: Key, chunk: Store, archive: Store,
                                             whole: Store)
    requires Sound(chunk) && Sound(archive) && Sound(whole) && whole.Keys == chunk.Keys + archive.Keys
    requires Repaired(root, keys, chunk, whole) && k in keys
    requires root in archive && Asked(Path(archive[root], k, [], whole)) * whole.Keys <= archive.Keys
    ensures Reads(root, k, chunk) == Reads(root, k, archive)
  {
    hide Visits, Path, NodesOn, Repaired, HashOf;
    PartOf(chunk, whole);
    PartOf(archive, whole);
    RepairedAnswers(root, keys, k, chunk, whole);
    assert whole[root] == archive[root];
    SameReads(archive[root], k, [], archive, whole);
  }

  /** Content addressing: a store holding some of the hashes of another holds the same nodes under them. */
  lemma {:induction false} PartOf(part: Store, whole: Store)
    requires Sound(part) && Sound(whole) && part.Keys <= whole.Keys
    ensures Within(part, whole) && forall h :: h in part ==> h in whole && part[h] == whole[h]
  {
    hide HashOf;
    forall h | h in part ensures h in whole && part[h] == whole[h] {
      assert h in part.Keys;
    }
  }

  // ----- the patch store

  lemma {:induction false} SoundInsert(a: Store, h: Digest, v: Node)
    requires Sound(a) && h.Of? && v == h.message && HashOf(v) == h
    ensures Sound(a[h := v]) && a[h := v].Keys == a.Keys + {h}
    ensures |a[h := v]| == |a| + if h in a then 0 else 1
  {
    hide HashOf;
    assert a[h := v].Keys == a.Keys + {h};
    if h in a {
      assert a.Keys + {h} == a.Keys;
    } else {
      assert |a.Keys + {h}| == |a.Keys| + 1;
    }
  }

  class PatchStore {
    var chunk: Store
    const archive: Store
    var cache: Store
    const cacheCap: nat
    var added: nat
    var lookups: nat
    var hits: nat
    const dry: bool

    /**
     Chunk, archive and cache only hold nodes under their own hashes, the cache never runs ahead of the chunk, and it
     never outgrows its cap (or one entry: the last answer is always kept).
     */
    ghost predicate Valid()
      reads this
    {
      && Sound(chunk) && Sound(archive) && Sound(cache)
      && cache.Keys <= (if dry then archive.Keys + chunk.Keys else chunk.Keys)
      && |cache| <= if cacheCap == 0 then 1 else cacheCap
    }

    constructor (chunk: Store, archive: Store, cacheCap: nat, dry: bool)
      requires Sound(chunk) && Sound(archive)
      ensures Valid() && this.chunk == chunk && this.archive == archive && this.dry == dry && added == 0
      ensures this.cacheCap == cacheCap && cache == map[] && lookups == 0 && hits == 0
    {
      this.chunk, this.archive, this.cacheCap, this.dry := chunk, archive, cacheCap, dry;
      cache, added, lookups, hits := map[], 0, 0, 0;
    }

    /**
     `PatchStore::get`: answers as chunk and archive together do, and leaves the chunk holding the answer unless this is
     a dry run.
     */
    method Get(h: Digest) returns (r: Option<Node>)
      requires Valid()
      modifies this
      ensures Valid()
      ensures r == (if h in old(chunk) || h in archive then Some(h.message) else None)
      ensures Wrote(old(chunk), chunk, archive, {h}, dry)
      ensures !dry ==> added == old(added) + (|chunk| - |old(chunk)|)
      ensures added == old(added) + (if h !in old(cache) && h !in old(chunk) && h in archive then 1 else 0)
      ensures lookups == old(lookups) + 1 && hits == old(hits) + (if h in old(cache) then 1 else 0)
      ensures r.Some? ==> h in cache
    {
      hide HashOf, Sound, Wrote;
      lookups := lookups + 1;
      if h in cache {
        hits := hits + 1;
        CachedAnswers(chunk, archive, cache, h, dry);
        return Some(cache[h]);
      }
      r := Load(h);
      if r.Some? {
        Remember(h, r.value);
      }
    }

    /** Behind the cache: chunk first, archive second, and every archive hit is written back. */
    method Load(h: Digest) returns (r: Option<Node>)
      requires Valid()
      modifies this`chunk, this`added
      ensures Valid()
      ensures r == (if h in old(chunk) || h in archive then Some(h.message) else None)
      ensures Wrote(old(chunk), chunk, archive, {h}, dry)
      ensures !dry ==> added == old(added) + (|chunk| - |old(chunk)|)
      ensures added == old(added) + (if h !in old(chunk) && h in archive then 1 else 0)
      ensures r.Some? ==> h in (if dry then archive.Keys + chunk.Keys else chunk.Keys)
      ensures r.Some? ==> h.Of? && HashOf(h.message) == h
    {
      hide HashOf, Sound, Wrote;
      if h in chunk {
        StoredAnswers(chunk, h);
        WroteOne(chunk, chunk, archive, h, dry);
        return Some(chunk[h]);
      }
      if h !in archive {
        WroteOne(chunk, chunk, archive, h, dry);
        return None;
      }
      StoredAnswers(archive, h);
      added := added + 1;
      ghost var before := chunk;
      if !dry {
        SoundInsert(chunk, h, archive[h]);
        chunk := chunk[h := archive[h]];
      }
      WroteOne(before, chunk, archive, h, dry);
      return Some(archive[h]);
    }

    /** The flat-capped cache: cleared wholesale when full. */
    method Remember(h: Digest, v: Node)
      requires Valid() && h in (if dry then archive.Keys + chunk.Keys else chunk.Keys)
      requires h.Of? && v == h.message && HashOf(v) == h
      modifies this`cache
      ensures Valid() && cache == (if |old(cache)| >= cacheCap then map[] else old(cache))[h := v]
    {
      hide HashOf, Sound;
      SoundNothing();
      if |cache| >= cacheCap {
        cache := map[];
      }
      SoundInsert(cache, h, v);
      cache := cache[h := v];
    }

    ghost predicate Holds(v: Store)
      reads this
    {
      Valid() && v.Keys == chunk.Keys + archive.Keys && Sound(v)
    }

    /** Resolving a child through the store: only a hash reaches it. */
    method ResolveChild(ref: Ref, ghost whole: Store) returns (r: Option<Node>)
      requires Holds(whole)
      modifies this
      ensures Holds(whole) && r == Resolve(ref, whole)
      ensures Wrote(old(chunk), chunk, archive, AskedOf(ref), dry)
      ensures !dry ==> added == old(added) + (|chunk| - |old(chunk)|)
    {
      hide HashOf, Sound, Valid, Wrote;
      match ref
      case Empty =>
        r := None;
        WroteNothing(chunk, archive, dry);
      case Held(n) =>
        r := Some(n);
        WroteNothing(chunk, archive, dry);
      case Hash(d) =>
        ghost var before := chunk;
        WholeAnswers(whole, d);
        r := Get(d);
        StillWhole(before, chunk, archive, whole, {d}, dry);
    }
  }

  lemma {:induction false} SoundNothing()
    ensures Sound(map[])
  {
  }

  lemma {:induction false} StoredAnswers(s: Store, h: Digest)
    requires Sound(s) && h in s
    ensures h.Of? && s[h] == h.message && HashOf(h.message) == h
  {
    hide HashOf;
  }

  lemma {:induction false} WroteOne(before: Store, after: Store, archive: Store, h: Digest, dry: bool)
    ensures Wrote(before, after, archive, {h}, dry) <==>
            after.Keys == if dry || h !in archive then before.Keys else before.Keys + {h}
  {
    assert {h} * archive.Keys == if h in archive then {h} else {};
  }

  /** What the cache holds is what the stores behind it would say, and they hold it already. */
  lemma {:induction false} CachedAnswers(chunk: Store, archive: Store, cache: Store, h: Digest, dry: bool)
    requires Sound(cache) && h in cache && cache.Keys <= if dry then archive.Keys + chunk.Keys else chunk.Keys
    ensures (h in chunk || h in archive) && cache[h] == h.message && Wrote(chunk, chunk, archive, {h}, dry)
  {
    hide HashOf;
    assert h in cache.Keys;
    WroteOne(chunk, chunk, archive, h, dry);
    assert h in chunk ==> chunk.Keys + {h} == chunk.Keys;
  }

  lemma {:induction false} WroteNothing(chunk: Store, archive: Store, dry: bool)
    ensures Wrote(chunk, chunk, archive, {}, dry)
  {
  }

  lemma {:induction false} WholeAnswers(whole: Store, h: Digest)
    requires Sound(whole)
    ensures Resolve(Hash(h), whole) == if h in whole.Keys then Some(h.message) else None
  {
    hide HashOf;
  }

  lemma {:induction false} StillWhole(before: Store, after: Store, archive: Store, whole: Store, asked: set<Digest>,
                                      dry: bool)
    requires whole.Keys == before.Keys + archive.Keys && Wrote(before, after, archive, asked, dry)
    ensures whole.Keys == after.Keys + archive.Keys
  {
  }

  lemma {:induction false} AskedConcat(a: seq<Visit>, b: seq<Visit>)
    ensures Asked(a + b) == Asked(a) + Asked(b)
  {
    var c := a + b;
    forall h | h in Asked(a) ensures h in Asked(c) {
      var i :| 0 <= i < |a| && a[i].ref.Hash? && a[i].ref.digest == h;
      assert c[i] == a[i];
    }
    forall h | h in Asked(b) ensures h in Asked(c) {
      var i :| 0 <= i < |b| && b[i].ref.Hash? && b[i].ref.digest == h;
      assert c[|a| + i] == b[i];
    }
    forall h | h in Asked(c) ensures h in Asked(a) + Asked(b) {
      var i :| 0 <= i < |c| && c[i].ref.Hash? && c[i].ref.digest == h;
      assert c[i] == if i < |a| then a[i] else b[i - |a|];
    }
  }

  /** Only a hash is asked for. */
  function AskedOf(ref: Ref): (hs: set<Digest>) {
    if ref.Hash? then {ref.digest} else {}
  }

  lemma {:induction false} AskedOne(v: Visit)
    ensures Asked([v]) == AskedOf(v.ref)
  {
    if v.ref.Hash? {
      assert [v][0].ref.Hash?;
    }
  }

  /** What a pass that asked for some hashes leaves in the chunk. */
  ghost predicate Wrote(before: Store, after: Store, archive: Store, asked: set<Digest>, dry: bool) {
    after.Keys == (if dry then before.Keys else before.Keys + asked * archive.Keys)
  }

  lemma {:induction false} WroteTwice(a: Store, b: Store, c: Store, archive: Store, x: set<Digest>, y: set<Digest>,
                                      dry: bool)
    requires Wrote(a, b, archive, x, dry) && Wrote(b, c, archive, y, dry)
    ensures Wrote(a, c, archive, x + y, dry)
  {
  }

  /** `walk_all`: split the keys at the node, and take each side on only if some key goes there. */
  method WalkAll(ps: PatchStore, n: Node, keys: seq<Key>, ghost p: Key, ghost whole: Store)
    requires ps.Holds(whole)
    modifies ps
    ensures ps.Holds(whole) && Wrote(old(ps.chunk), ps.chunk, ps.archive, Asked(Visits(n, keys, p, whole)), ps.dry)
    ensures !ps.dry ==> ps.added == old(ps.added) + (|ps.chunk| - |old(ps.chunk)|)
    decreases n, 0
  {
    hide TurnAt, ChildVisits, HashOf, Sound, Wrote, Asked;
    var goLeft, goRight := SplitKeys(n, keys);
    ghost var at := p + n.path;
    WalkChild(ps, n.left, goLeft, at + [false], whole);
    ghost var mid := ps.chunk;
    WalkChild(ps, n.right, goRight, at + [true], whole);
    AskedConcat(ChildVisits(n.left, goLeft, at + [false], whole), ChildVisits(n.right, goRight, at + [true], whole));
    WroteTwice(old(ps.chunk), mid, ps.chunk, ps.archive, Asked(ChildVisits(n.left, goLeft, at + [false], whole)),
               Asked(ChildVisits(n.right, goRight, at + [true], whole)), ps.dry);
  }

  /** One key further: what is set aside and what is left still make up the keys that go this way. */
  lemma {:induction false} OnwardStep(n: Node, keys: seq<Key>, i: nat, bit: bool, aside: seq<Key>)
    requires i < |keys| && aside + Onward(n, keys[i..], bit) == Onward(n, keys, bit)
    ensures var turn := TurnAt(n, keys[i]);
            (if turn.Descends? && turn.bit == bit then aside + [turn.rest] else aside) + Onward(n, keys[i + 1..], bit)
            == Onward(n, keys, bit)
  {
    hide TurnAt;
    var tail := keys[i..];
    assert tail[0] == keys[i] && tail[1..] == keys[i + 1..];
  }

  method SplitKeys(n: Node, keys: seq<Key>) returns (goLeft: seq<Key>, goRight: seq<Key>)
    ensures goLeft == Onward(n, keys, false) && goRight == Onward(n, keys, true)
  {
    hide TurnAt, Onward;
    goLeft, goRight := [], [];
    assert keys[0..] == keys;
    for i := 0 to |keys|
      invariant goLeft + Onward(n, keys[i..], false) == Onward(n, keys, false)
      invariant goRight + Onward(n, keys[i..], true) == Onward(n, keys, true)
    {
      OnwardStep(n, keys, i, false, goLeft);
      OnwardStep(n, keys, i, true, goRight);
      var turn := TurnAt(n, keys[i]);
      if turn.Descends? {
        if turn.bit {
          goRight := goRight + [turn.rest];
        } else {
          goLeft := goLeft + [turn.rest];
        }
      }
    }
    OnwardNone(n, false);
    OnwardNone(n, true);
    assert keys[|keys|..] == [] && goLeft + [] == goLeft && goRight + [] == goRight;
  }

  lemma {:induction false} OnwardNone(n: Node, bit: bool)
    ensures Onward(n, [], bit) == []
  {
  }

  /** A visited child, then everything below it. */
  lemma {:induction false} ChildWrote(before: Store, mid: Store, after: Store, archive: Store, r: Ref, keys: seq<Key>,
                                      at: Key, whole: Store, dry: bool)
    requires Sound(whole) && keys != [] && Wrote(before, mid, archive, AskedOf(r), dry)
    requires var child := Resolve(r, whole);
             if child.Some? then Wrote(mid, after, archive, Asked(Visits(child.value, keys, at, whole)), dry)
             else after == mid
    ensures Wrote(before, after, archive, Asked(ChildVisits(r, keys, at, whole)), dry)
  {
    hide Sound, Asked, Visits, Wrote;
    var child := Resolve(r, whole);
    AskedOne(Visit(at, r));
    if child.Some? {
      var below := Visits(child.value, keys, at, whole);
      AskedConcat([Visit(at, r)], below);
      WroteTwice(before, mid, after, archive, AskedOf(r), Asked(below), dry);
    } else {
      assert [Visit(at, r)] + [] == [Visit(at, r)];
    }
  }

  lemma {:induction false} NothingWrote(chunk: Store, archive: Store, r: Ref, at: Key, whole: Store, dry: bool)
    requires Sound(whole)
    ensures Wrote(chunk, chunk, archive, Asked(ChildVisits(r, [], at, whole)), dry)
  {
    hide Sound, Asked;
    AskedNone();
  }

  method WalkChild(ps: PatchStore, r: Ref, keys: seq<Key>, ghost at: Key, ghost whole: Store)
    requires ps.Holds(whole)
    modifies ps
    ensures ps.Holds(whole)
    ensures Wrote(old(ps.chunk), ps.chunk, ps.archive, Asked(ChildVisits(r, keys, at, whole)), ps.dry)
    ensures !ps.dry ==> ps.added == old(ps.added) + (|ps.chunk| - |old(ps.chunk)|)
    decreases r, 1
  {
    hide HashOf, Sound, Asked, Visits, ChildVisits, Wrote, AskedOf, ps.Valid;
    if keys == [] {
      NothingWrote(ps.chunk, ps.archive, r, at, whole, ps.dry);
      return;
    }
    ghost var before := ps.chunk;
    var child := ps.ResolveChild(r, whole);
    ghost var mid := ps.chunk;
    if child.Some? {
      WalkAll(ps, child.value, keys, at, whole);
    }
    ChildWrote(before, mid, ps.chunk, ps.archive, r, keys, at, whole, ps.dry);
  }

  lemma {:induction false} AskedNone()
    ensures Asked([]) == {}
  {
  }

  // ----- the checkpointed pass

  /** What one run of the tool is over. */
  datatype Job = Job(first: nat, stride: nat, roots: map<nat, Digest>, keys: seq<Key>) {
    ghost predicate Valid() { stride >= 1 }

    /** The height of the `i`-th state root. */
    function At(i: nat): (n: nat) { first + i * stride }
  }

  /** The first `count` state roots are repaired. */
  ghost predicate Done(job: Job, count: nat, chunk: Store, whole: Store)
    requires Sound(whole)
  {
    forall i: nat :: i < count && job.At(i) in job.roots ==> Repaired(job.roots[job.At(i)], job.keys, chunk, whole)
  }

  /** A checkpoint written after the first `count` state roots. */
  ghost predicate Marks(job: Job, ckpt: Option<nat>, count: nat) {
    ckpt == if count == 0 then None else Some(job.At(count - 1))
  }

  lemma {:induction false} DoneGrows(job: Job, count: nat, chunk: Store, more: Store, whole: Store)
    requires Sound(whole) && Done(job, count, chunk, whole) && Within(chunk, more)
    ensures Done(job, count, more, whole)
  {
    hide Needs, Sound;
  }

  lemma {:induction false} DoneNext(job: Job, count: nat, chunk: Store, whole: Store)
    requires Sound(whole) && Done(job, count, chunk, whole)
    requires job.At(count) in job.roots ==> Repaired(job.roots[job.At(count)], job.keys, chunk, whole)
    ensures Done(job, count + 1, chunk, whole)
  {
    hide Repaired, Sound, Job.At;
  }

  lemma {:induction false} RootWrote(before: Store, mid: Store, after: Store, archive: Store, root: Digest,
                                     keys: seq<Key>, whole: Store, dry: bool)
    requires Sound(whole) && Wrote(before, mid, archive, {root}, dry)
    requires if root in whole then Wrote(mid, after, archive, Asked(Visits(whole[root], keys, [], whole)), dry)
             else after == mid
    ensures Wrote(before, after, archive, Needs(root, keys, whole), dry)
  {
    hide Sound, Asked, Visits, Wrote;
    if root in whole {
      WroteTwice(before, mid, after, archive, {root}, Asked(Visits(whole[root], keys, [], whole)), dry);
    } else {
      assert {root} + {} == {root};
    }
  }

  /** One root: the root node itself, then every path below it. */
  method RepairRoot(ps: PatchStore, root: Digest, keys: seq<Key>, ghost whole: Store)
    requires ps.Holds(whole)
    modifies ps
    ensures ps.Holds(whole) && Wrote(old(ps.chunk), ps.chunk, ps.archive, Needs(root, keys, whole), ps.dry)
    ensures !ps.dry ==> ps.added == old(ps.added) + (|ps.chunk| - |old(ps.chunk)|)
  {
    hide HashOf, Sound, Asked, Visits, Wrote, Needs, ps.Valid;
    ghost var before := ps.chunk;
    var message := ps.ResolveChild(Hash(root), whole);
    ghost var mid := ps.chunk;
    if message.Some? {
      WalkAll(ps, message.value, keys, [], whole);
    }
    RootWrote(before, mid, ps.chunk, ps.archive, root, keys, whole, ps.dry);
  }

  /** A real pass over a root leaves it repaired, and a pass over a repaired root writes nothing. */
  lemma {:induction false} PassRepairs(root: Digest, keys: seq<Key>, before: Store, after: Store, archive: Store,
                                       whole: Store)
    requires Sound(whole) && whole.Keys == before.Keys + archive.Keys
    requires Wrote(before, after, archive, Needs(root, keys, whole), false)
    ensures Repaired(root, keys, after, whole)
    ensures Repaired(root, keys, before, whole) ==> after.Keys == before.Keys
  {
    hide Needs, Sound;
  }

  /** When a run is killed: after how many roots, and which lookups of the next one had been made. */
  datatype Kill = Kill(after: nat, partial: seq<Digest>)

  function Least(a: int, b: int): (r: int) {
    if a <= b then a else b
  }

  lemma {:induction false} AtNext(job: Job, i: nat)
    ensures job.At(i + 1) == job.At(i) + job.stride
  {
  }

  lemma {:induction false} AtCount(job: Job, ckpt: Option<nat>, count: nat)
    requires Marks(job, ckpt, count)
    ensures job.At(count) == (if ckpt.Some? then ckpt.value + job.stride else job.first) && job.At(count) >= job.first
  {
    if count > 0 {
      AtNext(job, count - 1);
    }
  }

  lemma {:induction false} WroteGrows(before: Store, after: Store, archive: Store, asked: set<Digest>, dry: bool)
    requires Wrote(before, after, archive, asked, dry)
    ensures Within(before, after) && (dry ==> after.Keys == before.Keys)
  {
  }

  /** Where a run stands: how far the chunk is repaired, and how far the checkpoint says it is. */
  datatype Standing = Standing(saved: Option<nat>, marked: nat, reached: nat)

  ghost predicate Stands(job: Job, at: Standing, from: Standing, start: Store, chunk: Store, whole: Store, dry: bool)
    requires Sound(whole)
  {
    && Within(start, chunk)
    && Marks(job, at.saved, at.marked) && Done(job, at.marked, chunk, whole) && from.marked <= at.marked
    && (if dry then chunk.Keys == start.Keys && at.saved == from.saved && at.marked == from.marked
        else Done(job, at.reached, chunk, whole))
  }

  lemma {:induction false} StandsNext(job: Job, at: Standing, from: Standing, start: Store, before: Store,
                                      after: Store, archive: Store, whole: Store, dry: bool)
    requires Sound(whole) && Stands(job, at, from, start, before, whole, dry)
             && whole.Keys == before.Keys + archive.Keys
    requires job.At(at.reached) in job.roots
             && Wrote(before, after, archive, Needs(job.roots[job.At(at.reached)], job.keys, whole), dry)
    ensures Stands(job, at.(reached := at.reached + 1), from, start, after, whole, dry)
  {
    hide Sound, Needs, Repaired, Done, Job.At;
    var root := job.roots[job.At(at.reached)];
    WroteGrows(before, after, archive, Needs(root, job.keys, whole), dry);
    DoneGrows(job, at.marked, before, after, whole);
    if !dry {
      PassRepairs(root, job.keys, before, after, archive, whole);
      DoneGrows(job, at.reached, before, after, whole);
      DoneNext(job, at.reached, after, whole);
    }
  }

  lemma {:induction false} StandsKilled(job: Job, at: Standing, from: Standing, start: Store, before: Store,
                                        after: Store, whole: Store, dry: bool)
    requires Sound(whole) && Stands(job, at, from, start, before, whole, dry)
    requires Within(before, after) && (dry ==> after.Keys == before.Keys)
    ensures Stands(job, at, from, start, after, whole, dry)
  {
    hide Sound, Done;
    DoneGrows(job, at.marked, before, after, whole);
    if !dry {
      DoneGrows(job, at.reached, before, after, whole);
    }
  }

  lemma {:induction false} StandsSaved(job: Job, at: Standing, from: Standing, start: Store, chunk: Store, whole: Store)
    requires Sound(whole) && Stands(job, at, from, start, chunk, whole, false) && 0 < at.reached
             && from.marked <= at.reached
    ensures Stands(job, Standing(Some(job.At(at.reached - 1)), at.reached, at.reached), from, start, chunk, whole,
                   false)
  {
    hide Sound, Done, Job.At;
  }

  method RepairNext(ps: PatchStore, job: Job, n: nat, ghost at: Standing, ghost from: Standing, ghost start: Store,
                    ghost whole: Store)
    requires ps.Holds(whole) && Stands(job, at, from, start, ps.chunk, whole, ps.dry) && n == job.At(at.reached)
             && n in job.roots
    modifies ps
    ensures ps.Holds(whole) && Stands(job, at.(reached := at.reached + 1), from, start, ps.chunk, whole, ps.dry)
  {
    hide HashOf, Sound, Needs, Wrote, Stands, Job.At;
    ghost var before := ps.chunk;
    RepairRoot(ps, job.roots[n], job.keys, whole);
    StandsNext(job, at, from, start, before, ps.chunk, ps.archive, whole, ps.dry);
  }

  /** Killed part of the way through a root, some of its lookups made. */
  method Interrupted(ps: PatchStore, job: Job, partial: seq<Digest>, ghost at: Standing, ghost from: Standing,
                     ghost start: Store, ghost whole: Store)
    requires ps.Holds(whole) && Stands(job, at, from, start, ps.chunk, whole, ps.dry)
    modifies ps
    ensures ps.Holds(whole) && Stands(job, at, from, start, ps.chunk, whole, ps.dry)
  {
    hide HashOf, Sound, Stands;
    for i := 0 to |partial|
      invariant ps.Holds(whole) && Stands(job, at, from, start, ps.chunk, whole, ps.dry)
    {
      ghost var before := ps.chunk;
      var _ := ps.Get(partial[i]);
      StandsKilled(job, at, from, start, before, ps.chunk, whole, ps.dry);
    }
  }

  /** The last root of a run. The sum is a machine word: nothing at all from block 0 wraps around to no limit. */
  function LastRoot(first: nat, limit: Option<nat>, end: nat): (r: int)
    ensures r <= end
    ensures limit.None? || first + limit.value == 0 ==> r == end
    ensures limit.Some? && first + limit.value > 0 ==> r == end || r == first + limit.value - 1
    ensures limit.Some? && first + limit.value > 0 ==> r < first + limit.value
  {
    if limit.None? || first + limit.value == 0 then end else Least(first + limit.value - 1, end)
  }

  /** Every state root from the `count`-th up to the `reached`-th is one the chain has. */
  ghost predicate Present(job: Job, count: nat, reached: nat) {
    forall i: nat :: count <= i < reached ==> job.At(i) in job.roots
  }

  lemma {:induction false} PresentNext(job: Job, count: nat, reached: nat)
    requires Present(job, count, reached) && job.At(reached) in job.roots
    ensures Present(job, count, reached + 1)
  {
    hide Job.At;
  }

  lemma {:induction false} AtMono(job: Job, i: nat, j: nat)
    requires i <= j
    ensures job.At(i) <= job.At(j)
  {
    assert j * job.stride == i * job.stride + (j - i) * job.stride;
  }

  /** Every root up to `end` is present and repaired. */
  ghost predicate AllRepaired(job: Job, count: nat, end: nat, chunk: Store, whole: Store)
    requires Sound(whole)
  {
    forall i: nat :: job.At(i) <= end ==>
      && (i >= count ==> job.At(i) in job.roots)
      && (job.At(i) in job.roots ==> Repaired(job.roots[job.At(i)], job.keys, chunk, whole))
  }

  lemma {:induction false} AllDone(job: Job, count: nat, marked: nat, end: nat, chunk: Store, whole: Store)
    requires Sound(whole) && Done(job, marked, chunk, whole) && Present(job, count, marked) && job.At(marked) > end
    ensures AllRepaired(job, count, end, chunk, whole)
  {
    hide Sound, Repaired, Job.At;
    forall i: nat | job.At(i) <= end
      ensures i < marked
    {
      if i >= marked {
        AtMono(job, marked, i);
      }
    }
  }

  /**
   The loop of `main`: the checkpoint on disk always marks roots that are repaired, at most 1,999 behind the walk,
   wherever the run is killed. A run that is not stopped leaves everything up to the end of the chunk repaired and
   marked, or up to its limit.
   */
  method Pass(ps: PatchStore, job: Job, ckpt: Option<nat>, end: nat, limit: Option<nat>, kill: Option<Kill>,
              ghost whole: Store, ghost count: nat)
    returns (saved: Option<nat>, finished: bool, ghost marked: nat, ghost reached: nat)
    requires ps.Holds(whole) && job.Valid() && Marks(job, ckpt, count) && Done(job, count, ps.chunk, whole)
    modifies ps
    ensures ps.Holds(whole) && Within(old(ps.chunk), ps.chunk)
    ensures Marks(job, saved, marked) && Done(job, marked, ps.chunk, whole) && marked >= count
    ensures ps.dry ==> ps.chunk.Keys == old(ps.chunk).Keys && saved == ckpt
    ensures reached >= count && Present(job, count, reached)
    ensures !ps.dry ==> Done(job, reached, ps.chunk, whole) && marked <= reached < marked + 2000
    ensures !finished ==> job.At(reached) !in job.roots || (kill.Some? && kill.value.after == reached - count)
    ensures reached > count ==> job.At(reached - 1) <= end
    ensures reached > count && limit.Some? && job.At(count) + limit.value > 0 ==>
              job.At(reached - 1) < job.At(count) + limit.value
    ensures finished && !ps.dry ==> marked == reached
    ensures finished && limit.Some? && job.At(count) + limit.value > 0 ==>
              job.At(reached) > end || job.At(reached) >= job.At(count) + limit.value
    ensures finished && (limit.None? || job.At(count) + limit.value == 0) ==>
              job.At(reached) > end && (!ps.dry ==> AllRepaired(job, count, end, ps.chunk, whole))
  {
    hide HashOf, Sound, Needs, Repaired, Done, Job.At, Wrote, Marks, Within, Stands, LastRoot, Present, AllRepaired,
         ps.Valid;
    var first := if ckpt.Some? then ckpt.value + job.stride else job.first;
    AtCount(job, ckpt, count);
    if first < job.first {
      first := job.first;
    }
    var last := LastRoot(first, limit, end);
    saved, finished, marked, reached := ckpt, false, count, count;
    ghost var from := Standing(ckpt, count, count);
    ghost var at := from;
    var n, done := first, 0;
    StandsFirst(job, from, ps.chunk, whole, ps.dry);
    assert Present(job, count, count) by { PresentNone(job, count); }
    while n <= last
      invariant ps.Holds(whole) && n == job.At(at.reached) && at.reached == reached == count + done && at.saved == saved
                && at.marked == marked
      invariant Stands(job, at, from, old(ps.chunk), ps.chunk, whole, ps.dry)
      invariant Present(job, count, reached)
      invariant reached > count ==> job.At(reached - 1) <= last
      invariant !ps.dry ==> reached == marked + (if n <= last then done % 2000 else 0)
      decreases last + job.stride - n
    {
      if kill.Some? && kill.value.after == done {
        Interrupted(ps, job, kill.value.partial, at, from, old(ps.chunk), whole);
        StandsMeans(job, at, from, old(ps.chunk), ps.chunk, whole, ps.dry);
        return;
      }
      if n !in job.roots {
        StandsMeans(job, at, from, old(ps.chunk), ps.chunk, whole, ps.dry);
        return;
      }
      RepairNext(ps, job, n, at, from, old(ps.chunk), whole);
      PresentNext(job, count, reached);
      reached := reached + 1;
      at := at.(reached := reached);
      done := done + 1;
      if done % 2000 == 0 || n + job.stride > last {
        if !ps.dry {
          StandsSaved(job, at, from, old(ps.chunk), ps.chunk, whole);
          at := Standing(Some(n), at.reached, at.reached);
          saved, marked := Some(n), at.reached;
        }
      }
      AtNext(job, at.reached - 1);
      n := n + job.stride;
    }
    StandsMeans(job, at, from, old(ps.chunk), ps.chunk, whole, ps.dry);
    finished := true;
    if !ps.dry && last == end {
      AllDone(job, count, marked, end, ps.chunk, whole);
    }
  }

  lemma {:induction false} PresentNone(job: Job, count: nat)
    ensures Present(job, count, count)
  {
  }

  lemma {:induction false} StandsMeans(job: Job, at: Standing, from: Standing, start: Store, chunk: Store,
                                       whole: Store, dry: bool)
    requires Sound(whole) && Stands(job, at, from, start, chunk, whole, dry)
    ensures Within(start, chunk) && Marks(job, at.saved, at.marked) && Done(job, at.marked, chunk, whole)
            && from.marked <= at.marked
    ensures if dry then chunk.Keys == start.Keys && at.saved == from.saved else Done(job, at.reached, chunk, whole)
  {
    hide Sound, Done;
  }

  lemma {:induction false} StandsFirst(job: Job, from: Standing, chunk: Store, whole: Store, dry: bool)
    requires Sound(whole) && Marks(job, from.saved, from.marked) && Done(job, from.marked, chunk, whole)
             && from.reached == from.marked
    ensures Stands(job, from, from, chunk, chunk, whole, dry)
  {
    hide Sound, Done;
  }
}

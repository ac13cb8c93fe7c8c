/**
 The content-addressed radix-2 trie the chunk and diff tools walk (crates/trie/src/node.rs). A hash is modelled as the
 term naming what was hashed, so equal hashes are equal messages and a hash can never lead back to itself.
 */
module Trie {
  import opened Options

  type Key = seq<bool>

  type Bytes = seq<bv8>

  datatype Node = Node(path: Key, value: Option<Bytes>, left: Ref, right: Ref)

  /** A child: absent, named by hash, or held in memory (a decoded embedded leaf, or a node not yet saved). */
  datatype Ref = Empty | Hash(digest: Digest) | Held(node: Node)

  /** The hash of the empty trie, or of a serialized node. */
  datatype Digest = EmptyTrie | Of(message: Node)

  type Store = map<Digest, Node>

  /** Every entry is the decoded message its key is the hash of. */
  ghost predicate Sound(s: Store) {
    forall h :: h in s ==> h.Of? && s[h] == h.message && HashOf(s[h]) == h
  }

  // ----- hashing

  predicate IsTerminal(n: Node) {
    n.left.Empty? && n.right.Empty?
  }

  predicate IsEmptyTrie(n: Node) {
    n.value.None? && IsTerminal(n)
  }

  function VarintSize(n: nat): (r: nat) {
    if n < 0xFD then 1 else if n <= 0xFFFF then 3 else if n <= 0xFFFF_FFFF then 5 else 9
  }

  function SharedPathLength(bits: nat): (r: nat) {
    if bits == 0 then 0
    else (if 1 <= bits <= 32 || 160 <= bits <= 382 then 1 else 1 + VarintSize(bits)) + (bits + 7) / 8
  }

  const MAX_EMBEDDED_NODE_SIZE: nat := 44

  /** A value over 32 bytes is written as its hash and a three-byte length. */
  function ValueLength(value: Option<Bytes>): (r: nat) {
    if value.None? then 0 else if |value.value| > 32 then 35 else |value.value|
  }

  /** Small leaves are written into their parent rather than under a hash of their own. */
  predicate IsEmbeddable(n: Node) {
    IsTerminal(n) && 1 + SharedPathLength(|n.path|) + ValueLength(n.value) <= MAX_EMBEDDED_NODE_SIZE
  }

  /** What is serialized of a child. */
  function Written(r: Ref): (w: Ref)
    decreases r
  {
    match r
    case Held(n) => if IsEmbeddable(n) then r else Hash(HashOf(n))
    case _ => r
  }

  function Message(n: Node): (m: Node)
    decreases n, 0
  {
    Node(n.path, n.value, Written(n.left), Written(n.right))
  }

  function HashOf(n: Node): (h: Digest)
    decreases n, 1
  {
    if IsEmptyTrie(n) then EmptyTrie else Of(Message(n))
  }

  function HashOfRef(r: Ref): (h: Option<Digest>) {
    match r
    case Empty => None
    case Hash(d) => Some(d)
    case Held(n) => Some(HashOf(n))
  }

  // ----- reading through a store

  function Resolve(r: Ref, s: Store): (n: Option<Node>)
    requires Sound(s)
    ensures n.Some? ==> n.value < r
  {
    match r
    case Empty => None
    case Hash(d) => if d in s then Some(s[d]) else None
    case Held(node) => Some(node)
  }

  function CommonLength(a: Key, b: Key): (n: nat)
    ensures n <= |a| && n <= |b| && a[..n] == b[..n]
    ensures n < |a| && n < |b| ==> a[n] != b[n]
  {
    if a == [] || b == [] || a[0] != b[0] then 0 else 1 + CommonLength(a[1..], b[1..])
  }

  function Child(n: Node, bit: bool): (r: Ref) {
    if bit then n.right else n.left
  }

  /** Where a key goes at a node: off the trie, to the node itself, or on to a child with the bits that remain. */
  datatype Turn = Leaves | Ends | Descends(bit: bool, rest: Key)

  function TurnAt(n: Node, key: Key): (t: Turn)
    ensures t.Descends? ==> |t.rest| < |key|
    ensures t.Ends? <==> key == n.path
    ensures t.Descends? <==> |n.path| < |key| && n.path == key[..|n.path|]
    ensures t.Descends? ==> key == n.path + [t.bit] + t.rest
  {
    if |n.path| > |key| then Leaves
    else
      var common := CommonLength(key, n.path);
      if common < |n.path| then Leaves
      else if common == |key| then Ends
      else Descends(key[common], key[common + 1..])
  }

  /** `TrieNode::find`. */
  function Find(n: Node, key: Key, s: Store): (r: Option<Node>)
    requires Sound(s)
    decreases n
  {
    match TurnAt(n, key)
    case Leaves => None
    case Ends => Some(n)
    case Descends(bit, rest) =>
      var child := Resolve(Child(n, bit), s);
      if child.None? then None else Find(child.value, rest, s)
  }

  /** `TrieNode::get`. */
  function Get(n: Node, key: Key, s: Store): (r: Option<Bytes>)
    requires Sound(s)
  {
    var found := Find(n, key, s);
    if found.None? then None else found.value.value
  }

  function GetRef(r: Ref, key: Key, s: Store): (v: Option<Bytes>)
    requires Sound(s)
  {
    var n := Resolve(r, s);
    if n.None? then None else Get(n.value, key, s)
  }

  /** Every hash met below is one the store can answer. */
  predicate Complete(r: Ref, s: Store)
    requires Sound(s)
    decreases r
  {
    match r
    case Empty => true
    case Hash(d) => d in s && Complete(s[d].left, s) && Complete(s[d].right, s)
    case Held(n) => Complete(n.left, s) && Complete(n.right, s)
  }
}

/** The key under which an alert is deduplicated (crates/alerts/src/alert.rs). */
module DedupKeys {
  import opened Strings
  import opened Transfers

  /** Alerts, with the fields their keys are built from; `rest` stands for the text that no key mentions. */
  datatype Alert =
    | LargePegout(rskTx: seq<Byte>, btcTx: seq<Byte>, rest: string)
    | LargeOutput(btcTxid: string, index: nat, rest: string)
    | InTransit(block: nat, rest: string)
    | NodeStalled(executed: nat, stalledSecs: nat, rest: string)
    | NodeBehind(best: nat, bestPeer: nat, rest: string)
    | NodeAhead(best: nat, bestPeer: nat, rest: string)
    | SupplyNotConserved(block: nat, rest: string)
    | LegacyMultisigPegin(btcTxid: string, rest: string)
    | ContractTransfer(tx: seq<Byte>, path: string, rest: string)

  function Tag(a: Alert): (t: string)
    ensures Lacks(t, ':')
  {
    match a
    case LargePegout(_, _, _) => "pegout"
    case LargeOutput(_, _, _) => "output"
    case InTransit(_, _) => "intransit"
    case NodeStalled(_, _, _) => "stalled"
    case NodeBehind(_, _, _) => "behind"
    case NodeAhead(_, _, _) => "ahead"
    case SupplyNotConserved(_, _) => "supply"
    case LegacyMultisigPegin(_, _) => "multisig-pegin"
    case ContractTransfer(_, _, _) => "contract-transfer"
  }

  /** What follows the tag. */
  function Rest(a: Alert): (s: string) {
    match a
    case LargePegout(rskTx, btcTx, _) => Hex(rskTx) + ":" + Hex(btcTx)
    case LargeOutput(txid, index, _) => txid + ":" + Decimal(index)
    case InTransit(block, _) => Decimal(block)
    case NodeStalled(executed, secs, _) => Decimal(executed) + ":" + Decimal(secs)
    case NodeBehind(best, peer, _) => Decimal(best) + ":" + Decimal(peer)
    case NodeAhead(best, peer, _) => Decimal(best) + ":" + Decimal(peer)
    case SupplyNotConserved(block, _) => Decimal(block)
    case LegacyMultisigPegin(txid, _) => txid
    case ContractTransfer(tx, path, _) => Hex(tx) + ":" + path
  }

  /** `dedup_key`. */
  function DedupKey(a: Alert): (k: string) {
    Tag(a) + ":" + Rest(a)
  }

  /** The same thing happening: the same kind of alert with the same identifying fields. */
  predicate SameEvent(a: Alert, b: Alert) {
    match (a, b)
    case (LargePegout(r, t, _), LargePegout(r', t', _)) => r == r' && t == t'
    case (LargeOutput(t, i, _), LargeOutput(t', i', _)) => t == t' && i == i'
    case (InTransit(n, _), InTransit(n', _)) => n == n'
    case (NodeStalled(e, s, _), NodeStalled(e', s', _)) => e == e' && s == s'
    case (NodeBehind(b, p, _), NodeBehind(b', p', _)) => b == b' && p == p'
    case (NodeAhead(b, p, _), NodeAhead(b', p', _)) => b == b' && p == p'
    case (SupplyNotConserved(n, _), SupplyNotConserved(n', _)) => n == n'
    case (LegacyMultisigPegin(t, _), LegacyMultisigPegin(t', _)) => t == t'
    case (ContractTransfer(t, p, _), ContractTransfer(t', p', _)) => t == t' && p == p'
    case _ => false
  }

  lemma {:induction false} DecimalPair(a: nat, b: nat, c: nat, d: nat)
    requires Decimal(a) + ":" + Decimal(b) == Decimal(c) + ":" + Decimal(d)
    ensures a == c && b == d
  {
    hide Decimal;
    DecimalLacks(b, ':');
    DecimalLacks(d, ':');
    CutLast(Decimal(a), Decimal(b), Decimal(c), Decimal(d), ':');
    DecimalInjective(a, c);
    DecimalInjective(b, d);
  }

  lemma {:induction false} OutputPair(t: string, i: nat, u: string, j: nat)
    requires t + ":" + Decimal(i) == u + ":" + Decimal(j)
    ensures t == u && i == j
  {
    hide Decimal;
    DecimalLacks(i, ':');
    DecimalLacks(j, ':');
    CutLast(t, Decimal(i), u, Decimal(j), ':');
    DecimalInjective(i, j);
  }

  lemma {:induction false} HexThen(t: seq<Byte>, x: string, u: seq<Byte>, y: string)
    requires Hex(t) + ":" + x == Hex(u) + ":" + y
    ensures t == u && x == y
  {
    hide Hex;
    HexLacks(t, ':');
    HexLacks(u, ':');
    CutFirst(Hex(t), x, Hex(u), y, ':');
    HexInjective(t, u);
  }

  lemma {:induction false} SameRest(a: Alert, b: Alert)
    requires Tag(a) == Tag(b) && Rest(a) == Rest(b)
    ensures SameEvent(a, b)
  {
    hide Hex, Decimal;
    SameTag(a, b);
    match a
    case LargePegout(r, t, _) => HexThen(r, Hex(t), b.rskTx, Hex(b.btcTx)); HexInjective(t, b.btcTx);
    case LargeOutput(t, i, _) => OutputPair(t, i, b.btcTxid, b.index);
    case InTransit(n, _) => DecimalInjective(n, b.block);
    case NodeStalled(e, s, _) => DecimalPair(e, s, b.executed, b.stalledSecs);
    case NodeBehind(h, p, _) => DecimalPair(h, p, b.best, b.bestPeer);
    case NodeAhead(h, p, _) => DecimalPair(h, p, b.best, b.bestPeer);
    case SupplyNotConserved(n, _) => DecimalInjective(n, b.block);
    case LegacyMultisigPegin(_, _) =>
    case ContractTransfer(t, p, _) => HexThen(t, p, b.tx, b.path);
  }

  /** No two kinds of alert share a tag. */
  lemma {:induction false} SameTag(a: Alert, b: Alert)
    requires Tag(a) == Tag(b)
    ensures a.LargePegout? == b.LargePegout? && a.LargeOutput? == b.LargeOutput? && a.InTransit? == b.InTransit?
    ensures a.NodeStalled? == b.NodeStalled? && a.NodeBehind? == b.NodeBehind? && a.NodeAhead? == b.NodeAhead?
    ensures a.SupplyNotConserved? == b.SupplyNotConserved? && a.LegacyMultisigPegin? == b.LegacyMultisigPegin?
    ensures a.ContractTransfer? == b.ContractTransfer?
  {
    assert |Tag(a)| == |Tag(b)| && Tag(a)[0] == Tag(b)[0];
  }

  /** Two alerts have the same key exactly when they report the same event. */
  lemma {:induction false} KeyIdentifies(a: Alert, b: Alert)
    ensures DedupKey(a) == DedupKey(b) <==> SameEvent(a, b)
  {
    hide Hex, Decimal;
    if DedupKey(a) == DedupKey(b) {
      CutFirst(Tag(a), Rest(a), Tag(b), Rest(b), ':');
      SameRest(a, b);
    }
  }

  /** The alerts of one transaction's transfers: no two of them are ever taken for the same. */
  lemma {:induction false} TransferKeysDistinct(tx: seq<Byte>, sender: Address, destination: Address, value: nat,
                                                success: bool, trace: seq<Subtrace>, i: nat, j: nat)
    requires var ts := AllTransfers(sender, destination, value, success, trace); i < j < |ts|
    ensures var ts := AllTransfers(sender, destination, value, success, trace);
            DedupKey(ContractTransfer(tx, ts[i].path, "")) != DedupKey(ContractTransfer(tx, ts[j].path, ""))
  {
    hide AllTransfers, MadeAt, DedupKey;
    var ts := AllTransfers(sender, destination, value, success, trace);
    AllTransfersIff(sender, destination, value, success, trace, ts[i]);
    assert ts[i].path != ts[j].path;
    KeyIdentifies(ContractTransfer(tx, ts[i].path, ""), ContractTransfer(tx, ts[j].path, ""));
  }
}

/** Spending and viewing keys as values. */
module Keys {
  import opened Bytes
  import opened Scalars

  type Bytes32 = s: seq<byte> | |s| == 32 witness seq(32, _ => 0)
  type NonZeroFr = x: int | 0 < x < JUBJUB_ORDER witness 1

  datatype ExpandedSpendingKey = ExpandedSpendingKey(ask: NonZeroFr, nsk: Fr, ovk: Bytes32)

  datatype FullViewingKey<P> = FullViewingKey(ak: P, nk: P, ovk: Bytes32)
}

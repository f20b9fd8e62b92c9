/** The records the path search of src/price/graph.ts passes around. */
module PathTypes {
  import opened Wrappers

  datatype EdgeKind = XykEdge | StableswapEdge | AtokenEdge | UniswapV3Edge

  /** A graph edge.  The two closures of the source are function values here, so every result
      about the search holds for any pool arithmetic whatsoever. */
  datatype Edge = Edge(
    toAsset: int,
    kind: EdgeKind,
    computePrice: int -> int,
    computeLiquidityUsd: Option<(int, int) -> int>)

  type Graph = map<int, seq<Edge>>

  datatype Seed = Seed(asset: int, price: int)

  /** One priced path: the price at its end, the pool crossings, the liquidity, and the assets
      it visits from the seed on. */
  datatype Observation = Observation(price: int, hops: int, liquidity: int, path: seq<int>)

  /** The string `price:hops:path` under which the source indexes an observation. */
  datatype Key = Key(price: int, hops: int, path: seq<int>)

  function KeyOf(o: Observation): Key { Key(o.price, o.hops, o.path) }
}

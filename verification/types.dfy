/** The records the dashboard passes around: tokens of the token list,
    leaderboard entries and swap records of the exchange API. Numbers are
    modelled as reals, optional fields as `Option`. Fields no modelled
    operation reads are left out. */
module Types {
  import opened Base

  /** A token of the token list; the market metrics are optional. */
  datatype Token = Token(
    chainId: int,
    address: string,
    name: string,
    symbol: string,
    decimals: int,
    logoURI: string,
    price: Option<real>,
    change24h: Option<real>,
    volume24h: Option<real>,
    marketCap: Option<real>)

  datatype Volume = Volume(chz: real, token: real, usd: real)

  /** Share of the competition's total volume, in percent, per currency. */
  datatype Share = Share(chz: real, token: real)

  /** One trader's row of the leaderboard. */
  datatype Entry = Entry(
    rank: int,
    address: string,
    nickname: Option<string>,
    twitterHandle: Option<string>,
    totalVolume: Volume,
    score: real,
    percentageOfTotal: Share,
    badges: seq<string>,
    tier: string,
    isVerified: bool)

  /** One swap as the exchange API returns it, for both the recent-swaps
      feed and a trader's transaction list (the two share one shape). The
      timestamp is kept as milliseconds since the epoch. */
  datatype Swap = Swap(
    id: string,
    txHash: string,
    txFromAddress: string,
    timestampMs: int,
    fromTokenAmount: real,
    toTokenAmount: real,
    priceFromInUSD: real,
    priceToInUSD: real,
    fromTokenTotalInUSD: real,
    toTokenTotalInUSD: real,
    fromTokenSymbol: string,
    toTokenSymbol: string,
    fromTokenAddress: string,
    toTokenAddress: string)
}

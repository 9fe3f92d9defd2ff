/** A trader's transaction list for one token: its loading state machine,
    the Buy/Sell classification, price changes and the summary figures. */
module SwapDetails {
  import opened Base
  import opened Types

  /** The component's state. */
  datatype TxState = TxState(transactions: seq<Swap>, loading: bool, error: Option<string>)

  /** Before the first fetch: no transactions, loading. */
  function InitialState(): (r: TxState)
    ensures r.loading && r.transactions == [] && r.error.None?
  {
    TxState([], true, None)
  }

  /** The start of `fetchTransactions`: loading, with the error cleared. */
  function BeginFetch(s: TxState): (r: TxState)
    ensures r.loading && r.error.None? && r.transactions == s.transactions
  {
    s.(loading := true, error := None)
  }

  /** `fetchTransactions` from request to `finally`. */
  function FetchTransactions(s: TxState, outcome: FetchOutcome<seq<Swap>>): (r: TxState)
    ensures !r.loading
    ensures outcome.Loaded? ==> r.transactions == outcome.data && r.error.None?
    ensures !outcome.Loaded? ==>
              r.transactions == s.transactions
              && r.error == Some(FailureMessage(outcome, "Failed to fetch transactions"))
  {
    var started := BeginFetch(s);
    match outcome
    case Loaded(data) => started.(transactions := data, loading := false)
    case _ => started.(error := Some(FailureMessage(outcome, "Failed to fetch transactions")), loading := false)
  }

  /** A request that throws a non-empty message ends with that message as a
      truthy error, so the error view replaces the previous list. */
  lemma FailedFetchShowsError(s: TxState, message: string)
    requires message != ""
    ensures var r := FetchTransactions(s, Thrown(message));
            !r.loading && Truthy(r.error) && r.error.value == message
  {
  }

  // ------------------------------------------------------------ one transaction

  datatype TxType = Buy | Sell

  /** `getTransactionType`: selling the page's ticker is a Sell. */
  function TransactionType(tx: Swap, ticker: string): (r: TxType)
    ensures r == Sell <==> tx.fromTokenSymbol == ticker
    ensures r == Buy <==> tx.fromTokenSymbol != ticker
  {
    if tx.fromTokenSymbol == ticker then Sell else Buy
  }

  /** A swap between two different tokens reads as opposite trades on their
      two pages: a Sell on the page of the token it gives up and a Buy on the
      page of the token it receives. */
  lemma SwapSidesOpposite(tx: Swap)
    requires tx.fromTokenSymbol != tx.toTokenSymbol
    ensures TransactionType(tx, tx.fromTokenSymbol) == Sell
    ensures TransactionType(tx, tx.toTokenSymbol) == Buy
    ensures TransactionType(tx, tx.fromTokenSymbol) != TransactionType(tx, tx.toTokenSymbol)
  {
  }

  /** What `getPriceChange` returns. */
  datatype PriceChange = PriceChange(value: real, percentage: JsNumber, isPositive: bool)

  /** `getPriceChange`: the USD price difference, its percentage of the
      starting price, and whether it rose. */
  function GetPriceChange(tx: Swap): (r: PriceChange)
    ensures tx.priceFromInUSD + r.value == tx.priceToInUSD
    ensures r.isPositive <==> tx.priceToInUSD > tx.priceFromInUSD
    ensures tx.priceFromInUSD != 0.0 ==>
              r.percentage.Finite? && r.percentage.value * tx.priceFromInUSD == 100.0 * r.value
    ensures tx.priceFromInUSD > 0.0 ==> (r.isPositive <==> r.percentage.value > 0.0)
    ensures tx.priceFromInUSD < 0.0 ==> (r.isPositive <==> r.percentage.value < 0.0)
    ensures tx.priceFromInUSD == 0.0 ==> !r.percentage.Finite?
    ensures tx.priceFromInUSD == 0.0 ==> (r.percentage == NaN <==> tx.priceToInUSD == 0.0)
  {
    var priceDiff := tx.priceToInUSD - tx.priceFromInUSD;
    PercentOfDifference(priceDiff, tx.priceFromInUSD);
    var percentage := match JsDivide(priceDiff, tx.priceFromInUSD)
      case Finite(q) => Finite(q * 100.0)
      case other => other;
    PriceChange(priceDiff, percentage, priceDiff > 0.0)
  }

  /** `diff / from * 100` times `from` is `100 * diff`, and its sign is the
      sign of `diff` for a positive `from` and the opposite for a negative one. */
  lemma PercentOfDifference(diff: real, from: real)
    ensures from != 0.0 ==> diff / from * 100.0 * from == 100.0 * diff
    ensures from > 0.0 ==> (diff > 0.0 <==> diff / from * 100.0 > 0.0)
    ensures from < 0.0 ==> (diff > 0.0 <==> diff / from * 100.0 < 0.0)
  {
    if from != 0.0 {
      var q := diff / from;
      assert q * from == diff;
      assert q * 100.0 * from == 100.0 * (q * from);
      if from > 0.0 {
        assert q > 0.0 <==> q * from > 0.0;
      } else {
        assert q > 0.0 <==> q * from < 0.0;
      }
    }
  }

  // ------------------------------------------------------------ summary

  /** `reduce((sum, tx) => sum + tx.FromTokenTotalInUSD, 0)`, folded from
      the left. */
  function TotalVolume(txs: seq<Swap>): real {
    if |txs| == 0 then 0.0
    else TotalVolume(txs[..|txs| - 1]) + txs[|txs| - 1].fromTokenTotalInUSD
  }

  /** The total of two lists one after the other is the sum of their totals. */
  lemma {:induction false} TotalVolumeAppend(a: seq<Swap>, b: seq<Swap>)
    ensures TotalVolume(a + b) == TotalVolume(a) + TotalVolume(b)
    decreases |b|
  {
    if |b| > 0 {
      assert (a + b)[..|a + b| - 1] == a + b[..|b| - 1];
      TotalVolumeAppend(a, b[..|b| - 1]);
    } else {
      assert a + b == a;
    }
  }

  /** With every transaction worth between 0 and `bound`, the total lies
      between 0 and `|txs| * bound`. */
  lemma {:induction false} TotalVolumeBounds(txs: seq<Swap>, bound: real)
    requires forall i :: 0 <= i < |txs| ==> 0.0 <= txs[i].fromTokenTotalInUSD <= bound
    ensures 0.0 <= TotalVolume(txs) <= (|txs| as real) * bound
    decreases |txs|
  {
    if |txs| > 0 {
      TotalVolumeBounds(txs[..|txs| - 1], bound);
    }
  }

  /** `avgTransactionSize` as written: `totalVolume / totalTransactions`,
      with no guard for an empty list. */
  function AverageAsWritten(txs: seq<Swap>): (r: JsNumber)
    ensures |txs| > 0 ==> r == Finite(TotalVolume(txs) / (|txs| as real))
  {
    JsDivide(TotalVolume(txs), |txs| as real)
  }

  /** With no transactions the average is 0 / 0, NaN, which the card prints
      as "$NaN" next to "No transactions found". */
  lemma EmptyAverageIsNaN()
    ensures AverageAsWritten([]) == NaN
  {
  }

  /** The average transaction size, 0 for an empty list. */
  function AverageTransactionSize(txs: seq<Swap>): (r: real)
    ensures |txs| > 0 ==> AverageAsWritten(txs) == Finite(r)
    ensures |txs| == 0 ==> r == 0.0
    ensures r * (|txs| as real) == TotalVolume(txs) || |txs| == 0
  {
    if |txs| == 0 then 0.0 else TotalVolume(txs) / (|txs| as real)
  }

  /** The average lies within the range of the transaction sizes. */
  lemma AverageWithinBounds(txs: seq<Swap>, bound: real)
    requires forall i :: 0 <= i < |txs| ==> 0.0 <= txs[i].fromTokenTotalInUSD <= bound
    ensures 0.0 <= AverageTransactionSize(txs)
    ensures |txs| > 0 ==> AverageTransactionSize(txs) <= bound
  {
    TotalVolumeBounds(txs, bound);
    if |txs| > 0 {
      var n := |txs| as real;
      var avg := AverageTransactionSize(txs);
      assert avg * n == TotalVolume(txs);
    }
  }
}

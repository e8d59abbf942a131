/** The record types that travel from the feed to the validator. */
module Wire {

  // A symbol is its eight bytes read as one unsigned number.
  datatype Trade = Trade(symbol: nat, ts: nat, seqNo: nat, price: real, size: nat)

  datatype Bar = Bar(symbol: nat, ts: nat, seqNo: nat,
                     open: real, high: real, low: real, close: real,
                     vwap: real, volume: nat, tradeCount: nat)

  datatype Quote = Quote(symbol: nat, ts: nat, seqNo: nat,
                         bidPrice: real, askPrice: real, bidSize: nat, askSize: nat)

  datatype Record =
    | TradeRecord(trade: Trade)
    | BarRecord(bar: Bar)
    | QuoteRecord(quote: Quote)
  {
    function Symbol(): nat {
      match this
      case TradeRecord(t) => t.symbol
      case BarRecord(b) => b.symbol
      case QuoteRecord(q) => q.symbol
    }

    function SeqNo(): nat {
      match this
      case TradeRecord(t) => t.seqNo
      case BarRecord(b) => b.seqNo
      case QuoteRecord(q) => q.seqNo
    }
  }
}

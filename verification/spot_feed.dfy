/** The spot feed handler: the state the message callback captures (both
    book sides, the latest trade price and the arrow) and what it does with
    each decoded message. */
module SpotFeed {
  import opened Lex
  import opened BookSide
  import opened Trade
  import opened Render

  /** A decoded public spot message, reduced to its first data item. */
  datatype Message =
    | TradeMsg(price: string)
    | DepthMsg(asks: seq<Level>, bids: seq<Level>)
    | DiffDepthMsg(asks: seq<Level>, bids: seq<Level>)
    | OtherMsg

  class Handler {
    const coin: string
    var asks: seq<Level>
    var bids: seq<Level>
    var latestPrice: string
    var direction: Direction

    /** Both sides empty, no trade yet, arrow up. */
    constructor (coin: string)
      ensures this.coin == coin
      ensures asks == [] && bids == []
      ensures LastTrade() == Initial
    {
      this.coin := coin;
      asks, bids := [], [];
      latestPrice, direction := "", Up;
    }

    function LastTrade(): TradeState
      reads this
    {
      TradeState(latestPrice, direction)
    }

    /** Both sides strictly ordered: asks ascending, bids descending. */
    predicate Sorted()
      reads this
    {
      StrictlySorted(Ask, asks) && StrictlySorted(Bid, bids)
    }

    /** The rows written after a message; reading them changes nothing. */
    function Rows(): seq<Row>
      reads this
    {
      View(coin, asks, bids, LastTrade())
    }

    /** A trade print: the arrow follows the price move, then the price is
        stored. The book is untouched. */
    method OnTrade(price: string)
      modifies this
      ensures LastTrade() == Observe(old(LastTrade()), price)
      ensures asks == old(asks) && bids == old(bids)
    {
      if Less(price, latestPrice) {
        direction := Down;
      } else if Less(latestPrice, price) {
        direction := Up;
      }
      latestPrice := price;
    }

    /** A depth snapshot: its levels are pushed after the existing ones,
        without clearing, sorting or removing duplicate prices. */
    method OnDepth(a: seq<Level>, b: seq<Level>)
      modifies this
      ensures asks == old(asks) + a && bids == old(bids) + b
      ensures LastTrade() == old(LastTrade())
    {
      asks := PushAll(asks, a);
      bids := PushAll(bids, b);
    }

    /** A diff-depth message: the ask batch is merged into the asks, then the
        bid batch into the bids. Sorted sides stay sorted under sorted
        batches. */
    method OnDiffDepth(a: seq<Level>, b: seq<Level>)
      modifies this
      ensures asks == Merge(Ask, old(asks), a) && bids == Merge(Bid, old(bids), b)
      ensures old(Sorted()) && StrictlySorted(Ask, a) && StrictlySorted(Bid, b) ==> Sorted()
      ensures LastTrade() == old(LastTrade())
    {
      asks := ApplyDiff(Ask, asks, a);
      bids := ApplyDiff(Bid, bids, b);
    }

    /** The callback: route the message, then write the display, also after
        a message kind the handler ignores. */
    method OnMessage(msg: Message) returns (rows: seq<Row>)
      modifies this
      ensures msg.TradeMsg? ==>
                LastTrade() == Observe(old(LastTrade()), msg.price) && asks == old(asks) && bids == old(bids)
      ensures msg.DepthMsg? ==>
                asks == old(asks) + msg.asks && bids == old(bids) + msg.bids && LastTrade() == old(LastTrade())
      ensures msg.DiffDepthMsg? ==>
                asks == Merge(Ask, old(asks), msg.asks) && bids == Merge(Bid, old(bids), msg.bids)
                && LastTrade() == old(LastTrade())
      ensures msg.OtherMsg? ==> asks == old(asks) && bids == old(bids) && LastTrade() == old(LastTrade())
      ensures rows == Rows()
    {
      match msg {
        case TradeMsg(price) => OnTrade(price);
        case DepthMsg(a, b) => OnDepth(a, b);
        case DiffDepthMsg(a, b) => OnDiffDepth(a, b);
        case OtherMsg =>
      }
      rows := Rows();
    }
  }
}

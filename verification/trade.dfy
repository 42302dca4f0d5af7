/** The last-trade state of the spot feed handler: the latest trade price and
    the arrow shown beside it. */
module Trade {
  import opened Lex

  /** The two arrows the handler prints: "🔺" and "🔻". There is no neutral
      value; the handler starts on the up arrow. */
  datatype Direction = Up | Down

  datatype TradeState = TradeState(latestPrice: string, direction: Direction)

  /** Before any trade: an empty price and the up arrow. */
  const Initial: TradeState := TradeState("", Up)

  /** One trade print at `price`. A lower price (in string order) turns the
      arrow down, a higher one turns it up, an equal one leaves it; the price
      is then stored. */
  function Observe(t: TradeState, price: string): (r: TradeState)
    ensures r.latestPrice == price
    ensures r.direction == Down <==> Less(price, t.latestPrice) || (price == t.latestPrice && t.direction == Down)
    ensures r.direction == Up <==> Less(t.latestPrice, price) || (price == t.latestPrice && t.direction == Up)
  {
    LessTotal(price, t.latestPrice);
    LessIrreflexive(price);
    if Less(price, t.latestPrice) then
      LessAsymmetric(price, t.latestPrice);
      TradeState(price, Down)
    else if Less(t.latestPrice, price) then
      TradeState(price, Up)
    else
      TradeState(price, t.direction)
  }

  /** The state after a run of trade prints, in arrival order. */
  function ObserveAll(t: TradeState, prices: seq<string>): TradeState
    decreases |prices|
  {
    if prices == [] then t else ObserveAll(Observe(t, prices[0]), prices[1..])
  }

  /** Whatever the first print, the arrow stays up: no price is below the
      initial empty string. */
  lemma FirstTradeUp(price: string)
    ensures Observe(Initial, price) == TradeState(price, Up)
  {
    EmptyIsLeast(price);
  }

  /** A run of prints leaves the last price as the latest price. */
  lemma {:induction false} ObserveAllLast(t: TradeState, prices: seq<string>)
    requires prices != []
    ensures ObserveAll(t, prices).latestPrice == prices[|prices| - 1]
    decreases |prices|
  {
    if |prices| > 1 {
      ObserveAllLast(Observe(t, prices[0]), prices[1..]);
    }
  }

  /** Repeating the latest price changes nothing. */
  lemma RepeatIsNoOp(t: TradeState)
    ensures Observe(t, t.latestPrice) == t
  {
  }
}

/** The display the feed handler writes after every message: the first ten
    entries of the ask vector reversed, the trade line, then the first ten
    entries of the bid vector. On a strictly sorted side those are its best
    levels. */
module Render {
  import opened BookSide
  import opened Trade

  /** Levels shown per side. */
  const Depth: nat := 10

  /** One written line: the title naming the coin, the column header, a
      price level, or the arrow and latest trade price. */
  datatype Row =
    | Title(coin: string)
    | Header
    | LevelRow(price: string, qty: string)
    | TradeLine(direction: Direction, price: string)

  /** How many of `n` levels are shown. */
  function Shown(n: nat): nat
  {
    if n < Depth then n else Depth
  }

  /** `iter().take(n)`: the first n levels, or all when there are fewer. */
  function Take(s: seq<Level>, n: nat): (r: seq<Level>)
    ensures |r| == (if |s| < n then |s| else n)
    ensures forall k :: 0 <= k < |r| ==> r[k] == s[k]
  {
    if |s| <= n then s else s[..n]
  }

  /** The levels in the opposite order. */
  function Reversed(s: seq<Level>): (r: seq<Level>)
    ensures |r| == |s|
    ensures forall k :: 0 <= k < |s| ==> r[k] == s[|s| - 1 - k]
    decreases |s|
  {
    if s == [] then [] else [s[|s| - 1]] + Reversed(s[..|s| - 1])
  }

  function LevelRows(s: seq<Level>): (rows: seq<Row>)
    ensures |rows| == |s|
    ensures forall k :: 0 <= k < |s| ==> rows[k] == LevelRow(s[k].price, s[k].qty)
  {
    seq(|s|, k requires 0 <= k < |s| => LevelRow(s[k].price, s[k].qty))
  }

  /** The rows written for one message. The first asks come reversed, so the
      first ask is the row just above the trade line; the first bids follow
      it in order; neither side shows more than Depth levels. */
  function View(coin: string, asks: seq<Level>, bids: seq<Level>, t: TradeState): (rows: seq<Row>)
    ensures |rows| == 3 + Shown(|asks|) + Shown(|bids|)
    ensures rows[0] == Title(coin) && rows[1] == Header
    ensures forall k :: 2 <= k < 2 + Shown(|asks|) ==>
              rows[k] == LevelRow(asks[Shown(|asks|) + 1 - k].price, asks[Shown(|asks|) + 1 - k].qty)
    ensures rows[2 + Shown(|asks|)] == TradeLine(t.direction, t.latestPrice)
    ensures forall k :: 3 + Shown(|asks|) <= k < |rows| ==>
              rows[k] == LevelRow(bids[k - 3 - Shown(|asks|)].price, bids[k - 3 - Shown(|asks|)].qty)
  {
    var shownAsks := Reversed(Take(asks, Depth));
    var shownBids := Take(bids, Depth);
    var rows := [Title(coin), Header] + LevelRows(shownAsks) + [TradeLine(t.direction, t.latestPrice)] + LevelRows(shownBids);
    assert forall k :: 2 <= k < 2 + |shownAsks| ==> rows[k] == LevelRows(shownAsks)[k - 2];
    assert forall k :: 3 + |shownAsks| <= k < |rows| ==> rows[k] == LevelRows(shownBids)[k - 3 - |shownAsks|];
    rows
  }

  /** On a strictly sorted side, the shown levels are the best ones: every
      level left off the display is behind every level shown. */
  lemma ShownAreBest(side: Side, s: seq<Level>)
    requires StrictlySorted(side, s)
    ensures forall k, m :: 0 <= k < Shown(|s|) <= m < |s| ==> Ahead(side, s[k].price, s[m].price)
  {
  }
}

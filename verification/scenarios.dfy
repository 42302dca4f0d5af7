/** Concrete examples of the handler's book and trade logic, showing what string
    comparison and the unchecked "0" sentinel do on small inputs. */
module Scenarios {
  import opened BookSide
  import opened Trade
  import opened SpotFeed

  /** Asks [101x2, 102x3] with deltas [101x0, 103x4]: 101 is removed and 103
      appended at the tail. */
  lemma AskBatchExample()
    ensures Merge(Ask, [Level("101", "2"), Level("102", "3")], [Level("101", "0"), Level("103", "4")])
         == [Level("102", "3"), Level("103", "4")]
  {
    var levels := [Level("101", "2"), Level("102", "3")];
    assert levels[..0] + levels[1..] == [Level("102", "3")];
    assert MergeFrom(Ask, [Level("102", "3")], 0, [Level("103", "4")])
        == MergeFrom(Ask, [Level("102", "3")], 1, [Level("103", "4")]);
  }

  /** Bids [100x5, 99x1] with delta [100x7]: 100 is updated in place. The
      side is not sorted in the handler's order, since "100" is below "99" as
      strings. */
  lemma BidBatchExample()
    ensures Merge(Bid, [Level("100", "5"), Level("99", "1")], [Level("100", "7")])
         == [Level("100", "7"), Level("99", "1")]
    ensures !StrictlySorted(Bid, [Level("100", "5"), Level("99", "1")])
  {
    var levels := [Level("100", "5"), Level("99", "1")];
    assert !Ahead(Bid, levels[0].price, levels[1].price);
  }

  /** A better bid with a longer price string goes behind a shorter one. */
  lemma BidMisranksLongerPrice()
    ensures Merge(Bid, [Level("99", "1")], [Level("100", "7")]) == [Level("99", "1"), Level("100", "7")]
  {
  }

  /** Only the exact string "0" deletes: "0.0" is stored as a quantity. */
  lemma DecimalZeroIsStored()
    ensures Merge(Ask, [Level("101", "2")], [Level("101", "0.0")]) == [Level("101", "0.0")]
  {
  }

  /** Replaying a deleting batch re-adds the price with quantity "0". */
  lemma ReplayIsNotIdempotent()
    ensures Merge(Ask, [Level("101", "2")], [Level("101", "0")]) == []
    ensures Merge(Ask, [], [Level("101", "0")]) == [Level("101", "0")]
  {
  }

  /** Trades 100, 105, 105, 95: the arrow is up after every print, because
      "95" is above "105" as strings. */
  lemma TradeRunExample()
    ensures Observe(Initial, "100") == TradeState("100", Up)
    ensures Observe(TradeState("100", Up), "105") == TradeState("105", Up)
    ensures Observe(TradeState("105", Up), "105") == TradeState("105", Up)
    ensures Observe(TradeState("105", Up), "95") == TradeState("95", Up)
  {
  }

  /** A snapshot, then a diff-depth message, through the handler's callback:
      the handler starts empty, so the snapshot becomes the book, and the
      batch then deletes ask 101, appends ask 103 and updates bid 100. */
  method SnapshotThenDiff() returns (asks: seq<Level>, bids: seq<Level>)
    ensures asks == [Level("102", "3"), Level("103", "4")]
    ensures bids == [Level("100", "7"), Level("99", "1")]
  {
    var h := new Handler("BTCUSDT");
    var snapAsks, snapBids := [Level("101", "2"), Level("102", "3")], [Level("100", "5"), Level("99", "1")];
    var rows := h.OnMessage(DepthMsg(snapAsks, snapBids));
    assert h.asks == snapAsks by { assert [] + snapAsks == snapAsks; }
    assert h.bids == snapBids by { assert [] + snapBids == snapBids; }
    var diffAsks, diffBids := [Level("101", "0"), Level("103", "4")], [Level("100", "7")];
    AskBatchExample();
    BidBatchExample();
    rows := h.OnMessage(DiffDepthMsg(diffAsks, diffBids));
    asks, bids := h.asks, h.bids;
  }
}

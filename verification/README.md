# Spot order-book feed handler: a Dafny model

This project models the spot market-data handler of `searcher-coingator-rs`, which is the
`subscribe_spot` callback in `src/markets/bbit.rs`. The callback receives decoded public
spot messages for one coin and keeps four pieces of captured state:

- the ask levels, a vector of `(price, qty)` string pairs;
- the bid levels;
- the latest trade price, initially `""`;
- the trade arrow, initially up.

After every message it writes the first ten levels of the ask vector in reverse order, the
arrow with the latest price, and the first ten levels of the bid vector. These are the best
levels only when the side is strictly sorted (`ShownAreBest`). A snapshot appends without
sorting, so otherwise they are simply the first ten entries.

Modules:

- `Lex` (`lex.dfy`) is the order the handler uses on prices. Rust compares `str` values
  byte by byte on their UTF-8 encoding, which is the same as comparing code points one by
  one, so the model states it on `string` as `Less`. Prices are never parsed. `"100"` is
  below `"99"`, and `"95"` is above `"105"`.
- `BookSide` (`book_side.dfy`) holds one side of the book:
  - `Level` is the source's `OwnedOrderBookItem`.
  - `PushAll` is the snapshot push.
  - `ApplyDiff` is the diff-depth merge-scan. It keeps the source's two cursors and its
    nested loops: `i` walks the deltas and `j` walks the levels, and the loop inserts,
    overwrites and removes as it goes.
  - `ApplyDiff` is proved equal to the specification function `Merge`/`MergeFrom`. The
    lemmas state what `Merge` does on sorted input: it keeps strict order, it gives the
    resulting quantity at every price (`MergedQty`), it changes the length by a known
    amount (`Growth`), it keeps untouched levels in order, and it has an exact effect for a
    single insert, update or delete.
  - One side type `Side` covers both loops. Asks use `price < item_price`, and bids use
    `price > item_price` (`Ahead`).
- `Trade` (`trade.dfy`) is the arrow state machine, `Observe`.
- `Render` (`render.dfy`) is the display, as a list of `Row`s (`View`).
- `SpotFeed` (`spot_feed.dfy`) holds the class `Handler`. It has the captured variables as
  fields and one method per message arm, plus `OnMessage`, which routes a message and then
  renders.
- `Scenarios` (`scenarios.dfy`) proves concrete examples on small inputs.

Behaviour of the code that a numeric, de-duplicating order book would not have. The model
keeps it as written:

- Comparisons are lexicographic on strings. For example, bids `[100, 99]` are not in
  descending order for the handler, a bid at `100` is appended after a bid at `99`, and a
  trade at `95` after `105` shows the up arrow.
- Only the exact quantity `"0"` deletes. A `"0"` delta at a price the side does not hold is
  inserted, or appended at the tail. So replaying a deleting batch re-adds the price, and
  the merge is not idempotent.
- A depth snapshot appends its levels to the existing ones. It does not clear, sort or
  de-duplicate them.
- There is no neutral arrow. The arrow starts up, and an equal price keeps it.
- The display is written after every message, including message kinds the handler
  ignores.
- The merge only keeps its order when the side and the batch are already strictly sorted.
  These are `requires` of the lemmas, not of `ApplyDiff`, which runs on any input just as
  the loop does.

## Model

| member | source | states |
|---|---|---|
| `BookSide.PushAll` | src/markets/bbit.rs:167-172 | Pushing snapshot levels one by one gives the old levels followed by the new ones, in order. |
| `BookSide.ApplyDiff` | src/markets/bbit.rs:180-261 | The two-cursor loop (insert before the cursor, overwrite or remove on an equal price, advance, append the rest at the end) computes `Merge`. A strictly sorted side and a strictly sorted batch give a strictly sorted side. |
| `BookSide.MergeSorted` | src/markets/bbit.rs:180-261 | Ask merge (ascending, `<`) and bid merge (descending, `>`) keep a strictly sorted side strictly sorted, and so unique by price, when the batch is strictly sorted. |
| `BookSide.MergeLookup` | src/markets/bbit.rs:184-217 | On sorted input, the resulting quantity at each price is `MergedQty`. A price absent from the batch keeps its quantity. A present price is overwritten by any quantity other than the exact string `"0"`, and `"0"` removes it. A new price is stored even with quantity `"0"`. |
| `BookSide.MergeLength` | src/markets/bbit.rs:184-217 | On sorted input, the length changes by +1 per delta at a new price, -1 per `"0"` delta at a held price, and 0 per update. |
| `BookSide.MergeKeepsUntouched` | src/markets/bbit.rs:184-217 | Two levels whose prices are not in the batch are still in the result, unchanged and in the same relative order. |
| `BookSide.MergeSingleInsert` | src/markets/bbit.rs:187-195 | A delta at a price the side does not hold is inserted before the first level it is ahead of, or appended when there is none (lines 212-215), whatever its quantity. |
| `BookSide.MergeSingleUpdate` | src/markets/bbit.rs:197-201 | A delta at a held price with a quantity other than `"0"` replaces that level's quantity and leaves its price and position unchanged. |
| `BookSide.MergeSingleDelete` | src/markets/bbit.rs:202-205 | A `"0"` delta at a held price removes exactly that one level. |
| `Lex.LessTotal` | src/markets/bbit.rs:159-163 | Two price strings are equal or ordered one way or the other, so the trade arm's two tests and its fall-through cover every case. |
| `Lex.NotNumeric` | src/markets/bbit.rs:190 | The string order is not numeric: `"100"` is below `"99"`, and `"105"` is below `"95"`. |
| `Trade.Observe` | src/markets/bbit.rs:157-165 | After a trade the latest price is the new price. The arrow is down exactly when the price is below the previous one, or equal to it with the arrow already down. It is up in the mirror cases. |
| `Trade.FirstTradeUp` | src/markets/bbit.rs:147-148 | From the initial `""` price and up arrow, any first trade leaves the arrow up. |
| `Trade.ObserveAllLast` | src/markets/bbit.rs:164 | After a run of trades, the latest price is the last trade's price. |
| `Trade.RepeatIsNoOp` | src/markets/bbit.rs:159-164 | A trade at the latest price leaves the trade state unchanged. |
| `Render.Reversed` | src/markets/bbit.rs:272 | The shown asks are written in reverse order. |
| `Render.View` | src/markets/bbit.rs:269-280 | The output is the title and the header, then the first (at most 10) entries of the ask vector in reverse order, then the arrow and latest price, then the first (at most 10) entries of the bid vector in order. On a strictly sorted side these are its best levels (`ShownAreBest`), and the best ask is the row just above the trade line. |
| `Render.ShownAreBest` | src/markets/bbit.rs:271-277 | On a strictly sorted side, every level left off the display is behind every level shown. |
| `SpotFeed.Handler.constructor` | src/markets/bbit.rs:147-150 | Initially both sides are empty, the latest price is `""` and the arrow is up. |
| `SpotFeed.Handler.OnTrade` | src/markets/bbit.rs:157-165 | The trade state becomes `Observe` of the old state and the price. The book is unchanged. |
| `SpotFeed.Handler.OnDepth` | src/markets/bbit.rs:166-173 | After a snapshot, the asks are the old asks followed by the snapshot asks, and likewise for the bids. Nothing is cleared, sorted or de-duplicated. The trade state is unchanged. |
| `SpotFeed.Handler.OnDiffDepth` | src/markets/bbit.rs:175-262 | Each side becomes `Merge` of its old value with its batch. Sorted sides stay sorted under sorted batches. The trade state is unchanged. |
| `SpotFeed.Handler.OnMessage` | src/markets/bbit.rs:155-281 | Each message kind updates only the state its arm touches. An ignored kind changes nothing. The returned rows are the display of the new state, for every kind. |
| `Scenarios.AskBatchExample` | src/markets/bbit.rs:184-217 | Asks `[101x2, 102x3]` with deltas `[101x0, 103x4]` become `[102x3, 103x4]`. |
| `Scenarios.BidBatchExample` | src/markets/bbit.rs:227-261 | Bids `[100x5, 99x1]` with delta `[100x7]` become `[100x7, 99x1]`. That bid list is not in the handler's descending string order. |
| `Scenarios.BidMisranksLongerPrice` | src/markets/bbit.rs:227-260 | A bid at `100` merged into bids `[99]` is appended after `99`. |
| `Scenarios.DecimalZeroIsStored` | src/markets/bbit.rs:197-199 | A `"0.0"` delta at a held price is stored as the quantity, not deleted. |
| `Scenarios.ReplayIsNotIdempotent` | src/markets/bbit.rs:190-215 | A `101x0` batch deletes ask 101. Replayed on the result, it adds `101x0` back. |
| `Scenarios.TradeRunExample` | src/markets/bbit.rs:157-165 | Trades 100, 105, 105, 95 leave the arrow up after every print. |
| `Scenarios.SnapshotThenDiff` | src/markets/bbit.rs:155-262 | Through the callback, a snapshot and then a diff-depth message on an empty handler give asks `[102x3, 103x4]` and bids `[100x7, 99x1]`. |

## Left out

- `subscribe_coin`, `subscribe_pairs`, `subscribe_exec` and `subscribe_positions` are left out. They only subscribe through the external bybit client and print each message.
- Loading the coin from the environment, building the WebSocket client, subscribing, `client.run` and the `async` wrapper are left out. They are I/O and calls into the bybit crate. The coin is a constructor parameter of `Handler`.
- Writing through the `BufWriter`, `flush` and the `unwrap` panics on write errors are left out. The display is a list of `Row` values, not bytes. The `{:<20}` column padding is not modelled.
- Taking `res.data[0]` is left out, along with its panic on an empty `data`. Each message carries one already-decoded data item.
- The side vectors are modelled as sequence values that each method reassigns. `Vec::insert`, `remove`, `push` and the in-place `item.1 = qty` become sequence updates. No other code holds these vectors, so no aliasing is lost.
- The `usize` cursors are unbounded integers. The model does not capture overflow, which would need more levels than memory holds.

/** One side of the spot order book: the list of price levels kept by the
    feed handler, the snapshot append and the diff-depth merge-scan. */
module BookSide {
  import opened Lex

  datatype Option<T> = None | Some(value: T)

  /** A price level, `OwnedOrderBookItem(price, qty)`: both strings as the
      exchange sent them. */
  datatype Level = Level(price: string, qty: string)

  /** Asks are kept ascending by price, bids descending. */
  datatype Side = Ask | Bid

  /** The quantity that deletes a level: an exact string match, so "0.0" or
      "00" is stored like any other quantity. */
  const DeleteQty: string := "0"

  /** Price `p` belongs strictly before price `q` on this side: the ask loop
      tests `price < item_price`, the bid loop `price > item_price`. */
  predicate Ahead(side: Side, p: string, q: string)
  {
    match side
    case Ask => Less(p, q)
    case Bid => Less(q, p)
  }

  /** Strictly ordered for the side, hence also unique by price. */
  predicate StrictlySorted(side: Side, s: seq<Level>)
  {
    forall k, m :: 0 <= k < m < |s| ==> Ahead(side, s[k].price, s[m].price)
  }

  /** The quantity of the first level at price `p`, if any. */
  function Lookup(s: seq<Level>, p: string): Option<string>
  {
    if s == [] then None
    else if s[0].price == p then Some(s[0].qty)
    else Lookup(s[1..], p)
  }

  /** The merge-scan from level cursor `j` over the deltas still to apply:
      the two nested loops of the diff-depth handler, one step per call.
      A delta ahead of the level at the cursor is inserted there; a delta at
      the cursor's price overwrites its quantity, or removes the level when
      the quantity is exactly "0"; otherwise the cursor moves on. When the
      cursor reaches the end, every remaining delta is appended unchecked. */
  function MergeFrom(side: Side, levels: seq<Level>, j: nat, ds: seq<Level>): seq<Level>
    requires j <= |levels|
    decreases |ds|, |levels| - j
  {
    if ds == [] then levels
    else if j == |levels| then levels + ds
    else
      var d, item := ds[0], levels[j];
      if Ahead(side, d.price, item.price) then
        MergeFrom(side, levels[..j] + [d] + levels[j..], j + 1, ds[1..])
      else if d.price == item.price then
        if d.qty != DeleteQty then
          MergeFrom(side, levels[j := Level(item.price, d.qty)], j + 1, ds[1..])
        else
          MergeFrom(side, levels[..j] + levels[j + 1..], j, ds[1..])
      else
        MergeFrom(side, levels, j + 1, ds)
  }

  /** The side after one diff-depth batch. */
  function Merge(side: Side, levels: seq<Level>, ds: seq<Level>): seq<Level>
  {
    MergeFrom(side, levels, 0, ds)
  }

  /** The quantity the merge leaves at price `p` on a sorted side: an
      untouched price keeps its level; a delta at a price already present
      overwrites it, or removes it when the quantity is exactly "0"; a delta
      at a new price is stored even when its quantity is "0". */
  function MergedQty(levels: seq<Level>, ds: seq<Level>, p: string): Option<string>
  {
    match Lookup(ds, p)
    case None => Lookup(levels, p)
    case Some(q) => if Lookup(levels, p).Some? && q == DeleteQty then None else Some(q)
  }

  /** How much one batch changes the length of a sorted side: +1 per delta at
      a new price, -1 per "0" delta at a present price, 0 per update. */
  function Growth(levels: seq<Level>, ds: seq<Level>): int
  {
    if ds == [] then 0
    else
      (if Lookup(levels, ds[0].price).None? then 1
       else if ds[0].qty == DeleteQty then -1
       else 0)
      + Growth(levels, ds[1..])
  }

  /** Appends `items` one by one, as the snapshot handler and the merge's
      tail append push onto the side's vector. */
  method PushAll(levels: seq<Level>, items: seq<Level>) returns (r: seq<Level>)
    ensures r == levels + items
  {
    r := levels;
    for k := 0 to |items|
      invariant r == levels + items[..k]
    {
      assert items[..k + 1] == items[..k] + [items[k]];
      r := r + [items[k]];
    }
    assert items[..|items|] == items;
  }

  /** The diff-depth merge of one side, with the source's two cursors: `i`
      over the deltas and `j` over the levels, which the loop inserts into,
      overwrites and removes from in place. */
  method ApplyDiff(side: Side, levels: seq<Level>, ds: seq<Level>) returns (r: seq<Level>)
    ensures r == Merge(side, levels, ds)
    ensures StrictlySorted(side, levels) && StrictlySorted(side, ds) ==> StrictlySorted(side, r)
  {
    r := levels;
    var i, j := 0, 0;
    while i < |ds|
      invariant i <= |ds| && j <= |r|
      invariant MergeFrom(side, r, j, ds[i..]) == Merge(side, levels, ds)
      decreases |ds| - i
    {
      var d := ds[i];
      ghost var i0 := i;
      assert ds[i..][1..] == ds[i + 1..];
      while j < |r|
        invariant i == i0 && j <= |r|
        invariant MergeFrom(side, r, j, ds[i..]) == Merge(side, levels, ds)
        decreases |r| - j
      {
        var item := r[j];
        if Ahead(side, d.price, item.price) {
          r := r[..j] + [d] + r[j..];
          i, j := i + 1, j + 1;
          break;
        }
        if d.price == item.price {
          if d.qty != DeleteQty {
            r := r[j := Level(item.price, d.qty)];
            i, j := i + 1, j + 1;
          } else {
            r := r[..j] + r[j + 1..];
            i := i + 1;
          }
          break;
        }
        j := j + 1;
      }
      if j == |r| {
        r := PushAll(r, ds[i..]);
        break;
      }
    }
    if StrictlySorted(side, levels) && StrictlySorted(side, ds) {
      MergeSorted(side, levels, ds);
    }
  }

  // ---------------------------------------------------------------------
  // Facts about the side order

  lemma AheadIrreflexive(side: Side, p: string)
    ensures !Ahead(side, p, p)
  {
    LessIrreflexive(p);
  }

  lemma AheadTransitive(side: Side, p: string, q: string, s: string)
    requires Ahead(side, p, q) && Ahead(side, q, s)
    ensures Ahead(side, p, s)
  {
    match side
    case Ask => LessTransitive(p, q, s);
    case Bid => LessTransitive(s, q, p);
  }

  lemma AheadAsymmetric(side: Side, p: string, q: string)
    requires Ahead(side, p, q)
    ensures !Ahead(side, q, p) && p != q
  {
    match side
    case Ask => LessAsymmetric(p, q); LessIrreflexive(p);
    case Bid => LessAsymmetric(q, p); LessIrreflexive(p);
  }

  lemma AheadTotal(side: Side, p: string, q: string)
    ensures p == q || Ahead(side, p, q) || Ahead(side, q, p)
  {
    LessTotal(p, q);
  }

  // ---------------------------------------------------------------------
  // Facts about Lookup

  lemma {:induction false} LookupAppend(a: seq<Level>, b: seq<Level>, p: string)
    ensures Lookup(a + b, p) == if Lookup(a, p).Some? then Lookup(a, p) else Lookup(b, p)
    decreases |a|
  {
    if a != [] {
      var ab := a + b;
      assert ab != [] && ab[0] == a[0] && ab[1..] == a[1..] + b;
      LookupAppend(a[1..], b, p);
    } else {
      assert a + b == b;
    }
  }

  lemma {:induction false} LookupAbsent(s: seq<Level>, p: string)
    requires forall k :: 0 <= k < |s| ==> s[k].price != p
    ensures Lookup(s, p) == None
    decreases |s|
  {
    if s != [] {
      LookupAbsent(s[1..], p);
    }
  }

  /** A price that Lookup finds sits at some index of the list. */
  lemma {:induction false} LookupWitness(s: seq<Level>, p: string) returns (k: nat)
    requires Lookup(s, p).Some?
    ensures k < |s| && s[k] == Level(p, Lookup(s, p).value)
    decreases |s|
  {
    if s[0].price == p {
      k := 0;
    } else {
      var k' := LookupWitness(s[1..], p);
      k := k' + 1;
    }
  }

  /** In a strictly sorted list, the level at index k is the one found. */
  lemma LookupAt(side: Side, s: seq<Level>, k: nat)
    requires StrictlySorted(side, s) && k < |s|
    ensures Lookup(s, s[k].price) == Some(s[k].qty)
  {
    var p := s[k].price;
    assert s == s[..k] + s[k..];
    forall x | 0 <= x < k ensures s[..k][x].price != p {
      AheadIrreflexive(side, p);
    }
    LookupAbsent(s[..k], p);
    LookupAppend(s[..k], s[k..], p);
  }

  /** Levels ahead of some price in a sorted list do not hold it. */
  lemma LookupBehind(side: Side, s: seq<Level>, p: string)
    requires forall k :: 0 <= k < |s| ==> Ahead(side, s[k].price, p)
    ensures Lookup(s, p) == None
  {
    forall k | 0 <= k < |s| ensures s[k].price != p {
      AheadIrreflexive(side, p);
    }
    LookupAbsent(s, p);
  }

  lemma LookupBefore(side: Side, s: seq<Level>, p: string)
    requires forall k :: 0 <= k < |s| ==> Ahead(side, p, s[k].price)
    ensures Lookup(s, p) == None
  {
    forall k | 0 <= k < |s| ensures s[k].price != p {
      AheadIrreflexive(side, p);
    }
    LookupAbsent(s, p);
  }

  lemma LookupAfterInsert(levels: seq<Level>, j: nat, d: Level, p: string)
    requires j <= |levels| && p != d.price
    ensures Lookup(levels[..j] + [d] + levels[j..], p) == Lookup(levels, p)
  {
    assert levels == levels[..j] + levels[j..];
    LookupAppend(levels[..j] + [d], levels[j..], p);
    LookupAppend(levels[..j], [d], p);
    LookupAppend(levels[..j], levels[j..], p);
  }

  lemma LookupAfterReplace(levels: seq<Level>, j: nat, x: Level, p: string)
    requires j < |levels| && p != x.price && p != levels[j].price
    ensures Lookup(levels[j := x], p) == Lookup(levels, p)
  {
    assert levels == levels[..j] + [levels[j]] + levels[j + 1..];
    assert levels[j := x] == levels[..j] + [x] + levels[j + 1..];
    LookupAppend(levels[..j] + [x], levels[j + 1..], p);
    LookupAppend(levels[..j], [x], p);
    LookupAppend(levels[..j] + [levels[j]], levels[j + 1..], p);
    LookupAppend(levels[..j], [levels[j]], p);
  }

  lemma LookupAfterRemove(levels: seq<Level>, j: nat, p: string)
    requires j < |levels| && p != levels[j].price
    ensures Lookup(levels[..j] + levels[j + 1..], p) == Lookup(levels, p)
  {
    assert levels == levels[..j] + [levels[j]] + levels[j + 1..];
    LookupAppend(levels[..j] + [levels[j]], levels[j + 1..], p);
    LookupAppend(levels[..j], [levels[j]], p);
    LookupAppend(levels[..j], levels[j + 1..], p);
  }

  // ---------------------------------------------------------------------
  // Sortedness of the edited lists

  lemma InsertSorted(side: Side, s: seq<Level>, j: nat, d: Level)
    requires StrictlySorted(side, s) && j < |s|
    requires forall k :: 0 <= k < j ==> Ahead(side, s[k].price, d.price)
    requires Ahead(side, d.price, s[j].price)
    ensures StrictlySorted(side, s[..j] + [d] + s[j..])
  {
    var t := s[..j] + [d] + s[j..];
    forall k, m | 0 <= k < m < |t| ensures Ahead(side, t[k].price, t[m].price) {
      if m == j {
        assert t[k] == s[k];
      } else if k == j {
        assert t[m] == s[m - 1];
        if m - 1 > j {
          AheadTransitive(side, d.price, s[j].price, s[m - 1].price);
        }
      } else if k < j && m > j {
        assert t[k] == s[k] && t[m] == s[m - 1];
      } else if m < j {
        assert t[k] == s[k] && t[m] == s[m];
      } else {
        assert t[k] == s[k - 1] && t[m] == s[m - 1];
      }
    }
  }

  lemma ReplaceSorted(side: Side, s: seq<Level>, j: nat, q: string)
    requires StrictlySorted(side, s) && j < |s|
    ensures StrictlySorted(side, s[j := Level(s[j].price, q)])
  {
    var t := s[j := Level(s[j].price, q)];
    forall k, m | 0 <= k < m < |t| ensures Ahead(side, t[k].price, t[m].price) {
      assert t[k].price == s[k].price && t[m].price == s[m].price;
    }
  }

  lemma RemoveSorted(side: Side, s: seq<Level>, j: nat)
    requires StrictlySorted(side, s) && j < |s|
    ensures StrictlySorted(side, s[..j] + s[j + 1..])
  {
    var t := s[..j] + s[j + 1..];
    forall k, m | 0 <= k < m < |t| ensures Ahead(side, t[k].price, t[m].price) {
      var k', m' := if k < j then k else k + 1, if m < j then m else m + 1;
      assert t[k] == s[k'] && t[m] == s[m'];
    }
  }

  lemma AppendSorted(side: Side, s: seq<Level>, t: seq<Level>)
    requires StrictlySorted(side, s) && StrictlySorted(side, t)
    requires forall k, m :: 0 <= k < |s| && 0 <= m < |t| ==> Ahead(side, s[k].price, t[m].price)
    ensures StrictlySorted(side, s + t)
  {
    var u := s + t;
    forall k, m | 0 <= k < m < |u| ensures Ahead(side, u[k].price, u[m].price) {
      if m < |s| {
        assert u[k] == s[k] && u[m] == s[m];
      } else if k < |s| {
        assert u[k] == s[k] && u[m] == t[m - |s|];
      } else {
        assert u[k] == t[k - |s|] && u[m] == t[m - |s|];
      }
    }
  }

  // ---------------------------------------------------------------------
  // The merge on sorted input

  /** What holds at every step of the merge-scan when both inputs are sorted:
      every level before the cursor is ahead of every delta still to apply. */
  predicate ScanInvariant(side: Side, levels: seq<Level>, j: nat, ds: seq<Level>)
  {
    && j <= |levels|
    && StrictlySorted(side, levels)
    && StrictlySorted(side, ds)
    && forall k, m :: 0 <= k < j && 0 <= m < |ds| ==> Ahead(side, levels[k].price, ds[m].price)
  }

  /** The deltas after the first are all behind the first. */
  lemma RestBehindFirst(side: Side, ds: seq<Level>)
    requires StrictlySorted(side, ds) && ds != []
    ensures StrictlySorted(side, ds[1..])
    ensures forall m :: 0 <= m < |ds[1..]| ==> Ahead(side, ds[0].price, ds[1..][m].price)
    ensures Lookup(ds[1..], ds[0].price) == None
  {
    assert forall m :: 0 <= m < |ds[1..]| ==> ds[1..][m] == ds[m + 1];
    LookupBefore(side, ds[1..], ds[0].price);
  }

  /** The scan invariant carries over each step of the merge. The four
      step lemmas below share it. */
  lemma InsertStep(side: Side, levels: seq<Level>, j: nat, ds: seq<Level>)
    requires ScanInvariant(side, levels, j, ds) && ds != [] && j < |levels|
    requires Ahead(side, ds[0].price, levels[j].price)
    ensures ScanInvariant(side, levels[..j] + [ds[0]] + levels[j..], j + 1, ds[1..])
    ensures Lookup(levels, ds[0].price) == None
  {
    var d := ds[0];
    var t := levels[..j] + [d] + levels[j..];
    InsertSorted(side, levels, j, d);
    RestBehindFirst(side, ds);
    forall k, m | 0 <= k < j + 1 && 0 <= m < |ds[1..]| ensures Ahead(side, t[k].price, ds[1..][m].price) {
      assert ds[1..][m] == ds[m + 1];
      if k < j {
        assert t[k] == levels[k];
      }
    }
    forall k | 0 <= k < |levels| ensures levels[k].price != d.price {
      AheadIrreflexive(side, d.price);
      if k > j {
        AheadTransitive(side, d.price, levels[j].price, levels[k].price);
      }
    }
    LookupAbsent(levels, d.price);
  }

  lemma ReplaceStep(side: Side, levels: seq<Level>, j: nat, ds: seq<Level>)
    requires ScanInvariant(side, levels, j, ds) && ds != [] && j < |levels|
    requires ds[0].price == levels[j].price
    ensures ScanInvariant(side, levels[j := Level(levels[j].price, ds[0].qty)], j + 1, ds[1..])
    ensures Lookup(levels, ds[0].price) == Some(levels[j].qty)
  {
    var t := levels[j := Level(levels[j].price, ds[0].qty)];
    ReplaceSorted(side, levels, j, ds[0].qty);
    RestBehindFirst(side, ds);
    forall k, m | 0 <= k < j + 1 && 0 <= m < |ds[1..]| ensures Ahead(side, t[k].price, ds[1..][m].price) {
      assert ds[1..][m] == ds[m + 1];
    }
    LookupAt(side, levels, j);
  }

  lemma RemoveStep(side: Side, levels: seq<Level>, j: nat, ds: seq<Level>)
    requires ScanInvariant(side, levels, j, ds) && ds != [] && j < |levels|
    requires ds[0].price == levels[j].price
    ensures ScanInvariant(side, levels[..j] + levels[j + 1..], j, ds[1..])
    ensures Lookup(levels, ds[0].price) == Some(levels[j].qty)
    ensures Lookup(levels[..j] + levels[j + 1..], ds[0].price) == None
  {
    var t := levels[..j] + levels[j + 1..];
    RemoveSorted(side, levels, j);
    RestBehindFirst(side, ds);
    forall k, m | 0 <= k < j && 0 <= m < |ds[1..]| ensures Ahead(side, t[k].price, ds[1..][m].price) {
      assert ds[1..][m] == ds[m + 1] && t[k] == levels[k];
    }
    LookupAt(side, levels, j);
    RemovedAbsent(side, levels, j);
  }

  /** Removing the level at j leaves no level at its price. */
  lemma RemovedAbsent(side: Side, levels: seq<Level>, j: nat)
    requires StrictlySorted(side, levels) && j < |levels|
    ensures Lookup(levels[..j] + levels[j + 1..], levels[j].price) == None
  {
    var p := levels[j].price;
    forall k | 0 <= k < j ensures levels[..j][k].price != p {
      AheadIrreflexive(side, p);
    }
    var after := levels[j + 1..];
    forall k | 0 <= k < |after| ensures after[k].price != p {
      assert after[k] == levels[j + 1 + k];
      AheadIrreflexive(side, p);
    }
    LookupAbsent(levels[..j], p);
    LookupAbsent(after, p);
    LookupAppend(levels[..j], levels[j + 1..], p);
  }

  lemma SkipStep(side: Side, levels: seq<Level>, j: nat, ds: seq<Level>)
    requires ScanInvariant(side, levels, j, ds) && ds != [] && j < |levels|
    requires !Ahead(side, ds[0].price, levels[j].price) && ds[0].price != levels[j].price
    ensures ScanInvariant(side, levels, j + 1, ds)
  {
    AheadTotal(side, ds[0].price, levels[j].price);
    forall k, m | 0 <= k < j + 1 && 0 <= m < |ds| ensures Ahead(side, levels[k].price, ds[m].price) {
      if k == j && m > 0 {
        AheadTransitive(side, levels[j].price, ds[0].price, ds[m].price);
      }
    }
  }

  /** At the tail, every remaining delta is behind every level, so none of
      their prices is on the side. */
  lemma TailAbsent(side: Side, levels: seq<Level>, ds: seq<Level>)
    requires ScanInvariant(side, levels, |levels|, ds)
    ensures forall m :: 0 <= m < |ds| ==> Lookup(levels, ds[m].price) == None
  {
    forall m | 0 <= m < |ds| ensures Lookup(levels, ds[m].price) == None {
      LookupBehind(side, levels, ds[m].price);
    }
  }

  lemma {:induction false} MergeFromSorted(side: Side, levels: seq<Level>, j: nat, ds: seq<Level>)
    requires ScanInvariant(side, levels, j, ds)
    ensures StrictlySorted(side, MergeFrom(side, levels, j, ds))
    decreases |ds|, |levels| - j
  {
    if ds == [] {
    } else if j == |levels| {
      AppendSorted(side, levels, ds);
    } else {
      var d, item := ds[0], levels[j];
      if Ahead(side, d.price, item.price) {
        InsertStep(side, levels, j, ds);
        MergeFromSorted(side, levels[..j] + [d] + levels[j..], j + 1, ds[1..]);
      } else if d.price == item.price {
        if d.qty != DeleteQty {
          ReplaceStep(side, levels, j, ds);
          MergeFromSorted(side, levels[j := Level(item.price, d.qty)], j + 1, ds[1..]);
        } else {
          RemoveStep(side, levels, j, ds);
          MergeFromSorted(side, levels[..j] + levels[j + 1..], j, ds[1..]);
        }
      } else {
        SkipStep(side, levels, j, ds);
        MergeFromSorted(side, levels, j + 1, ds);
      }
    }
  }

  /** Ask merge (ascending, `<`) and bid merge (descending, `>`): a strictly
      sorted side stays strictly sorted, hence unique by price, under a
      strictly sorted batch. */
  lemma MergeSorted(side: Side, levels: seq<Level>, ds: seq<Level>)
    requires StrictlySorted(side, levels) && StrictlySorted(side, ds)
    ensures StrictlySorted(side, Merge(side, levels, ds))
  {
    MergeFromSorted(side, levels, 0, ds);
  }

  lemma {:induction false} MergeFromLookup(side: Side, levels: seq<Level>, j: nat, ds: seq<Level>, p: string)
    requires ScanInvariant(side, levels, j, ds)
    ensures Lookup(MergeFrom(side, levels, j, ds), p) == MergedQty(levels, ds, p)
    decreases |ds|, |levels| - j
  {
    if ds == [] {
    } else if j == |levels| {
      LookupAppend(levels, ds, p);
      if Lookup(ds, p).Some? {
        var m := LookupWitness(ds, p);
        TailAbsent(side, levels, ds);
      }
    } else {
      var d, item := ds[0], levels[j];
      RestBehindFirst(side, ds);
      if Ahead(side, d.price, item.price) {
        var t := levels[..j] + [d] + levels[j..];
        InsertStep(side, levels, j, ds);
        MergeFromLookup(side, t, j + 1, ds[1..], p);
        if p == d.price {
          LookupAppend(levels[..j] + [d], levels[j..], p);
          LookupAppend(levels[..j], [d], p);
          LookupBehind(side, levels[..j], p);
        } else {
          LookupAfterInsert(levels, j, d, p);
        }
      } else if d.price == item.price {
        if d.qty != DeleteQty {
          var t := levels[j := Level(item.price, d.qty)];
          ReplaceStep(side, levels, j, ds);
          MergeFromLookup(side, t, j + 1, ds[1..], p);
          if p == d.price {
            LookupAt(side, t, j);
          } else {
            LookupAfterReplace(levels, j, Level(item.price, d.qty), p);
          }
        } else {
          var t := levels[..j] + levels[j + 1..];
          RemoveStep(side, levels, j, ds);
          MergeFromLookup(side, t, j, ds[1..], p);
          if p != d.price {
            LookupAfterRemove(levels, j, p);
          }
        }
      } else {
        SkipStep(side, levels, j, ds);
        MergeFromLookup(side, levels, j + 1, ds, p);
      }
    }
  }

  /** What the batch leaves at each price of a sorted side: see MergedQty. */
  lemma MergeLookup(side: Side, levels: seq<Level>, ds: seq<Level>, p: string)
    requires StrictlySorted(side, levels) && StrictlySorted(side, ds)
    ensures Lookup(Merge(side, levels, ds), p) == MergedQty(levels, ds, p)
  {
    MergeFromLookup(side, levels, 0, ds, p);
  }

  /** Growth only depends on which delta prices the side holds. */
  lemma {:induction false} GrowthCongruent(l1: seq<Level>, l2: seq<Level>, ds: seq<Level>)
    requires forall m :: 0 <= m < |ds| ==> Lookup(l1, ds[m].price).None? == Lookup(l2, ds[m].price).None?
    ensures Growth(l1, ds) == Growth(l2, ds)
    decreases |ds|
  {
    if ds != [] {
      assert forall m :: 0 <= m < |ds[1..]| ==> ds[1..][m] == ds[m + 1];
      GrowthCongruent(l1, l2, ds[1..]);
    }
  }

  lemma {:induction false} GrowthAllNew(levels: seq<Level>, ds: seq<Level>)
    requires forall m :: 0 <= m < |ds| ==> Lookup(levels, ds[m].price) == None
    ensures Growth(levels, ds) == |ds|
    decreases |ds|
  {
    if ds != [] {
      assert forall m :: 0 <= m < |ds[1..]| ==> ds[1..][m] == ds[m + 1];
      GrowthAllNew(levels, ds[1..]);
    }
  }

  lemma {:induction false} MergeFromLength(side: Side, levels: seq<Level>, j: nat, ds: seq<Level>)
    requires ScanInvariant(side, levels, j, ds)
    ensures |MergeFrom(side, levels, j, ds)| == |levels| + Growth(levels, ds)
    decreases |ds|, |levels| - j
  {
    if ds == [] {
    } else if j == |levels| {
      TailAbsent(side, levels, ds);
      GrowthAllNew(levels, ds);
    } else {
      var d, item := ds[0], levels[j];
      RestBehindFirst(side, ds);
      forall m | 0 <= m < |ds[1..]| ensures ds[1..][m].price != d.price {
        AheadIrreflexive(side, d.price);
      }
      if Ahead(side, d.price, item.price) {
        var t := levels[..j] + [d] + levels[j..];
        InsertStep(side, levels, j, ds);
        MergeFromLength(side, t, j + 1, ds[1..]);
        forall m | 0 <= m < |ds[1..]| ensures Lookup(t, ds[1..][m].price) == Lookup(levels, ds[1..][m].price) {
          LookupAfterInsert(levels, j, d, ds[1..][m].price);
        }
        GrowthCongruent(t, levels, ds[1..]);
      } else if d.price == item.price {
        if d.qty != DeleteQty {
          var t := levels[j := Level(item.price, d.qty)];
          ReplaceStep(side, levels, j, ds);
          MergeFromLength(side, t, j + 1, ds[1..]);
          forall m | 0 <= m < |ds[1..]| ensures Lookup(t, ds[1..][m].price) == Lookup(levels, ds[1..][m].price) {
            LookupAfterReplace(levels, j, Level(item.price, d.qty), ds[1..][m].price);
          }
          GrowthCongruent(t, levels, ds[1..]);
        } else {
          var t := levels[..j] + levels[j + 1..];
          RemoveStep(side, levels, j, ds);
          MergeFromLength(side, t, j, ds[1..]);
          forall m | 0 <= m < |ds[1..]| ensures Lookup(t, ds[1..][m].price) == Lookup(levels, ds[1..][m].price) {
            LookupAfterRemove(levels, j, ds[1..][m].price);
          }
          GrowthCongruent(t, levels, ds[1..]);
        }
      } else {
        SkipStep(side, levels, j, ds);
        MergeFromLength(side, levels, j + 1, ds);
      }
    }
  }

  /** The length changes by +1 per new price, -1 per deleted price and 0 per
      update. */
  lemma MergeLength(side: Side, levels: seq<Level>, ds: seq<Level>)
    requires StrictlySorted(side, levels) && StrictlySorted(side, ds)
    ensures |Merge(side, levels, ds)| == |levels| + Growth(levels, ds)
  {
    MergeFromLength(side, levels, 0, ds);
  }

  /** Levels on the unchanged side of a batch keep their quantity and their
      relative order. */
  lemma MergeKeepsUntouched(side: Side, levels: seq<Level>, ds: seq<Level>, k1: nat, k2: nat)
    returns (r1: nat, r2: nat)
    requires StrictlySorted(side, levels) && StrictlySorted(side, ds)
    requires k1 < k2 < |levels|
    requires Lookup(ds, levels[k1].price) == None && Lookup(ds, levels[k2].price) == None
    ensures r1 < r2 < |Merge(side, levels, ds)|
    ensures Merge(side, levels, ds)[r1] == levels[k1] && Merge(side, levels, ds)[r2] == levels[k2]
  {
    var merged := Merge(side, levels, ds);
    MergeSorted(side, levels, ds);
    MergeLookup(side, levels, ds, levels[k1].price);
    MergeLookup(side, levels, ds, levels[k2].price);
    LookupAt(side, levels, k1);
    LookupAt(side, levels, k2);
    r1 := LookupWitness(merged, levels[k1].price);
    r2 := LookupWitness(merged, levels[k2].price);
    AheadAsymmetric(side, levels[k1].price, levels[k2].price);
  }

  // ---------------------------------------------------------------------
  // One delta at a time

  /** The cursor passes every level ahead of the next delta. */
  lemma {:induction false} ScanSkips(side: Side, levels: seq<Level>, j: nat, k: nat, ds: seq<Level>)
    requires j <= k <= |levels| && ds != []
    requires forall x :: j <= x < k ==> Ahead(side, levels[x].price, ds[0].price)
    ensures MergeFrom(side, levels, j, ds) == MergeFrom(side, levels, k, ds)
    decreases k - j
  {
    if j < k {
      AheadAsymmetric(side, levels[j].price, ds[0].price);
      ScanSkips(side, levels, j + 1, k, ds);
    }
  }

  /** A delta at a new price is inserted at its place, whatever its quantity:
      a "0" at a price the side does not hold is stored, not ignored. */
  lemma MergeSingleInsert(side: Side, levels: seq<Level>, k: nat, d: Level)
    requires k <= |levels|
    requires forall x :: 0 <= x < k ==> Ahead(side, levels[x].price, d.price)
    requires k < |levels| ==> Ahead(side, d.price, levels[k].price)
    ensures Merge(side, levels, [d]) == levels[..k] + [d] + levels[k..]
  {
    ScanSkips(side, levels, 0, k, [d]);
    if k == |levels| {
      assert levels[..k] + [d] + levels[k..] == levels + [d];
    }
  }

  /** A delta at a held price with a quantity other than exactly "0"
      overwrites that level's quantity in place. */
  lemma MergeSingleUpdate(side: Side, levels: seq<Level>, k: nat, q: string)
    requires StrictlySorted(side, levels) && k < |levels|
    requires q != DeleteQty
    ensures Merge(side, levels, [Level(levels[k].price, q)]) == levels[k := Level(levels[k].price, q)]
  {
    ScanSkips(side, levels, 0, k, [Level(levels[k].price, q)]);
    AheadIrreflexive(side, levels[k].price);
  }

  /** A "0" delta at a held price removes exactly that one level. */
  lemma MergeSingleDelete(side: Side, levels: seq<Level>, k: nat)
    requires StrictlySorted(side, levels) && k < |levels|
    ensures Merge(side, levels, [Level(levels[k].price, DeleteQty)]) == levels[..k] + levels[k + 1..]
  {
    ScanSkips(side, levels, 0, k, [Level(levels[k].price, DeleteQty)]);
    AheadIrreflexive(side, levels[k].price);
  }
}

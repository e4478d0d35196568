/** `filter_df2item`: the sales history of one item, shared by the location
    performance table and the trend chart. The JSON round trip through the
    hidden `filter-df` element is the identity. */
module ItemHistory {

  import opened Seqs
  import opened Ledger

  /** The "Look back _ days" input: left blank, or an entered day count. */
  datatype Window = AllTime | LastDays(days: int)

  /** Whether a row dated `date` survives the window, given today's day number:
      `Date > today - timedelta(days)`. */
  predicate InWindow(window: Window, today: int, date: int) {
    match window
    case AllTime => true
    case LastDays(days) => date > today - days
  }

  /** The rows of `category` and `item` inside the window, Tier still present. */
  function ItemRows(ledger: seq<Record>, category: string, item: string, window: Window, today: int): (v: seq<Record>)
    ensures forall x :: multiset(v)[x] ==
                          if x.category == category && x.item == item && InWindow(window, today, x.date)
                          then multiset(ledger)[x] else 0
  {
    Filter(ledger, (r: Record) => r.category == category && r.item == item && InWindow(window, today, r.date))
  }

  /** The history handed on: those rows with the Tier column dropped. */
  function FilterToItem(ledger: seq<Record>, category: string, item: string, window: Window, today: int): (h: seq<Sale>)
    ensures |h| == |ItemRows(ledger, category, item, window, today)|
    ensures forall i :: 0 <= i < |h| ==> h[i] == DropTier(ItemRows(ledger, category, item, window, today)[i])
  {
    Project(ItemRows(ledger, category, item, window, today), DropTier)
  }

  /** Every history row is of the chosen category and item and inside the
      window; every such ledger row is in the history. */
  lemma FilterToItemExact(ledger: seq<Record>, category: string, item: string, window: Window, today: int)
    ensures forall s :: s in FilterToItem(ledger, category, item, window, today) ==>
      s.category == category && s.item == item && InWindow(window, today, s.date)
    ensures forall r :: r in ledger && r.category == category && r.item == item && InWindow(window, today, r.date) ==>
      DropTier(r) in FilterToItem(ledger, category, item, window, today)
  {
    var v := ItemRows(ledger, category, item, window, today);
    var h := FilterToItem(ledger, category, item, window, today);
    forall s | s in h ensures s.category == category && s.item == item && InWindow(window, today, s.date) {
      var i :| 0 <= i < |h| && h[i] == s;
      assert multiset(v)[v[i]] > 0;
    }
    forall r | r in ledger && r.category == category && r.item == item && InWindow(window, today, r.date)
      ensures DropTier(r) in h
    {
      assert multiset(ledger)[r] > 0;
      assert r in multiset(v);
      var i :| 0 <= i < |v| && v[i] == r;
      assert h[i] == DropTier(r);
    }
  }

  /** A blank window returns the item's whole history. */
  lemma AllTimeKeepsEveryMatch(ledger: seq<Record>, category: string, item: string, today: int)
    ensures forall x :: multiset(ItemRows(ledger, category, item, AllTime, today))[x] ==
                          if x.category == category && x.item == item then multiset(ledger)[x] else 0
  {
  }

  /** A window of `days` drops every row dated on or before `today - days`. */
  lemma LastDaysDropsOld(ledger: seq<Record>, category: string, item: string, days: int, today: int, r: Record)
    requires r.date <= today - days
    ensures r !in ItemRows(ledger, category, item, LastDays(days), today)
  {
    assert multiset(ItemRows(ledger, category, item, LastDays(days), today))[r] == 0;
  }

  /** Looking back further keeps every row a shorter look-back keeps. */
  lemma LongerWindowKeepsMore(ledger: seq<Record>, category: string, item: string, d1: int, d2: int, today: int)
    requires d1 <= d2
    ensures multiset(ItemRows(ledger, category, item, LastDays(d1), today))
         <= multiset(ItemRows(ledger, category, item, LastDays(d2), today))
  {
    var a := ItemRows(ledger, category, item, LastDays(d1), today);
    var b := ItemRows(ledger, category, item, LastDays(d2), today);
    forall x ensures multiset(a)[x] <= multiset(b)[x] {
    }
  }
}

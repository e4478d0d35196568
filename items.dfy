/** `set_item_options`: the choices of the item dropdown for one category,
    `sorted(df[df['Category'] == category]['Item'].unique())`. Each choice's
    label and value are both the item, so the model returns the items. */
module ItemIndex {

  import opened Seqs
  import opened Order
  import opened Ledger

  function ItemsFor(ledger: seq<Record>, category: string): (items: seq<string>)
    ensures Ascending(items, StrLess)
    ensures forall i :: i in items <==> exists r :: r in ledger && r.category == category && r.item == i
  {
    StrLessIsStrictTotalOrder();
    var inCategory := Filter(ledger, (r: Record) => r.category == category);
    var items := SortedSet(Project(inCategory, RecordItem), StrLess);
    assert forall i :: i in items <==> exists r :: r in inCategory && RecordItem(r) == i by {
      forall i ensures i in items <==> exists r :: r in inCategory && RecordItem(r) == i {
        ProjectMembership(inCategory, RecordItem, i);
      }
    }
    items
  }

  /** The dropdown never offers an item twice. */
  lemma ItemsForDistinct(ledger: seq<Record>, category: string)
    ensures NoDup(ItemsFor(ledger, category))
  {
    StrLessIsStrictTotalOrder();
    AscendingNoDup(ItemsFor(ledger, category), StrLess);
  }

  /** A category without rows (unknown to the ledger) offers no items. */
  lemma ItemsForUnknownCategory(ledger: seq<Record>, category: string)
    requires forall r :: r in ledger ==> r.category != category
    ensures ItemsFor(ledger, category) == []
  {
  }
}

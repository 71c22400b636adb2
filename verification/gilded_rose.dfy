/** The inventory-wide daily update: every item goes through its own rule, in order,
    and the inventory keeps its length and order. */
module GildedRose {
  import opened Items
  import opened Rules

  /** One day for the whole inventory, as an element-wise map: the length and order
      are kept and each item's next state depends on that item alone. */
  function Tick(items: seq<Item>): (r: seq<Item>)
    ensures |r| == |items|
    ensures forall i :: 0 <= i < |items| ==> r[i] == UpdateQualityOfItem(items[i])
  {
    if items == [] then [] else [UpdateQualityOfItem(items[0])] + Tick(items[1..])
  }

  /** The update loop: walks the inventory front to back and replaces each item by
      its next-day state. */
  method UpdateQuality(items: seq<Item>) returns (r: seq<Item>)
    ensures |r| == |items|
    ensures forall i :: 0 <= i < |items| ==> r[i] == UpdateQualityOfItem(items[i])
  {
    r := items;
    var k := 0;
    while k < |r|
      invariant k <= |r| == |items|
      invariant forall i :: 0 <= i < k ==> r[i] == UpdateQualityOfItem(items[i])
      invariant r[k..] == items[k..]
    {
      r := r[k := UpdateQualityOfItem(r[k])];
      k := k + 1;
    }
  }

  /** The scenarios the repository's tests exercise, one day each. */
  lemma Scenarios()
    ensures Tick([Item("foo", 0, 0)]) == [Item("foo", -1, 0)]
    ensures Tick([Item("foo", 1, 1), Item("bar", 1, 1)]) == [Item("foo", 0, 0), Item("bar", 0, 0)]
    ensures Tick([Item("generic item", -1, 13)])[0].sellIn == -2
    ensures Tick([Item(AgedBrieName, -1, 13)])[0].sellIn == -2
    ensures Tick([Item(BackstagePassName, -1, 13)])[0].sellIn == -2
    ensures Tick([Item(AgedBrieName, 1, 0)])[0].quality == 1
    ensures Tick([Item(AgedBrieName, 0, 0)])[0].quality == 2
    ensures Tick([Item("Bread", 1, 10)])[0].quality == 9
    ensures Tick([Item("bread", 0, 10)])[0].quality == 8
    ensures Tick([Item("bread", 0, 0)])[0].quality == 0
    ensures Tick([Item(AgedBrieName, 2, 50)])[0].quality == 50
    ensures Tick([Item(BackstagePassName, 2, 50)])[0].quality == 50
    ensures Tick([Item(SulfurasName, 29, 80)]) == [Item(SulfurasName, 29, 80)]
    ensures Tick([Item(BackstagePassName, 11, 20)])[0].quality == 21
    ensures Tick([Item(BackstagePassName, 10, 20)])[0].quality == 22
    ensures Tick([Item(BackstagePassName, 5, 20)])[0].quality == 23
    ensures Tick([Item(BackstagePassName, 0, 20)])[0].quality == 0
    ensures Tick([Item(BackstagePassName, 3, 48)])[0].quality == 51
  {
  }
}

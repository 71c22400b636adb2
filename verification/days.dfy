/** Repeated daily updates: what holds after any number of days. */
module Days {
  import opened Items
  import opened Rules
  import opened GildedRose

  /** An item after `n` daily updates. */
  function ItemAfterDays(item: Item, n: nat): Item
    decreases n
  {
    if n == 0 then item else ItemAfterDays(UpdateQualityOfItem(item), n - 1)
  }

  /** An inventory after `n` daily updates; no item is ever added or removed. */
  function InventoryAfterDays(items: seq<Item>, n: nat): (r: seq<Item>)
    ensures |r| == |items|
    decreases n
  {
    if n == 0 then items else InventoryAfterDays(Tick(items), n - 1)
  }

  /** Over many days the inventory still evolves item by item. */
  lemma {:induction false} InventoryAfterDaysIsPointwise(items: seq<Item>, n: nat)
    ensures forall i :: 0 <= i < |items| ==>
              InventoryAfterDays(items, n)[i] == ItemAfterDays(items[i], n)
    decreases n
  {
    if n > 0 {
      InventoryAfterDaysIsPointwise(Tick(items), n - 1);
    }
  }

  /** A legendary item never changes, however many days pass. */
  lemma {:induction false} LegendaryNeverChanges(item: Item, n: nat)
    requires item.name == SulfurasName
    ensures ItemAfterDays(item, n) == item
    decreases n
  {
    if n > 0 {
      LegendaryNeverChanges(UpdateQualityOfItem(item), n - 1);
    }
  }

  /** Names never change, and every other item's countdown drops by one a day. */
  lemma {:induction false} SellInCountsDown(item: Item, n: nat)
    ensures ItemAfterDays(item, n).name == item.name
    ensures item.name != SulfurasName ==> ItemAfterDays(item, n).sellIn == item.sellIn - n
    decreases n
  {
    if n > 0 {
      SellInCountsDown(UpdateQualityOfItem(item), n - 1);
    }
  }

  /** The quality range (legendary exempt, backstage passes [0, 51], all others
      [0, 50]) holds on every day after it holds on the first. */
  lemma {:induction false} QualityStaysInRange(item: Item, n: nat)
    requires QualityInRange(item)
    ensures QualityInRange(ItemAfterDays(item, n))
    decreases n
  {
    if n > 0 {
      QualityStaysInRange(UpdateQualityOfItem(item), n - 1);
    }
  }

  /** The same for a whole inventory. */
  lemma InventoryStaysInRange(items: seq<Item>, n: nat)
    requires forall i :: 0 <= i < |items| ==> QualityInRange(items[i])
    ensures forall i :: 0 <= i < |items| ==> QualityInRange(InventoryAfterDays(items, n)[i])
  {
    InventoryAfterDaysIsPointwise(items, n);
    forall i | 0 <= i < |items|
      ensures QualityInRange(InventoryAfterDays(items, n)[i])
    {
      QualityStaysInRange(items[i], n);
    }
  }

  /** Regular items never gain quality and Aged Brie never loses it, over any span. */
  lemma {:induction false} QualityIsMonotone(item: Item, n: nat)
    ensures CategoryOf(item.name) == Regular ==> ItemAfterDays(item, n).quality <= item.quality
    ensures CategoryOf(item.name) == Aged ==> ItemAfterDays(item, n).quality >= item.quality
    decreases n
  {
    if n > 0 {
      QualityIsMonotone(UpdateQualityOfItem(item), n - 1);
    }
  }

  /** Once the concert has passed, a backstage pass is worth nothing for good. */
  lemma {:induction false} BackstageWorthlessAfterConcert(item: Item, n: nat)
    requires item.name == BackstagePassName && item.sellIn <= 0
    requires n >= 1
    ensures ItemAfterDays(item, n).quality == 0
    decreases n
  {
    if n > 1 {
      BackstageWorthlessAfterConcert(UpdateQualityOfItem(item), n - 1);
    }
  }
}

/** The per-category daily rules and the dispatch between them. Each rule is written
    as the same sequence of guarded field updates as the Java method it models, with
    intermediate items standing for the object between two statements; the contracts
    state the net effect of one day. */
module Rules {
  import opened Items

  /** Counts the sell-by countdown down by one day and touches nothing else. */
  function ReduceSellIn(item: Item): (r: Item)
    ensures r.sellIn + 1 == item.sellIn
    ensures r.name == item.name && r.quality == item.quality
  {
    item.(sellIn := item.sellIn - 1)
  }

  /** Regular items lose quality, twice as fast once expired, never going below 0. */
  function UpdateRegular(item: Item): (r: Item)
    ensures r.name == item.name
    ensures r.sellIn == item.sellIn - 1
    ensures r.quality <= item.quality
    ensures 0 <= item.quality <= 50 ==> 0 <= r.quality <= 50
    // a quality at or below zero is left alone
    ensures item.quality <= 0 ==> r.quality == item.quality
    // before the sell-by date: exactly one point
    ensures item.quality > 0 && item.sellIn >= 1 ==> r.quality == item.quality - 1
    // on or after the sell-by date: two points, or whatever is left
    ensures item.quality > 0 && item.sellIn <= 0 ==>
              r.quality == item.quality - (if item.quality < 2 then item.quality else 2)
  {
    var a := if item.quality > 0 then item.(quality := item.quality - 1) else item;
    var b := ReduceSellIn(a);
    if b.sellIn < 0 && b.quality > 0 then b.(quality := b.quality - 1) else b
  }

  /** Aged Brie gains quality, twice as fast once expired, never beyond 50. */
  function UpdateAgedBrie(item: Item): (r: Item)
    ensures r.name == item.name
    ensures r.sellIn == item.sellIn - 1
    ensures r.quality >= item.quality
    ensures item.quality <= 50 ==> r.quality <= 50
    // a quality at or above 50 is left alone
    ensures item.quality >= 50 ==> r.quality == item.quality
    // before the sell-by date: exactly one point
    ensures item.quality < 50 && item.sellIn >= 1 ==> r.quality == item.quality + 1
    // on or after the sell-by date: two points, but not past 50
    ensures item.quality < 50 && item.sellIn <= 0 ==>
              r.quality == (if item.quality + 2 > 50 then 50 else item.quality + 2)
  {
    var a := if item.quality < 50 then item.(quality := item.quality + 1) else item;
    var b := ReduceSellIn(a);
    if b.sellIn < 0 && b.quality < 50 then b.(quality := b.quality + 1) else b
  }

  /** Backstage passes gain one point a day, two within ten days of the concert and
      three within five, and are worth nothing once the concert has passed. One
      `quality < 50` guard covers both tier increments, so a pass at 48 can reach 51. */
  function UpdateBackstagePass(item: Item): (r: Item)
    ensures r.name == item.name
    ensures r.sellIn == item.sellIn - 1
    // the concert has passed: the pass collapses to zero whatever it had gained
    ensures item.sellIn <= 0 ==> r.quality == 0
    // the tiers, while the quality is far enough below the cap
    ensures item.sellIn >= 11 && item.quality <= 48 ==> r.quality == item.quality + 1
    ensures 6 <= item.sellIn <= 10 && item.quality <= 47 ==> r.quality == item.quality + 2
    ensures 1 <= item.sellIn <= 5 && item.quality <= 47 ==> r.quality == item.quality + 3
    // near the cap
    ensures 6 <= item.sellIn <= 10 && item.quality == 48 ==> r.quality == 50
    ensures 1 <= item.sellIn <= 5 && item.quality == 48 ==> r.quality == 51
    ensures item.sellIn >= 1 && item.quality == 49 ==> r.quality == 50
    ensures item.sellIn >= 1 && item.quality >= 50 ==> r.quality == item.quality
    // from [0, 50] the pass ends in [0, 51]; from [0, 51] it stays there
    ensures 0 <= item.quality <= 51 ==> 0 <= r.quality <= 51
  {
    var a := if item.quality < 50 then item.(quality := item.quality + 1) else item;
    var b := if a.quality < 50 then
               var b1 := if a.sellIn < 11 then a.(quality := a.quality + 1) else a;
               if b1.sellIn < 6 then b1.(quality := b1.quality + 1) else b1
             else a;
    var c := ReduceSellIn(b);
    if c.sellIn < 0 then c.(quality := 0) else c
  }

  /** One day for one item: the rule chosen by the item's name. Legendary items go
      through the no-op rule and come out identical. */
  function UpdateQualityOfItem(item: Item): (r: Item)
    ensures r.name == item.name
    ensures r == item <==> item.name == SulfurasName
    ensures item.name != SulfurasName ==> r.sellIn == item.sellIn - 1
    ensures CategoryOf(item.name) == Regular ==> r.quality <= item.quality
    ensures CategoryOf(item.name) == Aged ==> r.quality >= item.quality
    ensures CategoryOf(item.name) == Backstage && item.sellIn <= 0 ==> r.quality == 0
    ensures QualityInRange(item) ==> QualityInRange(r)
    // every other category gets its own rule, with that rule's full contract
    ensures CategoryOf(item.name) == Aged ==> r == UpdateAgedBrie(item)
    ensures CategoryOf(item.name) == Backstage ==> r == UpdateBackstagePass(item)
    ensures CategoryOf(item.name) == Regular ==> r == UpdateRegular(item)
  {
    match CategoryOf(item.name)
    case Aged => UpdateAgedBrie(item)
    case Backstage => UpdateBackstagePass(item)
    case Legendary => item
    case Regular => UpdateRegular(item)
  }
}

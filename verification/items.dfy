/** The inventory entry and the four item categories the rule engine knows about. */
module Items {

  /** One inventory entry: a name, days left until its sell-by date (negative once
      expired) and a quality score. Java's 32-bit `int` fields are modelled as
      unbounded integers. */
  datatype Item = Item(name: string, sellIn: int, quality: int)

  const AgedBrieName: string := "Aged Brie"
  const BackstagePassName: string := "Backstage passes to a TAFKAL80ETC concert"
  const SulfurasName: string := "Sulfuras, Hand of Ragnaros"

  /** The closed set of behaviours an item can have. */
  datatype Category = Regular | Aged | Backstage | Legendary

  /** Classification by exact, case-sensitive name match; any other name is regular. */
  function CategoryOf(name: string): (c: Category)
    ensures c == Aged <==> name == AgedBrieName
    ensures c == Backstage <==> name == BackstagePassName
    ensures c == Legendary <==> name == SulfurasName
  {
    if name == AgedBrieName then Aged
    else if name == BackstagePassName then Backstage
    else if name == SulfurasName then Legendary
    else Regular
  }

  /** The highest quality the daily update can leave behind for a category whose
      quality starts in range. Backstage passes can overshoot 50 by one. */
  function QualityCap(c: Category): int
  {
    if c == Backstage then 51 else 50
  }

  /** The quality range an item stays in from one day to the next: legendary items
      are exempt, every other item lies in [0, QualityCap]. */
  predicate QualityInRange(item: Item)
  {
    var c := CategoryOf(item.name);
    c == Legendary || 0 <= item.quality <= QualityCap(c)
  }
}

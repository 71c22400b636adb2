# Gilded Rose inventory update, modelled in Dafny

The system keeps an inventory of items. Each item has a name, a `sellIn` countdown to
its sell-by date, and a `quality` score. `GildedRose.updateQuality` advances the whole
inventory by one day. It applies one of four rules to each item, chosen by an exact
match on the item's name:

- **Aged Brie** gains quality.
- **Backstage passes to a TAFKAL80ETC concert** gain quality in tiers, then drop to 0 once the concert has passed.
- **Sulfuras, Hand of Ragnaros** never changes.
- **Everything else** loses quality, twice as fast once expired.

The model uses value semantics. `Item` is an immutable datatype and the inventory is a
`seq<Item>`. Each per-item Java method (`updateRegular`, `updateAgedBrie`,
`updateBackStagePass`, `reduceSellInValueOf`, `updateQualityOfItem`) becomes a pure
function that makes the same guarded field updates in the same order. An intermediate item stands for the object between
two statements. The contracts state each rule's net effect for every combination of
`sellIn` and `quality`, including out-of-range starting qualities. No value is clamped
on construction. Java's empty `noop` method (`GildedRose.java:28-30`) is the legendary
branch of `Rules.UpdateQualityOfItem`, which returns the item unchanged; it has no
member of its own. `updateQuality` becomes the method `GildedRose.UpdateQuality`, whose
loop mirrors the Java one, together with the function `GildedRose.Tick`, the element-wise
map that the loop computes.

Files:

- `items.dfy`: module `Items`. The `Item` datatype, the three special names, the closed `Category` type, and the quality-range predicate.
- `rules.dfy`: module `Rules`. The per-category rules and the dispatch by name.
- `gilded_rose.dfy`: module `GildedRose`. The update loop, the element-wise map it computes, and the scenarios from the repository's tests.
- `days.dfy`: module `Days`. What holds after any number of consecutive updates.

**Backstage overshoot.** One `quality < 50` guard (`GildedRose.java:61-69`) covers both
tier increments, so a pass at quality 48 with 1 to 5 days left ends at 51.
`Rules.UpdateBackstagePass` states the exact tier behaviour, including this case. The
range proved for passes is [0, 51], and it holds on every later day.

## Model

| member | source | states |
|---|---|---|
| Items.CategoryOf | src/main/java/com/gildedrose/GildedRose.java:20-25 | Aged Brie, backstage pass and Sulfuras are each selected exactly when the name equals that constant; any other name is regular |
| Rules.ReduceSellIn | src/main/java/com/gildedrose/GildedRose.java:78-80 | the countdown drops by exactly one; name and quality are untouched |
| Rules.UpdateRegular | src/main/java/com/gildedrose/GildedRose.java:32-42 | name kept, sellIn down by 1; quality never rises and [0,50] is kept; quality ≤ 0 is left alone; otherwise quality drops by 1 while the original sellIn ≥ 1 and by min(2, q) once it is ≤ 0 |
| Rules.UpdateAgedBrie | src/main/java/com/gildedrose/GildedRose.java:44-54 | name kept, sellIn down by 1; quality never falls and a start ≤ 50 ends ≤ 50; quality ≥ 50 is left alone; otherwise +1 while the original sellIn ≥ 1 and +2 capped at 50 once it is ≤ 0 |
| Rules.UpdateBackstagePass | src/main/java/com/gildedrose/GildedRose.java:56-76 | name kept, sellIn down by 1; original sellIn ≤ 0 gives quality 0; for q ≤ 47 the tiers give +1 (sellIn ≥ 11), +2 (6..10) and +3 (1..5); 48 gives 49, 50, 51 by tier, 49 gives 50, ≥ 50 is kept; [0,51] maps into [0,51] |
| Rules.UpdateQualityOfItem | src/main/java/com/gildedrose/GildedRose.java:19-30 | the name is kept; the item comes out identical exactly when it is Sulfuras; every other item's sellIn drops by 1; regular items never gain and Brie never loses quality; an expired pass is worth 0; the per-category quality range is preserved; Aged Brie, backstage passes and every other name go through their own rule, with that rule's full contract |
| GildedRose.Tick | src/main/java/com/gildedrose/GildedRose.java:13-17 | one day keeps the inventory's length and replaces item i by its own next-day state, for every position i |
| GildedRose.UpdateQuality | src/main/java/com/gildedrose/GildedRose.java:13-17 | the front-to-back loop keeps the inventory's length and leaves at each position the next-day state of the item that was there |
| GildedRose.Scenarios | src/test/java/com/gildedrose/GildedRoseTest.java:17-135 | the concrete one-day outcomes the tests expect, plus the 48 → 51 backstage overshoot |
| Days.InventoryAfterDays | src/main/java/com/gildedrose/GildedRose.java:13-17 | any number of days never adds or removes an item |
| Days.InventoryAfterDaysIsPointwise | src/main/java/com/gildedrose/GildedRose.java:13-17 | after n days item i is its own item after n single-item updates |
| Days.LegendaryNeverChanges | src/main/java/com/gildedrose/GildedRose.java:23-30 | Sulfuras is identical after any number of days |
| Days.SellInCountsDown | src/main/java/com/gildedrose/GildedRose.java:19-80 | names never change; every non-Sulfuras sellIn is down by exactly n after n days, unbounded below |
| Days.QualityStaysInRange | src/main/java/com/gildedrose/GildedRose.java:19-76 | an item whose quality is in its category's range (passes [0,51], others [0,50], Sulfuras exempt) stays in it on every later day |
| Days.InventoryStaysInRange | src/main/java/com/gildedrose/GildedRose.java:13-76 | the same range holds for every item of an inventory after any number of days |
| Days.QualityIsMonotone | src/main/java/com/gildedrose/GildedRose.java:32-54 | over any span regular items never gain quality and Aged Brie never loses it |
| Days.BackstageWorthlessAfterConcert | src/main/java/com/gildedrose/GildedRose.java:56-76 | a pass whose concert has passed has quality 0 on every day from the next one on |

## Left out

- `Item.toString` and its `"name, sellIn, quality"` rendering: `Item.java` is not part of this model, and text formatting plays no part in the update rules.
- Java's 32-bit `int`: `sellIn` and `quality` are unbounded integers. The quality updates are guarded and cannot overflow. `sellIn -= 1` would wrap around at `Integer.MIN_VALUE`; the model keeps counting down.
- A `null` name, which makes the Java `switch` throw: Dafny strings cannot be null.
- A `null` items array or a `null` element, which throw NullPointerException (the array at `GildedRose.java:14`, an element at `GildedRose.java:20`). A null element throws only after the items before it have been changed in place; a sequence of values has no null and the model cannot show that partial update.
- Reference aliasing: the same `Item` object twice in the array would be updated twice a day. The model has value semantics and updates each position once.
- The in-place mutation itself: `updateQuality` returns nothing and mutates the array; the model returns the new inventory instead.
- The tests' use of `List<Item>` with a constructor that takes `Item[]`, and the JUnit/AssertJ plumbing.

/** The status dot shown beside each listed item. */
module Priority {
  import opened Records

  /** The two CSS classes "priority-high" and "priority-normal". */
  datatype Status = PriorityHigh | PriorityNormal

  /** The stock lies in the inclusive band from `min` to `max`. */
  predicate InBand(stock: int, min: int, max: int) {
    min <= stock <= max
  }

  /** An item needs attention exactly when its stock has left its band. */
  function PriorityStatus(item: Item): (r: Status)
    ensures r == PriorityNormal <==> InBand(item.rec.stock, item.rec.min, item.rec.max)
    ensures r == PriorityHigh <==> !InBand(item.rec.stock, item.rec.min, item.rec.max)
  {
    if item.rec.stock < item.rec.min || item.rec.stock > item.rec.max then PriorityHigh
    else PriorityNormal
  }

  /** Both ends of the band count as normal. */
  lemma BoundsAreNormal(item: Item)
    requires item.rec.min <= item.rec.max
    requires item.rec.stock == item.rec.min || item.rec.stock == item.rec.max
    ensures PriorityStatus(item) == PriorityNormal
  {
  }

  /** Since nothing orders `min` before `max`, an item whose band is empty is
      high priority whatever its stock. */
  lemma InvertedBandAlwaysHigh(item: Item)
    requires item.rec.min > item.rec.max
    ensures PriorityStatus(item) == PriorityHigh
  {
  }

  /** The status depends only on stock, min and max: renaming an item, moving
      it under another key or changing its link leaves its status alone. */
  lemma StatusIgnoresOtherFields(a: Item, b: Item)
    requires a.rec.stock == b.rec.stock && a.rec.min == b.rec.min && a.rec.max == b.rec.max
    ensures PriorityStatus(a) == PriorityStatus(b)
  {
  }
}

/** `calculateDisplaySlots`: how many slots an inventory grid shows, i.e. the
    rows needed up to the highest occupied slot, capped at the capacity. */
module OccupiedSlots {
  import opened Typings

  /** The grid width used when the caller gives none. */
  const DEFAULT_GRID_COLS: int := 5

  /** The highest slot number carried by a record with a name, or 0. */
  function HighestOccupied(items: seq<Slot>): (h: int)
    ensures h >= 0
    ensures forall k :: 0 <= k < |items| && Occupied(items[k]) ==> items[k].slot <= h
    ensures h > 0 ==> exists k :: 0 <= k < |items| && Occupied(items[k]) && items[k].slot == h
    decreases |items|
  {
    if items == [] then 0
    else
      var h := HighestOccupied(items[..|items| - 1]);
      var last := items[|items| - 1];
      if Occupied(last) && last.slot > h then last.slot else h
  }

  /** `Math.ceil(h / g)` for a non-negative `h` and a positive `g`: the
      fewest rows of `g` that hold `h` slots. */
  function CeilDiv(h: int, g: int): (c: int)
    requires h >= 0 && g > 0
    ensures c >= 0 && h <= c * g < h + g
  {
    var c := (h + g - 1) / g;
    assert c * g + (h + g - 1) % g == h + g - 1;
    c
  }

  /** A whole number of rows is a multiple of the row width. */
  lemma WholeRows(c: int, g: int)
    requires g > 0
    ensures (c * g) % g == 0
  {
    var q, m := (c * g) / g, (c * g) % g;
    assert (c - q) * g == m by {
      assert c * g == q * g + m;
    }
    ProductBounds(c - q, g);
  }

  lemma ProductBounds(d: int, g: int)
    requires g > 0
    ensures d >= 1 ==> d * g >= g
    ensures d <= -1 ==> d * g <= -g
  {
    if d >= 1 {
      assert d * g == (d - 1) * g + g;
    } else if d <= -1 {
      assert d * g == (d + 1) * g - g;
    }
  }

  /** The display count for a highest occupied slot `h`. */
  function DisplaySlots(h: int, totalSlots: int, gridCols: int): (r: int)
    requires h >= 0 && gridCols > 0
    ensures h == 0 ==> r == gridCols
    ensures h > 0 ==> r <= totalSlots
    ensures h > 0 && CeilDiv(h, gridCols) * gridCols <= totalSlots ==> r == CeilDiv(h, gridCols) * gridCols && r % gridCols == 0
    ensures h > 0 && CeilDiv(h, gridCols) * gridCols > totalSlots ==> r == totalSlots
    ensures h > 0 && h <= totalSlots ==> h <= r < h + gridCols
  {
    if h == 0 then gridCols
    else
      var calculated := CeilDiv(h, gridCols) * gridCols;
      WholeRows(CeilDiv(h, gridCols), gridCols);
      if calculated < totalSlots then calculated else totalSlots
  }

  /** Scan for the highest occupied slot, then round up to whole rows and
      cap at the capacity; with nothing occupied, one row is shown even when
      that exceeds the capacity. */
  method CalculateDisplaySlots(items: seq<Slot>, totalSlots: int, gridCols: int) returns (r: int)
    requires gridCols > 0
    ensures r == DisplaySlots(HighestOccupied(items), totalSlots, gridCols)
  {
    var highestOccupied := 0;
    for i := 0 to |items|
      invariant highestOccupied == HighestOccupied(items[..i])
    {
      assert items[..i + 1][..i] == items[..i];
      var item := items[i];
      if Occupied(item) && item.slot > highestOccupied {
        highestOccupied := item.slot;
      }
    }
    assert items[..|items|] == items;

    if highestOccupied == 0 {
      return gridCols;
    }
    var occupiedRows := CeilDiv(highestOccupied, gridCols);
    var calculatedSlots := occupiedRows * gridCols;
    r := if calculatedSlots < totalSlots then calculatedSlots else totalSlots;
  }

  /** Records without a name never raise the count. */
  lemma UnnamedIgnored(items: seq<Slot>, s: Slot)
    requires !Occupied(s)
    ensures HighestOccupied(items + [s]) == HighestOccupied(items)
  {
    assert (items + [s])[..|items + [s]| - 1] == items;
  }

  /** With the default five columns, an item in slot 7 of 50 shows two rows,
      and an empty inventory of 3 slots still shows a full row of 5. */
  lemma DefaultGridScenarios(items: seq<Slot>)
    requires HighestOccupied(items) == 7
    ensures DisplaySlots(HighestOccupied(items), 50, DEFAULT_GRID_COLS) == 10
    ensures DisplaySlots(HighestOccupied([]), 3, DEFAULT_GRID_COLS) == 5
  {
    assert CeilDiv(7, 5) == 2;
  }
}

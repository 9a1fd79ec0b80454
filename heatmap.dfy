/**
 * The fallback rendering of components/calendar-heatmap.tsx: one cell per
 * entry for at most the first 365 entries, each with an intensity from 0 to
 * 4, and a caption with the number of entries. The opacity derived from the
 * intensity is not modelled.
 */
module CalendarHeatmap {
  import opened Wrappers

  /** One entry of `data`; an entry or its fields may be missing. */
  datatype HeatEntry = HeatEntry(date: Option<string>, count: Option<int>)

  /** The number of cells drawn. */
  const MaxCells: nat := 365

  /** `item?.count || 0`. */
  function CountOf(e: HeatEntry): (c: int)
    ensures e.count.None? ==> c == 0
    ensures e.count.Some? ==> c == e.count.value
  {
    e.count.GetOr(0)
  }

  /** `Math.min(Math.floor(count / 4), 4)`; for the positive divisor 4
      Dafny's division is the floor. */
  function Intensity(count: int): (k: int)
    ensures k <= 4
    ensures count >= 0 ==> 0 <= k
    ensures k == 4 <==> count >= 16
    ensures 0 <= count < 16 ==> k * 4 <= count < k * 4 + 4
  {
    if count / 4 < 4 then count / 4 else 4
  }

  /** Counts 0 to 3 give the faintest cell, and more reviews never give a
      fainter one. */
  lemma IntensityShape(a: int, b: int)
    requires a <= b
    ensures 0 <= a < 4 ==> Intensity(a) == 0
    ensures Intensity(a) <= Intensity(b)
  {
  }

  datatype HeatCell = HeatCell(intensity: int, count: int)

  datatype Heatmap = Heatmap(cells: seq<HeatCell>, caption: nat)

  /** The grid of the first 365 entries, and the caption's day count,
      which is the length of all the data. */
  function Render(data: seq<HeatEntry>): (h: Heatmap)
    ensures |h.cells| == if |data| < MaxCells then |data| else MaxCells
    ensures forall i | 0 <= i < |h.cells| :: h.cells[i] == HeatCell(Intensity(CountOf(data[i])), CountOf(data[i]))
    ensures h.caption == |data|
  {
    var shown := if |data| < MaxCells then data else data[..MaxCells];
    Heatmap(seq(|shown|, i requires 0 <= i < |shown| => HeatCell(Intensity(CountOf(shown[i])), CountOf(shown[i]))),
            |data|)
  }

  /** With non-negative counts every cell's intensity is between 0 and 4,
      and a missing count draws the faintest cell. */
  lemma {:induction false} RenderBounds(data: seq<HeatEntry>)
    requires forall i | 0 <= i < |data| :: data[i].count.Some? ==> data[i].count.value >= 0
    ensures forall c | c in Render(data).cells :: 0 <= c.intensity <= 4
    ensures forall i | 0 <= i < |Render(data).cells| && data[i].count.None? :: Render(data).cells[i].intensity == 0
  {
    var h := Render(data);
    forall c | c in h.cells
      ensures 0 <= c.intensity <= 4
    {
      var i :| 0 <= i < |h.cells| && h.cells[i] == c;
      assert CountOf(data[i]) >= 0;
    }
  }
}

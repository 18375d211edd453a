/** `guess_zone` (tools/compare_latest_pair.py, lines 51-60): the normalised
    difference map is cut into three horizontal bands and the band with the
    largest mean difference names the zone of the change. */
module Zones {
  import opened Sorting

  datatype Zone = Top | Middle | Bottom

  /** The label the report prints for a zone. */
  function ZoneName(z: Zone): (s: string)
    ensures s != []
  {
    match z
    case Top => "top"
    case Middle => "middle"
    case Bottom => "bottom"
  }

  lemma ZoneNameInjective(a: Zone, b: Zone)
    requires ZoneName(a) == ZoneName(b)
    ensures a == b
  {
  }

  /** A `float64` mean as numpy computes it: `NaN` for an empty slice. */
  datatype Mean = NaN | Value(v: real)

  /** Python's `>` on floats: false whenever either side is `NaN`. */
  predicate Greater(a: Mean, b: Mean) {
    a.Value? && b.Value? && a.v > b.v
  }

  predicate IsByte(x: int) {
    0 <= x <= 255
  }

  predicate AllBytes(row: seq<int>) {
    forall j :: 0 <= j < |row| ==> IsByte(row[j])
  }

  /** A 2-D `uint8` array: rows of one common length, every value a byte. */
  predicate IsGray(g: seq<seq<int>>) {
    && (forall i :: 0 <= i < |g| ==> |g[i]| == |g[0]|)
    && (forall i :: 0 <= i < |g| ==> AllBytes(g[i]))
  }

  /** `norm.shape[1]`. */
  function Cols(g: seq<seq<int>>): nat {
    if g == [] then 0 else |g[0]|
  }

  function RowSum(row: seq<int>): (s: int)
    requires AllBytes(row)
    ensures 0 <= s <= 255 * |row|
  {
    if row == [] then 0
    else
      var init := row[..|row| - 1];
      assert AllBytes(init) by {
        forall j | 0 <= j < |init| ensures IsByte(init[j]) {
          assert init[j] == row[j];
        }
      }
      RowSum(init) + row[|row| - 1]
  }

  /** Sum of all values in rows `lo` up to (not including) `hi`. */
  function BandSum(g: seq<seq<int>>, lo: nat, hi: nat): (s: int)
    requires IsGray(g) && lo <= hi <= |g|
    ensures 0 <= s <= 255 * ((hi - lo) * Cols(g))
    decreases hi - lo
  {
    if hi == lo then 0
    else
      var w := Cols(g);
      assert |g[hi - 1]| == w;
      assert (hi - lo) * w == (hi - 1 - lo) * w + w;
      BandSum(g, lo, hi - 1) + RowSum(g[hi - 1])
  }

  /** `norm[lo:hi, :].mean()`, with the row bounds already clamped to the array. */
  function BandMean(g: seq<seq<int>>, lo: nat, hi: nat): (m: Mean)
    requires IsGray(g) && lo <= hi <= |g|
    ensures m.NaN? <==> (hi == lo || Cols(g) == 0)
    ensures m.Value? ==> 0.0 <= m.v <= 255.0
  {
    var cells := (hi - lo) * Cols(g);
    if cells == 0 then NaN
    else
      var s := BandSum(g, lo, hi);
      MeanBounds(s, cells);
      Value(s as real / cells as real)
  }

  lemma MeanBounds(s: int, cells: int)
    requires cells > 0 && 0 <= s <= 255 * cells
    ensures 0.0 <= s as real / cells as real <= 255.0
  {
    assert s as real <= 255.0 * cells as real;
  }

  /** `band = h // 3 if h >= 3 else 1`: never zero, so the `else 0` arms of the
      three means are dead code. */
  function BandHeight(h: nat): (b: nat)
    ensures b >= 1
    ensures h >= 3 ==> 3 * b <= h < 3 * b + 3
    ensures h < 3 ==> b == 1
  {
    if h >= 3 then h / 3 else 1
  }

  /** Python's slice bound: `norm[lo:hi]` stops at the last row. */
  function Clamp(x: nat, h: nat): nat {
    if x <= h then x else h
  }

  /** The rows `[lo, hi)` of a zone on a map of `h` rows: `0:band`,
      `band:2*band` and `2*band:`. */
  function BandRows(h: nat, z: Zone): (r: (nat, nat))
    ensures r.0 <= r.1 <= h
  {
    var b := BandHeight(h);
    match z
    case Top => (0, Clamp(b, h))
    case Middle => (Clamp(b, h), Clamp(2 * b, h))
    case Bottom => (Clamp(2 * b, h), h)
  }

  function ZoneMean(g: seq<seq<int>>, z: Zone): Mean
    requires IsGray(g)
  {
    var (lo, hi) := BandRows(|g|, z);
    BandMean(g, lo, hi)
  }

  /** The three `(name, mean)` pairs, in the order the source lists them. */
  function Bands(g: seq<seq<int>>): (bs: seq<(Zone, Mean)>)
    requires IsGray(g)
    ensures |bs| == 3
    ensures forall j :: 0 <= j < 3 ==> bs[j] == (ZoneAt(j), ZoneMean(g, ZoneAt(j)))
  {
    [(Top, ZoneMean(g, Top)), (Middle, ZoneMean(g, Middle)), (Bottom, ZoneMean(g, Bottom))]
  }

  /** On a map of at least three rows the bands are non-empty, back to back and
      cover every row; top and middle have the same height and the bottom band
      takes the remaining zero to two rows on top of that. */
  lemma BandsPartition(h: nat)
    requires h >= 3
    ensures var b := BandHeight(h);
      && 0 < b && Clamp(b, h) == b && Clamp(2 * b, h) == 2 * b
      && b <= h - 2 * b <= b + 2
    ensures var b := BandHeight(h);
      BandRows(h, Top) == (0, b) && BandRows(h, Middle) == (b, 2 * b) && BandRows(h, Bottom) == (2 * b, h)
  {
  }

  /** The key order of `zones.sort(key=mean, reverse=True)`: a stable sort in
      descending order of mean, which is the stable ascending sort for "has the
      greater mean". */
  function ByMeanDesc(): ((Zone, Mean), (Zone, Mean)) -> bool {
    (x: (Zone, Mean), y: (Zone, Mean)) => Greater(x.1, y.1)
  }

  function GuessZone(g: seq<seq<int>>): Zone
    requires IsGray(g)
  {
    Sort(Bands(g), ByMeanDesc())[0].0
  }

  /** The printed label `guess_zone` returns. */
  function GuessZoneName(g: seq<seq<int>>): (s: string)
    requires IsGray(g)
    ensures s == "top" || s == "middle" || s == "bottom"
  {
    ZoneName(GuessZone(g))
  }

  function Index(z: Zone): (i: nat)
    ensures i < 3 && ZoneAt(i) == z
  {
    match z
    case Top => 0
    case Middle => 1
    case Bottom => 2
  }

  function ZoneAt(i: nat): Zone
    requires i < 3
  {
    if i == 0 then Top else if i == 1 then Middle else Bottom
  }

  lemma ByMeanDescStrictWeak()
    ensures StrictWeakOn(ByMeanDesc(), (x: (Zone, Mean)) => x.1.Value?)
  {
  }

  /** When every band has a mean (at least three rows, at least one column),
      the zone returned is the band with the greatest mean, and the first such
      band when several share it: every band listed before it has a strictly
      smaller mean. */
  lemma {:induction false} GuessZoneIsFirstLoudest(g: seq<seq<int>>)
    requires IsGray(g) && |g| >= 3 && Cols(g) >= 1
    ensures var bs := Bands(g); var i := Index(GuessZone(g));
      && (forall j :: 0 <= j < 3 ==> bs[j].1.Value?)
      && (forall j :: 0 <= j < 3 ==> bs[j].1.v <= bs[i].1.v)
      && (forall j :: 0 <= j < i ==> bs[j].1.v < bs[i].1.v)
  {
    var bs := Bands(g);
    BandsPartition(|g|);
    LoudestFirst(bs);
    assert Index(GuessZone(g)) == FirstMin(bs, ByMeanDesc());
  }

  /** Sorting three bands that all have a mean puts first the first band whose
      mean is greatest. */
  lemma LoudestFirst(bs: seq<(Zone, Mean)>)
    requires |bs| == 3 && forall j :: 0 <= j < 3 ==> bs[j].1.Value?
    ensures var k := FirstMin(bs, ByMeanDesc());
      && Sort(bs, ByMeanDesc())[0] == bs[k]
      && (forall j :: 0 <= j < 3 ==> bs[j].1.v <= bs[k].1.v)
      && (forall j :: 0 <= j < k ==> bs[j].1.v < bs[k].1.v)
  {
    var lt := ByMeanDesc();
    var dom := (x: (Zone, Mean)) => x.1.Value?;
    assert AllIn(bs, dom);
    ByMeanDescStrictWeak();
    SortHead(bs, lt);
    FirstMinIsFirstMinimal(bs, lt, dom);
  }

  /** Row `i` lies in zone `z`. */
  predicate InZone(h: nat, z: Zone, i: nat) {
    BandRows(h, z).0 <= i < BandRows(h, z).1
  }

  lemma {:induction false} RowSumBounds(row: seq<int>, lo: int, hi: int)
    requires AllBytes(row)
    requires forall j :: 0 <= j < |row| ==> lo <= row[j] <= hi
    ensures lo * |row| <= RowSum(row) <= hi * |row|
  {
    if row != [] {
      var init := row[..|row| - 1];
      forall j | 0 <= j < |init| ensures lo <= init[j] <= hi {
        assert init[j] == row[j];
      }
      RowSumBounds(init, lo, hi);
      assert lo * |row| == lo * |init| + lo;
      assert hi * |row| == hi * |init| + hi;
    }
  }

  lemma {:induction false} BandSumBounds(g: seq<seq<int>>, lo: nat, hi: nat, a: int, b: int)
    requires IsGray(g) && lo <= hi <= |g|
    requires forall i, j :: lo <= i < hi && 0 <= j < |g[i]| ==> a <= g[i][j] <= b
    ensures a * ((hi - lo) * Cols(g)) <= BandSum(g, lo, hi) <= b * ((hi - lo) * Cols(g))
    decreases hi - lo
  {
    if hi > lo {
      var w := Cols(g);
      var row := g[hi - 1];
      BandSumBounds(g, lo, hi - 1, a, b);
      assert |row| == w;
      forall j | 0 <= j < |row| ensures a <= row[j] <= b {
        assert row[j] == g[hi - 1][j];
      }
      RowSumBounds(row, a, b);
      AddRow(hi - 1 - lo, w, a);
      AddRow(hi - 1 - lo, w, b);
    }
  }

  lemma AddRow(n: nat, w: nat, a: int)
    ensures a * ((n + 1) * w) == a * (n * w) + a * w
  {
    assert (n + 1) * w == n * w + w;
  }

  lemma MeanBetween(s: int, cells: int, a: int, b: int)
    requires cells > 0 && a * cells <= s <= b * cells
    ensures a as real <= s as real / cells as real <= b as real
  {
    assert a as real * cells as real <= s as real <= b as real * cells as real;
  }

  /** The band mean lies between the smallest and the largest value admitted in
      the band. */
  lemma ZoneMeanBounds(g: seq<seq<int>>, z: Zone, a: int, b: int)
    requires IsGray(g) && |g| >= 3 && Cols(g) >= 1
    requires forall i, j :: 0 <= i < |g| && InZone(|g|, z, i) && 0 <= j < |g[i]| ==> a <= g[i][j] <= b
    ensures ZoneMean(g, z).Value? && a as real <= ZoneMean(g, z).v <= b as real
  {
    BandsPartition(|g|);
    var (lo, hi) := BandRows(|g|, z);
    BandSumBounds(g, lo, hi, a, b);
    MeanBetween(BandSum(g, lo, hi), (hi - lo) * Cols(g), a, b);
  }

  /** A change confined to one band: when every value in zone `z` exceeds `v`
      and no value outside it does, `z` is the zone reported. */
  lemma ConfinedChangeFound(g: seq<seq<int>>, z: Zone, v: int)
    requires IsGray(g) && |g| >= 3 && Cols(g) >= 1
    requires forall i, j :: 0 <= i < |g| && 0 <= j < |g[i]| ==> (g[i][j] > v <==> InZone(|g|, z, i))
    ensures GuessZone(g) == z
  {
    var y := GuessZone(g);
    GuessZoneIsFirstLoudest(g);
    if y != z {
      ZoneMeanBounds(g, z, v + 1, 255);
      ZoneMeanBounds(g, y, 0, v);
    }
  }

  /** A one-row map: middle and bottom are empty (`NaN`), no comparison with
      them holds, and the top band is returned. */
  lemma OneRowIsTop(g: seq<seq<int>>)
    requires IsGray(g) && |g| == 1
    ensures GuessZone(g) == Top
  {
  }

  /** A two-row map: the bottom band is empty; the middle row wins only when its
      mean is strictly greater than the top row's. */
  lemma TwoRowsCompareRows(g: seq<seq<int>>)
    requires IsGray(g) && |g| == 2
    ensures GuessZone(g) == (if Greater(BandMean(g, 1, 2), BandMean(g, 0, 1)) then Middle else Top)
  {
    var bs := Bands(g);
    var lt := ByMeanDesc();
    assert bs[2].1 == NaN;
    assert Sort(bs[2..], lt) == [bs[2]];
    assert Sort(bs[1..], lt) == Insert(bs[1], [bs[2]], lt) == [bs[1], bs[2]];
  }

  /** A map without columns: every mean is `NaN` and the top band is returned. */
  lemma NoColumnsIsTop(g: seq<seq<int>>)
    requires IsGray(g) && Cols(g) == 0
    ensures GuessZone(g) == Top
  {
  }
}

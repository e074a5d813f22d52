/** The inventory chart: rows grouped by the year of their date, the three
    stock fields summed per year, one point per year in ascending order. */
module Chart {
  import opened Text
  import opened Seqs
  import opened Stock

  /** The bucket of rows without a date. */
  const Unknown := "Unknown"

  /** `item.date ? item.date.split('-')[0] : 'Unknown'`. */
  function ChartYear(r: Row): string {
    if r.date != "" then YearOf(r.date) else Unknown
  }

  /** A value of the `dataByYear` accumulator. */
  datatype YearEntry = YearEntry(year: string, totalStock: int, availableStock: int, soldQuantity: int)

  /** A point of `chartData`. */
  datatype Point = Point(name: string, totalStock: int, availableStock: int, soldQuantity: int)

  /** What the accumulator should hold for `year` once `rows` are added. */
  function EntryOf(rows: seq<Row>, year: string): YearEntry {
    var g := WithKey(rows, ChartYear, year);
    YearEntry(year, Sum(g, TotalStock), Sum(g, AvailableStock), Sum(g, SoldQuantity))
  }

  function PointOf(e: YearEntry): Point {
    Point(e.year, e.totalStock, e.availableStock, e.soldQuantity)
  }

  /** The chart for `rows`: the distinct years sorted ascending, each with
      its sums. */
  function ChartOf(rows: seq<Row>): seq<Point> {
    var years := SortBy(Keys(rows, ChartYear), Self, false);
    seq(|years|, j requires 0 <= j < |years| => PointOf(EntryOf(rows, years[j])))
  }

  /** The accumulator holds the right entry for every year seen so far. */
  ghost predicate Accumulates(rows: seq<Row>, keys: seq<string>, acc: map<string, YearEntry>) {
    && keys == Keys(rows, ChartYear)
    && (forall k :: k in acc <==> k in keys)
    && forall k :: k in acc ==> acc[k] == EntryOf(rows, k)
  }

  /** One step of the `reduce`: create the year's entry if missing, then add
      the row's three stock fields to it. */
  lemma AccumulateStep(prefix: seq<Row>, x: Row, y: string, keys: seq<string>, acc: map<string, YearEntry>,
                       keys': seq<string>, base: map<string, YearEntry>, acc': map<string, YearEntry>)
    requires Accumulates(prefix, keys, acc)
    requires y == ChartYear(x)
    requires keys' == if y in acc then keys else keys + [y]
    requires base == if y in acc then acc else acc[y := YearEntry(y, 0, 0, 0)]
    requires acc' == base[y := base[y].(totalStock := base[y].totalStock + x.totalStock,
                                        availableStock := base[y].availableStock + x.availableStock,
                                        soldQuantity := base[y].soldQuantity + x.soldQuantity)]
    ensures Accumulates(prefix + [x], keys', acc')
  {
    OpenYear(prefix, x, y, keys, acc, keys', base);
    AddToEntry(prefix, x, y, base, acc');
  }

  /** The first half of a step: a new year is appended to the key order and
      gets an empty entry, which is its entry for the rows before `x`. */
  lemma OpenYear(prefix: seq<Row>, x: Row, y: string, keys: seq<string>, acc: map<string, YearEntry>,
                 keys': seq<string>, base: map<string, YearEntry>)
    requires Accumulates(prefix, keys, acc)
    requires y == ChartYear(x)
    requires keys' == if y in acc then keys else keys + [y]
    requires base == if y in acc then acc else acc[y := YearEntry(y, 0, 0, 0)]
    ensures keys' == Keys(prefix + [x], ChartYear)
    ensures forall k :: k in base <==> k in keys'
    ensures forall k :: k in base ==> base[k] == EntryOf(prefix, k)
  {
    KeysStep(prefix, x, ChartYear);
    if y !in acc {
      WithKeyEmpty(prefix, ChartYear, y);
    }
  }

  /** The second half of a step: adding the row's fields to its year's
      entry turns entries for `prefix` into entries for `prefix + [x]`. */
  lemma AddToEntry(prefix: seq<Row>, x: Row, y: string, base: map<string, YearEntry>, acc': map<string, YearEntry>)
    requires y == ChartYear(x) && y in base
    requires forall k :: k in base ==> base[k] == EntryOf(prefix, k)
    requires acc' == base[y := base[y].(totalStock := base[y].totalStock + x.totalStock,
                                        availableStock := base[y].availableStock + x.availableStock,
                                        soldQuantity := base[y].soldQuantity + x.soldQuantity)]
    ensures forall k :: k in acc' ==> acc'[k] == EntryOf(prefix + [x], k)
  {
    forall k | k in acc' ensures acc'[k] == EntryOf(prefix + [x], k) {
      EntryStep(prefix, x, k);
    }
  }

  /** Adding a row changes only the entry of its own year, by its three
      stock fields. */
  lemma EntryStep(prefix: seq<Row>, x: Row, k: string)
    ensures var e := EntryOf(prefix, k);
      EntryOf(prefix + [x], k) ==
        if k == ChartYear(x) then
          e.(totalStock := e.totalStock + x.totalStock,
             availableStock := e.availableStock + x.availableStock,
             soldQuantity := e.soldQuantity + x.soldQuantity)
        else e
  {
    WithKeyStep(prefix, x, ChartYear, k);
    var g := WithKey(prefix, ChartYear, k);
    SumPush(g, x, TotalStock);
    SumPush(g, x, AvailableStock);
    SumPush(g, x, SoldQuantity);
  }

  /** `dataByYear` then `chartData`: the accumulator is filled row by row;
      its values, sorted by year, become the points. */
  method ChartData(rows: seq<Row>) returns (points: seq<Point>)
    ensures points == ChartOf(rows)
  {
    var keys: seq<string> := [];
    var acc: map<string, YearEntry> := map[];
    for i := 0 to |rows|
      invariant Accumulates(rows[..i], keys, acc)
    {
      ghost var keys0, acc0 := keys, acc;
      var x := rows[i];
      var year := if x.date != "" then YearOf(x.date) else Unknown;
      if year !in acc {
        acc := acc[year := YearEntry(year, 0, 0, 0)];
        keys := keys + [year];
      }
      ghost var base := acc;
      acc := acc[year := acc[year].(totalStock := acc[year].totalStock + x.totalStock,
                                    availableStock := acc[year].availableStock + x.availableStock,
                                    soldQuantity := acc[year].soldQuantity + x.soldQuantity)];
      AccumulateStep(rows[..i], x, year, keys0, acc0, keys, base, acc);
      assert rows[..i + 1] == rows[..i] + [x];
    }
    assert rows[..|rows|] == rows;
    var years := SortBy(keys, Self, false);
    SortStrings(keys, false);
    points := seq(|years|, j requires 0 <= j < |years| => PointOf(acc[years[j]]));
  }

  /** One point per distinct year, years strictly ascending; a year is shown
      exactly when some row falls in it, and rows without a date fall in
      `Unknown`. */
  lemma ChartYears(rows: seq<Row>)
    ensures var ps := ChartOf(rows);
      && |ps| == |Keys(rows, ChartYear)|
      && (forall i, j :: 0 <= i < j < |ps| ==> Less(ps[i].name, ps[j].name))
      && (forall i :: 0 <= i < |ps| ==> ps[i].name in Keys(rows, ChartYear))
      && forall k :: k in Keys(rows, ChartYear) ==> exists i :: 0 <= i < |ps| && ps[i].name == k
  {
    var ks := Keys(rows, ChartYear);
    var ps := ChartOf(rows);
    SortStrings(ks, false);
    SortByPermutes(ks, Self, false);
    var years := SortBy(ks, Self, false);
    assert |years| == |ks| by {
      assert |multiset(years)| == |multiset(ks)|;
    }
    forall k | k in ks ensures exists i :: 0 <= i < |ps| && ps[i].name == k {
      assert k in years;
      var j :| 0 <= j < |years| && years[j] == k;
      assert ps[j].name == k;
    }
  }

  /** The sum of one field over the points. */
  function PointSum(ps: seq<Point>, f: Field): int {
    if |ps| == 0 then 0
    else
      var p := ps[|ps| - 1];
      PointSum(ps[..|ps| - 1], f) +
        match f
        case TotalStock => p.totalStock
        case AvailableStock => p.availableStock
        case SoldQuantity => p.soldQuantity
  }

  lemma {:induction false} PointSumPrefix(rows: seq<Row>, n: nat, f: Field)
    requires n <= |SortBy(Keys(rows, ChartYear), Self, false)|
    ensures var years := SortBy(Keys(rows, ChartYear), Self, false);
      n <= |ChartOf(rows)| && PointSum(ChartOf(rows)[..n], f) == SumOver(rows, ChartYear, years[..n], f)
  {
    var years := SortBy(Keys(rows, ChartYear), Self, false);
    if n > 0 {
      PointSumPrefix(rows, n - 1, f);
      assert ChartOf(rows)[..n][..n - 1] == ChartOf(rows)[..n - 1];
      assert years[..n][..n - 1] == years[..n - 1];
    }
  }

  /** Nothing is lost or counted twice: each field summed over the points
      equals that field summed over the rows. */
  lemma ChartConserves(rows: seq<Row>, f: Field)
    ensures PointSum(ChartOf(rows), f) == Sum(rows, f)
  {
    var ks := Keys(rows, ChartYear);
    var years := SortBy(ks, Self, false);
    PointSumPrefix(rows, |years|, f);
    assert ChartOf(rows)[..|years|] == ChartOf(rows);
    assert years[..|years|] == years;
    SumOverSorted(rows, ChartYear, ks, false, f);
    GroupSumsConserve(rows, ChartYear, f);
  }

  /** The chart is empty exactly when there are no rows. */
  lemma ChartEmpty(rows: seq<Row>)
    ensures |ChartOf(rows)| == 0 <==> |rows| == 0
  {
    ChartYears(rows);
    if |rows| > 0 {
      assert rows[0] in rows;
    }
  }
}

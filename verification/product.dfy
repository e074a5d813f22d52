/** The product page: rows grouped by trimmed product name with their stock
    summed, the per-product year view, the year toggle and the overall
    statistics. */
module Products {
  import opened Wrappers
  import opened Text
  import opened Seqs
  import opened Stock

  /** The grouping key of a row: its trimmed product name. */
  function TrimmedName(r: Row): string {
    Trim(r.productName)
  }

  /** `if (year)`: the row has a date whose year prefix is non-empty. */
  predicate HasYear(r: Row) {
    r.date != "" && YearOf(r.date) != ""
  }

  /** A `productMap` entry while rows are still being added: the spread
      first row with running sums, the product ids seen and the year set in
      insertion order. */
  datatype Draft = Draft(row: Row, productIds: seq<string>, years: seq<string>)

  /** An entry of `uniqueProducts`. */
  datatype Product = Product(row: Row, productIds: seq<string>, years: seq<string>)

  /** The product id of every row of a group, in row order. */
  function ProductIdList(g: seq<Row>): (ids: seq<string>)
    ensures |ids| == |g|
    ensures forall i :: 0 <= i < |g| ==> ids[i] == g[i].productId
  {
    seq(|g|, i requires 0 <= i < |g| => g[i].productId)
  }

  /** The year of every row of a group that has one, in row order. */
  function YearList(g: seq<Row>): seq<string> {
    if |g| == 0 then []
    else YearList(g[..|g| - 1]) + if HasYear(g[|g| - 1]) then [YearOf(g[|g| - 1].date)] else []
  }

  /** A year is listed exactly when some row of the group has it. */
  lemma {:induction false} YearListMembers(g: seq<Row>, y: string)
    ensures y in YearList(g) <==> exists r :: r in g && HasYear(r) && YearOf(r.date) == y
  {
    if |g| > 0 {
      var init, last := g[..|g| - 1], g[|g| - 1];
      assert g == init + [last];
      YearListMembers(init, y);
      if y in YearList(init) {
        var r :| r in init && HasYear(r) && YearOf(r.date) == y;
        assert r in g;
      }
      if exists r :: r in g && HasYear(r) && YearOf(r.date) == y {
        var r :| r in g && HasYear(r) && YearOf(r.date) == y;
        if r != last {
          assert r in init;
        }
      }
    }
  }

  /** The entry made for the first row of a name: a copy of the row, its
      product id and its year, if it has one. */
  function Start(x: Row): Draft {
    Draft(x, [x.productId], if HasYear(x) then [YearOf(x.date)] else [])
  }

  /** A further row of the same name adds its stock, its product id if new
      and its year if new. */
  function Extend(d: Draft, x: Row): Draft {
    Draft(
      d.row.(totalStock := d.row.totalStock + x.totalStock,
             availableStock := d.row.availableStock + x.availableStock,
             soldQuantity := d.row.soldQuantity + x.soldQuantity),
      if x.productId in d.productIds then d.productIds else d.productIds + [x.productId],
      if HasYear(x) && YearOf(x.date) !in d.years then d.years + [YearOf(x.date)] else d.years)
  }

  /** What the entry of a name's rows `g` should hold: the first row with
      the three stock fields summed over all rows, the distinct product ids
      and the distinct years, each in order of first occurrence. */
  function Summary(g: seq<Row>): (d: Draft)
    requires |g| > 0
    ensures |d.productIds| > 0 && d.productIds[0] == g[0].productId
  {
    DistinctFirst(ProductIdList(g));
    Draft(
      g[0].(totalStock := Sum(g, TotalStock), availableStock := Sum(g, AvailableStock),
            soldQuantity := Sum(g, SoldQuantity)),
      Distinct(ProductIdList(g)),
      Distinct(YearList(g)))
  }

  /** The entry opened by the first row of a name is that row's summary. */
  lemma SummaryStart(x: Row)
    ensures Summary([x]) == Start(x)
  {
    var g := [x];
    assert g[..0] == [];
    SumPush([], x, TotalStock);
    SumPush([], x, AvailableStock);
    SumPush([], x, SoldQuantity);
    assert ProductIdList(g) == [x.productId];
    assert Distinct(ProductIdList(g)) == [x.productId] by {
      assert ProductIdList(g)[..0] == [];
    }
    var ys := if HasYear(x) then [YearOf(x.date)] else [];
    assert YearList(g) == ys;
    assert Distinct(ys) == ys by {
      if |ys| > 0 {
        assert ys[..0] == [];
      }
    }
  }

  /** Extending the summary of `g` by a row gives the summary of `g` and
      that row. */
  lemma SummaryExtend(g: seq<Row>, x: Row)
    requires |g| > 0
    ensures Summary(g + [x]) == Extend(Summary(g), x)
  {
    var h := g + [x];
    assert h[..|g|] == g;
    assert h[0] == g[0];
    var ids := ProductIdList(h);
    assert ids[..|g|] == ProductIdList(g);
    assert ids[|g|] == x.productId;
    SumPush(g, x, TotalStock);
    SumPush(g, x, AvailableStock);
    SumPush(g, x, SoldQuantity);
    var ys := YearList(g);
    if HasYear(x) {
      var y := YearOf(x.date);
      assert YearList(h) == ys + [y];
      assert (ys + [y])[..|ys|] == ys;
    } else {
      assert YearList(h) == ys;
    }
  }

  /** `productMap` after the rows `prefix` have been added, one at a time. */
  function DraftsOf(prefix: seq<Row>): map<string, Draft> {
    if |prefix| == 0 then map[]
    else
      var m := DraftsOf(prefix[..|prefix| - 1]);
      var x := prefix[|prefix| - 1];
      var k := TrimmedName(x);
      if k in m then m[k := Extend(m[k], x)] else m[k := Start(x)]
  }

  /** One more row updates or opens the entry of its own name. */
  lemma DraftsOfPush(prefix: seq<Row>, x: Row)
    ensures var m, k := DraftsOf(prefix), TrimmedName(x);
      DraftsOf(prefix + [x]) == if k in m then m[k := Extend(m[k], x)] else m[k := Start(x)]
  {
    assert (prefix + [x])[..|prefix|] == prefix;
  }

  /** The map holds an entry for exactly the names seen, and each entry is
      the one built from that name's rows. */
  lemma {:induction false} DraftsOfMeaning(prefix: seq<Row>, k: string)
    ensures k in DraftsOf(prefix) <==> k in Keys(prefix, TrimmedName)
    ensures k in DraftsOf(prefix) ==>
      |WithKey(prefix, TrimmedName, k)| > 0 && DraftsOf(prefix)[k] == Summary(WithKey(prefix, TrimmedName, k))
  {
    if |prefix| > 0 {
      var init, x := prefix[..|prefix| - 1], prefix[|prefix| - 1];
      assert init + [x] == prefix;
      DraftsOfMeaning(init, k);
      DraftsOfStep(init, x, k);
    }
  }

  /** The inductive step of `DraftsOfMeaning`: one more row keeps the map
      in step with the rows of each name. */
  lemma DraftsOfStep(init: seq<Row>, x: Row, k: string)
    requires k in DraftsOf(init) <==> k in Keys(init, TrimmedName)
    requires k in DraftsOf(init) ==>
      |WithKey(init, TrimmedName, k)| > 0 && DraftsOf(init)[k] == Summary(WithKey(init, TrimmedName, k))
    ensures k in DraftsOf(init + [x]) <==> k in Keys(init + [x], TrimmedName)
    ensures k in DraftsOf(init + [x]) ==>
      |WithKey(init + [x], TrimmedName, k)| > 0 && DraftsOf(init + [x])[k] == Summary(WithKey(init + [x], TrimmedName, k))
  {
    var m, kx := DraftsOf(init), TrimmedName(x);
    DraftsOfPush(init, x);
    KeysStep(init, x, TrimmedName);
    WithKeyStep(init, x, TrimmedName, k);
    if kx == k {
      var g := WithKey(init, TrimmedName, k);
      if k in m {
        SummaryExtend(g, x);
      } else {
        WithKeyEmpty(init, TrimmedName, k);
        assert g + [x] == [x];
        SummaryStart(x);
      }
    }
  }

  /** The displayed entry: the first product id becomes the row's id and the
      years are sorted latest first. */
  function Finish(d: Draft): Product
    requires |d.productIds| > 0
  {
    Product(d.row.(productId := d.productIds[0]), d.productIds, SortBy(d.years, Self, true))
  }

  /** The entry of one trimmed name that occurs in `rows`. */
  function ProductFor(rows: seq<Row>, k: string): Product
    requires k in Keys(rows, TrimmedName)
  {
    WithKeyEmpty(rows, TrimmedName, k);
    Finish(Summary(WithKey(rows, TrimmedName, k)))
  }

  /** `uniqueProducts` as a value: one entry per distinct trimmed name, in
      order of first occurrence. */
  function ProductGroups(rows: seq<Row>): seq<Product> {
    var ks := Keys(rows, TrimmedName);
    seq(|ks|, i requires 0 <= i < |ks| => ProductFor(rows, ks[i]))
  }

  /** The entries listed in key order are the groups of the names. */
  lemma GroupsFromDrafts(rows: seq<Row>)
    ensures var ks, m := Keys(rows, TrimmedName), DraftsOf(rows);
      && (forall k :: k in ks ==> k in m && |m[k].productIds| > 0)
      && |ProductGroups(rows)| == |ks|
      && forall j :: 0 <= j < |ks| ==> ProductGroups(rows)[j] == Finish(m[ks[j]])
  {
    var ks, m := Keys(rows, TrimmedName), DraftsOf(rows);
    forall k | k in ks ensures k in m && |m[k].productIds| > 0 && |WithKey(rows, TrimmedName, k)| > 0 && m[k] == Summary(WithKey(rows, TrimmedName, k)) {
      DraftsOfMeaning(rows, k);
    }
  }

  /** One more row: the map and its key order change as `forEach` changes
      them. */
  lemma GroupStep(prefix: seq<Row>, x: Row)
    ensures var m, k := DraftsOf(prefix), TrimmedName(x);
      && (k in m <==> k in Keys(prefix, TrimmedName))
      && Keys(prefix + [x], TrimmedName) ==
           (if k in m then Keys(prefix, TrimmedName) else Keys(prefix, TrimmedName) + [k])
      && DraftsOf(prefix + [x]) == if k in m then m[k := Extend(m[k], x)] else m[k := Start(x)]
  {
    DraftsOfMeaning(prefix, TrimmedName(x));
    KeysStep(prefix, x, TrimmedName);
    DraftsOfPush(prefix, x);
  }

  /** The entry updates spelled out with the year as the loop reads it. */
  lemma ExtendFields(d: Draft, x: Row, year: string)
    requires year == if x.date != "" then YearOf(x.date) else ""
    ensures Start(x) == Draft(x, [x.productId], if year != "" then [year] else [])
    ensures Extend(d, x) == Draft(
      d.row.(totalStock := d.row.totalStock + x.totalStock,
             availableStock := d.row.availableStock + x.availableStock,
             soldQuantity := d.row.soldQuantity + x.soldQuantity),
      if x.productId in d.productIds then d.productIds else d.productIds + [x.productId],
      if year != "" && year !in d.years then d.years + [year] else d.years)
  {
  }

  /** One more row `x`, given the entry `d` the loop stores for its name. */
  lemma GroupStepWith(prefix: seq<Row>, x: Row, keys: seq<string>, drafts: map<string, Draft>, d: Draft)
    requires keys == Keys(prefix, TrimmedName) && drafts == DraftsOf(prefix)
    requires d == if TrimmedName(x) in drafts then Extend(drafts[TrimmedName(x)], x) else Start(x)
    ensures DraftsOf(prefix + [x]) == drafts[TrimmedName(x) := d]
    ensures Keys(prefix + [x], TrimmedName) == if TrimmedName(x) in drafts then keys else keys + [TrimmedName(x)]
  {
    GroupStep(prefix, x);
  }

  /** The loop's step on row `i`. */
  lemma GroupLoopStep(rows: seq<Row>, i: nat, keys: seq<string>, drafts: map<string, Draft>, d: Draft)
    requires i < |rows|
    requires keys == Keys(rows[..i], TrimmedName) && drafts == DraftsOf(rows[..i])
    requires d == if TrimmedName(rows[i]) in drafts then Extend(drafts[TrimmedName(rows[i])], rows[i]) else Start(rows[i])
    ensures DraftsOf(rows[..i + 1]) == drafts[TrimmedName(rows[i]) := d]
    ensures Keys(rows[..i + 1], TrimmedName) ==
      if TrimmedName(rows[i]) in drafts then keys else keys + [TrimmedName(rows[i])]
  {
    var prefix, x := rows[..i], rows[i];
    assert rows[..i + 1] == prefix + [x];
    GroupStepWith(prefix, x, keys, drafts, d);
  }

  /** `uniqueProducts`: fills a map keyed by trimmed name row by row, then
      lists its entries in insertion order. */
  method GroupProducts(rows: seq<Row>) returns (products: seq<Product>)
    ensures products == ProductGroups(rows)
  {
    var keys: seq<string> := [];
    var drafts: map<string, Draft> := map[];
    for i := 0 to |rows|
      invariant keys == Keys(rows[..i], TrimmedName)
      invariant drafts == DraftsOf(rows[..i])
    {
      var x := rows[i];
      var name := Trim(x.productName);
      var year := if x.date != "" then YearOf(x.date) else "";
      var d: Draft;
      if name !in drafts {
        d := Draft(x, [x.productId], if year != "" then [year] else []);
        ExtendFields(d, x, year);
      } else {
        var e := drafts[name];
        var row := e.row.(totalStock := e.row.totalStock + x.totalStock,
                          availableStock := e.row.availableStock + x.availableStock,
                          soldQuantity := e.row.soldQuantity + x.soldQuantity);
        var ids := if x.productId in e.productIds then e.productIds else e.productIds + [x.productId];
        var years := if year != "" && year !in e.years then e.years + [year] else e.years;
        ExtendFields(e, x, year);
        d := Draft(row, ids, years);
      }
      GroupLoopStep(rows, i, keys, drafts, d);
      if name !in drafts {
        keys := keys + [name];
      }
      drafts := drafts[name := d];
    }
    assert rows[..|rows|] == rows;
    GroupsFromDrafts(rows);
    products := seq(|keys|, j requires 0 <= j < |keys| => Finish(drafts[keys[j]]));
  }

  /** One entry per distinct trimmed product name, in order of first
      occurrence; each entry shows the name of its first row. */
  lemma ProductGroupsNames(rows: seq<Row>)
    ensures var ps := ProductGroups(rows);
      && |ps| == |Keys(rows, TrimmedName)|
      && (forall i :: 0 <= i < |ps| ==> TrimmedName(ps[i].row) == Keys(rows, TrimmedName)[i])
      && forall i, j :: 0 <= i < j < |ps| ==> TrimmedName(ps[i].row) != TrimmedName(ps[j].row)
  {
    var ks := Keys(rows, TrimmedName);
    forall i | 0 <= i < |ks| ensures TrimmedName(ProductGroups(rows)[i].row) == ks[i] {
      var g := WithKey(rows, TrimmedName, ks[i]);
      WithKeyEmpty(rows, TrimmedName, ks[i]);
      FilterMembers(rows, KeyIs(TrimmedName, ks[i]), g[0]);
    }
  }

  /** The stock fields of an entry are the sums over the rows of its name,
      and the rest of its row is that of the name's first row. */
  lemma ProductGroupSums(rows: seq<Row>, k: string)
    requires k in Keys(rows, TrimmedName)
    ensures var p := ProductFor(rows, k); var g := WithKey(rows, TrimmedName, k);
      && |g| > 0
      && p.row == g[0].(totalStock := Sum(g, TotalStock), availableStock := Sum(g, AvailableStock),
                        soldQuantity := Sum(g, SoldQuantity))
  {
    var g := WithKey(rows, TrimmedName, k);
    WithKeyEmpty(rows, TrimmedName, k);
    DistinctFirst(ProductIdList(g));
  }

  /** An entry's product ids are the distinct ids of the rows of its name,
      and the first of them is the displayed id. */
  lemma ProductGroupIds(rows: seq<Row>, k: string, id: string)
    requires k in Keys(rows, TrimmedName)
    ensures var p := ProductFor(rows, k);
      && NoDup(p.productIds)
      && p.row.productId == p.productIds[0]
      && (id in p.productIds <==>
          exists j :: 0 <= j < |rows| && TrimmedName(rows[j]) == k && rows[j].productId == id)
  {
    var g := WithKey(rows, TrimmedName, k);
    WithKeyEmpty(rows, TrimmedName, k);
    var ids := ProductIdList(g);
    if id in ids {
      var i :| 0 <= i < |g| && ids[i] == id;
      FilterMembers(rows, KeyIs(TrimmedName, k), g[i]);
      var j :| 0 <= j < |rows| && rows[j] == g[i];
    }
    if exists j :: 0 <= j < |rows| && TrimmedName(rows[j]) == k && rows[j].productId == id {
      var j :| 0 <= j < |rows| && TrimmedName(rows[j]) == k && rows[j].productId == id;
      FilterMembers(rows, KeyIs(TrimmedName, k), rows[j]);
      var i :| 0 <= i < |g| && g[i] == rows[j];
      assert ids[i] == id;
    }
  }

  /** An entry's years are the distinct non-empty year prefixes of the dated
      rows of its name, latest first. */
  lemma ProductGroupYears(rows: seq<Row>, k: string, y: string)
    requires k in Keys(rows, TrimmedName)
    ensures var p := ProductFor(rows, k);
      && NoDup(p.years)
      && (forall i, j :: 0 <= i < j < |p.years| ==> Less(p.years[j], p.years[i]))
      && (y in p.years <==>
          exists j :: 0 <= j < |rows| && TrimmedName(rows[j]) == k && HasYear(rows[j]) && YearOf(rows[j].date) == y)
  {
    var g := WithKey(rows, TrimmedName, k);
    WithKeyEmpty(rows, TrimmedName, k);
    var ys := Distinct(YearList(g));
    SortStrings(ys, true);
    YearListMembers(g, y);
    if y in ys {
      var r :| r in g && HasYear(r) && YearOf(r.date) == y;
      FilterMembers(rows, KeyIs(TrimmedName, k), r);
      var j :| 0 <= j < |rows| && rows[j] == r;
    }
    if exists j :: 0 <= j < |rows| && TrimmedName(rows[j]) == k && HasYear(rows[j]) && YearOf(rows[j].date) == y {
      var j :| 0 <= j < |rows| && TrimmedName(rows[j]) == k && HasYear(rows[j]) && YearOf(rows[j].date) == y;
      FilterMembers(rows, KeyIs(TrimmedName, k), rows[j]);
    }
  }

  /** The sum of one stock field over the entries. */
  function ProductSum(ps: seq<Product>, f: Field): int {
    if |ps| == 0 then 0 else ProductSum(ps[..|ps| - 1], f) + Amount(ps[|ps| - 1].row, f)
  }

  /** The summary cards of the product page. */
  datatype Statistics = Statistics(totalProducts: int, totalStock: int, availableStock: int, soldQuantity: int)

  /** `statistics`: counts the entries and sums their stock. */
  function StatisticsOf(ps: seq<Product>): Statistics {
    Statistics(|ps|, ProductSum(ps, TotalStock), ProductSum(ps, AvailableStock), ProductSum(ps, SoldQuantity))
  }

  lemma {:induction false} ProductSumPrefix(rows: seq<Row>, n: nat, f: Field)
    requires n <= |Keys(rows, TrimmedName)|
    ensures ProductSum(ProductGroups(rows)[..n], f) == SumOver(rows, TrimmedName, Keys(rows, TrimmedName)[..n], f)
  {
    if n > 0 {
      var ps, ks := ProductGroups(rows), Keys(rows, TrimmedName);
      ProductSumPrefix(rows, n - 1, f);
      ProductSumLast(ps, n, f);
      SumOverLast(rows, TrimmedName, ks, n, f);
      EntryAmount(rows, ks[n - 1], f);
    }
  }

  lemma ProductSumLast(ps: seq<Product>, n: nat, f: Field)
    requires 0 < n <= |ps|
    ensures ProductSum(ps[..n], f) == ProductSum(ps[..n - 1], f) + Amount(ps[n - 1].row, f)
  {
    assert ps[..n][..n - 1] == ps[..n - 1];
  }

  lemma SumOverLast(rows: seq<Row>, key: Row -> string, ks: seq<string>, n: nat, f: Field)
    requires 0 < n <= |ks|
    ensures SumOver(rows, key, ks[..n], f) == SumOver(rows, key, ks[..n - 1], f) + Sum(WithKey(rows, key, ks[n - 1]), f)
  {
    assert ks[..n][..n - 1] == ks[..n - 1];
  }

  /** An entry's stock field is the sum of that field over its name's rows. */
  lemma EntryAmount(rows: seq<Row>, k: string, f: Field)
    requires k in Keys(rows, TrimmedName)
    ensures Amount(ProductFor(rows, k).row, f) == Sum(WithKey(rows, TrimmedName, k), f)
  {
    ProductGroupSums(rows, k);
  }

  /** The statistics count the distinct names, and their stock sums equal
      the sums over all input rows: grouping loses and doubles nothing. */
  lemma StatisticsConserve(rows: seq<Row>)
    ensures StatisticsOf(ProductGroups(rows)) ==
      Statistics(|Keys(rows, TrimmedName)|, Sum(rows, TotalStock), Sum(rows, AvailableStock), Sum(rows, SoldQuantity))
  {
    var ps, ks := ProductGroups(rows), Keys(rows, TrimmedName);
    assert ps[..|ps|] == ps;
    assert ks[..|ks|] == ks;
    ProductSumPrefix(rows, |ks|, TotalStock);
    ProductSumPrefix(rows, |ks|, AvailableStock);
    ProductSumPrefix(rows, |ks|, SoldQuantity);
    GroupSumsConserve(rows, TrimmedName, TotalStock);
    GroupSumsConserve(rows, TrimmedName, AvailableStock);
    GroupSumsConserve(rows, TrimmedName, SoldQuantity);
  }

  /** `uniqueProducts.find`: the first entry whose trimmed name is `name`. */
  function FindProduct(ps: seq<Product>, name: string): (r: Option<Product>)
    ensures r.Some? ==> r.value in ps && TrimmedName(r.value.row) == name
    ensures r.None? ==> forall p :: p in ps ==> TrimmedName(p.row) != name
  {
    if |ps| == 0 then None
    else if TrimmedName(ps[0].row) == name then Some(ps[0])
    else FindProduct(ps[1..], name)
  }

  /** What the product card shows: the whole entry, or one year's first row
      with that year's sums. */
  datatype ProductView = Overall(product: Product) | InYear(row: Row)

  /** The rows of one trimmed name and one year. */
  predicate InYearOf(r: Row, name: string, year: string) {
    TrimmedName(r) == name && r.date != "" && YearOf(r.date) == year
  }

  function MatchesYear(name: string, year: string): Row -> bool {
    (r: Row) => InYearOf(r, name, year)
  }

  /** `getProductDataForYear`; the empty year stands for no selection
      (`null`), which `!year` treats alike. */
  function ProductDataForYear(rows: seq<Row>, name: string, year: string): Option<ProductView> {
    if year == "" then
      match FindProduct(ProductGroups(rows), name)
      case None => None
      case Some(p) => Some(Overall(p))
    else
      var m := Filter(rows, MatchesYear(name, year));
      if |m| == 0 then None
      else Some(InYear(m[0].(totalStock := Sum(m, TotalStock), availableStock := Sum(m, AvailableStock),
                             soldQuantity := Sum(m, SoldQuantity))))
  }

  /** Without a year the card shows the entry of that name, if there is one. */
  lemma ProductDataOverall(rows: seq<Row>, name: string)
    ensures ProductDataForYear(rows, name, "") ==
      if name in Keys(rows, TrimmedName) then Some(Overall(ProductFor(rows, name))) else None
  {
    var ps, ks := ProductGroups(rows), Keys(rows, TrimmedName);
    ProductGroupsNames(rows);
    var r := FindProduct(ps, name);
    if r.Some? {
      var i :| 0 <= i < |ps| && ps[i] == r.value;
      assert ks[i] == name;
    }
    if name in ks {
      var i :| 0 <= i < |ks| && ks[i] == name;
      assert ps[i] in ps;
    }
  }

  /** With a year the card has data exactly when that year is one of the
      entry's year buttons. */
  lemma ProductDataInYear(rows: seq<Row>, name: string, year: string)
    requires year != ""
    ensures ProductDataForYear(rows, name, year).Some? <==>
      name in Keys(rows, TrimmedName) && year in ProductFor(rows, name).years
  {
    var m := Filter(rows, MatchesYear(name, year));
    if |m| > 0 {
      FilterMembers(rows, MatchesYear(name, year), m[0]);
      var j :| 0 <= j < |rows| && rows[j] == m[0];
      assert TrimmedName(rows[j]) == name;
      ProductGroupYears(rows, name, year);
    }
    if name in Keys(rows, TrimmedName) {
      ProductGroupYears(rows, name, year);
      if year in ProductFor(rows, name).years {
        var j :| 0 <= j < |rows| && TrimmedName(rows[j]) == name && HasYear(rows[j]) && YearOf(rows[j].date) == year;
        FilterMembers(rows, MatchesYear(name, year), rows[j]);
      }
    }
  }

  /** `handleYearClick`: clicking the selected year clears the product's
      selection, any other year selects it. */
  function ToggleYear(selected: map<string, string>, name: string, year: string): (r: map<string, string>)
    ensures forall n :: n != name ==> (n in r <==> n in selected) && (n in r ==> r[n] == selected[n])
    ensures name in r <==> !(name in selected && selected[name] == year)
    ensures name in r ==> r[name] == year
  {
    if name in selected && selected[name] == year then selected - {name}
    else selected[name := year]
  }

  /** Clicking the same year twice restores the selection, except that a
      different year selected before is cleared. */
  lemma ToggleTwice(selected: map<string, string>, name: string, year: string)
    ensures ToggleYear(ToggleYear(selected, name, year), name, year) ==
      if name in selected && selected[name] != year then selected - {name} else selected
  {
  }
}

/** Inventory rows and the field-wise stock sums that the data page, the
    product page and the inventory chart all compute. */
module Stock {
  import opened Seqs

  /** A marketing-statistic row. The optional `id` is only forwarded by the
      computations modelled here, so it is carried as text ("" when absent). */
  datatype Row = Row(
    id: string,
    productId: string,
    productName: string,
    totalStock: int,
    availableStock: int,
    soldQuantity: int,
    date: string)

  /** The three stock fields that are summed. */
  datatype Field = TotalStock | AvailableStock | SoldQuantity

  function Amount(r: Row, f: Field): int {
    match f
    case TotalStock => r.totalStock
    case AvailableStock => r.availableStock
    case SoldQuantity => r.soldQuantity
  }

  /** The sum of one stock field over `rows`, accumulated left to right as
      `reduce` does. */
  function Sum(rows: seq<Row>, f: Field): int {
    if |rows| == 0 then 0 else Sum(rows[..|rows| - 1], f) + Amount(rows[|rows| - 1], f)
  }

  /** The record of the three sums. */
  datatype Totals = Totals(totalStock: int, availableStock: int, soldQuantity: int)

  function TotalsOf(rows: seq<Row>): Totals {
    Totals(Sum(rows, TotalStock), Sum(rows, AvailableStock), Sum(rows, SoldQuantity))
  }

  lemma SumPush(rows: seq<Row>, x: Row, f: Field)
    ensures Sum(rows + [x], f) == Sum(rows, f) + Amount(x, f)
  {
    assert (rows + [x])[..|rows|] == rows;
  }

  /** Sums split over concatenation. */
  lemma {:induction false} SumAppend(a: seq<Row>, b: seq<Row>, f: Field)
    ensures Sum(a + b, f) == Sum(a, f) + Sum(b, f)
  {
    if |b| == 0 {
      assert a + b == a;
    } else {
      var front := b[..|b| - 1];
      assert a + b == (a + front) + [b[|b| - 1]];
      SumAppend(a, front, f);
      SumPush(a + front, b[|b| - 1], f);
    }
  }

  /** A filter and its complement together account for every row once. */
  lemma {:induction false} SumSplit(rows: seq<Row>, p: Row -> bool, q: Row -> bool, f: Field)
    requires forall r :: q(r) == !p(r)
    ensures Sum(Filter(rows, p), f) + Sum(Filter(rows, q), f) == Sum(rows, f)
  {
    if |rows| > 0 {
      var init := rows[..|rows| - 1];
      var last := rows[|rows| - 1];
      SumSplit(init, p, q, f);
      var a := Filter(init, p);
      var b := Filter(init, q);
      if p(last) {
        assert Filter(rows, p) == a + [last];
        assert Filter(rows, q) == b;
        SumPush(a, last, f);
      } else {
        assert Filter(rows, q) == b + [last];
        assert Filter(rows, p) == a;
        SumPush(b, last, f);
      }
    }
  }

  /** The key of every row, in row order. */
  function KeyList(rows: seq<Row>, key: Row -> string): (ks: seq<string>)
    ensures |ks| == |rows|
    ensures forall i :: 0 <= i < |rows| ==> ks[i] == key(rows[i])
  {
    seq(|rows|, i requires 0 <= i < |rows| => key(rows[i]))
  }

  /** The distinct keys of `rows` in order of first occurrence: the key order
      of a JavaScript `Map` filled row by row. */
  function Keys(rows: seq<Row>, key: Row -> string): (ks: seq<string>)
    ensures NoDup(ks)
    ensures forall k :: k in ks <==> exists i :: 0 <= i < |rows| && key(rows[i]) == k
  {
    var ks := Distinct(KeyList(rows, key));
    assert forall k :: k in ks ==> k in KeyList(rows, key);
    ks
  }

  /** Keys grow like the insertion order of a `Map`: a new key goes last. */
  lemma KeysStep(rows: seq<Row>, x: Row, key: Row -> string)
    ensures Keys(rows + [x], key) ==
      if key(x) in Keys(rows, key) then Keys(rows, key) else Keys(rows, key) + [key(x)]
  {
    var kl := KeyList(rows, key);
    assert KeyList(rows + [x], key) == kl + [key(x)];
    assert (kl + [key(x)])[..|rows|] == kl;
  }

  lemma WithKeyStep(rows: seq<Row>, x: Row, key: Row -> string, k: string)
    ensures WithKey(rows + [x], key, k) ==
      if key(x) == k then WithKey(rows, key, k) + [x] else WithKey(rows, key, k)
  {
    assert (rows + [x])[..|rows|] == rows;
  }

  /** The group of `k` is empty exactly when no row has key `k`. */
  lemma WithKeyEmpty(rows: seq<Row>, key: Row -> string, k: string)
    ensures WithKey(rows, key, k) == [] <==> k !in Keys(rows, key)
  {
    var g := WithKey(rows, key, k);
    if k in Keys(rows, key) {
      var i :| 0 <= i < |rows| && key(rows[i]) == k;
      FilterMembers(rows, KeyIs(key, k), rows[i]);
    }
    if |g| > 0 {
      FilterMembers(rows, KeyIs(key, k), g[0]);
      var i :| 0 <= i < |rows| && rows[i] == g[0];
      assert key(rows[i]) == k;
    }
  }

  /** The sums of the groups of the keys `ks`, one group after another. */
  function SumOver(rows: seq<Row>, key: Row -> string, ks: seq<string>, f: Field): int {
    if |ks| == 0 then 0
    else SumOver(rows, key, ks[..|ks| - 1], f) + Sum(WithKey(rows, key, ks[|ks| - 1]), f)
  }

  lemma {:induction false} SumOverAddRow(rows: seq<Row>, x: Row, key: Row -> string, ks: seq<string>, f: Field)
    requires NoDup(ks)
    ensures SumOver(rows + [x], key, ks, f) ==
      SumOver(rows, key, ks, f) + if key(x) in ks then Amount(x, f) else 0
  {
    if |ks| > 0 {
      var k := ks[|ks| - 1];
      var front := ks[..|ks| - 1];
      assert ks == front + [k];
      SumOverAddRow(rows, x, key, front, f);
      WithKeyStep(rows, x, key, k);
      if key(x) == k {
        SumPush(WithKey(rows, key, k), x, f);
        assert key(x) !in front;
      }
    }
  }

  /** A row with a key not seen before opens a group holding only itself. */
  lemma SumOverNewKey(init: seq<Row>, x: Row, key: Row -> string, f: Field)
    requires key(x) !in Keys(init, key)
    ensures SumOver(init + [x], key, Keys(init, key) + [key(x)], f)
         == SumOver(init + [x], key, Keys(init, key), f) + Amount(x, f)
  {
    var ks := Keys(init, key);
    WithKeyEmpty(init, key, key(x));
    WithKeyStep(init, x, key, key(x));
    assert (ks + [key(x)])[..|ks|] == ks;
    assert WithKey(init + [x], key, key(x)) == [x];
    assert Sum([x], f) == Amount(x, f) by {
      assert [x][..0] == [];
    }
  }

  /** Grouping loses and duplicates nothing: the group sums over all keys add
      up to the sum over all rows. */
  lemma {:induction false} GroupSumsConserve(rows: seq<Row>, key: Row -> string, f: Field)
    ensures SumOver(rows, key, Keys(rows, key), f) == Sum(rows, f)
  {
    if |rows| > 0 {
      var init := rows[..|rows| - 1];
      var x := rows[|rows| - 1];
      assert rows == init + [x];
      GroupSumsConserve(init, key, f);
      GroupSumsStep(init, x, key, f);
    }
  }

  lemma GroupSumsStep(init: seq<Row>, x: Row, key: Row -> string, f: Field)
    requires SumOver(init, key, Keys(init, key), f) == Sum(init, f)
    ensures SumOver(init + [x], key, Keys(init + [x], key), f) == Sum(init + [x], f)
  {
    var ks, rows := Keys(init, key), init + [x];
    KeysStep(init, x, key);
    SumPush(init, x, f);
    SumOverAddRow(init, x, key, ks, f);
    if key(x) in ks {
      assert Keys(rows, key) == ks;
    } else {
      assert Keys(rows, key) == ks + [key(x)];
      SumOverNewKey(init, x, key, f);
    }
  }

  lemma {:induction false} SumOverAppend(rows: seq<Row>, key: Row -> string, a: seq<string>, b: seq<string>, f: Field)
    ensures SumOver(rows, key, a + b, f) == SumOver(rows, key, a, f) + SumOver(rows, key, b, f)
  {
    if |b| == 0 {
      assert a + b == a;
    } else {
      assert (a + b)[..|a + b| - 1] == a + b[..|b| - 1];
      SumOverAppend(rows, key, a, b[..|b| - 1], f);
    }
  }

  /** A single group's sum. */
  lemma SumOverOne(rows: seq<Row>, key: Row -> string, k: string, f: Field)
    ensures SumOver(rows, key, [k], f) == Sum(WithKey(rows, key, k), f)
  {
    assert [k][..0] == [];
  }

  lemma {:induction false} SumOverInsert(rows: seq<Row>, key: Row -> string, k: string, ks: seq<string>, descending: bool, f: Field)
    ensures SumOver(rows, key, InsertBy(k, ks, Self, descending), f) == SumOver(rows, key, [k] + ks, f)
  {
    SumOverAppend(rows, key, [k], ks, f);
    if |ks| > 0 && !InOrder(k, ks[0], descending) {
      SumOverInsert(rows, key, k, ks[1..], descending, f);
      SumOverAppend(rows, key, [ks[0]], InsertBy(k, ks[1..], Self, descending), f);
      SumOverAppend(rows, key, [k], ks[1..], f);
      SumOverAppend(rows, key, [ks[0]], ks[1..], f);
      assert ks == [ks[0]] + ks[1..];
    }
  }

  /** The order in which the groups are visited does not change their
      total: sorting the keys keeps the sum over their groups. */
  lemma {:induction false} SumOverSorted(rows: seq<Row>, key: Row -> string, ks: seq<string>, descending: bool, f: Field)
    ensures SumOver(rows, key, SortBy(ks, Self, descending), f) == SumOver(rows, key, ks, f)
  {
    if |ks| > 0 {
      SumOverSorted(rows, key, ks[1..], descending, f);
      SumOverInsert(rows, key, ks[0], SortBy(ks[1..], Self, descending), descending, f);
      SumOverAppend(rows, key, [ks[0]], SortBy(ks[1..], Self, descending), f);
      SumOverAppend(rows, key, [ks[0]], ks[1..], f);
      assert ks == [ks[0]] + ks[1..];
    }
  }
}

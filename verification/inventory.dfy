/** The inventory data page: per-product purchase breakdowns, the "Sync Sold
    Qty" recomputation, the edit form with its derived sold quantity and its
    validation, and the year / product-name filters with their totals. */
module Inventory {
  import opened Text
  import opened Seqs
  import opened Stock
  import opened Wrappers

  datatype Purchase = Purchase(productId: string, quantity: int, purchaseDate: string)

  /** A customer; a missing `purchases` list is the empty list. */
  datatype Customer = Customer(name: string, purchases: seq<Purchase>)

  datatype BreakdownEntry = BreakdownEntry(customerName: string, quantity: int, purchaseDate: string)

  function DateKey(e: BreakdownEntry): string {
    e.purchaseDate
  }

  function EntryOf(name: string, p: Purchase): BreakdownEntry {
    BreakdownEntry(name, p.quantity, p.purchaseDate)
  }

  /** The entries one customer contributes for `productId`, in purchase
      order. */
  function EntriesFor(name: string, ps: seq<Purchase>, productId: string): seq<BreakdownEntry> {
    if |ps| == 0 then []
    else
      var p := ps[|ps| - 1];
      EntriesFor(name, ps[..|ps| - 1], productId) + (if p.productId == productId then [EntryOf(name, p)] else [])
  }

  /** The unsorted breakdown: customer by customer, purchase by purchase. */
  function Matches(customers: seq<Customer>, productId: string): seq<BreakdownEntry> {
    if |customers| == 0 then []
    else
      var c := customers[|customers| - 1];
      Matches(customers[..|customers| - 1], productId) + EntriesFor(c.name, c.purchases, productId)
  }

  /** What `getPurchaseBreakdown` returns: the matches, latest date first. */
  function Breakdown(customers: seq<Customer>, productId: string): seq<BreakdownEntry> {
    SortBy(Matches(customers, productId), DateKey, true)
  }

  /** `getPurchaseBreakdown`: nested loops that push every matching purchase,
      then a stable sort by purchase date, descending. */
  method PurchaseBreakdown(customers: seq<Customer>, productId: string) returns (breakdown: seq<BreakdownEntry>)
    ensures breakdown == Breakdown(customers, productId)
  {
    var found: seq<BreakdownEntry> := [];
    for i := 0 to |customers|
      invariant found == Matches(customers[..i], productId)
    {
      var customer := customers[i];
      if |customer.purchases| > 0 {
        for j := 0 to |customer.purchases|
          invariant found == Matches(customers[..i], productId) + EntriesFor(customer.name, customer.purchases[..j], productId)
        {
          var purchase := customer.purchases[j];
          assert customer.purchases[..j + 1][..j] == customer.purchases[..j];
          if purchase.productId == productId {
            found := found + [BreakdownEntry(customer.name, purchase.quantity, purchase.purchaseDate)];
          }
        }
        assert customer.purchases[..|customer.purchases|] == customer.purchases;
      }
      assert customers[..i + 1][..i] == customers[..i];
    }
    assert customers[..|customers|] == customers;
    breakdown := SortBy(found, DateKey, true);
  }

  lemma {:induction false} EntriesForMembers(name: string, ps: seq<Purchase>, productId: string, e: BreakdownEntry)
    ensures e in EntriesFor(name, ps, productId) <==>
      exists p :: p in ps && p.productId == productId && e == EntryOf(name, p)
  {
    if |ps| > 0 {
      EntriesForMembers(name, ps[..|ps| - 1], productId, e);
      assert ps == ps[..|ps| - 1] + [ps[|ps| - 1]];
    }
  }

  lemma {:induction false} MatchesMembers(customers: seq<Customer>, productId: string, e: BreakdownEntry)
    ensures e in Matches(customers, productId) <==>
      exists c :: c in customers && e in EntriesFor(c.name, c.purchases, productId)
  {
    if |customers| > 0 {
      MatchesMembers(customers[..|customers| - 1], productId, e);
      assert customers == customers[..|customers| - 1] + [customers[|customers| - 1]];
    }
  }

  /** The breakdown keeps customer order, then purchase order. */
  lemma {:induction false} MatchesAppend(a: seq<Customer>, b: seq<Customer>, productId: string)
    ensures Matches(a + b, productId) == Matches(a, productId) + Matches(b, productId)
  {
    if |b| == 0 {
      assert a + b == a;
    } else {
      var c, b' := b[|b| - 1], b[..|b| - 1];
      assert (a + b)[..|a + b| - 1] == a + b';
      assert (a + b)[|a + b| - 1] == c;
      var tail := EntriesFor(c.name, c.purchases, productId);
      assert Matches(a + b, productId) == Matches(a + b', productId) + tail;
      assert Matches(b, productId) == Matches(b', productId) + tail;
      MatchesAppend(a, b', productId);
    }
  }

  /** One entry per matching purchase: an entry is in the breakdown exactly
      when some customer made a purchase of `productId` it records. */
  lemma BreakdownMembers(customers: seq<Customer>, productId: string, e: BreakdownEntry)
    ensures e in Breakdown(customers, productId) <==>
      exists c, p :: c in customers && p in c.purchases && p.productId == productId && e == EntryOf(c.name, p)
  {
    SortByPermutes(Matches(customers, productId), DateKey, true);
    assert e in Breakdown(customers, productId) <==> e in multiset(Matches(customers, productId));
    MatchesMembers(customers, productId, e);
    forall c | c in customers
      ensures e in EntriesFor(c.name, c.purchases, productId) <==>
        exists p :: p in c.purchases && p.productId == productId && e == EntryOf(c.name, p)
    {
      EntriesForMembers(c.name, c.purchases, productId, e);
    }
  }

  /** The breakdown is empty exactly when no customer bought `productId`. */
  lemma BreakdownEmpty(customers: seq<Customer>, productId: string)
    ensures Breakdown(customers, productId) == [] <==>
      forall c, p :: c in customers && p in c.purchases ==> p.productId != productId
  {
    var b := Breakdown(customers, productId);
    if b != [] {
      BreakdownMembers(customers, productId, b[0]);
    }
    if exists c, p :: c in customers && p in c.purchases && p.productId == productId {
      var c, p :| c in customers && p in c.purchases && p.productId == productId;
      BreakdownMembers(customers, productId, EntryOf(c.name, p));
    }
  }

  /** The breakdown is sorted latest first, holds exactly the matches, and
      keeps their input order among equal dates. */
  lemma BreakdownOrder(customers: seq<Customer>, productId: string, date: string)
    ensures SortedBy(Breakdown(customers, productId), DateKey, true)
    ensures multiset(Breakdown(customers, productId)) == multiset(Matches(customers, productId))
    ensures WithKey(Breakdown(customers, productId), DateKey, date) == WithKey(Matches(customers, productId), DateKey, date)
  {
    SortBySorted(Matches(customers, productId), DateKey, true);
    SortByPermutes(Matches(customers, productId), DateKey, true);
    SortByStable(Matches(customers, productId), DateKey, true, date);
  }

  /** The `reduce` that adds up the breakdown quantities. */
  function SumQuantities(es: seq<BreakdownEntry>): int {
    if |es| == 0 then 0 else es[0].quantity + SumQuantities(es[1..])
  }

  lemma {:induction false} SumQuantitiesInsert(x: BreakdownEntry, es: seq<BreakdownEntry>)
    ensures SumQuantities(InsertBy(x, es, DateKey, true)) == x.quantity + SumQuantities(es)
  {
    if |es| > 0 && !InOrder(DateKey(x), DateKey(es[0]), true) {
      SumQuantitiesInsert(x, es[1..]);
    }
  }

  /** Sorting does not change the total. */
  lemma {:induction false} SumQuantitiesSorted(es: seq<BreakdownEntry>)
    ensures SumQuantities(SortBy(es, DateKey, true)) == SumQuantities(es)
  {
    if |es| > 0 {
      SumQuantitiesSorted(es[1..]);
      SumQuantitiesInsert(es[0], SortBy(es[1..], DateKey, true));
    }
  }

  /** The quantity sold of `productId` according to the customers. */
  function SoldFor(customers: seq<Customer>, productId: string): int {
    SumQuantities(Breakdown(customers, productId))
  }

  /** The sold quantity is the plain sum of the matching quantities. */
  lemma SoldForUnsorted(customers: seq<Customer>, productId: string)
    ensures SoldFor(customers, productId) == SumQuantities(Matches(customers, productId))
  {
    SumQuantitiesSorted(Matches(customers, productId));
  }

  lemma {:induction false} SumQuantitiesNonNegative(es: seq<BreakdownEntry>)
    requires forall k :: 0 <= k < |es| ==> es[k].quantity >= 0
    ensures SumQuantities(es) >= 0
  {
    if |es| > 0 {
      SumQuantitiesNonNegative(es[1..]);
    }
  }

  predicate QuantitiesNonNegative(customers: seq<Customer>) {
    forall c, p :: c in customers && p in c.purchases ==> p.quantity >= 0
  }

  function Max0(x: int): int {
    if x < 0 then 0 else x
  }

  /** One entry of `updates` in `syncSoldQuantities`. */
  datatype Update = Update(item: Row, soldQuantity: int, availableStock: int)

  function UpdateFor(item: Row, customers: seq<Customer>): Update {
    var sold := SoldFor(customers, item.productId);
    Update(item, sold, Max0(item.totalStock - sold))
  }

  /** The record sent to the update call: the row with its two recomputed
      fields. */
  function Saved(u: Update): Row {
    u.item.(availableStock := u.availableStock, soldQuantity := u.soldQuantity)
  }

  /** The computation part of `syncSoldQuantities`: one update per row, in
      row order. */
  method SyncSoldQuantities(rows: seq<Row>, customers: seq<Customer>) returns (updates: seq<Update>)
    ensures |updates| == |rows|
    ensures forall i :: 0 <= i < |rows| ==> updates[i] == UpdateFor(rows[i], customers)
    ensures forall i, j :: 0 <= i < |rows| && 0 <= j < |rows| && rows[i].productId == rows[j].productId ==>
      updates[i].soldQuantity == updates[j].soldQuantity
  {
    updates := [];
    for i := 0 to |rows|
      invariant |updates| == i
      invariant forall k :: 0 <= k < i ==> updates[k] == UpdateFor(rows[k], customers)
    {
      var item := rows[i];
      var breakdown := PurchaseBreakdown(customers, item.productId);
      var calculatedSoldQuantity := SumQuantities(breakdown);
      var newAvailableStock := Max0(item.totalStock - calculatedSoldQuantity);
      updates := updates + [Update(item, calculatedSoldQuantity, newAvailableStock)];
    }
  }

  /** A synced row differs from its input only in the two recomputed fields;
      its stock is never negative, and never above the total when the total
      and every purchase quantity are non-negative. */
  lemma SyncedRow(item: Row, customers: seq<Customer>)
    ensures var r := Saved(UpdateFor(item, customers));
      && r.id == item.id && r.productId == item.productId && r.productName == item.productName
      && r.totalStock == item.totalStock && r.date == item.date
      && r.soldQuantity == SumQuantities(Matches(customers, item.productId))
      && r.availableStock >= 0
      && r.availableStock == if item.totalStock - r.soldQuantity < 0 then 0 else item.totalStock - r.soldQuantity
    ensures QuantitiesNonNegative(customers) && item.totalStock >= 0 ==>
      0 <= Saved(UpdateFor(item, customers)).availableStock <= item.totalStock
  {
    SoldForUnsorted(customers, item.productId);
    if QuantitiesNonNegative(customers) {
      var es := Matches(customers, item.productId);
      forall k | 0 <= k < |es| ensures es[k].quantity >= 0 {
        MatchesMembers(customers, item.productId, es[k]);
        var c :| c in customers && es[k] in EntriesFor(c.name, c.purchases, item.productId);
        EntriesForMembers(c.name, c.purchases, item.productId, es[k]);
      }
      SumQuantitiesNonNegative(es);
    }
  }

  /** The rows as they are after the sync has been saved. */
  function Applied(rows: seq<Row>, customers: seq<Customer>): seq<Row> {
    seq(|rows|, i requires 0 <= i < |rows| => Saved(UpdateFor(rows[i], customers)))
  }

  /** Syncing again after saving changes nothing. */
  lemma SyncIdempotent(rows: seq<Row>, customers: seq<Customer>)
    ensures Applied(Applied(rows, customers), customers) == Applied(rows, customers)
  {
    var once := Applied(rows, customers);
    forall i | 0 <= i < |rows|
      ensures Saved(UpdateFor(once[i], customers)) == once[i]
    {
      assert once[i].productId == rows[i].productId && once[i].totalStock == rows[i].totalStock;
    }
  }

  /** A customer whose purchases match no row changes no update. */
  lemma UnmatchedCustomerIgnored(rows: seq<Row>, before: seq<Customer>, c: Customer, after: seq<Customer>)
    requires forall p, r :: p in c.purchases && r in rows ==> p.productId != r.productId
    ensures Applied(rows, before + [c] + after) == Applied(rows, before + after)
  {
    forall i | 0 <= i < |rows|
      ensures SoldFor(before + [c] + after, rows[i].productId) == SoldFor(before + after, rows[i].productId)
    {
      var pid := rows[i].productId;
      MatchesAppend(before + [c], after, pid);
      MatchesAppend(before, [c], pid);
      MatchesAppend(before, after, pid);
      assert Matches([c], pid) == [] by {
        assert [c][..0] == [];
        if EntriesFor(c.name, c.purchases, pid) != [] {
          EntriesForMembers(c.name, c.purchases, pid, EntriesFor(c.name, c.purchases, pid)[0]);
        }
      }
      SoldForUnsorted(before + [c] + after, pid);
      SoldForUnsorted(before + after, pid);
      assert Matches(before, pid) + [] == Matches(before, pid);
    }
  }

  /** The add/edit form of the data page. */
  datatype StockForm = StockForm(
    productId: string,
    productName: string,
    totalStock: int,
    availableStock: int,
    soldQuantity: int,
    date: string)

  /** `handleEdit`: the form opened on a row, with the sold quantity derived
      from the stock fields. */
  function EditForm(item: Row): (f: StockForm)
    ensures f.productId == item.productId && f.productName == item.productName && f.date == item.date
    ensures f.totalStock == item.totalStock && f.availableStock == item.availableStock
    ensures f.soldQuantity >= 0 && f.soldQuantity >= item.totalStock - item.availableStock
    ensures f.availableStock <= f.totalStock ==> f.soldQuantity + f.availableStock == f.totalStock
    ensures f.availableStock > f.totalStock ==> f.soldQuantity == 0
  {
    StockForm(item.productId, item.productName, item.totalStock, item.availableStock,
      Max0(item.totalStock - item.availableStock), item.date)
  }

  datatype FormField = ProductIdField | ProductNameField | TotalStockField | AvailableStockField | SoldQuantityField | DateField

  /** One call of `handleInputChange`; the numeric inputs arrive already
      parsed. */
  datatype Change =
    | SetProductId(text: string)
    | SetProductName(text: string)
    | SetTotalStock(amount: int)
    | SetAvailableStock(amount: int)
    | SetSoldQuantity(amount: int)
    | SetDate(text: string)

  function FieldOf(c: Change): FormField {
    match c
    case SetProductId(_) => ProductIdField
    case SetProductName(_) => ProductNameField
    case SetTotalStock(_) => TotalStockField
    case SetAvailableStock(_) => AvailableStockField
    case SetSoldQuantity(_) => SoldQuantityField
    case SetDate(_) => DateField
  }

  predicate ChangesStock(c: Change) {
    c.SetTotalStock? || c.SetAvailableStock?
  }

  /** The form update of `handleInputChange`. */
  function ApplyChange(f: StockForm, c: Change): (g: StockForm)
    ensures FieldOf(c) != ProductIdField ==> g.productId == f.productId
    ensures FieldOf(c) != ProductNameField ==> g.productName == f.productName
    ensures FieldOf(c) != TotalStockField ==> g.totalStock == f.totalStock
    ensures FieldOf(c) != AvailableStockField ==> g.availableStock == f.availableStock
    ensures FieldOf(c) != DateField ==> g.date == f.date
    ensures ChangesStock(c) ==> g.soldQuantity == Max0(g.totalStock - g.availableStock)
    ensures !ChangesStock(c) && FieldOf(c) != SoldQuantityField ==> g.soldQuantity == f.soldQuantity
    ensures c.SetProductId? ==> g.productId == c.text
    ensures c.SetProductName? ==> g.productName == c.text
    ensures c.SetTotalStock? ==> g.totalStock == c.amount
    ensures c.SetAvailableStock? ==> g.availableStock == c.amount
    ensures c.SetSoldQuantity? ==> g.soldQuantity == c.amount
    ensures c.SetDate? ==> g.date == c.text
  {
    match c
    case SetProductId(s) => f.(productId := s)
    case SetProductName(s) => f.(productName := s)
    case SetTotalStock(n) => f.(totalStock := n, soldQuantity := Max0(n - f.availableStock))
    case SetAvailableStock(n) => f.(availableStock := n, soldQuantity := Max0(f.totalStock - n))
    case SetSoldQuantity(n) => f.(soldQuantity := n)
    case SetDate(s) => f.(date := s)
  }

  /** After a stock change that leaves 0 <= available <= total, sold and
      available add up to the total. */
  lemma StockChangeBalances(f: StockForm, c: Change)
    requires ChangesStock(c)
    requires 0 <= ApplyChange(f, c).availableStock <= ApplyChange(f, c).totalStock
    ensures ApplyChange(f, c).soldQuantity + ApplyChange(f, c).availableStock == ApplyChange(f, c).totalStock
  {
  }

  /** The error-map update of `handleInputChange`: the changed field's
      message goes, and a stock change also drops the sold-quantity message.
      A message is removed only when it is non-empty, as the source tests
      its truthiness. */
  function ClearErrors(errors: map<FormField, string>, c: Change): (r: map<FormField, string>)
    ensures forall k :: k in r ==> k in errors && r[k] == errors[k]
    ensures forall k :: k in errors && errors[k] != "" ==>
      (k in r <==> k != FieldOf(c) && !(ChangesStock(c) && k == SoldQuantityField))
    ensures forall k :: k in errors && errors[k] == "" ==> k in r
  {
    var afterField := if FieldOf(c) in errors && errors[FieldOf(c)] != "" then errors - {FieldOf(c)} else errors;
    if ChangesStock(c) && SoldQuantityField in errors && errors[SoldQuantityField] != "" then
      afterField - {SoldQuantityField}
    else
      afterField
  }

  /** The messages of `validateForm`. */
  const ProductIdRequired := "Product ID is required"
  const ProductNameRequired := "Product Name is required"
  const TotalStockNegative := "Total Stock must be a positive number"
  const AvailableStockNegative := "Available Stock must be a positive number"
  const SoldQuantityNegative := "Sold Quantity must be a positive number"
  const AvailableExceedsTotal := "Available Stock cannot exceed Total Stock"
  const SoldExceedsTotal := "Sold Quantity + Available Stock cannot exceed Total Stock"
  const DateRequired := "Date is required"

  /** The rule `validateForm` enforces; `!x.trim()` is `AllSpace(x)`. */
  predicate StockFormValid(f: StockForm) {
    && !AllSpace(f.productId)
    && !AllSpace(f.productName)
    && f.totalStock >= 0 && f.availableStock >= 0 && f.soldQuantity >= 0
    && f.availableStock <= f.totalStock
    && f.soldQuantity + f.availableStock <= f.totalStock
    && f.date != ""
  }

  /** The message `validateForm` leaves for one field, if any; where two
      checks hit the same field the later message wins. */
  function StockError(f: StockForm, k: FormField): Option<string> {
    match k
    case ProductIdField => if AllSpace(f.productId) then Some(ProductIdRequired) else None
    case ProductNameField => if AllSpace(f.productName) then Some(ProductNameRequired) else None
    case TotalStockField => if f.totalStock < 0 then Some(TotalStockNegative) else None
    case AvailableStockField =>
      if f.availableStock > f.totalStock then Some(AvailableExceedsTotal)
      else if f.availableStock < 0 then Some(AvailableStockNegative)
      else None
    case SoldQuantityField =>
      if f.soldQuantity + f.availableStock > f.totalStock then Some(SoldExceedsTotal)
      else if f.soldQuantity < 0 then Some(SoldQuantityNegative)
      else None
    case DateField => if f.date == "" then Some(DateRequired) else None
  }

  /** The form is valid exactly when no field has a message. */
  lemma StockErrorsValid(f: StockForm)
    ensures StockFormValid(f) <==> forall k :: StockError(f, k) == None
  {
    if !StockFormValid(f) {
      if AllSpace(f.productId) {
        assert StockError(f, ProductIdField) != None;
      } else if AllSpace(f.productName) {
        assert StockError(f, ProductNameField) != None;
      } else if f.totalStock < 0 {
        assert StockError(f, TotalStockField) != None;
      } else if f.availableStock < 0 || f.availableStock > f.totalStock {
        assert StockError(f, AvailableStockField) != None;
      } else if f.soldQuantity < 0 || f.soldQuantity + f.availableStock > f.totalStock {
        assert StockError(f, SoldQuantityField) != None;
      } else {
        assert StockError(f, DateField) != None;
      }
    }
  }

  /** `validateForm`: fills the error map check by check and reports whether
      it stayed empty (no key left in it). */
  method ValidateStockForm(f: StockForm) returns (valid: bool, errors: map<FormField, string>)
    ensures forall k :: StockError(f, k) == if k in errors then Some(errors[k]) else None
    ensures valid <==> StockFormValid(f)
  {
    errors := map[];
    if AllSpace(f.productId) {
      errors := errors[ProductIdField := ProductIdRequired];
    }
    if AllSpace(f.productName) {
      errors := errors[ProductNameField := ProductNameRequired];
    }
    if f.totalStock < 0 {
      errors := errors[TotalStockField := TotalStockNegative];
    }
    if f.availableStock < 0 {
      errors := errors[AvailableStockField := AvailableStockNegative];
    }
    if f.soldQuantity < 0 {
      errors := errors[SoldQuantityField := SoldQuantityNegative];
    }
    if f.availableStock > f.totalStock {
      errors := errors[AvailableStockField := AvailableExceedsTotal];
    }
    if f.soldQuantity + f.availableStock > f.totalStock {
      errors := errors[SoldQuantityField := SoldExceedsTotal];
    }
    if f.date == "" {
      errors := errors[DateField := DateRequired];
    }
    valid := errors.Keys == {};
    StockErrorsValid(f);
  }

  /** The row filter of the data page; an empty selection means "any". */
  predicate Selected(item: Row, year: string, name: string) {
    && (year == "" || (item.date != "" && YearOf(item.date) == year))
    && (name == "" || item.productName == name)
  }

  function SelectedBy(year: string, name: string): Row -> bool {
    (r: Row) => Selected(r, year, name)
  }

  function ExcludedBy(year: string, name: string): Row -> bool {
    (r: Row) => !Selected(r, year, name)
  }

  /** `filteredData`. */
  function FilteredData(rows: seq<Row>, year: string, name: string): (r: seq<Row>)
    ensures |r| <= |rows|
  {
    Filter(rows, SelectedBy(year, name))
  }

  /** The filter keeps exactly the selected rows, and without a selection
      it keeps every row. */
  lemma FilteredDataMembers(rows: seq<Row>, year: string, name: string, x: Row)
    ensures x in FilteredData(rows, year, name) <==> x in rows && Selected(x, year, name)
    ensures FilteredData(rows, "", "") == rows
  {
    FilterMembers(rows, SelectedBy(year, name), x);
    FilterKeepsAll(rows, SelectedBy("", ""));
  }

  /** `totals`: the field-wise sums over the filtered rows. */
  function FilteredTotals(rows: seq<Row>, year: string, name: string): Totals {
    TotalsOf(FilteredData(rows, year, name))
  }

  /** The totals of the selected rows and of the rest add up to the totals
      of all rows. */
  lemma FilteredTotalsSplit(rows: seq<Row>, year: string, name: string, f: Field)
    ensures Sum(FilteredData(rows, year, name), f) + Sum(Filter(rows, ExcludedBy(year, name)), f) == Sum(rows, f)
  {
    SumSplit(rows, SelectedBy(year, name), ExcludedBy(year, name), f);
  }

  /** `uniqueYears`: the distinct year prefixes of the dated rows, latest
      first. A date without a '-' is its own prefix. */
  method UniqueYears(rows: seq<Row>) returns (years: seq<string>)
    ensures NoDup(years)
    ensures forall y :: y in years <==> exists i :: 0 <= i < |rows| && rows[i].date != "" && YearOf(rows[i].date) == y
    ensures forall i, j :: 0 <= i < j < |years| ==> Less(years[j], years[i])
  {
    var seen: seq<string> := [];
    for i := 0 to |rows|
      invariant NoDup(seen)
      invariant forall y :: y in seen <==> exists k :: 0 <= k < i && rows[k].date != "" && YearOf(rows[k].date) == y
    {
      if rows[i].date != "" {
        var year := YearOf(rows[i].date);
        if year !in seen {
          seen := seen + [year];
        }
      }
    }
    years := SortBy(seen, Self, true);
    SortStrings(seen, true);
  }

  /** `uniqueProductNames`: the distinct non-empty product names in
      ascending order. */
  method UniqueProductNames(rows: seq<Row>) returns (names: seq<string>)
    ensures NoDup(names)
    ensures forall n :: n in names <==> n != "" && exists i :: 0 <= i < |rows| && rows[i].productName == n
    ensures forall i, j :: 0 <= i < j < |names| ==> Less(names[i], names[j])
  {
    var seen: seq<string> := [];
    for i := 0 to |rows|
      invariant NoDup(seen)
      invariant forall n :: n in seen <==> n != "" && exists k :: 0 <= k < i && rows[k].productName == n
    {
      if rows[i].productName != "" {
        if rows[i].productName !in seen {
          seen := seen + [rows[i].productName];
        }
      }
    }
    names := SortBy(seen, Self, false);
    SortStrings(seen, false);
  }
}

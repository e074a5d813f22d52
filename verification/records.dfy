/** The home page's record handling: the flat form record and the nested
    student declaration it is converted to and from, the id the page keeps
    when a declaration is saved, the ids filled into table rows, the table
    record's validator, and the declaration-card pager. */
module Records {
  import opened Wrappers
  import opened Text
  import opened Paging

  /** `string | number` ids. */
  datatype Id = NumId(n: int) | StrId(s: string)

  /** JavaScript truthiness of an id: `0` and `''` are false. */
  predicate Truthy(id: Id) {
    match id
    case NumId(n) => n != 0
    case StrId(s) => s != ""
  }

  datatype Name = Name(title: string, firstName: string, lastName: string)
  datatype Address = Address(streetAddress: string, city: string, state: string, postalCode: string)
  datatype Phone = Phone(homePhone: string, workPhone: string, mobile: string)
  datatype MemberDetails = MemberDetails(name: Name, address: Address, birthDate: string, email: string, phone: Phone)

  /** A stored student declaration; `id` is optional. */
  datatype Declaration = Declaration(id: Option<Id>, membershipNumber: string, primaryMemberDetails: MemberDetails)

  /** The flat thirteen-field record the declaration form edits. */
  datatype StudentForm = StudentForm(
    membershipNumber: string, title: string, firstName: string, lastName: string,
    streetAddress: string, city: string, state: string, postalCode: string,
    birthDate: string, email: string, homePhone: string, workPhone: string, mobile: string)

  /** `convertToFormData`: flattens a declaration; the id is not part of the
      form. */
  function ToForm(d: Declaration): StudentForm {
    var m := d.primaryMemberDetails;
    StudentForm(d.membershipNumber, m.name.title, m.name.firstName, m.name.lastName,
      m.address.streetAddress, m.address.city, m.address.state, m.address.postalCode,
      m.birthDate, m.email, m.phone.homePhone, m.phone.workPhone, m.phone.mobile)
  }

  /** `convertFromFormData`: nests a form record into a declaration without
      an id. */
  function FromForm(f: StudentForm): (d: Declaration)
    ensures d.id == None
  {
    Declaration(None, f.membershipNumber,
      MemberDetails(
        Name(f.title, f.firstName, f.lastName),
        Address(f.streetAddress, f.city, f.state, f.postalCode),
        f.birthDate, f.email,
        Phone(f.homePhone, f.workPhone, f.mobile)))
  }

  /** Nesting a form and flattening it again gives back the form. */
  lemma FormRoundTrip(f: StudentForm)
    ensures ToForm(FromForm(f)) == f
  {
  }

  /** Flattening a declaration and nesting it again gives back the
      declaration less its id. */
  lemma DeclarationRoundTrip(d: Declaration)
    ensures FromForm(ToForm(d)) == d.(id := None)
  {
  }

  /** What the submit handler sends: an update of the declaration being
      edited when it has a truthy id, else a creation. */
  datatype Save = Update(key: Id, decl: Declaration) | Create(decl: Declaration)

  /** `handleStudentDeclarationFormSubmit`: the form is nested, and the
      edited declaration's id is attached when it is truthy. */
  function SubmitAction(f: StudentForm, editing: Option<Declaration>): (s: Save)
    ensures s.Update? <==> editing.Some? && editing.value.id.Some? && Truthy(editing.value.id.value)
    ensures s.Update? ==> s.key == editing.value.id.value && s.decl.id == Some(s.key)
    ensures s.Create? ==> s.decl.id == None
    ensures ToForm(s.decl) == f
  {
    var d := FromForm(f);
    if editing.Some? && editing.value.id.Some? && Truthy(editing.value.id.value) then
      Update(editing.value.id.value, d.(id := editing.value.id))
    else
      Create(d)
  }

  /** Opening a declaration in the editor and saving it untouched updates it
      to itself. */
  lemma SaveUnchanged(e: Declaration)
    requires e.id.Some? && Truthy(e.id.value)
    ensures SubmitAction(ToForm(e), Some(e)) == Update(e.id.value, e)
  {
    DeclarationRoundTrip(e);
  }

  /** A row of the users table; `id` is optional. */
  datatype TableItem = TableItem(id: Option<int>, name: string, email: string, role: string, status: string, joinDate: string)

  predicate HasTruthyId(item: TableItem) {
    item.id.Some? && item.id.value != 0
  }

  /** `data.map((item, index) => ({ ...item, id: item.id || index + 1 }))`. */
  function FillIds(items: seq<TableItem>): (r: seq<TableItem>)
    ensures |r| == |items|
    ensures forall i :: 0 <= i < |r| ==> r[i].(id := items[i].id) == items[i]
    ensures forall i :: 0 <= i < |r| ==> HasTruthyId(r[i])
    ensures forall i :: 0 <= i < |r| && HasTruthyId(items[i]) ==> r[i].id == items[i].id
    ensures forall i :: 0 <= i < |r| && !HasTruthyId(items[i]) ==> r[i].id == Some(i + 1)
  {
    seq(|items|, i requires 0 <= i < |items| =>
      items[i].(id := if HasTruthyId(items[i]) then items[i].id else Some(i + 1)))
  }

  /** Filling twice is filling once: every filled id is truthy. */
  lemma FillIdsIdempotent(items: seq<TableItem>)
    ensures FillIds(FillIds(items)) == FillIds(items)
  {
    var r := FillIds(items);
    assert forall i :: 0 <= i < |r| ==> FillIds(r)[i] == r[i];
  }

  /** The add/edit form of the users table. */
  datatype RecordForm = RecordForm(name: string, email: string, role: string, status: string, joinDate: string)

  datatype RecordField = NameField | EmailField | RoleField | StatusField | JoinDateField

  /** The messages of `validateForm`. */
  const NameRequired := "Name is required"
  const EmailRequired := "Email is required"
  const EmailInvalid := "Please enter a valid email address"
  const RoleRequired := "Role is required"
  const StatusRequired := "Status is required"
  const JoinDateRequired := "Join date is required"

  /** The rule `validateForm` enforces; `!x.trim()` is `AllSpace(x)` and
      `!x` is `x == ""`. */
  predicate RecordFormValid(f: RecordForm) {
    && !AllSpace(f.name)
    && !AllSpace(f.email) && EmailPatternTest(f.email)
    && !AllSpace(f.role)
    && f.status != ""
    && f.joinDate != ""
  }

  /** The message `validateForm` leaves for one field, if any. */
  function RecordError(f: RecordForm, k: RecordField): Option<string> {
    match k
    case NameField => if AllSpace(f.name) then Some(NameRequired) else None
    case EmailField =>
      if AllSpace(f.email) then Some(EmailRequired)
      else if !EmailPatternTest(f.email) then Some(EmailInvalid)
      else None
    case RoleField => if AllSpace(f.role) then Some(RoleRequired) else None
    case StatusField => if f.status == "" then Some(StatusRequired) else None
    case JoinDateField => if f.joinDate == "" then Some(JoinDateRequired) else None
  }

  /** The form is valid exactly when no field has a message, and a valid
      form's email is in the language of the pattern. */
  lemma RecordErrorsValid(f: RecordForm)
    ensures RecordFormValid(f) <==> forall k :: RecordError(f, k) == None
    ensures RecordFormValid(f) ==> EmailLanguage(f.email)
  {
    EmailPatternTestCorrect(f.email);
    if !RecordFormValid(f) {
      if AllSpace(f.name) {
        assert RecordError(f, NameField) != None;
      } else if AllSpace(f.email) || !EmailPatternTest(f.email) {
        assert RecordError(f, EmailField) != None;
      } else if AllSpace(f.role) {
        assert RecordError(f, RoleField) != None;
      } else if f.status == "" {
        assert RecordError(f, StatusField) != None;
      } else {
        assert RecordError(f, JoinDateField) != None;
      }
    }
  }

  /** `validateForm`: fills the error map check by check; a blank email gets
      the "required" message, never the format message. */
  method ValidateRecordForm(f: RecordForm) returns (valid: bool, errors: map<RecordField, string>)
    ensures forall k :: RecordError(f, k) == if k in errors then Some(errors[k]) else None
    ensures AllSpace(f.email) ==> EmailField in errors && errors[EmailField] == EmailRequired
    ensures valid <==> RecordFormValid(f)
  {
    errors := map[];
    if AllSpace(f.name) {
      errors := errors[NameField := NameRequired];
    }
    if AllSpace(f.email) {
      errors := errors[EmailField := EmailRequired];
    } else if !EmailPatternTest(f.email) {
      errors := errors[EmailField := EmailInvalid];
    }
    if AllSpace(f.role) {
      errors := errors[RoleField := RoleRequired];
    }
    if f.status == "" {
      errors := errors[StatusField := StatusRequired];
    }
    if f.joinDate == "" {
      errors := errors[JoinDateField := JoinDateRequired];
    }
    valid := errors.Keys == {};
    RecordErrorsValid(f);
  }

  /** `cardsPerPage`. */
  const CardsPerPage := 6

  /** The card page is an existing page for `count` cards, or 1 when there
      is none. */
  predicate PageFits(count: nat, page: int) {
    1 <= page && (page == 1 || page <= CeilDiv(count, CardsPerPage))
  }

  /** The "Showing a to b" numbers for `count` cards on `page`. */
  function Showing(count: nat, page: int): (int, int) {
    ((page - 1) * CardsPerPage + 1, Min(page * CardsPerPage, count))
  }

  /** A page past the last one, which a retry can leave behind, is not an
      existing page, and its "Showing" numbers run backwards: on page 3 a
      retry that brings 8 cards shows the bar and "Showing 13 to 8". */
  lemma StalePageShowsEmptyRange(count: nat, page: int)
    requires page > 1 && page > CeilDiv(count, CardsPerPage)
    ensures !PageFits(count, page)
    ensures Showing(count, page).0 > Showing(count, page).1
    ensures CeilDiv(8, CardsPerPage) == 2 && Showing(8, 3) == (13, 8) && !PageFits(8, 3)
  {
    var c := CeilDiv(count, CardsPerPage);
    assert (page - 1) * CardsPerPage >= c * CardsPerPage;
    assert CeilDiv(8, CardsPerPage) == 2;
  }

  /** The home page's list of declarations and its card page. */
  class CardPager {
    var declarations: seq<Declaration>
    var currentPage: int

    function TotalPages(): nat
      reads this
    {
      CeilDiv(|declarations|, CardsPerPage)
    }

    /** The page is an existing page, or 1 when there is none. */
    predicate Valid()
      reads this
    {
      PageFits(|declarations|, currentPage)
    }

    constructor()
      ensures declarations == [] && currentPage == 1 && Valid()
    {
      declarations := [];
      currentPage := 1;
    }

    /** A successful fetch after the first load, a delete or a submit: the
        list is replaced and the card page goes back to 1. */
    method Reload(data: seq<Declaration>)
      modifies this
      ensures declarations == data && currentPage == 1 && Valid()
    {
      declarations := data;
      currentPage := 1;
    }

    /** The Retry button after a failed fetch: the list is replaced but,
        unlike the other reloads, the card page is left as it was, so it
        need not exist any more (see StalePageShowsEmptyRange). */
    method Retried(data: seq<Declaration>)
      modifies this
      ensures declarations == data && currentPage == old(currentPage)
      ensures Valid() <==> PageFits(|data|, old(currentPage))
    {
      declarations := data;
    }

    /** A failed first fetch empties the list and leaves the page alone. */
    method LoadFailed()
      modifies this
      ensures declarations == [] && currentPage == old(currentPage)
    {
      declarations := [];
    }

    /** The bar shows only with more than one page. */
    predicate BarShown()
      reads this
    {
      TotalPages() > 1
    }

    /** The cards of the current page. */
    function Visible(): seq<Declaration>
      reads this
    {
      PageOf(declarations, currentPage, CardsPerPage)
    }

    /** The "Showing a to b of n" numbers; whenever the bar shows they are
        the positions of the first and last visible card. */
    function Info(): (r: (int, int))
      reads this
      ensures Valid() && BarShown() ==> 1 <= r.0 <= r.1 <= |declarations| && r.1 - r.0 + 1 == |Visible()|
      ensures currentPage > 1 && currentPage > TotalPages() ==> r.0 > r.1
    {
      var shown := Showing(|declarations|, currentPage);
      if Valid() && BarShown() then
        ItemsMatchPage(declarations, currentPage, CardsPerPage); shown
      else if currentPage > 1 && currentPage > TotalPages() then
        StalePageShowsEmptyRange(|declarations|, currentPage); shown
      else shown
    }

    /** The previous-page arrow: disabled on page 1, else
        `Math.max(1, prev - 1)`. */
    method Previous()
      modifies this
      ensures declarations == old(declarations)
      ensures currentPage == if old(currentPage) <= 1 then 1 else old(currentPage) - 1
      ensures old(currentPage) - 1 <= TotalPages() ==> Valid()
      ensures old(Valid()) ==> Valid()
    {
      if currentPage != 1 {
        currentPage := if currentPage - 1 < 1 then 1 else currentPage - 1;
      }
    }

    /** The next-page arrow: disabled from the last page on, else
        `Math.min(totalPages, prev + 1)`. */
    method Next()
      modifies this
      ensures declarations == old(declarations)
      ensures currentPage == if old(currentPage) >= TotalPages() then old(currentPage) else old(currentPage) + 1
      ensures 0 <= old(currentPage) < TotalPages() ==> Valid()
      ensures old(Valid()) ==> Valid()
    {
      var total := CeilDiv(|declarations|, CardsPerPage);
      if currentPage < total {
        currentPage := Min(total, currentPage + 1);
      }
    }

    /** The page-number buttons, built with the same rule as the table's;
        every button names an existing page. */
    method PageButtons() returns (pages: seq<PageItem>)
      ensures pages == PageList(currentPage, TotalPages())
      ensures Covers(pages, TotalPages())
    {
      pages := PageNumbers(currentPage, CeilDiv(|declarations|, CardsPerPage));
      PageListOrdered(currentPage, TotalPages());
    }

    /** A page-number button sets the page it shows, unguarded; as the
        buttons only show listed pages, the page stays an existing one. */
    method GoTo(page: int)
      requires Num(page) in PageList(currentPage, TotalPages())
      modifies this
      ensures declarations == old(declarations) && currentPage == page
      ensures Valid()
    {
      PageListOrdered(currentPage, TotalPages());
      var ps := PageList(currentPage, TotalPages());
      var i :| 0 <= i < |ps| && ps[i] == Num(page);
      assert 1 <= ps[i].n <= TotalPages();
      currentPage := page;
    }
  }

  /** Eighteen cards, two steps forward to page 3, a failed fetch, then a
      retry bringing eight cards: the bar shows "Showing 13 to 8", and
      the previous-page arrow then lands on page 2, an existing page. */
  method StaleRetryThenPrevious(eighteen: seq<Declaration>, eight: seq<Declaration>)
    returns (shown: (int, int), page: int)
    requires |eighteen| == 18 && |eight| == 8
    ensures shown == (13, 8) && page == 2
  {
    var p := new CardPager();
    p.Reload(eighteen);
    p.Next();
    p.Next();
    p.LoadFailed();
    p.Retried(eight);
    assert p.BarShown() && !p.Valid() by {
      StalePageShowsEmptyRange(8, 3);
    }
    shown := p.Info();
    p.Previous();
    page := p.currentPage;
  }
}

/** The student declaration form: its thirteen fields, the membership-number
    option list and its "new number" flag, the validator, and the reset
    after a successful submit. */
module DeclarationForm {
  import opened Wrappers
  import opened Text
  import opened Seqs
  import opened Records
  import opened SearchSelect

  /** The keys of the form record. */
  datatype FormField =
    | MembershipNumber | Title | FirstName | LastName
    | StreetAddress | City | State | PostalCode
    | BirthDate | Email | HomePhone | WorkPhone | Mobile

  function Get(f: StudentForm, k: FormField): string {
    match k
    case MembershipNumber => f.membershipNumber
    case Title => f.title
    case FirstName => f.firstName
    case LastName => f.lastName
    case StreetAddress => f.streetAddress
    case City => f.city
    case State => f.state
    case PostalCode => f.postalCode
    case BirthDate => f.birthDate
    case Email => f.email
    case HomePhone => f.homePhone
    case WorkPhone => f.workPhone
    case Mobile => f.mobile
  }

  /** `{ ...prev, [field]: value }`: the named field changes and no other. */
  function Set(f: StudentForm, k: FormField, v: string): (r: StudentForm)
    ensures Get(r, k) == v
    ensures forall j :: j != k ==> Get(r, j) == Get(f, j)
  {
    match k
    case MembershipNumber => f.(membershipNumber := v)
    case Title => f.(title := v)
    case FirstName => f.(firstName := v)
    case LastName => f.(lastName := v)
    case StreetAddress => f.(streetAddress := v)
    case City => f.(city := v)
    case State => f.(state := v)
    case PostalCode => f.(postalCode := v)
    case BirthDate => f.(birthDate := v)
    case Email => f.(email := v)
    case HomePhone => f.(homePhone := v)
    case WorkPhone => f.(workPhone := v)
    case Mobile => f.(mobile := v)
  }

  /** Two form records with the same fields are the same record. */
  lemma FieldsDetermine(f: StudentForm, g: StudentForm)
    requires forall k :: Get(f, k) == Get(g, k)
    ensures f == g
  {
    assert Get(f, MembershipNumber) == Get(g, MembershipNumber);
    assert Get(f, Title) == Get(g, Title);
    assert Get(f, FirstName) == Get(g, FirstName);
    assert Get(f, LastName) == Get(g, LastName);
    assert Get(f, StreetAddress) == Get(g, StreetAddress);
    assert Get(f, City) == Get(g, City);
    assert Get(f, State) == Get(g, State);
    assert Get(f, PostalCode) == Get(g, PostalCode);
    assert Get(f, BirthDate) == Get(g, BirthDate);
    assert Get(f, Email) == Get(g, Email);
    assert Get(f, HomePhone) == Get(g, HomePhone);
    assert Get(f, WorkPhone) == Get(g, WorkPhone);
    assert Get(f, Mobile) == Get(g, Mobile);
  }

  /** `initialData?.x || ''` for a partial record given as a map. */
  function Lookup(init: map<FormField, string>, k: FormField): string {
    if k in init then init[k] else ""
  }

  /** The form's starting record: each field from the initial data, else
      empty. */
  function Initial(init: map<FormField, string>): (f: StudentForm)
    ensures forall k :: Get(f, k) == Lookup(init, k)
  {
    StudentForm(
      Lookup(init, MembershipNumber), Lookup(init, Title), Lookup(init, FirstName), Lookup(init, LastName),
      Lookup(init, StreetAddress), Lookup(init, City), Lookup(init, State), Lookup(init, PostalCode),
      Lookup(init, BirthDate), Lookup(init, Email), Lookup(init, HomePhone), Lookup(init, WorkPhone),
      Lookup(init, Mobile))
  }

  /** Starting from a full record gives back that record. */
  lemma InitialFromRecord(f: StudentForm)
    ensures Initial(map k: FormField | k in AllFields :: Get(f, k)) == f
  {
    var init := map k: FormField | k in AllFields :: Get(f, k);
    forall k ensures Get(Initial(init), k) == Get(f, k) {
      match k
      case MembershipNumber => case Title => case FirstName => case LastName =>
      case StreetAddress => case City => case State => case PostalCode =>
      case BirthDate => case Email => case HomePhone => case WorkPhone => case Mobile =>
    }
    FieldsDetermine(Initial(init), f);
  }

  const AllFields: set<FormField> := {
    MembershipNumber, Title, FirstName, LastName, StreetAddress, City, State, PostalCode,
    BirthDate, Email, HomePhone, WorkPhone, Mobile }

  const PlaceholderLabel := "Select Membership Number"

  /** The list built from the fetched numbers: the placeholder, then one
      option per number, in order. A failed fetch gives the placeholder
      alone, the same as an empty list. */
  function OptionsFrom(numbers: seq<string>): (r: seq<SelectOption>)
    ensures |r| == |numbers| + 1 && r[0] == SelectOption("", PlaceholderLabel)
    ensures forall i :: 0 <= i < |numbers| ==> r[i + 1].value == numbers[i] && r[i + 1].caption == numbers[i]
  {
    [SelectOption("", PlaceholderLabel)] + seq(|numbers|, i requires 0 <= i < |numbers| => SelectOption(numbers[i], numbers[i]))
  }

  /** The is-new check of the change handler and of the effect: a number
      that is not blank and matches no option. */
  predicate IsNewNumber(options: seq<SelectOption>, value: string) {
    !ValueTaken(options, value) && !AllSpace(value)
  }

  predicate NotPlaceholder(o: SelectOption) {
    o.value != ""
  }

  /** `handleAddNewMembershipNumber`'s list update: unchanged when an option
      has exactly this value, else the placeholder is dropped and the new
      option goes last. */
  function AddOption(options: seq<SelectOption>, n: string): (r: seq<SelectOption>)
    ensures (exists i :: 0 <= i < |options| && options[i].value == n) ==> r == options
    ensures exists i :: 0 <= i < |r| && r[i].value == n
    ensures forall o :: o in options && (o.value != "" || o.value == n) ==> o in r
    ensures forall o :: o in r ==> o in options || o == SelectOption(n, n)
    ensures (forall i :: 0 <= i < |options| ==> options[i].value != n) ==>
      && |r| > 0 && r[|r| - 1] == SelectOption(n, n)
      && r[..|r| - 1] == Filter(options, NotPlaceholder)
      && forall i :: 0 <= i < |r| - 1 ==> r[i].value != ""
  {
    if exists i :: 0 <= i < |options| && options[i].value == n then options
    else
      var kept := Filter(options, NotPlaceholder);
      var r := kept + [SelectOption(n, n)];
      assert r[|kept|].value == n;
      forall o | o in options && (o.value != "" || o.value == n) ensures o in r {
        FilterMembers(options, NotPlaceholder, o);
      }
      forall o | o in r && o != SelectOption(n, n) ensures o in options {
        FilterMembers(options, NotPlaceholder, o);
      }
      assert r[..|kept|] == kept;
      forall i | 0 <= i < |kept| ensures kept[i].value != "" {
        FilterMembers(options, NotPlaceholder, kept[i]);
      }
      r
  }

  /** The option values are pairwise different. */
  predicate UniqueValues(options: seq<SelectOption>) {
    forall i, j :: 0 <= i < j < |options| ==> options[i].value != options[j].value
  }

  lemma {:induction false} FilterUniqueValues(options: seq<SelectOption>)
    requires UniqueValues(options)
    ensures UniqueValues(Filter(options, NotPlaceholder))
    ensures forall o :: o in Filter(options, NotPlaceholder) ==> o in options
  {
    if |options| > 0 {
      var init := options[..|options| - 1];
      var last := options[|options| - 1];
      FilterUniqueValues(init);
      forall o | o in Filter(init, NotPlaceholder) ensures o.value != last.value {
        var i :| 0 <= i < |init| && init[i] == o;
        assert options[i] == o;
      }
      forall o | o in Filter(options, NotPlaceholder) ensures o in options {
        FilterMembers(options, NotPlaceholder, o);
      }
    }
  }

  /** Adding never introduces a duplicate value, and the added number is
      then present exactly once. */
  lemma AddOptionUnique(options: seq<SelectOption>, n: string)
    requires UniqueValues(options)
    ensures UniqueValues(AddOption(options, n))
  {
    if !exists i :: 0 <= i < |options| && options[i].value == n {
      FilterUniqueValues(options);
      var kept := Filter(options, NotPlaceholder);
      forall i | 0 <= i < |kept| ensures kept[i].value != n {
        assert kept[i] in options;
      }
    }
  }

  /** A number added through the select box (which passes its trimmed search
      text) matches an option afterwards, so the is-new check calls it not
      new once the list has been updated. */
  lemma AddedNumberExists(options: seq<SelectOption>, term: string)
    ensures !IsNewNumber(AddOption(options, Trim(term)), Trim(term))
  {
    var n := Trim(term);
    var r := AddOption(options, n);
    var i :| 0 <= i < |r| && r[i].value == n;
    TrimIdempotent(term);
    TrimLower(n);
    assert ToLower(r[i].value) == Trim(ToLower(n));
  }

  /** The messages of `validateForm`. */
  const MembershipNumberRequired := "Membership number is required"
  const FirstNameRequired := "First name is required"
  const LastNameRequired := "Last name is required"
  const EmailRequired := "Email is required"
  const EmailInvalid := "Please enter a valid email address"
  const BirthDateRequired := "Birth date is required"

  /** The rule `validateForm` enforces; title, address and phones are
      optional. */
  predicate StudentFormValid(f: StudentForm) {
    && !AllSpace(f.membershipNumber)
    && !AllSpace(f.firstName)
    && !AllSpace(f.lastName)
    && !AllSpace(f.email) && EmailPatternTest(f.email)
    && f.birthDate != ""
  }

  /** The message `validateForm` leaves for one field, if any. */
  function StudentError(f: StudentForm, k: FormField): Option<string> {
    match k
    case MembershipNumber => if AllSpace(f.membershipNumber) then Some(MembershipNumberRequired) else None
    case FirstName => if AllSpace(f.firstName) then Some(FirstNameRequired) else None
    case LastName => if AllSpace(f.lastName) then Some(LastNameRequired) else None
    case Email =>
      if AllSpace(f.email) then Some(EmailRequired)
      else if !EmailPatternTest(f.email) then Some(EmailInvalid)
      else None
    case BirthDate => if f.birthDate == "" then Some(BirthDateRequired) else None
    case _ => None
  }

  /** The form is valid exactly when no field has a message; the optional
      fields never get one, and a valid email is in the pattern's language. */
  lemma StudentErrorsValid(f: StudentForm)
    ensures StudentFormValid(f) <==> forall k :: StudentError(f, k) == None
    ensures forall k :: k in {Title, StreetAddress, City, State, PostalCode, HomePhone, WorkPhone, Mobile} ==>
      StudentError(f, k) == None
    ensures StudentFormValid(f) ==> EmailLanguage(f.email)
  {
    EmailPatternTestCorrect(f.email);
    if !StudentFormValid(f) {
      if AllSpace(f.membershipNumber) {
        assert StudentError(f, MembershipNumber) != None;
      } else if AllSpace(f.firstName) {
        assert StudentError(f, FirstName) != None;
      } else if AllSpace(f.lastName) {
        assert StudentError(f, LastName) != None;
      } else if AllSpace(f.email) || !EmailPatternTest(f.email) {
        assert StudentError(f, Email) != None;
      } else {
        assert StudentError(f, BirthDate) != None;
      }
    }
  }

  /** `validateForm`: fills the error map check by check. */
  method ValidateStudentForm(f: StudentForm) returns (valid: bool, errors: map<FormField, string>)
    ensures forall k :: StudentError(f, k) == if k in errors then Some(errors[k]) else None
    ensures AllSpace(f.email) ==> Email in errors && errors[Email] == EmailRequired
    ensures valid <==> StudentFormValid(f)
  {
    errors := map[];
    if AllSpace(f.membershipNumber) {
      errors := errors[MembershipNumber := MembershipNumberRequired];
    }
    if AllSpace(f.firstName) {
      errors := errors[FirstName := FirstNameRequired];
    }
    if AllSpace(f.lastName) {
      errors := errors[LastName := LastNameRequired];
    }
    if AllSpace(f.email) {
      errors := errors[Email := EmailRequired];
    } else if !EmailPatternTest(f.email) {
      errors := errors[Email := EmailInvalid];
    }
    if f.birthDate == "" {
      errors := errors[BirthDate := BirthDateRequired];
    }
    valid := errors.Keys == {};
    StudentErrorsValid(f);
  }

  /** The record a successful create leaves: every field empty except the
      membership number, which is `kept`. */
  function Cleared(kept: string): (f: StudentForm)
    ensures Get(f, MembershipNumber) == kept
    ensures forall k :: k != MembershipNumber ==> Get(f, k) == ""
  {
    StudentForm(kept, "", "", "", "", "", "", "", "", "", "", "", "")
  }

  /** The component's state. `editing` says whether initial data was given. */
  class FormState {
    const editing: bool
    var formData: StudentForm
    var options: seq<SelectOption>
    var errors: map<FormField, string>
    var isNew: bool
    var addMultiple: bool

    /** The first render: fields from the initial data, no options yet,
        no errors, both flags off. */
    constructor(init: Option<map<FormField, string>>)
      ensures editing == init.Some?
      ensures forall k :: Get(formData, k) == Lookup(if init.Some? then init.value else map[], k)
      ensures options == [] && errors == map[] && !isNew && !addMultiple
    {
      editing := init.Some?;
      formData := Initial(if init.Some? then init.value else map[]);
      options := [];
      errors := map[];
      isNew := false;
      addMultiple := false;
    }

    /** The effect on new initial data: the fields are reloaded and both
        flags switched off. */
    method LoadInitial(init: map<FormField, string>)
      modifies this
      ensures forall k :: Get(formData, k) == Lookup(init, k)
      ensures options == old(options) && errors == old(errors) && !isNew && !addMultiple
    {
      formData := Initial(init);
      isNew := false;
      addMultiple := false;
    }

    /** The options fetched on mount. */
    method LoadOptions(numbers: seq<string>)
      modifies this
      ensures options == OptionsFrom(numbers)
      ensures formData == old(formData) && errors == old(errors)
      ensures isNew == old(isNew) && addMultiple == old(addMultiple)
    {
      options := OptionsFrom(numbers);
    }

    /** The effect on a change of the options or of the number: the flag is
        recomputed only while the number is non-empty. */
    method RecheckNew()
      modifies this
      ensures isNew == if formData.membershipNumber != "" then IsNewNumber(options, formData.membershipNumber) else old(isNew)
      ensures formData == old(formData) && options == old(options) && errors == old(errors)
      ensures addMultiple == old(addMultiple)
    {
      if formData.membershipNumber != "" {
        isNew := IsNewNumber(options, formData.membershipNumber);
      }
    }

    /** `handleChange`: only the named field changes; its message, if
        non-empty, is cleared; a membership-number change recomputes the
        is-new flag against the current options. */
    method HandleChange(k: FormField, v: string)
      modifies this
      ensures Get(formData, k) == v
      ensures forall j :: j != k ==> Get(formData, j) == Get(old(formData), j)
      ensures errors == if k in old(errors) && old(errors)[k] != "" then old(errors) - {k} else old(errors)
      ensures isNew == if k == MembershipNumber then IsNewNumber(options, v) else old(isNew)
      ensures options == old(options) && addMultiple == old(addMultiple)
    {
      formData := Set(formData, k, v);
      if k in errors && errors[k] != "" {
        errors := errors - {k};
      }
      if k == MembershipNumber {
        isNew := IsNewNumber(options, v);
      }
    }

    /** `handleAddNewMembershipNumber`. */
    method AddNewNumber(n: string)
      modifies this
      ensures options == AddOption(old(options), n) && isNew
      ensures formData == old(formData) && errors == old(errors) && addMultiple == old(addMultiple)
    {
      options := AddOption(options, n);
      isNew := true;
    }

    /** The "add multiple records" checkbox. */
    method SetAddMultiple(on: bool)
      modifies this
      ensures addMultiple == on
      ensures formData == old(formData) && options == old(options) && errors == old(errors) && isNew == old(isNew)
    {
      addMultiple := on;
    }

    /** `validateForm` as called by the submit handler: the error map is
        replaced by this validation's messages. */
    method Validate() returns (valid: bool)
      modifies this
      ensures valid <==> StudentFormValid(formData)
      ensures forall k :: StudentError(formData, k) == if k in errors then Some(errors[k]) else None
      ensures formData == old(formData) && options == old(options)
      ensures isNew == old(isNew) && addMultiple == old(addMultiple)
    {
      valid, errors := ValidateStudentForm(formData);
    }

    /** What follows a successful submit. A new number refreshes the
        options from `numbers`. A create clears every field but the number,
        which stays only with "add multiple" on and a non-empty number, and
        clears errors and the is-new flag; an edit keeps the record and
        switches both flags off. */
    method SubmitSucceeded(numbers: seq<string>)
      modifies this
      ensures options == if old(isNew) then OptionsFrom(numbers) else old(options)
      ensures !editing ==>
        && Get(formData, MembershipNumber) ==
             (if old(addMultiple) && old(formData).membershipNumber != "" then old(formData).membershipNumber else "")
        && (forall k :: k != MembershipNumber ==> Get(formData, k) == "")
        && errors == map[] && !isNew && addMultiple == old(addMultiple)
      ensures editing ==>
        formData == old(formData) && errors == old(errors) && !isNew && !addMultiple
    {
      if isNew {
        options := OptionsFrom(numbers);
      }
      if !editing {
        var keep := addMultiple && formData.membershipNumber != "";
        formData := Cleared(if keep then formData.membershipNumber else "");
        errors := map[];
        isNew := false;
      } else {
        isNew := false;
        addMultiple := false;
      }
    }
  }
}

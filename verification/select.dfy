/** The searchable select box: its label lookup, its filtered option list,
    the "add new" entry, and the state machine of the open flag, the search
    text and the highlighted entry. */
module SearchSelect {
  import opened Wrappers
  import opened Text
  import opened Seqs

  /** An option of the list. */
  datatype SelectOption = SelectOption(value: string, caption: string)

  function ValueIs(value: string): SelectOption -> bool {
    (o: SelectOption) => o.value == value
  }

  /** `displayValue`: the caption of the selected option, else the raw
      value. */
  function DisplayValue(options: seq<SelectOption>, value: string): (r: string)
    ensures (forall i :: 0 <= i < |options| ==> options[i].value != value) ==> r == value
    ensures forall i ::
      (0 <= i < |options| && options[i].value == value && forall j :: 0 <= j < i ==> options[j].value != value) ==>
      r == options[i].caption
  {
    match Find(options, ValueIs(value))
    case Some(i) => options[i].caption
    case None => value
  }

  /** An option matches the search text when its caption or its value
      contains it, ignoring case. */
  predicate Matches(o: SelectOption, term: string) {
    Contains(ToLower(o.caption), ToLower(term)) || Contains(ToLower(o.value), ToLower(term))
  }

  function MatchesTerm(term: string): SelectOption -> bool {
    (o: SelectOption) => Matches(o, term)
  }

  /** `filteredOptions`. */
  function Filtered(options: seq<SelectOption>, term: string): seq<SelectOption> {
    Filter(options, MatchesTerm(term))
  }

  /** The filtered list holds exactly the matching options, and an empty
      search text keeps every option in its place. */
  lemma FilteredMeaning(options: seq<SelectOption>, term: string, o: SelectOption)
    ensures o in Filtered(options, term) <==> o in options && Matches(o, term)
    ensures term == "" ==> Filtered(options, term) == options
  {
    FilterMembers(options, MatchesTerm(term), o);
    if term == "" {
      forall k | 0 <= k < |options| ensures MatchesTerm(term)(options[k]) {
        ContainsEmpty(ToLower(options[k].caption));
      }
      FilterKeepsAll(options, MatchesTerm(term));
    }
  }

  /** Some option's value equals the text, ignoring case and the text's
      surrounding white space. */
  predicate ValueTaken(options: seq<SelectOption>, term: string) {
    exists i :: 0 <= i < |options| && ToLower(options[i].value) == Trim(ToLower(term))
  }

  /** `showAddNewOption`. */
  predicate ShowAddNew(allowAddNew: bool, options: seq<SelectOption>, term: string) {
    && allowAddNew
    && !AllSpace(term)
    && |Filtered(options, term)| == 0
    && !ValueTaken(options, term)
  }

  /** The last index the highlight may reach: the add-new entry comes first
      when it is shown. */
  function MaxIndex(allowAddNew: bool, options: seq<SelectOption>, term: string): int {
    if ShowAddNew(allowAddNew, options, term) then |Filtered(options, term)| else |Filtered(options, term)| - 1
  }

  /** When the add-new entry shows, it is the only entry: no option matches
      the text, so the highlight can only be on it. */
  lemma AddNewAlone(allowAddNew: bool, options: seq<SelectOption>, term: string)
    requires ShowAddNew(allowAddNew, options, term)
    ensures MaxIndex(allowAddNew, options, term) == 0
    ensures forall o :: o in options ==> !Matches(o, term)
  {
    forall o | o in options ensures !Matches(o, term) {
      FilteredMeaning(options, term, o);
    }
  }

  /** What the component reports through its callbacks. */
  datatype Notice = Notice(added: Option<string>, changed: Option<string>)

  const Quiet := Notice(None, None)

  datatype Key = ArrowDown | ArrowUp | Enter | Escape | OtherKey

  /** The component's own state; the props are method parameters. */
  class SelectBox {
    var isOpen: bool
    var searchTerm: string
    var highlightedIndex: int

    /** The highlight is an entry or -1, and a closed box has no search
        text. */
    predicate Valid()
      reads this
    {
      highlightedIndex >= -1 && (!isOpen ==> searchTerm == "")
    }

    predicate Closed()
      reads this
    {
      !isOpen && searchTerm == "" && highlightedIndex == -1
    }

    constructor()
      ensures Closed() && Valid()
    {
      isOpen := false;
      searchTerm := "";
      highlightedIndex := -1;
    }

    /** `handleSelect`: reports the value and closes. */
    method Select(v: string) returns (n: Notice)
      modifies this
      ensures n == Notice(None, Some(v)) && Closed() && Valid()
    {
      n := Notice(None, Some(v));
      isOpen := false;
      searchTerm := "";
      highlightedIndex := -1;
    }

    /** `handleAddNew`: with an add callback and a non-blank text, the
        trimmed text is reported as added and as the new value, and the box
        closes; otherwise nothing happens. */
    method AddNew(hasOnAddNew: bool) returns (n: Notice)
      requires Valid()
      modifies this
      ensures hasOnAddNew && !AllSpace(old(searchTerm)) ==>
        n == Notice(Some(Trim(old(searchTerm))), Some(Trim(old(searchTerm)))) && Closed()
      ensures !(hasOnAddNew && !AllSpace(old(searchTerm))) ==>
        n == Quiet && isOpen == old(isOpen) && searchTerm == old(searchTerm) && highlightedIndex == old(highlightedIndex)
      ensures Valid()
    {
      if hasOnAddNew && !AllSpace(searchTerm) {
        var t := Trim(searchTerm);
        n := Notice(Some(t), Some(t));
        isOpen := false;
        searchTerm := "";
        highlightedIndex := -1;
      } else {
        n := Quiet;
      }
    }

    /** The keyboard handler, listening only while the box is open. Arrow
        down moves the highlight up to the last entry, arrow up down to -1;
        Enter adds on the add-new entry or selects the highlighted option;
        Escape closes. */
    method KeyDown(key: Key, options: seq<SelectOption>, allowAddNew: bool, hasOnAddNew: bool) returns (n: Notice)
      requires Valid()
      modifies this
      ensures Valid()
      ensures !old(isOpen) ==>
        n == Quiet && !isOpen && searchTerm == old(searchTerm) && highlightedIndex == old(highlightedIndex)
      ensures old(isOpen) && key == ArrowDown ==>
        var max := MaxIndex(allowAddNew, options, old(searchTerm));
        && n == Quiet && isOpen && searchTerm == old(searchTerm)
        && highlightedIndex == if old(highlightedIndex) < max then old(highlightedIndex) + 1 else old(highlightedIndex)
      ensures old(isOpen) && key == ArrowUp ==>
        && n == Quiet && isOpen && searchTerm == old(searchTerm)
        && highlightedIndex == if old(highlightedIndex) > 0 then old(highlightedIndex) - 1 else -1
      ensures old(isOpen) && key == Escape ==> n == Quiet && Closed()
      ensures (old(isOpen) && (key == ArrowDown || key == ArrowUp) &&
               -1 <= old(highlightedIndex) <= MaxIndex(allowAddNew, options, old(searchTerm))) ==>
        -1 <= highlightedIndex <= MaxIndex(allowAddNew, options, searchTerm)
      ensures old(isOpen) && key == Enter ==>
        var add := ShowAddNew(allowAddNew, options, old(searchTerm));
        var filtered := Filtered(options, old(searchTerm));
        var k := if add then old(highlightedIndex) - 1 else old(highlightedIndex);
        if add && old(highlightedIndex) == 0 then
          if hasOnAddNew then
            n == Notice(Some(Trim(old(searchTerm))), Some(Trim(old(searchTerm)))) && Closed()
          else
            n == Quiet && isOpen && searchTerm == old(searchTerm) && highlightedIndex == old(highlightedIndex)
        else if old(highlightedIndex) >= 0 && 0 <= k < |filtered| then
          n == Notice(None, Some(filtered[k].value)) && Closed()
        else
          n == Quiet && isOpen && searchTerm == old(searchTerm) && highlightedIndex == old(highlightedIndex)
      ensures old(isOpen) && key == OtherKey ==>
        n == Quiet && isOpen && searchTerm == old(searchTerm) && highlightedIndex == old(highlightedIndex)
    {
      n := Quiet;
      if !isOpen {
        return;
      }
      var filtered := Filtered(options, searchTerm);
      var add := ShowAddNew(allowAddNew, options, searchTerm);
      match key
      case ArrowDown =>
        var max := if add then |filtered| else |filtered| - 1;
        if highlightedIndex < max {
          highlightedIndex := highlightedIndex + 1;
        }
      case ArrowUp =>
        highlightedIndex := if highlightedIndex > 0 then highlightedIndex - 1 else -1;
      case Enter =>
        if add && highlightedIndex == 0 {
          n := AddNew(hasOnAddNew);
        } else if highlightedIndex >= 0 {
          var k := if add then highlightedIndex - 1 else highlightedIndex;
          if 0 <= k < |filtered| {
            n := Select(filtered[k].value);
          }
        }
      case Escape =>
        isOpen := false;
        searchTerm := "";
        highlightedIndex := -1;
      case OtherKey =>
    }

    /** `handleInputChange`: typing opens the list, drops the highlight and
        reports the raw text as the value. */
    method InputChange(text: string) returns (n: Notice)
      modifies this
      ensures n == Notice(None, Some(text))
      ensures isOpen && searchTerm == text && highlightedIndex == -1 && Valid()
    {
      searchTerm := text;
      isOpen := true;
      highlightedIndex := -1;
      n := Notice(None, Some(text));
    }

    /** `handleInputFocus`: opens the list; the search text is the value when
        the value is non-empty and no option has it, else empty. */
    method InputFocus(options: seq<SelectOption>, value: string)
      requires Valid()
      modifies this
      ensures isOpen && highlightedIndex == old(highlightedIndex) && Valid()
      ensures searchTerm == if value != "" && forall i :: 0 <= i < |options| ==> options[i].value != value then value else ""
    {
      isOpen := true;
      if value != "" && Find(options, ValueIs(value)).None? {
        searchTerm := value;
      } else {
        searchTerm := "";
      }
    }

    /** The outside-click listener, registered only while the box is open,
        closes it. */
    method ClickOutside()
      requires Valid()
      modifies this
      ensures old(isOpen) ==> Closed()
      ensures !old(isOpen) ==> !isOpen && searchTerm == old(searchTerm) && highlightedIndex == old(highlightedIndex)
      ensures Valid()
    {
      if isOpen {
        isOpen := false;
        searchTerm := "";
        highlightedIndex := -1;
      }
    }

    /** `handleToggle`: flips the open flag unless disabled; closing clears
        the search text but, unlike the other ways of closing, keeps the
        highlight. */
    method Toggle(disabled: bool)
      requires Valid()
      modifies this
      ensures disabled ==> isOpen == old(isOpen) && searchTerm == old(searchTerm)
      ensures !disabled ==> isOpen == !old(isOpen) && searchTerm == (if old(isOpen) then "" else old(searchTerm))
      ensures highlightedIndex == old(highlightedIndex) && Valid()
    {
      if disabled {
        return;
      }
      var wasOpen := isOpen;
      isOpen := !isOpen;
      if wasOpen {
        searchTerm := "";
      }
    }
  }
}

/**
 * The search box of src/components/SearchBar.tsx: the autocomplete list derived from the
 * country names and the raw (not debounced) search term, and the `isOpen` / `selectedIndex`
 * state that typing, the arrow keys, Enter, Escape, clicks and focus change.
 */
module SearchBar {
  import opened Text
  import opened Seqs

  const MaxSuggestions: nat := 8

  /** A name is offered for `term` when it contains it, ignoring case, without being equal to it. */
  predicate Suggests(name: string, term: string)
  {
    Contains(ToLower(name), ToLower(term)) && ToLower(name) != ToLower(term)
  }

  function SuggestsFor(term: string): string -> bool
  {
    (name: string) => Suggests(name, term)
  }

  /** Every name offered for `term`, in list order, before the cap. */
  function MatchingNames(names: seq<string>, term: string): seq<string>
  {
    Filter(names, SuggestsFor(term))
  }

  /** `filteredSuggestions`: the matching names, at most eight of them. */
  function Suggestions(names: seq<string>, term: string): (r: seq<string>)
    ensures |r| <= MaxSuggestions
    ensures r <= MatchingNames(names, term)
    ensures |r| == Min(MaxSuggestions, |MatchingNames(names, term)|)
    ensures forall s :: s in r ==> s in names && Suggests(s, term)
  {
    var m := MatchingNames(names, term);
    FilterMembership(names, SuggestsFor(term));
    assert forall s :: s in m[..Min(MaxSuggestions, |m|)] ==> s in m;
    if |m| <= MaxSuggestions then m else m[..MaxSuggestions]
  }

  /** The suggestions are the first matching names, taken in list order. */
  lemma SuggestionsInSourceOrder(names: seq<string>, term: string)
    ensures |Suggestions(names, term)| <= |MatchIndices(names, SuggestsFor(term))|
    ensures forall i :: 0 <= i < |Suggestions(names, term)| ==>
      MatchIndices(names, SuggestsFor(term))[i] < |names| &&
      Suggestions(names, term)[i] == names[MatchIndices(names, SuggestsFor(term))[i]]
    ensures forall i, j :: 0 <= i < j < |Suggestions(names, term)| ==>
      MatchIndices(names, SuggestsFor(term))[i] < MatchIndices(names, SuggestsFor(term))[j]
  {
    FilterKeepsOrder(names, SuggestsFor(term));
  }

  /** The empty term offers at least as many names as any other term. */
  lemma {:induction false} EmptyTermOffersMost(names: seq<string>, term: string)
    ensures |Suggestions(names, term)| <= |Suggestions(names, "")|
  {
    assert ToLower("") == "";
    forall x | x in names && SuggestsFor(term)(x)
      ensures SuggestsFor("")(x)
    {
      ContainsEmpty(ToLower(x));
      if ToLower(x) == "" {
        InEmptyOnlyEmpty(ToLower(term));
      }
    }
    FilterWeakerKeepsMore(names, SuggestsFor(term), SuggestsFor(""));
  }

  datatype Key = ArrowDown | ArrowUp | Enter | Escape | OtherKey

  class SearchBox {
    /** The `suggestions` prop: every country's common name. */
    const names: seq<string>
    /** The `searchTerm` prop, which `onSearchChange` sets in the parent. */
    var searchTerm: string
    var isOpen: bool
    var selectedIndex: int

    /** The rendered suggestion list. */
    function Visible(): seq<string>
      reads this
    {
      Suggestions(names, searchTerm)
    }

    /** The selection is -1 or a position of the suggestion list. */
    ghost predicate Valid()
      reads this
    {
      selectedIndex == -1 || 0 <= selectedIndex < |Visible()|
    }

    constructor (names: seq<string>, searchTerm: string)
      ensures Valid()
      ensures this.names == names && this.searchTerm == searchTerm
      ensures !isOpen && selectedIndex == -1
    {
      this.names := names;
      this.searchTerm := searchTerm;
      isOpen := false;
      selectedIndex := -1;
    }

    /** `handleKeyDown`. */
    method KeyDown(key: Key)
      requires Valid()
      modifies this
      ensures Valid()
      ensures !old(isOpen) || old(|Visible()|) == 0 ==>
        && searchTerm == old(searchTerm) && selectedIndex == old(selectedIndex)
        && isOpen == (old(isOpen) || (key == ArrowDown && old(searchTerm) != ""))
      ensures old(isOpen) && old(|Visible()|) > 0 ==> match key
        case ArrowDown =>
          && searchTerm == old(searchTerm) && isOpen
          && selectedIndex == (if old(selectedIndex) < old(|Visible()|) - 1 then old(selectedIndex) + 1 else old(selectedIndex))
        case ArrowUp =>
          && searchTerm == old(searchTerm) && isOpen
          && selectedIndex == (if old(selectedIndex) > 0 then old(selectedIndex) - 1 else -1)
        case Enter =>
          if old(selectedIndex) >= 0 then
            searchTerm == old(Visible()[selectedIndex]) && !isOpen && selectedIndex == -1
          else
            searchTerm == old(searchTerm) && isOpen && selectedIndex == -1
        case Escape =>
          searchTerm == old(searchTerm) && !isOpen && selectedIndex == -1
        case OtherKey =>
          searchTerm == old(searchTerm) && isOpen && selectedIndex == old(selectedIndex)
    {
      var visible := Visible();
      if !isOpen || |visible| == 0 {
        if key == ArrowDown && searchTerm != "" {
          isOpen := true;
        }
        return;
      }
      match key {
        case ArrowDown =>
          if selectedIndex < |visible| - 1 {
            selectedIndex := selectedIndex + 1;
          }
        case ArrowUp =>
          selectedIndex := if selectedIndex > 0 then selectedIndex - 1 else -1;
        case Enter =>
          if selectedIndex >= 0 {
            searchTerm := visible[selectedIndex];
            isOpen := false;
            selectedIndex := -1;
          }
        case Escape =>
          isOpen := false;
          selectedIndex := -1;
        case OtherKey =>
      }
    }

    /** `handleInputChange`: the typed value becomes the term; the list opens iff it is non-empty. */
    method InputChange(value: string)
      requires Valid()
      modifies this
      ensures Valid()
      ensures searchTerm == value && isOpen == (|value| > 0) && selectedIndex == -1
    {
      searchTerm := value;
      isOpen := |value| > 0;
      selectedIndex := -1;
    }

    /**
     * `handleSuggestionClick`: commit the suggestion, close the list, clear the selection, then
     * focus the input. Pressing the mouse on the suggestion took focus off the input, so `focus()`
     * runs the input's `onFocus` inside this handler. That handler belongs to the render in which
     * the click happened, so it sees the term from before the click, and it reopens the list when
     * that term is non-empty. The reopen is queued after the close, so it wins.
     */
    method SuggestionClick(suggestion: string)
      requires Valid()
      modifies this
      ensures Valid()
      ensures searchTerm == suggestion && selectedIndex == -1
      ensures isOpen == (old(searchTerm) != "")
    {
      var renderedTerm := searchTerm;
      searchTerm := suggestion;
      isOpen := false;
      selectedIndex := -1;
      if renderedTerm != "" {
        isOpen := true;
      }
    }

    /**
     * The clear button: empty the term, close the list, then focus the input. As for a
     * suggestion click, the nested `onFocus` sees the term from before the click and reopens the
     * list when that term was non-empty (the button is only shown then). The selection is left
     * as it was, and it stays valid because the empty term offers the most names.
     */
    method ClearButton()
      requires Valid()
      modifies this
      ensures Valid()
      ensures searchTerm == "" && selectedIndex == old(selectedIndex)
      ensures isOpen == (old(searchTerm) != "")
    {
      EmptyTermOffersMost(names, searchTerm);
      var renderedTerm := searchTerm;
      searchTerm := "";
      isOpen := false;
      if renderedTerm != "" {
        isOpen := true;
      }
    }

    /** The input's `onFocus`: open the list when there is a term. */
    method Focus()
      requires Valid()
      modifies this
      ensures Valid()
      ensures searchTerm == old(searchTerm) && selectedIndex == old(selectedIndex)
      ensures isOpen == (old(isOpen) || old(searchTerm) != "")
    {
      if searchTerm != "" {
        isOpen := true;
      }
    }

    /** A mouse press outside the component closes the list. */
    method ClickOutside()
      requires Valid()
      modifies this
      ensures Valid()
      ensures searchTerm == old(searchTerm) && selectedIndex == old(selectedIndex) && !isOpen
    {
      isOpen := false;
    }

    /** The parent's "Clear search" button (src/App.tsx) empties the term and nothing else. */
    method ParentClear()
      requires Valid()
      modifies this
      ensures Valid()
      ensures searchTerm == "" && isOpen == old(isOpen) && selectedIndex == old(selectedIndex)
    {
      EmptyTermOffersMost(names, searchTerm);
      searchTerm := "";
    }
  }

  /** Typing "an", moving down once and pressing Enter commits "France" and closes the list. */
  method KeyboardScenario() returns (term: string, open: bool, selected: int)
    ensures term == "France" && !open && selected == -1
  {
    var names := ["France", "Germany", "Japan", "Spain"];
    var box := new SearchBox(names, "");
    box.InputChange("an");
    assert box.isOpen && box.selectedIndex == -1;
    assert Suggests("France", "an") by {
      assert ToLower("France") == "france" && ToLower("an") == "an";
      assert "france"[2..] == "ance";
      assert Contains("france"[1..][1..], "an");
    }
    FilterCons("France", names[1..], SuggestsFor("an"));
    assert names == ["France"] + names[1..];
    assert box.Visible()[0] == "France";
    box.KeyDown(ArrowDown);
    assert box.selectedIndex == 0;
    box.KeyDown(Enter);
    term, open, selected := box.searchTerm, box.isOpen, box.selectedIndex;
  }

  /**
   * Typing "nig" and clicking "Niger" commits it, and the focus the click handler gives back to
   * the input reopens the list, which now offers "Nigeria".
   */
  method ClickScenario() returns (term: string, open: bool, offered: seq<string>)
    ensures term == "Niger" && open && offered == ["Nigeria"]
  {
    var names := ["Niger", "Nigeria"];
    var box := new SearchBox(names, "");
    box.InputChange("nig");
    box.SuggestionClick("Niger");
    assert !Suggests("Niger", "Niger");
    assert Suggests("Nigeria", "Niger") by {
      assert ToLower("Nigeria") == "nigeria" && ToLower("Niger") == "niger";
      assert "niger" <= "nigeria";
    }
    FilterCons("Niger", ["Nigeria"], SuggestsFor("Niger"));
    FilterCons("Nigeria", [], SuggestsFor("Niger"));
    assert names == ["Niger"] + ["Nigeria"];
    assert ["Nigeria"] == ["Nigeria"] + [];
    term, open, offered := box.searchTerm, box.isOpen, box.Visible();
  }
}

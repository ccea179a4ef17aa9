/** The layout around every page: the compare-mode switch and the ordered list of
    ids picked for comparison, and which view the main area shows. */
module App {
  import opened Languages
  import opened Seqs

  /** `handleToggleCompare`: a selected id loses every occurrence, any other id is
      appended. Other ids stay, in their order and multiplicity. */
  function ToggleId(selection: seq<string>, id: string): (r: seq<string>)
    ensures id in r <==> id !in selection
    ensures RemoveAll(r, id) == RemoveAll(selection, id)
    ensures id in selection ==> IsSubsequence(r, selection)
    ensures id !in selection ==> r == selection + [id]
  {
    if id in selection then
      RemoveIdempotent(selection, id);
      RemoveAll(selection, id)
    else
      RemoveAfterAppend(selection, id);
      selection + [id]
  }

  /** An id toggled on and off again leaves the selection as it was. */
  lemma ToggleTwiceRestores(selection: seq<string>, id: string)
    requires id !in selection
    ensures ToggleId(ToggleId(selection, id), id) == selection
  {
    RemoveAbsent(selection, id);
  }

  /** A toggle never introduces a duplicate id. */
  lemma ToggleKeepsNoDuplicates(selection: seq<string>, id: string)
    requires NoDuplicates(selection)
    ensures NoDuplicates(ToggleId(selection, id))
  {
    if id in selection {
      RemoveNoDuplicates(selection, id);
    } else {
      AppendFreshNoDuplicates(selection, id);
    }
  }

  /** The selection after toggling the ids in `clicks` one after the other. */
  function ToggleAll(selection: seq<string>, clicks: seq<string>): seq<string>
    decreases |clicks|
  {
    if clicks == [] then selection
    else ToggleAll(ToggleId(selection, clicks[0]), clicks[1..])
  }

  /** Starting from a selection without duplicates, in particular the empty one, no
      sequence of toggles produces a duplicate. */
  lemma {:induction false} TogglesKeepNoDuplicates(selection: seq<string>, clicks: seq<string>)
    requires NoDuplicates(selection)
    ensures NoDuplicates(ToggleAll(selection, clicks))
    decreases |clicks|
  {
    if clicks != [] {
      var next := ToggleId(selection, clicks[0]);
      ToggleKeepsNoDuplicates(selection, clicks[0]);
      TogglesKeepNoDuplicates(next, clicks[1..]);
    }
  }

  /** `compareLanguages`: the catalog records whose id is selected, in catalog order. */
  function CompareLanguages(langs: seq<Language>, selection: seq<string>): (r: seq<Language>)
    ensures forall l :: l in r <==> l in langs && l.id in selection
    ensures forall l :: multiset(r)[l] == if l.id in selection then multiset(langs)[l] else 0
    ensures IsSubsequence(r, langs)
  {
    Filter((l: Language) => l.id in selection, langs)
  }

  /** Only which ids are selected matters, not the order they were picked in. */
  lemma CompareIgnoresSelectionOrder(langs: seq<Language>, s1: seq<string>, s2: seq<string>)
    requires forall id :: id in s1 <==> id in s2
    ensures CompareLanguages(langs, s1) == CompareLanguages(langs, s2)
  {
    FilterCongruent((l: Language) => l.id in s1, (l: Language) => l.id in s2, langs);
  }

  /** What the main area shows. */
  datatype MainView = CompareView(languages: seq<Language>) | RoutedPage

  /** The component state of the layout. */
  class AppLayout {
    var compareMode: bool
    var selectedForCompare: seq<string>

    /** The selection holds each id at most once. */
    ghost predicate Valid()
      reads this
    {
      NoDuplicates(selectedForCompare)
    }

    /** Compare mode off, nothing selected. */
    constructor ()
      ensures !compareMode && selectedForCompare == []
      ensures Valid()
    {
      compareMode := false;
      selectedForCompare := [];
    }

    /** A click on a check box of the sidebar. */
    method ToggleCompare(id: string)
      requires Valid()
      modifies this
      ensures selectedForCompare == ToggleId(old(selectedForCompare), id)
      ensures compareMode == old(compareMode)
      ensures Valid()
    {
      ToggleKeepsNoDuplicates(selectedForCompare, id);
      selectedForCompare := ToggleId(selectedForCompare, id);
    }

    /** The COMPARE button: flips the mode and keeps the selection. */
    method ToggleCompareMode()
      modifies this
      ensures compareMode == !old(compareMode)
      ensures selectedForCompare == old(selectedForCompare)
    {
      compareMode := !compareMode;
    }

    /** Closing the compare view: the mode goes off, the selection is kept. */
    method CloseCompare()
      modifies this
      ensures !compareMode
      ensures selectedForCompare == old(selectedForCompare)
    {
      compareMode := false;
    }

    /** The compare view with the selected records exactly in compare mode, and the
        routed page otherwise. */
    function View(langs: seq<Language>): (v: MainView)
      reads this
      ensures v.CompareView? <==> compareMode
      ensures v.CompareView? ==> v.languages == CompareLanguages(langs, selectedForCompare)
    {
      if compareMode then CompareView(CompareLanguages(langs, selectedForCompare)) else RoutedPage
    }
  }
}

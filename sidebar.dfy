/** The catalog sidebar: the name search, the optional restriction to starred
    languages, the counts in its header, and the label under each entry. */
module Sidebar {
  import opened Wrappers
  import opened Languages
  import opened Text
  import opened Seqs
  import opened Favorites

  /** `lang.name.toLowerCase().includes(searchQuery.toLowerCase())`. */
  predicate NameMatches(l: Language, query: string)
  {
    Contains(ToLower(l.name), ToLower(query))
  }

  /** The first `filter` of `filteredLanguages`: the records whose lower-cased name
      contains the lower-cased query, in dataset order. */
  function SearchByName(langs: seq<Language>, query: string): (r: seq<Language>)
    ensures forall l :: l in r <==> l in langs && NameMatches(l, query)
    ensures forall l :: multiset(r)[l] == if NameMatches(l, query) then multiset(langs)[l] else 0
    ensures IsSubsequence(r, langs)
  {
    Filter(l => NameMatches(l, query), langs)
  }

  /** `filteredLanguages`: the name search, then, when only favourites are shown, the
      records whose id is starred. The result is a subsequence of the search result;
      with the flag off the starred ids play no part. */
  function FilterLanguages(langs: seq<Language>, query: string, favoritesOnly: bool,
                           favorites: seq<string>): (r: seq<Language>)
    ensures forall l :: l in r <==>
      l in langs && NameMatches(l, query) && (favoritesOnly ==> l.id in favorites)
    ensures forall l :: multiset(r)[l] == if NameMatches(l, query) && (favoritesOnly ==> l.id in favorites) then multiset(langs)[l] else 0
    ensures IsSubsequence(r, langs) && |r| <= |langs|
    ensures favoritesOnly ==> IsSubsequence(r, SearchByName(langs, query))
    ensures !favoritesOnly ==> r == SearchByName(langs, query)
  {
    var found := SearchByName(langs, query);
    if favoritesOnly then
      var r := Filter((l: Language) => l.id in favorites, found);
      SubsequenceTransitive(r, found, langs);
      r
    else found
  }

  /** An empty query on the whole catalog lists every record, unchanged. */
  lemma EmptyQueryKeepsAll(langs: seq<Language>, favorites: seq<string>)
    ensures FilterLanguages(langs, "", false, favorites) == langs
  {
    forall i | 0 <= i < |langs| ensures NameMatches(langs[i], "") {
      ContainsEmpty(ToLower(langs[i].name));
    }
    FilterAll(l => NameMatches(l, ""), langs);
  }

  /** The search is case-insensitive: queries that lower-case alike find the same
      records, in the same order and multiplicity. */
  lemma SearchIgnoresCase(langs: seq<Language>, q1: string, q2: string)
    requires ToLower(q1) == ToLower(q2)
    ensures SearchByName(langs, q1) == SearchByName(langs, q2)
  {
    FilterCongruent(l => NameMatches(l, q1), l => NameMatches(l, q2), langs);
  }

  /** Lower-casing the query before searching finds the same records. */
  lemma SearchWithLoweredQuery(langs: seq<Language>, query: string)
    ensures SearchByName(langs, ToLower(query)) == SearchByName(langs, query)
  {
    ToLowerIdempotent(query);
    SearchIgnoresCase(langs, ToLower(query), query);
  }

  /** The metadata line is shown when the creator is known and the year positive. */
  predicate HasMetadata(l: Language)
  {
    l.creator != "" && l.year > 0
  }

  /** The line under a catalog entry: `${creator} | ${year}` when the creator is known
      and the year is positive, and the placeholder otherwise. The creator and the
      year can be read back from the label, and a label never looks like the
      placeholder. */
  function RowLabel(l: Language): (r: string)
    ensures HasMetadata(l) <==> r != "no metadata yet"
    ensures HasMetadata(l) ==>
      var n := |l.creator|;
      && n + 3 < |r|
      && r[..n] == l.creator
      && r[n..n + 3] == " | "
      && r[n + 3] != '0'
      && (forall i :: n + 3 <= i < |r| ==> IsDigit(r[i]))
      && DigitsValue(r[n + 3..]) == l.year
  {
    if HasMetadata(l) then
      var digits := Decimal(l.year);
      var r := l.creator + " | " + digits;
      var n := |l.creator|;
      assert r[n + 3..] == digits;
      DecimalRoundTrip(l.year);
      assert r[n + 1] == '|';
      assert '|' !in "no metadata yet";
      r
    else "no metadata yet"
  }

  /** One entry of the list. In compare mode it is a check box showing whether the id
      is selected; otherwise a link with a star when the id is a favourite, and the
      metadata line. */
  datatype Row =
    | CompareRow(id: string, name: string, selected: bool)
    | LinkRow(id: string, name: string, starred: bool, metadata: string)

  /** `filteredLanguages.map(...)`: one entry per filtered record, in order. */
  function Rows(filtered: seq<Language>, compareMode: bool, selected: seq<string>,
                favorites: seq<string>): (rows: seq<Row>)
    ensures |rows| == |filtered|
    ensures forall i :: 0 <= i < |rows| ==>
      && rows[i].id == filtered[i].id
      && rows[i].name == filtered[i].name
      && (rows[i].CompareRow? <==> compareMode)
    ensures compareMode ==>
      forall i :: 0 <= i < |rows| ==> (rows[i].selected <==> filtered[i].id in selected)
    ensures !compareMode ==>
      forall i :: 0 <= i < |rows| ==>
        (rows[i].starred <==> filtered[i].id in favorites) && rows[i].metadata == RowLabel(filtered[i])
  {
    seq(|filtered|, i requires 0 <= i < |filtered| =>
      var l := filtered[i];
      if compareMode then CompareRow(l.id, l.name, l.id in selected)
      else LinkRow(l.id, l.name, l.id in favorites, RowLabel(l)))
  }

  /** The `{n} SELECTED` note of the header: present only in compare mode, and then
      the length of the selection. */
  function SelectedCount(compareMode: bool, selected: seq<string>): (r: Option<nat>)
    ensures r.Some? <==> compareMode
    ensures r.Some? ==> r.value == |selected|
  {
    if compareMode then Some(|selected|) else None
  }

  /** The component state of the sidebar. */
  class SidebarState {
    var searchQuery: string
    var showFavoritesOnly: bool
    var favorites: seq<string>

    /** The initial state: no query, every record shown, nothing starred yet. */
    constructor ()
      ensures searchQuery == "" && !showFavoritesOnly && favorites == []
    {
      searchQuery := "";
      showFavoritesOnly := false;
      favorites := [];
    }

    /** Typing into the search box. */
    method SetSearchQuery(q: string)
      modifies this
      ensures searchQuery == q
      ensures showFavoritesOnly == old(showFavoritesOnly) && favorites == old(favorites)
    {
      searchQuery := q;
    }

    /** The FAVORITES / SHOW ALL button. */
    method ToggleFavoritesOnly()
      modifies this
      ensures showFavoritesOnly == !old(showFavoritesOnly)
      ensures searchQuery == old(searchQuery) && favorites == old(favorites)
    {
      showFavoritesOnly := !showFavoritesOnly;
    }

    /** `loadFavorites`: the stored ids, or none when the key is missing. */
    method LoadFavorites(store: FavoritesStore)
      modifies this
      ensures favorites == StoredIds(store.stored)
      ensures store.stored.None? ==> favorites == []
      ensures searchQuery == old(searchQuery) && showFavoritesOnly == old(showFavoritesOnly)
    {
      favorites := StoredIds(store.stored);
    }

    /** `filteredLanguages` for the current state. */
    function FilteredLanguages(langs: seq<Language>): (r: seq<Language>)
      reads this
      ensures forall l :: l in r <==>
        l in langs && NameMatches(l, searchQuery) && (showFavoritesOnly ==> l.id in favorites)
      ensures forall l :: multiset(r)[l] == if NameMatches(l, searchQuery) && (showFavoritesOnly ==> l.id in favorites) then multiset(langs)[l] else 0
      ensures IsSubsequence(r, langs)
      ensures !showFavoritesOnly ==> r == SearchByName(langs, searchQuery)
    {
      FilterLanguages(langs, searchQuery, showFavoritesOnly, favorites)
    }

    /** The `> {n} LANGUAGES` header: never more than the catalog, and the whole
        catalog when there is no query and the favourites filter is off. */
    function LanguageCount(langs: seq<Language>): (n: nat)
      reads this
      ensures n == |FilteredLanguages(langs)|
      ensures n <= |langs|
      ensures searchQuery == "" && !showFavoritesOnly ==> n == |langs|
    {
      var r := FilteredLanguages(langs);
      if searchQuery == "" && !showFavoritesOnly then
        EmptyQueryKeepsAll(langs, favorites);
        |r|
      else |r|
    }
  }
}

/** The page of one language: the lookup by id, the favourite star with its
    read-modify-write of the stored list, and the placeholders for missing
    fields. */
module LanguageDetail {
  import opened Wrappers
  import opened Languages
  import opened Text
  import opened Seqs
  import opened Favorites

  /** The position `languages.find(lang => lang.id === id)` stops at: the first record
      with that id, or none when no record has it. */
  function FindIndex(langs: seq<Language>, id: string): (r: Option<nat>)
    ensures r.None? <==> forall i :: 0 <= i < |langs| ==> langs[i].id != id
    ensures r.Some? ==>
      && r.value < |langs|
      && langs[r.value].id == id
      && forall j :: 0 <= j < r.value ==> langs[j].id != id
  {
    if langs == [] then None
    else if langs[0].id == id then Some(0)
    else
      match FindIndex(langs[1..], id)
      case None => None
      case Some(k) => Some(k + 1)
  }

  /** `languages.find(...)`: a record with the id, preceded by none with it; nothing
      exactly when no record has the id. */
  function Find(langs: seq<Language>, id: string): (r: Option<Language>)
    ensures r.None? <==> forall l :: l in langs ==> l.id != id
    ensures r.Some? ==>
      && r.value.id == id
      && exists k :: 0 <= k < |langs| && langs[k] == r.value
           && forall j :: 0 <= j < k ==> langs[j].id != id
  {
    match FindIndex(langs, id)
    case None => None
    case Some(k) => Some(langs[k])
  }

  /** The initial `isFavorite`: false when there is no record or no stored list, and
      otherwise whether the stored list holds the id. */
  function InitialFavorite(language: Option<Language>, stored: Option<seq<string>>): (r: bool)
    ensures r <==> language.Some? && stored.Some? && language.value.id in stored.value
    ensures r <==> language.Some? && language.value.id in StoredIds(stored)
  {
    if language.None? then false
    else if stored.Some? then language.value.id in stored.value
    else false
  }

  /** What the page shows for an id: the not-found message, or the record with its
      initial favourite flag. */
  datatype DetailPage = NotFound(id: string) | Found(language: Language, isFavorite: bool)

  function OpenDetail(langs: seq<Language>, id: string, stored: Option<seq<string>>): (p: DetailPage)
    ensures p.NotFound? <==> forall l :: l in langs ==> l.id != id
    ensures p.NotFound? ==> p.id == id
    ensures p.Found? ==>
      && p.language in langs
      && p.language.id == id
      && (exists k :: 0 <= k < |langs| && langs[k] == p.language && forall j :: 0 <= j < k ==> langs[j].id != id)
      && (p.isFavorite <==> id in StoredIds(stored))
  {
    var language := Find(langs, id);
    if language.None? then NotFound(id)
    else Found(language.value, InitialFavorite(language, stored))
  }

  /** The list `toggleFavorite` writes back. A favourite loses every occurrence of its
      id and the other ids keep their order; otherwise the id is pushed at the end,
      whether or not the list already holds it. */
  function ToggledFavorites(favs: seq<string>, id: string, isFavorite: bool): (r: seq<string>)
    ensures isFavorite ==>
      && id !in r
      && (forall y :: y != id ==> multiset(r)[y] == multiset(favs)[y])
      && IsSubsequence(r, favs)
    ensures !isFavorite ==> |r| == |favs| + 1 && r[..|favs|] == favs && r[|favs|] == id
  {
    if isFavorite then RemoveAll(favs, id) else favs + [id]
  }

  /** When the flag agrees with the list, it still agrees after the toggle. */
  lemma ToggleKeepsFlagInSync(favs: seq<string>, id: string, isFavorite: bool)
    requires isFavorite <==> id in favs
    ensures !isFavorite <==> id in ToggledFavorites(favs, id, isFavorite)
  {
    if !isFavorite {
      var r := ToggledFavorites(favs, id, isFavorite);
      assert r[|favs|] == id;
    }
  }

  /** Starting from not-favourite with the id absent, two toggles give back the stored
      list exactly. */
  lemma ToggleTwiceFromAbsent(favs: seq<string>, id: string)
    requires id !in favs
    ensures ToggledFavorites(ToggledFavorites(favs, id, false), id, true) == favs
  {
    RemoveAfterAppend(favs, id);
    RemoveAbsent(favs, id);
  }

  /** Starting from favourite with the id stored, two toggles keep the same ids, each
      other id as often as before, but move the id to the end, once. */
  lemma ToggleTwiceFromFavorite(favs: seq<string>, id: string)
    requires id in favs
    ensures var r := ToggledFavorites(ToggledFavorites(favs, id, true), id, false);
      && r == RemoveAll(favs, id) + [id]
      && (forall y :: y in r <==> y in favs)
      && multiset(r)[id] == 1
  {
    var once := RemoveAll(favs, id);
    var r := once + [id];
    assert multiset(r)[id] == multiset(once)[id] + 1;
    assert multiset(once)[id] == 0;
  }

  /** The page of a found record, with its favourite flag and the store it toggles. */
  class DetailView {
    const language: Language
    const store: FavoritesStore
    var isFavorite: bool

    /** The flag shows what the store holds. */
    predicate InSync()
      reads this, store
    {
      isFavorite <==> language.id in StoredIds(store.stored)
    }

    /** The lazy initial state of `isFavorite`, read once from the store. */
    constructor (language: Language, store: FavoritesStore)
      ensures this.language == language && this.store == store
      ensures isFavorite == InitialFavorite(Some(language), store.stored)
      ensures InSync()
    {
      this.language := language;
      this.store := store;
      isFavorite := InitialFavorite(Some(language), store.stored);
    }

    /** `toggleFavorite`: read the stored list, drop or push the id as the flag says,
        write the whole list back, and flip the flag. */
    method ToggleFavorite()
      modifies this, store
      ensures store.stored == Some(ToggledFavorites(StoredIds(old(store.stored)), language.id, old(isFavorite)))
      ensures isFavorite == !old(isFavorite)
      ensures old(InSync()) ==> InSync()
    {
      var favArray := StoredIds(store.stored);
      ghost var before := favArray;
      if isFavorite {
        favArray := RemoveAll(favArray, language.id);
      } else {
        favArray := favArray + [language.id];
      }
      if InSync() {
        ToggleKeepsFlagInSync(before, language.id, isFavorite);
      }
      store.Write(favArray);
      isFavorite := !isFavorite;
    }
  }

  /** A value passed to `renderField`: a string field or the numeric year. */
  datatype FieldValue = StringValue(text: string) | NumberValue(number: int)

  /** What `renderField` renders: the value in bold, or the dimmed placeholder. */
  datatype Field = Shown(value: FieldValue) | Placeholder(text: string)

  /** JavaScript truthiness of the value: a non-empty string, a non-zero number. */
  predicate Truthy(v: FieldValue)
  {
    match v
    case StringValue(s) => s != ""
    case NumberValue(n) => n != 0
  }

  /** `value.toString().length`. */
  function ToStringLength(v: FieldValue): nat
  {
    match v
    case StringValue(s) => |s|
    case NumberValue(n) => if n < 0 then 1 + |Decimal(-n)| else |Decimal(n)|
  }

  /** `value && value.toString().length > 0 && value !== 0 ? value : placeholder`: the
      value is shown exactly when it is a non-empty string or a non-zero number. The
      string `"0"` is not `0`, so it is shown. */
  function RenderField(v: FieldValue, placeholder: string): (r: Field)
    ensures r.Shown? <==> (v.StringValue? && v.text != "") || (v.NumberValue? && v.number != 0)
    ensures r.Shown? ==> r.value == v
    ensures r.Placeholder? ==> r.text == placeholder
  {
    if Truthy(v) && ToStringLength(v) > 0 && v != NumberValue(0) then Shown(v)
    else Placeholder(placeholder)
  }

  /** The creator, year and paradigm lines of the header. A year is shown whenever it is
      not zero, a negative one included. */
  function HeaderFields(l: Language): (r: seq<Field>)
    ensures |r| == 3
    ensures r[0].Shown? <==> l.creator != ""
    ensures r[1].Shown? <==> l.year != 0
    ensures r[2].Shown? <==> l.paradigm != ""
    ensures r[0].Shown? ==> r[0].value == StringValue(l.creator)
    ensures r[1].Shown? ==> r[1].value == NumberValue(l.year)
    ensures r[2].Shown? ==> r[2].value == StringValue(l.paradigm)
    ensures forall i :: 0 <= i < 3 && r[i].Placeholder? ==> r[i].text == "no data yet"
  {
    [RenderField(StringValue(l.creator), "no data yet"),
     RenderField(NumberValue(l.year), "no data yet"),
     RenderField(StringValue(l.paradigm), "no data yet")]
  }

  /** `text || "no data yet"`, as the purpose and history sections show them. */
  function OrNoData(s: string): (r: string)
    ensures s != "" ==> r == s
    ensures s == "" ==> r == "no data yet"
    ensures r != ""
  {
    if s != "" then s else "no data yet"
  }

  /** The facts section: the placeholder, or the facts in order under their numbers. */
  datatype FactsSection = NoFacts | Numbered(items: seq<(nat, string)>)

  /** `facts.length > 0 ? facts.map((fact, index) => [index + 1] fact) : "no data yet"`:
      the placeholder exactly when there are no facts; otherwise every fact, in order,
      numbered consecutively from 1. */
  function RenderFacts(facts: seq<string>): (r: FactsSection)
    ensures r.NoFacts? <==> facts == []
    ensures r.Numbered? ==>
      && |r.items| == |facts|
      && (forall i :: 0 <= i < |facts| ==> r.items[i].1 == facts[i])
      && r.items[0].0 == 1
      && (forall i :: 0 <= i < |facts| - 1 ==> r.items[i + 1].0 == r.items[i].0 + 1)
  {
    if facts == [] then NoFacts
    else Numbered(seq(|facts|, i requires 0 <= i < |facts| => (i + 1, facts[i])))
  }
}

/** The browser-local store under the key `favorites`, holding the starred
    language ids. The model keeps the decoded array; a missing key is `None`. */
module Favorites {
  import opened Wrappers

  /** `stored ? JSON.parse(stored) : []`: the ids under the key, none when it is missing. */
  function StoredIds(stored: Option<seq<string>>): (ids: seq<string>)
    ensures forall id :: id in ids <==> stored.Some? && id in stored.value
    ensures stored.Some? ==> ids == stored.value
    ensures stored.None? ==> ids == []
  {
    if stored.Some? then stored.value else []
  }

  class FavoritesStore {
    var stored: Option<seq<string>>

    /** A store where the key has never been written. */
    constructor ()
      ensures stored == None
    {
      stored := None;
    }

    /** `localStorage.setItem("favorites", JSON.stringify(ids))`: the whole list is
        overwritten. */
    method Write(ids: seq<string>)
      modifies this
      ensures stored == Some(ids)
    {
      stored := Some(ids);
    }
  }
}

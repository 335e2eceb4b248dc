/**
 * The once-per-request entry cache: a class-wide (`static`) `$_entry` that the first successful
 * lookup fills and every later `get_entry` returns without looking anything up.
 */
module EntryCache {
  import opened Options
  import opened Php
  import opened Host

  /** A class's static `$_entry`: `None` while it is still `null`. Every instance of the class shares it. */
  class EntryCache {
    var entry: Option<Entry>

    constructor()
      ensures entry == None
    {
      entry := None;
    }

    /**
     * `get_entry()` of a class that keeps its entry here, given the id `get_entry_id()` yields: the
     * cached entry when there is one, otherwise the entry found now, which is then cached.
     */
    method Lookup(entryId: Option<string>, env: Env) returns (r: Option<Entry>)
      modifies this
      ensures old(entry).Some? ==> r == old(entry) && entry == old(entry)
      ensures old(entry).None? ==> r == FetchedEntry(entryId, env) && entry == r
    {
      if entry.None? {
        if entryId.None? || !Truthy(entryId.value) {
          return None;
        }
        var found := LookupEntry(env, entryId.value);
        if |found| == 0 {
          return None;
        }
        entry := Some(found);
      }
      r := entry;
    }
  }

  /**
   * `GFFormsModel::get_lead($entry_id)` behind the two guards of `get_entry`: a falsy id and an empty
   * lookup both give no entry.
   */
  function FetchedEntry(entryId: Option<string>, env: Env): (r: Option<Entry>)
    ensures r.Some? ==> entryId.Some? && Truthy(entryId.value) && entryId.value in env.entries
    ensures r.Some? ==> r.value == env.entries[entryId.value] && |r.value| > 0
    ensures entryId.Some? && Truthy(entryId.value) && entryId.value in env.entries && |env.entries[entryId.value]| > 0 ==> r.Some?
  {
    match entryId
    case None => None
    case Some(id) =>
      if !Truthy(id) then None
      else
        var e := LookupEntry(env, id);
        if |e| == 0 then None else Some(e)
  }
}

/** The cached English list page (script.js): a name index keyed by listing
    name, built once and kept in local storage so later visits skip the
    fetches, a list that renders every entry in the index's order, and a
    search box that filters that list, case-sensitively, by English name. */
module CachedViewer {
  import opened Wrappers
  import opened Text
  import opened OrderedMaps
  import opened NameIndex

  /** `entries.filter(e => e.englishName.includes(q))`. */
  function Matching(es: seq<IndexEntry>, q: string): seq<IndexEntry>
    decreases |es|
  {
    if es == [] then []
    else
      Matching(es[..|es| - 1], q)
      + if Includes(es[|es| - 1].englishName, q) then [es[|es| - 1]] else []
  }

  /** The list shown for a search-box value: every entry for a blank value,
      otherwise the entries whose English name contains the trimmed value. */
  function Shown(m: NameMap, input: string): seq<IndexEntry>
    requires Valid(m)
  {
    var q := Trim(input);
    if q == [] then Values(m) else Matching(Values(m), q)
  }

  class Catalogue {
    var nameMap: NameMap
    /** The rendered list, in order. */
    var list: seq<IndexEntry>
    /** The local-storage item holding the serialised index. */
    var stored: Option<NameMap>
    /** The name-index builds run so far. */
    ghost var fetches: nat

    ghost predicate Valid()
      reads this
    {
      OrderedMaps.Valid(nameMap) && (stored.Some? ==> OrderedMaps.Valid(stored.value))
    }

    /** A fresh page, with whatever local storage holds from earlier visits. */
    constructor(saved: Option<NameMap>)
      requires saved.Some? ==> OrderedMaps.Valid(saved.value)
      ensures Valid()
      ensures nameMap == Empty() && list == [] && stored == saved && fetches == 0
    {
      nameMap := Empty();
      list := [];
      stored := saved;
      fetches := 0;
    }

    /** script.js:38-62. `listing` is the bulk listing (`None` when that
        fetch fails: the error is caught), `c` the callbacks' completion order. */
    method FetchPokemonNames(listing: Option<seq<Listed>>, c: seq<nat>)
      requires Valid()
      requires listing.Some? ==> IsCompletionOrder(c, |listing.value|)
      modifies this
      ensures Valid()
      ensures listing.None? ==> nameMap == old(nameMap)
      ensures listing.Some? ==> nameMap == SetAll(old(nameMap), Writes(listing.value, c, ListingKeyed))
      ensures list == old(list) && stored == old(stored) && fetches == old(fetches) + 1
    {
      if listing.Some? {
        nameMap := BuildIndex(nameMap, listing.value, c, ListingKeyed);
      }
      fetches := fetches + 1;
    }

    /** script.js:65-83: clear the list, then render every entry in order. */
    method LoadPokemonFromStorage()
      requires Valid()
      modifies this
      ensures Valid()
      ensures list == Values(nameMap)
      ensures nameMap == old(nameMap) && stored == old(stored) && fetches == old(fetches)
    {
      list := Values(nameMap);
    }

    /** script.js:13-22: a stored index is copied into the empty one and
        rendered without fetching; otherwise the index is built, stored and
        rendered. Whatever the first build produced, even an empty index, is
        stored and served from then on. */
    method Startup(listing: Option<seq<Listed>>, c: seq<nat>)
      requires Valid() && nameMap == Empty()
      requires listing.Some? ==> IsCompletionOrder(c, |listing.value|)
      modifies this
      ensures Valid()
      ensures old(stored).Some? ==> nameMap == old(stored).value && stored == old(stored) && fetches == old(fetches)
      ensures old(stored).None? && listing.Some? ==> nameMap == SetAll(Empty(), Writes(listing.value, c, ListingKeyed))
      ensures old(stored).None? && listing.None? ==> nameMap == Empty()
      ensures old(stored).None? ==> stored == Some(nameMap) && fetches == old(fetches) + 1
      ensures list == Values(nameMap)
    {
      if stored.Some? {
        AssignIntoEmpty(stored.value);
        SetAllValid(nameMap, EntryWrites(stored.value));
        nameMap := SetAll(nameMap, EntryWrites(stored.value));
        LoadPokemonFromStorage();
      } else {
        FetchPokemonNames(listing, c);
        stored := Some(nameMap);
        LoadPokemonFromStorage();
      }
    }

    /** script.js:88-116: a blank value re-renders everything; otherwise the
        list is cleared and the matching entries are rendered in order. */
    method FilterPokemonList(input: string)
      requires Valid()
      modifies this
      ensures Valid()
      ensures list == Shown(nameMap, input)
      ensures nameMap == old(nameMap) && stored == old(stored) && fetches == old(fetches)
    {
      var q := Trim(input);
      if q == [] {
        LoadPokemonFromStorage();
        return;
      }
      list := Matching(Values(nameMap), q);
    }
  }

  /** A second visit serves the first visit's list from storage without
      building the index again. */
  method Revisit(listing: Option<seq<Listed>>, c: seq<nat>) returns (first: seq<IndexEntry>, second: seq<IndexEntry>)
    requires listing.Some? ==> IsCompletionOrder(c, |listing.value|)
    ensures first == second
  {
    var a := new Catalogue(None);
    a.Startup(listing, c);
    first := a.list;
    var b := new Catalogue(a.stored);
    b.Startup(listing, c);
    second := b.list;
    assert b.fetches == 0;
  }

  lemma {:induction false} MatchingAppend(a: seq<IndexEntry>, b: seq<IndexEntry>, q: string)
    ensures Matching(a + b, q) == Matching(a, q) + Matching(b, q)
    decreases |b|
  {
    if b == [] {
      assert a + b == a;
    } else {
      var b' := b[..|b| - 1];
      assert (a + b)[..|a + b| - 1] == a + b';
      MatchingAppend(a, b', q);
    }
  }

  /** The filter keeps every matching entry as often as it occurs and drops
      every other one; with `MatchingAppend` it also keeps their order. */
  lemma {:induction false} MatchingCount(es: seq<IndexEntry>, q: string, e: IndexEntry)
    ensures multiset(Matching(es, q))[e] == if Includes(e.englishName, q) then multiset(es)[e] else 0
    decreases |es|
  {
    if es != [] {
      var front := es[..|es| - 1];
      MatchingCount(front, q, e);
      assert es == front + [es[|es| - 1]];
    }
  }

  /** Every string contains the empty string, so filtering with a blank
      query would show the whole list: the early return changes nothing. */
  lemma {:induction false} MatchingEmptyQuery(es: seq<IndexEntry>)
    ensures Matching(es, []) == es
    decreases |es|
  {
    if es != [] {
      assert OccursAt(es[|es| - 1].englishName, [], 0);
      MatchingEmptyQuery(es[..|es| - 1]);
    }
  }

  lemma ShownIsFilter(m: NameMap, input: string)
    requires Valid(m)
    ensures Shown(m, input) == Matching(Values(m), Trim(input))
  {
    if Trim(input) == [] {
      MatchingEmptyQuery(Values(m));
    }
  }

  /** Surrounding whitespace in the search box never changes the list. */
  lemma ShownIgnoresPadding(m: NameMap, p: string, s: string, q: string)
    requires Valid(m) && IsBlank(p) && IsBlank(q)
    ensures Shown(m, p + s + q) == Shown(m, s)
  {
    TrimIgnoresPadding(p, s, q);
  }
}

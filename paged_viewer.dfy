/** The paged Korean list page (script2.js): a Korean-keyed name index built
    once at load time, a cursor that fetches the list twenty Pokémon at a time
    up to number 799 and re-arms a "last card visible" sentinel while the
    cursor is at most 1010, an `isLoading` guard against overlapping loads,
    and an exact-key search by Korean name. */
module PagedViewer {
  import opened Wrappers
  import opened Text
  import opened Api
  import opened OrderedMaps
  import opened NameIndex

  /** The cursor's first value, the page size, the last number fetched and
      the bound under which the sentinel is re-armed. */
  const FirstOffset: int := 1
  const Limit: int := 20
  const LastOrdinal: int := 799
  const ReArmBound: int := 1010

  /** The text a template literal prints for `undefined`, which is also the
      property key an `undefined` lookup key is converted to. */
  const UndefinedText: string := "undefined"

  /** The fields of a `/pokemon/{i}` response that a list card reads. */
  datatype Summary = Summary(name: string, sprite: string)

  /** A list card: its `data-name`, its image and its `#number koreanName` caption. */
  datatype Card = Card(dataName: string, sprite: string, number: int, koreanName: string)

  function Min(a: int, b: int): int
  {
    if a <= b then a else b
  }

  /** The integers `a, a + 1, ..., b - 1`. */
  function Interval(a: int, b: int): (r: seq<int>)
    ensures |r| == if a < b then b - a else 0
    ensures forall k :: 0 <= k < |r| ==> r[k] == a + k
  {
    if a < b then seq(b - a, k requires 0 <= k < b - a => a + k) else []
  }

  lemma IntervalAppend(a: int, b: int, c: int)
    requires a <= b <= c
    ensures Interval(a, b) + Interval(b, c) == Interval(a, c)
  {
  }

  /** A batch extends the numbers fetched before it by exactly its own numbers. */
  lemma VisitedGrows(offset: int)
    requires FirstOffset <= offset
    ensures Interval(FirstOffset, Min(offset + Limit, LastOrdinal + 1))
      == Interval(FirstOffset, Min(offset, LastOrdinal + 1)) + BatchOrdinals(offset)
  {
    if offset <= LastOrdinal {
      IntervalAppend(FirstOffset, offset, Min(offset + Limit, LastOrdinal + 1));
    } else {
      assert BatchOrdinals(offset) == [];
    }
  }

  /** The numbers one batch fetches: `i` from the cursor while
      `i < offset + limit && i <= 799`, in ascending order. */
  function BatchOrdinals(offset: int): (r: seq<int>)
    ensures forall i :: i in r <==> offset <= i < offset + Limit && i <= LastOrdinal
    ensures forall k :: 0 <= k < |r| ==> r[k] == offset + k
  {
    var r := Interval(offset, Min(offset + Limit, LastOrdinal + 1));
    forall i | offset <= i < offset + Limit && i <= LastOrdinal ensures i in r {
      assert r[i - offset] == i;
    }
    r
  }

  /** Key `j` of the index holds an entry with the given English name. */
  predicate MatchesAt(m: NameMap, english: string, j: int)
  {
    0 <= j < |m.keys| && m.keys[j] in m.table && m.table[m.keys[j]].englishName == english
  }

  function FindFrom(m: NameMap, english: string, j: nat): (r: Option<nat>)
    requires j <= |m.keys|
    ensures r.None? ==> forall j' :: j <= j' < |m.keys| ==> !MatchesAt(m, english, j')
    ensures r.Some? ==> j <= r.value && MatchesAt(m, english, r.value)
    ensures r.Some? ==> forall j' :: j <= j' < r.value ==> !MatchesAt(m, english, j')
    decreases |m.keys| - j
  {
    if j == |m.keys| then None
    else if MatchesAt(m, english, j) then Some(j)
    else FindFrom(m, english, j + 1)
  }

  /** `Object.keys(m).find(key => m[key].englishName === english)`: the first
      key, in insertion order, whose entry has that English name. */
  function ReverseLookup(m: NameMap, english: string): (r: Option<string>)
    ensures r.None? <==> forall j :: 0 <= j < |m.keys| ==> !MatchesAt(m, english, j)
    ensures r.Some? ==> exists j :: (MatchesAt(m, english, j) && m.keys[j] == r.value
      && forall j' :: 0 <= j' < j ==> !MatchesAt(m, english, j'))
  {
    match FindFrom(m, english, 0)
    case None => None
    case Some(j) => Some(m.keys[j])
  }

  /** The card for number `i`, or none when an exception is caught: the fetch
      failed (`i` is not in `catalog`), or no key matched and the lookup of
      the key `undefined` yields no entry. */
  function CardFor(m: NameMap, catalog: map<int, Summary>, i: int): Option<Card>
  {
    if i !in catalog then None
    else
      match ReverseLookup(m, catalog[i].name)
      case Some(k) => Some(Card(catalog[i].name, catalog[i].sprite, m.table[k].number, k))
      case None =>
        if UndefinedText in m.table then
          Some(Card(catalog[i].name, catalog[i].sprite, m.table[UndefinedText].number, UndefinedText))
        else None
  }

  /** The cards a run over the numbers `ords` appends, in order. */
  function CardsFor(m: NameMap, catalog: map<int, Summary>, ords: seq<int>): seq<Card>
    decreases |ords|
  {
    if ords == [] then []
    else
      CardsFor(m, catalog, ords[..|ords| - 1]) + CardItem(m, catalog, ords[|ords| - 1])
  }

  /** The card number `i` appends, if any. */
  function CardItem(m: NameMap, catalog: map<int, Summary>, i: int): seq<Card>
  {
    if CardFor(m, catalog, i).Some? then [CardFor(m, catalog, i).value] else []
  }

  /** One more number of a batch appends its own card, if any. */
  lemma CardsForStep(m: NameMap, catalog: map<int, Summary>, a: int, b: int)
    requires a <= b
    ensures CardsFor(m, catalog, Interval(a, b + 1)) == CardsFor(m, catalog, Interval(a, b)) + CardItem(m, catalog, b)
  {
    var s := Interval(a, b + 1);
    assert s[..|s| - 1] == Interval(a, b);
  }

  /** The numbers fetched by a whole session scrolled to the end: a batch at
      each cursor value, the next one following while the advanced cursor is
      at most 1010. */
  function Session(offset: int): seq<int>
    decreases ReArmBound - offset
  {
    BatchOrdinals(offset) + if offset + Limit <= ReArmBound then Session(offset + Limit) else []
  }

  /** script2.js:54-79: fetch the numbers of one batch in order; a fetch
      that fails, or a name with no index entry, throws inside the `try`
      and that number adds no card. */
  method FetchBatch(m: NameMap, catalog: map<int, Summary>, offset: int) returns (added: seq<Card>)
    ensures added == CardsFor(m, catalog, BatchOrdinals(offset))
  {
    added := [];
    var i := offset;
    var stop := Min(offset + Limit, LastOrdinal + 1);
    while i < offset + Limit && i <= LastOrdinal
      invariant offset <= i
      invariant i <= stop || i == offset
      invariant added == CardsFor(m, catalog, Interval(offset, i))
      decreases offset + Limit - i
    {
      var card: Option<Card> := None;
      if i in catalog {
        var data := catalog[i];
        var koreanName := ReverseLookup(m, data.name);
        if koreanName.Some? {
          card := Some(Card(data.name, data.sprite, m.table[koreanName.value].number, koreanName.value));
        } else if UndefinedText in m.table {
          card := Some(Card(data.name, data.sprite, m.table[UndefinedText].number, UndefinedText));
        }
      }
      assert card == CardFor(m, catalog, i);
      CardsForStep(m, catalog, offset, i);
      if card.Some? {
        added := added + [card.value];
      }
      i := i + 1;
    }
    assert Interval(offset, i) == BatchOrdinals(offset);
  }

  class Viewer {
    var nameMap: NameMap
    var offset: int
    var isLoading: bool
    var cards: seq<Card>
    /** An observer waits on the last card. */
    var armed: bool
    /** The numbers fetched so far, in order. */
    ghost var visited: seq<int>
    /** The batches run so far. */
    ghost var batches: nat

    /** The cursor stays on the grid `1 + 20k`, the numbers fetched so far are
        exactly `1 .. min(offset, 800) - 1`, each once and in order, and the
        sentinel waits only on an existing card while the cursor is at most 1010. */
    ghost predicate Valid()
      reads this
    {
      && OrderedMaps.Valid(nameMap)
      && offset == FirstOffset + Limit * batches
      && visited == Interval(FirstOffset, Min(offset, LastOrdinal + 1))
      && (armed ==> offset <= ReArmBound && cards != [])
    }

    constructor()
      ensures Valid()
      ensures nameMap == Empty() && offset == FirstOffset && !isLoading
      ensures cards == [] && !armed && visited == [] && batches == 0
    {
      nameMap := Empty();
      offset := FirstOffset;
      isLoading := false;
      cards := [];
      armed := false;
      visited := [];
      batches := 0;
    }

    /** script2.js:18-46. `listing` is the bulk species listing (`None` when
        that fetch fails: the error is caught and the index stays as it was),
        and `c` the order in which the per-species callbacks complete. */
    method FetchPokemonNames(listing: Option<seq<Listed>>, c: seq<nat>)
      requires Valid()
      requires listing.Some? ==> IsCompletionOrder(c, |listing.value|)
      modifies this
      ensures Valid()
      ensures listing.None? ==> nameMap == old(nameMap)
      ensures listing.Some? ==> nameMap == SetAll(old(nameMap), Writes(listing.value, c, KoreanKeyed))
      ensures offset == old(offset) && isLoading == old(isLoading) && cards == old(cards)
      ensures armed == old(armed) && visited == old(visited) && batches == old(batches)
    {
      if listing.Some? {
        nameMap := BuildIndex(nameMap, listing.value, c, KoreanKeyed);
      }
    }

    /** script2.js:49-50: a load already running makes the call return at once. */
    method BeginLoad() returns (started: bool)
      requires Valid()
      modifies this
      ensures Valid()
      ensures started == !old(isLoading) && isLoading
      ensures nameMap == old(nameMap) && offset == old(offset) && cards == old(cards)
      ensures armed == old(armed) && visited == old(visited) && batches == old(batches)
      ensures !started ==> unchanged(this)
    {
      started := !isLoading;
      if started {
        isLoading := true;
      }
    }

    /** script2.js:52-87: fetch one batch in order, appending a card for each
        number that yields one; advance the cursor by twenty even when every
        fetch failed; clear the guard; arm the sentinel on the last card while
        the cursor is at most 1010. */
    method RunBatch(catalog: map<int, Summary>)
      requires Valid() && isLoading
      modifies this
      ensures Valid()
      ensures offset == old(offset) + Limit
      ensures cards == old(cards) + CardsFor(nameMap, catalog, BatchOrdinals(old(offset)))
      ensures visited == old(visited) + BatchOrdinals(old(offset))
      ensures batches == old(batches) + 1
      ensures !isLoading
      ensures armed == (offset <= ReArmBound && cards != [])
      ensures nameMap == old(nameMap)
    {
      var added := FetchBatch(nameMap, catalog, offset);
      VisitedGrows(offset);
      cards := cards + added;
      visited := visited + BatchOrdinals(offset);
      batches := batches + 1;
      offset := offset + Limit;
      isLoading := false;
      armed := offset <= ReArmBound && cards != [];
    }

    /** script2.js:48-88: the guard, then one batch. */
    method LoadPokemon(catalog: map<int, Summary>)
      requires Valid()
      modifies this
      ensures Valid()
      ensures old(isLoading) ==> unchanged(this)
      ensures !old(isLoading) ==>
        && offset == old(offset) + Limit
        && cards == old(cards) + CardsFor(nameMap, catalog, BatchOrdinals(old(offset)))
        && visited == old(visited) + BatchOrdinals(old(offset))
        && batches == old(batches) + 1
        && !isLoading && armed == (offset <= ReArmBound && cards != [])
      ensures nameMap == old(nameMap)
    {
      var started := BeginLoad();
      if started {
        RunBatch(catalog);
      }
    }

    /** script2.js:96-101: the armed observer sees the last card, disconnects
        and starts the next load; without an observer nothing happens. */
    method LastCardVisible(catalog: map<int, Summary>)
      requires Valid()
      modifies this
      ensures Valid()
      ensures !old(armed) ==> unchanged(this)
      ensures old(armed) && !old(isLoading) ==>
        && offset == old(offset) + Limit
        && cards == old(cards) + CardsFor(nameMap, catalog, BatchOrdinals(old(offset)))
        && visited == old(visited) + BatchOrdinals(old(offset))
        && batches == old(batches) + 1
        && !isLoading && armed == (offset <= ReArmBound && cards != [])
      ensures old(armed) && old(isLoading) ==>
        && !armed && isLoading
        && offset == old(offset) && cards == old(cards)
        && visited == old(visited) && batches == old(batches)
      ensures nameMap == old(nameMap)
    {
      if armed {
        armed := false;
        LoadPokemon(catalog);
      }
    }

    /** script2.js:6-8: the page-load handler on a fresh page: build the index,
        then load the first batch. */
    method Start(listing: Option<seq<Listed>>, c: seq<nat>, catalog: map<int, Summary>)
      requires Valid()
      requires nameMap == Empty() && offset == FirstOffset && !isLoading && cards == []
      requires listing.Some? ==> IsCompletionOrder(c, |listing.value|)
      modifies this
      ensures Valid()
      ensures listing.None? ==> nameMap == Empty()
      ensures listing.Some? ==> nameMap == SetAll(Empty(), Writes(listing.value, c, KoreanKeyed))
      ensures cards == CardsFor(nameMap, catalog, BatchOrdinals(FirstOffset))
      ensures offset == FirstOffset + Limit && armed == (cards != [])
      ensures !isLoading && visited == BatchOrdinals(FirstOffset) && batches == 1
    {
      FetchPokemonNames(listing, c);
      LoadPokemon(catalog);
    }
  }

  /** A fresh page is loaded and then scrolled to its last card once: when
      the first batch showed a card, the sentinel on it loads the second batch
      after it; otherwise no sentinel was set and the page stays at one batch. */
  method LoadThenScroll(listing: Option<seq<Listed>>, c: seq<nat>, catalog: map<int, Summary>)
    returns (v: Viewer)
    requires listing.Some? ==> IsCompletionOrder(c, |listing.value|)
    ensures fresh(v) && v.Valid() && !v.isLoading
    ensures CardsFor(v.nameMap, catalog, BatchOrdinals(FirstOffset)) == [] ==>
      v.cards == [] && v.offset == FirstOffset + Limit && !v.armed
    ensures CardsFor(v.nameMap, catalog, BatchOrdinals(FirstOffset)) != [] ==>
      && v.cards == CardsFor(v.nameMap, catalog, BatchOrdinals(FirstOffset))
                    + CardsFor(v.nameMap, catalog, BatchOrdinals(FirstOffset + Limit))
      && v.offset == FirstOffset + 2 * Limit && v.armed
  {
    v := new Viewer();
    v.Start(listing, c, catalog);
    v.LastCardVisible(catalog);
  }

  lemma {:induction false} CardsForSpec(m: NameMap, catalog: map<int, Summary>, ords: seq<int>)
    ensures |CardsFor(m, catalog, ords)| <= |ords|
    ensures forall card :: card in CardsFor(m, catalog, ords) ==>
      exists k :: 0 <= k < |ords| && CardFor(m, catalog, ords[k]) == Some(card)
    ensures forall k :: 0 <= k < |ords| && CardFor(m, catalog, ords[k]).Some? ==>
      CardFor(m, catalog, ords[k]).value in CardsFor(m, catalog, ords)
    decreases |ords|
  {
    if ords != [] {
      var front := ords[..|ords| - 1];
      CardsForSpec(m, catalog, front);
      forall k | 0 <= k < |front| ensures front[k] == ords[k] { }
    }
  }

  /** A card always shows the number the index holds for the key it
      captions; its English name is the card's own unless no key matched and
      the index happens to hold the key `undefined`. */
  lemma CardShowsIndexEntry(m: NameMap, catalog: map<int, Summary>, i: int)
    requires CardFor(m, catalog, i).Some?
    ensures i in catalog && CardFor(m, catalog, i).value.dataName == catalog[i].name
    ensures CardFor(m, catalog, i).value.koreanName in m.table
    ensures CardFor(m, catalog, i).value.number == m.table[CardFor(m, catalog, i).value.koreanName].number
    ensures m.table[CardFor(m, catalog, i).value.koreanName].englishName == catalog[i].name
      || (CardFor(m, catalog, i).value.koreanName == UndefinedText && ReverseLookup(m, catalog[i].name).None?)
  {
  }

  /** On the index the page builds, a card's caption is the Korean name of a
      listed species and its number that species' listing position plus one. */
  lemma CardFromSpecies(items: seq<Listed>, c: seq<nat>, catalog: map<int, Summary>, i: int)
    requires IsCompletionOrder(c, |items|)
    requires CardFor(SetAll(Empty(), Writes(items, c, KoreanKeyed)), catalog, i).Some?
    ensures var card := CardFor(SetAll(Empty(), Writes(items, c, KoreanKeyed)), catalog, i).value;
      exists j :: 0 <= j < |items| && KoreanNameAt(items, j) == Some(card.koreanName) && card.number == j + 1
        && (items[j].record.value.name == card.dataName || card.koreanName == UndefinedText)
  {
    var m := SetAll(Empty(), Writes(items, c, KoreanKeyed));
    KoreanIndex(items, c);
    CardShowsIndexEntry(m, catalog, i);
  }

  /** With distinct English names in a valid index, the reverse lookup finds a
      key exactly when that key's entry has the English name. */
  lemma ReverseLookupExact(m: NameMap, english: string, k: string)
    requires OrderedMaps.Valid(m)
    requires forall k1, k2 :: k1 in m.table && k2 in m.table && m.table[k1].englishName == m.table[k2].englishName ==> k1 == k2
    ensures ReverseLookup(m, english) == Some(k) <==> k in m.table && m.table[k].englishName == english
  {
    if k in m.table && m.table[k].englishName == english {
      var j :| 0 <= j < |m.keys| && m.keys[j] == k;
      assert MatchesAt(m, english, j);
    }
  }

  /** Scrolling to the end fetches every number from 1 to 799 exactly once,
      in ascending order; the batches past 799 fetch nothing. */
  lemma {:induction false} SessionIsInterval(offset: int)
    ensures Session(offset) == Interval(offset, LastOrdinal + 1)
    decreases ReArmBound - offset
  {
    if offset + Limit <= ReArmBound {
      SessionIsInterval(offset + Limit);
      if offset + Limit <= LastOrdinal + 1 {
        IntervalAppend(offset, offset + Limit, LastOrdinal + 1);
      } else {
        assert Interval(offset + Limit, LastOrdinal + 1) == [];
      }
    } else {
      assert BatchOrdinals(offset) == [];
    }
  }

  /** The cursor leaves the range of numbers after 40 batches, yet the
      sentinel is re-armed for 11 more (cursor 801 to 1001), each fetching nothing. */
  lemma EmptyBatchesPast799(k: int)
    requires 40 <= k <= 50
    ensures FirstOffset + k * Limit <= ReArmBound
    ensures BatchOrdinals(FirstOffset + k * Limit) == []
  {
  }

  /** What the viewer has fetched is always a prefix of the full session. */
  lemma VisitedIsSessionPrefix(v: Viewer)
    requires v.Valid()
    ensures |v.visited| <= |Session(FirstOffset)|
    ensures v.visited == Session(FirstOffset)[..|v.visited|]
  {
    SessionIsInterval(FirstOffset);
  }

  /** `trim().toLowerCase()` of the search box. */
  function Normalize(input: string): string
  {
    AsciiLower(Trim(input))
  }

  /** script2.js:109-121 as written: `nameMap[input.trim().toLowerCase()]`;
      the English name to open, or `None` for the "not found" alert. */
  function SearchAsWritten(m: NameMap, input: string): (r: Option<string>)
    ensures r.Some? <==> Normalize(input) in m.table
    ensures r.Some? ==> r.value == m.table[Normalize(input)].englishName
  {
    var q := Normalize(input);
    if q in m.table then Some(m.table[q].englishName) else None
  }

  /** Surrounding whitespace and ASCII letter case of the input do not matter. */
  lemma {:induction false} NormalizeIgnoresPaddingAndCase(p: string, s: string, q: string, t: string)
    requires IsBlank(p) && IsBlank(q)
    requires AsciiLower(s) == AsciiLower(t)
    ensures Normalize(p + s + q) == Normalize(t)
  {
    TrimIgnoresPadding(p, s, q);
    TrimLowerCommute(s);
    TrimLowerCommute(t);
  }

  /** The key written in an input never contains an ASCII capital, so a
      Korean name with one, such as "폴리곤Z", cannot be found by any input. */
  lemma CapitalisedKeyUnreachable(k: string, input: string, i: int)
    requires 0 <= i < |k| && 'A' <= k[i] <= 'Z'
    ensures Normalize(input) != k
  {
  }

  lemma PorygonZNotFound()
    ensures SearchAsWritten(Set(Empty(), "폴리곤Z", IndexEntry("porygon-z", 474, "폴리곤Z")), "폴리곤Z").None?
  {
    CapitalisedKeyUnreachable("폴리곤Z", "폴리곤Z", 3);
  }

  /** Key `j` lower-cases to the query. */
  predicate FoldsAt(m: NameMap, q: string, j: int)
  {
    0 <= j < |m.keys| && m.keys[j] in m.table && AsciiLower(m.keys[j]) == q
  }

  function FindFolded(m: NameMap, q: string, j: nat): (r: Option<nat>)
    requires j <= |m.keys|
    ensures r.None? ==> forall j' :: j <= j' < |m.keys| ==> !FoldsAt(m, q, j')
    ensures r.Some? ==> j <= r.value && FoldsAt(m, q, r.value)
    ensures r.Some? ==> forall j' :: j <= j' < r.value ==> !FoldsAt(m, q, j')
    decreases |m.keys| - j
  {
    if j == |m.keys| then None
    else if FoldsAt(m, q, j) then Some(j)
    else FindFolded(m, q, j + 1)
  }

  /** The search as intended: the first key, in insertion order, that
      lower-cases to the normalised input. */
  function SearchPokemon(m: NameMap, input: string): (r: Option<string>)
    ensures r.None? <==> forall j :: 0 <= j < |m.keys| ==> !FoldsAt(m, Normalize(input), j)
  {
    match FindFolded(m, Normalize(input), 0)
    case None => None
    case Some(j) => Some(m.table[m.keys[j]].englishName)
  }

  /** Every Korean name in the index is found by typing it, and when no other
      key differs from it only in ASCII case the entry found is its own. */
  lemma SearchFindsEveryKey(m: NameMap, k: string)
    requires OrderedMaps.Valid(m) && k in m.table && Trim(k) == k
    ensures SearchPokemon(m, k).Some?
    ensures (forall k' :: k' in m.table && AsciiLower(k') == AsciiLower(k) ==> k' == k) ==>
      SearchPokemon(m, k) == Some(m.table[k].englishName)
  {
    var q := Normalize(k);
    assert q == AsciiLower(k);
    var j :| 0 <= j < |m.keys| && m.keys[j] == k;
    assert FoldsAt(m, q, j);
    var found := FindFolded(m, q, 0);
    if forall k' :: k' in m.table && AsciiLower(k') == AsciiLower(k) ==> k' == k {
      assert m.keys[found.value] == k;
    }
  }

  /** On an index whose keys have no ASCII capitals, the intended search and
      the search as written agree. */
  lemma SearchAgreesOnLowerKeys(m: NameMap, input: string)
    requires OrderedMaps.Valid(m)
    requires forall k :: k in m.table ==> AsciiLower(k) == k
    ensures SearchPokemon(m, input) == SearchAsWritten(m, input)
  {
    var q := Normalize(input);
    if q in m.table {
      var j :| 0 <= j < |m.keys| && m.keys[j] == q;
      assert FoldsAt(m, q, j);
    }
  }
}

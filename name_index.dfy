/** Building the name index (`fetchPokemonNames`) from the bulk species listing.

    The script fetches every listed species record concurrently; each
    callback writes its entry into the shared map when its own fetch
    settles, so map insertion order is completion order. The model takes
    that completion order as a parameter `c`: `c[j]` is the listing position
    whose callback ran j-th. Two variants exist:
    - script2.js keys an entry by the species' first Korean name and writes
      nothing for a species without one;
    - script.js keys an entry by the listing name and writes for every species. */
module NameIndex {
  import opened Wrappers
  import opened Api
  import opened OrderedMaps

  /** `{englishName, number, koreanName}`. */
  datatype IndexEntry = IndexEntry(englishName: string, number: int, koreanName: string)

  type NameMap = OrderedMap<IndexEntry>

  /** A species of the bulk listing (`results[i].name`) with the outcome of fetching its record. */
  datatype Listed = Listed(name: string, record: Option<SpeciesRecord>)

  datatype Variant = KoreanKeyed | ListingKeyed

  /** Every listing position's callback runs exactly once. */
  ghost predicate IsCompletionOrder(c: seq<nat>, n: nat)
  {
    && |c| == n
    && (forall j :: 0 <= j < |c| ==> c[j] < n)
    && (forall i :: 0 <= i < n ==> i in c)
    && (forall j, j' :: 0 <= j < j' < |c| ==> c[j] != c[j'])
  }

  /** The first Korean name of the species at listing position `i`, if its record was fetched and has one. */
  function KoreanNameAt(items: seq<Listed>, i: nat): Option<string>
    requires i < |items|
  {
    match items[i].record
    case None => None
    case Some(rec) =>
      match FindLanguage(rec.names, Korean)
      case None => None
      case Some(entry) => Some(entry.name)
  }

  /** The map write, `(key, entry)`, made by the callback of listing position `i`. */
  function WriteFor(items: seq<Listed>, i: nat, v: Variant): Option<(string, IndexEntry)>
    requires i < |items|
  {
    match items[i].record
    case None => None
    case Some(rec) =>
      match v
      case ListingKeyed => Some((items[i].name, IndexEntry(rec.name, i + 1, rec.name)))
      case KoreanKeyed =>
        match KoreanNameAt(items, i)
        case None => None
        case Some(ko) => Some((ko, IndexEntry(rec.name, i + 1, ko)))
  }

  predicate InRange(c: seq<nat>, n: nat)
  {
    forall j :: 0 <= j < |c| ==> c[j] < n
  }

  /** The steps of all callbacks, in completion order: step `j` is the write
      made by the callback of listing position `c[j]`. */
  function Writes(items: seq<Listed>, c: seq<nat>, v: Variant): seq<Option<(string, IndexEntry)>>
    requires InRange(c, |items|)
  {
    seq(|c|, j requires 0 <= j < |c| => WriteFor(items, c[j], v))
  }

  /** The index built from an empty map: every entry was written by the
      callback of some listing position, and every callback that writes
      leaves its key in the index. */
  lemma BuiltIndex(items: seq<Listed>, c: seq<nat>, v: Variant)
    requires IsCompletionOrder(c, |items|)
    ensures Valid(SetAll(Empty(), Writes(items, c, v)))
    ensures forall k :: k in SetAll(Empty(), Writes(items, c, v)).table ==>
      exists i :: 0 <= i < |items| && WriteFor(items, i, v) == Some((k, SetAll(Empty(), Writes(items, c, v)).table[k]))
    ensures forall i :: 0 <= i < |items| && WriteFor(items, i, v).Some? ==>
      WriteFor(items, i, v).value.0 in SetAll(Empty(), Writes(items, c, v)).table
  {
    var ws := Writes(items, c, v);
    var r := SetAll(Empty(), ws);
    SetAllValid(Empty(), ws);
    forall k | k in r.table
      ensures exists i :: 0 <= i < |items| && WriteFor(items, i, v) == Some((k, r.table[k]))
    {
      SetAllAt(Empty(), ws, k);
      var p :| LastWriteAt(ws, k, p);
      assert WriteFor(items, c[p], v) == Some((k, r.table[k]));
    }
    forall i | 0 <= i < |items| && WriteFor(items, i, v).Some?
      ensures WriteFor(items, i, v).value.0 in r.table
    {
      assert i in c;
      var j :| 0 <= j < |c| && c[j] == i;
      assert WrittenAt(ws, ws[j].value.0, j);
      SetAllAt(Empty(), ws, ws[j].value.0);
    }
  }

  /** script2.js:25-39. Every entry is keyed by the first Korean name of some
      listed species and numbered with that species' 1-based listing position,
      so a species skipped for lacking a Korean name leaves a gap and shifts
      no other number; every species that has a Korean name is indexed. */
  lemma KoreanIndex(items: seq<Listed>, c: seq<nat>)
    requires IsCompletionOrder(c, |items|)
    ensures Valid(SetAll(Empty(), Writes(items, c, KoreanKeyed)))
    ensures forall k :: k in SetAll(Empty(), Writes(items, c, KoreanKeyed)).table ==>
      exists i :: 0 <= i < |items| && KoreanNameAt(items, i) == Some(k)
        && SetAll(Empty(), Writes(items, c, KoreanKeyed)).table[k] == IndexEntry(items[i].record.value.name, i + 1, k)
    ensures forall i :: 0 <= i < |items| && KoreanNameAt(items, i).Some? ==>
      KoreanNameAt(items, i).value in SetAll(Empty(), Writes(items, c, KoreanKeyed)).table
    ensures forall i :: 0 <= i < |items| && KoreanNameAt(items, i).None? ==>
      forall k :: k in SetAll(Empty(), Writes(items, c, KoreanKeyed)).table ==>
        SetAll(Empty(), Writes(items, c, KoreanKeyed)).table[k].number != i + 1
  {
    var r := SetAll(Empty(), Writes(items, c, KoreanKeyed));
    BuiltIndex(items, c, KoreanKeyed);
    forall k | k in r.table
      ensures exists i :: (0 <= i < |items| && KoreanNameAt(items, i) == Some(k)
                           && r.table[k] == IndexEntry(items[i].record.value.name, i + 1, k))
    {
      var i :| 0 <= i < |items| && WriteFor(items, i, KoreanKeyed) == Some((k, r.table[k]));
      assert KoreanNameAt(items, i) == Some(k);
    }
    forall i | 0 <= i < |items| && KoreanNameAt(items, i).Some?
      ensures KoreanNameAt(items, i).value in r.table
    {
      assert WriteFor(items, i, KoreanKeyed).value.0 == KoreanNameAt(items, i).value;
    }
  }

  /** With distinct Korean names, the entry of each species with a Korean name
      is exactly `{englishName: record name, number: position + 1, koreanName}`. */
  lemma KoreanIndexExact(items: seq<Listed>, c: seq<nat>)
    requires IsCompletionOrder(c, |items|)
    requires forall i, i' :: 0 <= i < i' < |items| && KoreanNameAt(items, i).Some? ==> KoreanNameAt(items, i) != KoreanNameAt(items, i')
    ensures forall i :: 0 <= i < |items| && KoreanNameAt(items, i).Some? ==>
      var k := KoreanNameAt(items, i).value;
      k in SetAll(Empty(), Writes(items, c, KoreanKeyed)).table
      && SetAll(Empty(), Writes(items, c, KoreanKeyed)).table[k] == IndexEntry(items[i].record.value.name, i + 1, k)
  {
    var r := SetAll(Empty(), Writes(items, c, KoreanKeyed));
    KoreanIndex(items, c);
    forall i | 0 <= i < |items| && KoreanNameAt(items, i).Some?
      ensures KoreanNameAt(items, i).value in r.table
      ensures r.table[KoreanNameAt(items, i).value] == IndexEntry(items[i].record.value.name, i + 1, KoreanNameAt(items, i).value)
    {
      var k := KoreanNameAt(items, i).value;
      var i' :| 0 <= i' < |items| && KoreanNameAt(items, i') == Some(k)
        && r.table[k] == IndexEntry(items[i'].record.value.name, i' + 1, k);
      assert i' == i;
    }
  }

  /** script.js:46-56. Every species whose record was fetched is indexed under
      its listing name; each entry carries the record's name as both
      `englishName` and `koreanName` and the 1-based listing position. */
  lemma ListingIndex(items: seq<Listed>, c: seq<nat>)
    requires IsCompletionOrder(c, |items|)
    ensures Valid(SetAll(Empty(), Writes(items, c, ListingKeyed)))
    ensures forall k :: k in SetAll(Empty(), Writes(items, c, ListingKeyed)).table ==>
      exists i :: 0 <= i < |items| && items[i].name == k && items[i].record.Some?
        && SetAll(Empty(), Writes(items, c, ListingKeyed)).table[k]
           == IndexEntry(items[i].record.value.name, i + 1, items[i].record.value.name)
    ensures forall i :: 0 <= i < |items| && items[i].record.Some? ==>
      items[i].name in SetAll(Empty(), Writes(items, c, ListingKeyed)).table
  {
    var r := SetAll(Empty(), Writes(items, c, ListingKeyed));
    BuiltIndex(items, c, ListingKeyed);
    forall i | 0 <= i < |items| && items[i].record.Some?
      ensures items[i].name in r.table
    {
      assert WriteFor(items, i, ListingKeyed).Some?;
    }
  }

  /** With distinct listing names (as the API's are), each fetched species'
      entry is exactly the one its own callback wrote. */
  lemma ListingIndexExact(items: seq<Listed>, c: seq<nat>)
    requires IsCompletionOrder(c, |items|)
    requires forall i, i' :: 0 <= i < i' < |items| ==> items[i].name != items[i'].name
    ensures forall i :: 0 <= i < |items| && items[i].record.Some? ==>
      items[i].name in SetAll(Empty(), Writes(items, c, ListingKeyed)).table
      && SetAll(Empty(), Writes(items, c, ListingKeyed)).table[items[i].name].number == i + 1
  {
    ListingIndex(items, c);
  }

  /** The callbacks run one after the other in completion order, each writing
      its species' entry: under its listing name (script.js:46-56), or under
      its first Korean name, skipping a species without one (script2.js:25-40).
      A failed species fetch writes nothing. */
  method BuildIndex(base: NameMap, items: seq<Listed>, c: seq<nat>, v: Variant) returns (index: NameMap)
    requires Valid(base)
    requires IsCompletionOrder(c, |items|)
    ensures Valid(index)
    ensures index == SetAll(base, Writes(items, c, v))
  {
    index := base;
    var j := 0;
    while j < |c|
      invariant 0 <= j <= |c|
      invariant InRange(c[..j], |items|)
      invariant Valid(index)
      invariant index == SetAll(base, Writes(items, c[..j], v))
    {
      var i := c[j];
      var write: Option<(string, IndexEntry)> := None;
      if items[i].record.Some? {
        var rec := items[i].record.value;
        if v == ListingKeyed {
          write := Some((items[i].name, IndexEntry(rec.name, i + 1, rec.name)));
        } else {
          var ko := FindLanguage(rec.names, Korean);
          if ko.Some? {
            write := Some((ko.value.name, IndexEntry(rec.name, i + 1, ko.value.name)));
          }
        }
      }
      assert write == WriteFor(items, i, v);
      WritesStep(base, items, c, j, v);
      if write.Some? {
        SetValid(index, write.value.0, write.value.1);
        index := Set(index, write.value.0, write.value.1);
      }
      j := j + 1;
    }
    assert c[..j] == c;
  }

  /** One more callback adds its own write to the run. */
  lemma WritesStep(base: NameMap, items: seq<Listed>, c: seq<nat>, j: int, v: Variant)
    requires 0 <= j < |c| && InRange(c, |items|)
    ensures InRange(c[..j], |items|) && InRange(c[..j + 1], |items|)
    ensures SetAll(base, Writes(items, c[..j + 1], v)) ==
      Step(SetAll(base, Writes(items, c[..j], v)), WriteFor(items, c[j], v))
  {
    var ws := Writes(items, c[..j + 1], v);
    assert ws[..j] == Writes(items, c[..j], v);
    assert ws[j] == WriteFor(items, c[j], v);
  }
}

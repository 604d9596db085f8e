/** The learnable-move lists of the detail views. All three scripts read the
    level from the first `sword-shield`/`level-up` entry of a move's
    `version_group_details`; they differ in what they keep and how they order:
    - script2.js fetches every move record concurrently (`Promise.all`, which
      keeps input order), keeps levels up to 99 and sorts stably by level,
      keeping duplicates;
    - script.js fetches sequentially into a `Map` keyed by the move's API
      name, so a later move of the same name overwrites the level in place,
      and then sorts the entries stably by level;
    - details.js fetches sequentially and lists every move that has a matching
      entry, in input order, with no cap, no deduplication and no sort. */
module Moves {
  import opened Wrappers
  import opened Api
  import opened OrderedMaps

  const UnknownMove: string := "알 수 없는 기술"
  const MaxLevel: int := 99

  datatype LevelledMove = LevelledMove(name: string, level: int)

  /** `getKoreanMoveName`: the first Korean name, or the "unknown move" text. */
  function MoveDisplayName(names: seq<LocalName>): string
  {
    match FindLanguage(names, Korean)
    case None => UnknownMove
    case Some(entry) => entry.name
  }

  /** A move with no Korean name shows the "unknown move" text; otherwise it
      shows its first Korean name. */
  lemma MoveDisplayNameSpec(names: seq<LocalName>)
    ensures (forall i :: 0 <= i < |names| ==> names[i].language != Korean) ==> MoveDisplayName(names) == UnknownMove
    ensures forall i :: FirstInLanguage(names, Korean, i) ==> MoveDisplayName(names) == names[i].name
  {
    FindLanguageSpec(names, Korean);
  }

  // ---------------------------------------------------------------------
  // Stable sort by level: `list.sort((a, b) => a.level - b.level)`

  predicate SortedByLevel(s: seq<LevelledMove>)
  {
    forall i, j :: 0 <= i < j < |s| ==> s[i].level <= s[j].level
  }

  /** The moves of `s` at level `L`, in order. */
  function AtLevel(s: seq<LevelledMove>, L: int): seq<LevelledMove>
  {
    if s == [] then []
    else (if s[0].level == L then [s[0]] else []) + AtLevel(s[1..], L)
  }

  /** Places `x` before the first move whose level is not below its own. */
  function Insert(x: LevelledMove, t: seq<LevelledMove>): seq<LevelledMove>
  {
    if t == [] || x.level <= t[0].level then [x] + t
    else [t[0]] + Insert(x, t[1..])
  }

  /** `Array.prototype.sort` with a numeric comparator, which is stable:
      the result is ordered by level, holds the same moves, and moves of
      equal level keep their relative order. */
  function SortByLevel(s: seq<LevelledMove>): (r: seq<LevelledMove>)
    ensures SortedByLevel(r)
    ensures multiset(r) == multiset(s)
    ensures forall L :: AtLevel(r, L) == AtLevel(s, L)
  {
    if s == [] then []
    else
      var t := SortByLevel(s[1..]);
      InsertSpec(s[0], t, s[1..]);
      assert s == [s[0]] + s[1..];
      Insert(s[0], t)
  }

  /** Inserting into the sorted form of `rest` gives a sorted form of `[x] + rest`. */
  lemma InsertSpec(x: LevelledMove, t: seq<LevelledMove>, rest: seq<LevelledMove>)
    requires SortedByLevel(t) && multiset(t) == multiset(rest)
    requires forall L :: AtLevel(t, L) == AtLevel(rest, L)
    ensures SortedByLevel(Insert(x, t)) && multiset(Insert(x, t)) == multiset([x] + rest)
    ensures forall L :: AtLevel(Insert(x, t), L) == AtLevel([x] + rest, L)
  {
    InsertSorted(x, t);
    InsertPerm(x, t);
    forall L ensures AtLevel(Insert(x, t), L) == AtLevel([x] + rest, L) {
      InsertStable(x, t, L);
      assert ([x] + t)[1..] == t;
      assert ([x] + rest)[1..] == rest;
    }
  }

  lemma {:induction false} InsertPerm(x: LevelledMove, t: seq<LevelledMove>)
    ensures multiset(Insert(x, t)) == multiset([x]) + multiset(t)
  {
    if t != [] && x.level > t[0].level {
      InsertPerm(x, t[1..]);
      assert t == [t[0]] + t[1..];
    }
  }

  lemma {:induction false} InsertSorted(x: LevelledMove, t: seq<LevelledMove>)
    requires SortedByLevel(t)
    ensures SortedByLevel(Insert(x, t))
  {
    if t != [] && x.level > t[0].level {
      var tail := t[1..];
      var rest := Insert(x, tail);
      assert SortedByLevel(tail) by {
        forall a, b | 0 <= a < b < |tail| ensures tail[a].level <= tail[b].level {
          assert tail[a] == t[a + 1] && tail[b] == t[b + 1];
        }
      }
      InsertSorted(x, tail);
      assert forall j :: 0 <= j < |tail| ==> t[0].level <= tail[j].level by {
        forall j | 0 <= j < |tail| ensures t[0].level <= tail[j].level {
          assert tail[j] == t[j + 1];
        }
      }
      InsertLowerBound(x, tail, t[0].level);
      var u := [t[0]] + rest;
      forall a, b | 0 <= a < b < |u| ensures u[a].level <= u[b].level {
        assert u[b] == rest[b - 1];
        if a > 0 {
          assert u[a] == rest[a - 1];
        }
      }
    }
  }

  /** Inserting a move no lower than a bound into moves no lower than it
      keeps every move no lower than it. */
  lemma {:induction false} InsertLowerBound(x: LevelledMove, t: seq<LevelledMove>, lo: int)
    requires lo <= x.level
    requires forall j :: 0 <= j < |t| ==> lo <= t[j].level
    ensures forall j :: 0 <= j < |Insert(x, t)| ==> lo <= Insert(x, t)[j].level
  {
    if t != [] && x.level > t[0].level {
      var tail := t[1..];
      assert forall j :: 0 <= j < |tail| ==> tail[j] == t[j + 1];
      InsertLowerBound(x, tail, lo);
      var u := [t[0]] + Insert(x, tail);
      assert forall j :: 1 <= j < |u| ==> u[j] == Insert(x, tail)[j - 1];
    }
  }

  lemma {:induction false} InsertStable(x: LevelledMove, t: seq<LevelledMove>, L: int)
    requires SortedByLevel(t)
    ensures AtLevel(Insert(x, t), L) == AtLevel([x] + t, L)
  {
    if t != [] && x.level > t[0].level {
      InsertStable(x, t[1..], L);
      assert ([x] + t)[1..] == t;
      assert ([x] + t[1..])[1..] == t[1..];
      assert ([t[0]] + Insert(x, t[1..]))[1..] == Insert(x, t[1..]);
    }
  }

  // ---------------------------------------------------------------------
  // script2.js: concurrent fetch, filter, stable sort, duplicates kept

  /** `{koreanMoveName, levelLearnedAt}` for one move. */
  datatype MoveDetail = MoveDetail(name: string, level: Option<int>)

  predicate AllFetched(slots: seq<MoveSlot>)
  {
    forall i :: 0 <= i < |slots| ==> slots[i].record.Some?
  }

  /** `Promise.all(moves.map(...))`: one detail per move in input order, or a
      rejection when any move record could not be fetched. */
  function CollectDetails(slots: seq<MoveSlot>): Option<seq<MoveDetail>>
  {
    if !AllFetched(slots) then None
    else Some(seq(|slots|, i requires 0 <= i < |slots| =>
      MoveDetail(MoveDisplayName(slots[i].record.value.names), LearnLevel(slots[i].details))))
  }

  predicate IsLearnable(d: MoveDetail)
  {
    d.level.Some? && d.level.value <= MaxLevel
  }

  /** Detail `d` is kept and listed as move `m`. */
  predicate Gives(d: MoveDetail, m: LevelledMove)
  {
    IsLearnable(d) && d == MoveDetail(m.name, Some(m.level))
  }

  /** `.filter(d => d.levelLearnedAt !== undefined && d.levelLearnedAt <= 99)`. */
  function Learnable(ds: seq<MoveDetail>): (r: seq<LevelledMove>)
    ensures |r| <= |ds|
    ensures forall m :: m in r <==> exists i :: 0 <= i < |ds| && Gives(ds[i], m)
  {
    if ds == [] then []
    else
      var rest := Learnable(ds[1..]);
      assert forall i :: 1 <= i < |ds| ==> ds[i] == ds[1..][i - 1];
      (if IsLearnable(ds[0]) then [LevelledMove(ds[0].name, ds[0].level.value)] else []) + rest
  }

  lemma {:induction false} LearnableAppend(a: seq<MoveDetail>, b: seq<MoveDetail>)
    ensures Learnable(a + b) == Learnable(a) + Learnable(b)
  {
    if a != [] {
      assert (a + b)[1..] == a[1..] + b;
      LearnableAppend(a[1..], b);
    } else {
      assert a + b == b;
    }
  }

  /** script2.js:185-220: the list rendered in the modal, or `None` when a
      move fetch rejected and nothing is rendered. */
  function ModalMoveList(slots: seq<MoveSlot>): Option<seq<LevelledMove>>
  {
    match CollectDetails(slots)
    case None => None
    case Some(ds) => Some(SortByLevel(Learnable(ds)))
  }

  /** Move `i` is fetched and is listed as `m` by script2.js: its first matching
      detail gives `m`'s level, which is at most 99, and `m`'s name is the move's Korean name. */
  predicate LearnableAt(slots: seq<MoveSlot>, i: int, m: LevelledMove)
  {
    && 0 <= i < |slots| && slots[i].record.Some?
    && LearnLevel(slots[i].details) == Some(m.level) && m.level <= MaxLevel
    && MoveDisplayName(slots[i].record.value.names) == m.name
  }

  /** The modal list exists iff every move record was fetched; it is ordered
      by level, stable, holds the learnable moves with their multiplicity
      (duplicates kept), and a move is in it iff some input move is learnable
      as that move. */
  lemma ModalMoveListSpec(slots: seq<MoveSlot>)
    ensures ModalMoveList(slots).Some? <==> AllFetched(slots)
    ensures ModalMoveList(slots).Some? ==>
      && SortedByLevel(ModalMoveList(slots).value)
      && multiset(ModalMoveList(slots).value) == multiset(Learnable(CollectDetails(slots).value))
      && (forall L :: AtLevel(ModalMoveList(slots).value, L) == AtLevel(Learnable(CollectDetails(slots).value), L))
    ensures ModalMoveList(slots).Some? ==>
      forall m :: m in ModalMoveList(slots).value <==> exists i :: LearnableAt(slots, i, m)
  {
    if AllFetched(slots) {
      var ds := CollectDetails(slots).value;
      var r := ModalMoveList(slots).value;
      assert forall i, m :: 0 <= i < |slots| ==> (LearnableAt(slots, i, m) <==> Gives(ds[i], m));
      forall m ensures m in r <==> m in Learnable(ds) {
        assert m in r <==> m in multiset(r);
        assert m in Learnable(ds) <==> m in multiset(Learnable(ds));
      }
    }
  }

  // ---------------------------------------------------------------------
  // script.js: sequential fetch into a Map keyed by move name

  /** The `uniqueMoves.set(name, level)` step of one loop iteration. */
  function MoveWrite(slot: MoveSlot): Option<(string, int)>
  {
    match slot.record
    case None => None
    case Some(rec) =>
      match LearnLevel(slot.details)
      case Some(level) => if level <= MaxLevel then Some((rec.name, level)) else None
      case None => None
  }

  function MoveWrites(slots: seq<MoveSlot>): seq<Option<(string, int)>>
  {
    seq(|slots|, i requires 0 <= i < |slots| => MoveWrite(slots[i]))
  }

  /** `[...uniqueMoves.entries()]` as moves. */
  function EntryMoves(m: OrderedMap<int>): seq<LevelledMove>
    requires Valid(m)
  {
    seq(|m.keys|, i requires 0 <= i < |m.keys| => LevelledMove(m.keys[i], m.table[m.keys[i]]))
  }

  function UniqueMoves(slots: seq<MoveSlot>): (m: OrderedMap<int>)
    ensures Valid(m)
  {
    SetAllValid(Empty(), MoveWrites(slots));
    SetAll(Empty(), MoveWrites(slots))
  }

  /** script.js:154-184: the rendered list, or `None` when a move fetch
      threw and the loop stopped before rendering anything. */
  function UniqueMoveList(slots: seq<MoveSlot>): Option<seq<LevelledMove>>
  {
    if !AllFetched(slots) then None
    else Some(SortByLevel(EntryMoves(UniqueMoves(slots))))
  }

  /** `fetchPokemonMoves` of script.js: the sequential loop filling the `Map`. */
  method AggregateMoves(slots: seq<MoveSlot>) returns (r: Option<seq<LevelledMove>>)
    ensures r == UniqueMoveList(slots)
  {
    var unique: OrderedMap<int> := Empty();
    var i := 0;
    while i < |slots| && slots[i].record.Some?
      invariant 0 <= i <= |slots|
      invariant unique == SetAll(Empty(), MoveWrites(slots[..i]))
      invariant forall j :: 0 <= j < i ==> slots[j].record.Some?
    {
      MoveWritesStep(slots, i);
      var rec := slots[i].record.value;
      var level := LearnLevel(slots[i].details);
      if level.Some? && level.value <= MaxLevel {
        unique := Set(unique, rec.name, level.value);
      }
      i := i + 1;
    }
    if i < |slots| {
      return None;
    }
    assert slots[..i] == slots;
    SetAllValid(Empty(), MoveWrites(slots));
    r := Some(SortByLevel(EntryMoves(unique)));
  }

  /** One more loop iteration adds its own step to the run of writes. */
  lemma MoveWritesStep(slots: seq<MoveSlot>, i: int)
    requires 0 <= i < |slots|
    ensures SetAll(Empty(), MoveWrites(slots[..i + 1]))
      == Step(SetAll(Empty(), MoveWrites(slots[..i])), MoveWrite(slots[i]))
  {
    var ws := MoveWrites(slots[..i + 1]);
    assert ws[..i] == MoveWrites(slots[..i]);
    assert ws[i] == MoveWrite(slots[i]);
  }

  /** Move `i` writes its name into the map: its record was fetched, it has a
      matching detail, and the level there is at most 99. */
  predicate WritesName(slots: seq<MoveSlot>, i: int, name: string)
  {
    0 <= i < |slots| && MoveWrite(slots[i]).Some? && MoveWrite(slots[i]).value.0 == name
  }

  /** Each name is listed at most once. */
  lemma UniqueMoveListOnePerName(slots: seq<MoveSlot>)
    requires AllFetched(slots)
    ensures forall i, j :: 0 <= i < j < |UniqueMoveList(slots).value| ==>
      UniqueMoveList(slots).value[i].name != UniqueMoveList(slots).value[j].name
  {
    var m := UniqueMoves(slots);
    var es := EntryMoves(m);
    assert forall a :: 0 <= a < |es| ==> es[a].name == m.keys[a];
    DistinctNamesPermuted(es, SortByLevel(es));
    assert UniqueMoveList(slots).value == SortByLevel(es);
  }

  /** Every name that some move writes is listed. */
  lemma UniqueMoveListCovers(slots: seq<MoveSlot>, i: int, n: string)
    requires AllFetched(slots)
    requires WritesName(slots, i, n)
    ensures exists p :: 0 <= p < |UniqueMoveList(slots).value| && UniqueMoveList(slots).value[p].name == n
  {
    var m := UniqueMoves(slots);
    var ws := MoveWrites(slots);
    var es := EntryMoves(m);
    var r := SortByLevel(es);
    assert WrittenAt(ws, n, i);
    SetAllAt(Empty(), ws, n);
    var q :| 0 <= q < |m.keys| && m.keys[q] == n;
    assert es[q] in multiset(r);
    var p :| 0 <= p < |r| && r[p] == es[q];
    assert UniqueMoveList(slots).value == r;
  }

  /** Every listed move shows the level written by the LAST move of its name
      (a move whose record was fetched, with a matching detail at level <= 99). */
  lemma UniqueMoveListLastLevel(slots: seq<MoveSlot>, p: int)
    requires AllFetched(slots)
    requires 0 <= p < |UniqueMoveList(slots).value|
    ensures exists i :: LastWriter(slots, i, UniqueMoveList(slots).value[p])
  {
    var m := UniqueMoves(slots);
    var ws := MoveWrites(slots);
    var es := EntryMoves(m);
    var r := SortByLevel(es);
    assert UniqueMoveList(slots).value == r;
    var n := r[p].name;
    assert r[p] in multiset(es);
    SetAllAt(Empty(), ws, n);
    var i :| LastWriteAt(ws, n, i);
    assert forall i' :: i < i' < |slots| ==> (WritesName(slots, i', n) <==> WrittenAt(ws, n, i'));
    assert LastWriter(slots, i, r[p]);
  }

  /** Move `i` is the last move that writes `x`'s name, and it writes `x`'s level. */
  predicate LastWriter(slots: seq<MoveSlot>, i: int, x: LevelledMove)
  {
    && WritesName(slots, i, x.name)
    && MoveWrite(slots[i]).value.1 == x.level
    && forall i' :: i < i' < |slots| ==> !WritesName(slots, i', x.name)
  }

  /** Distinct names stay distinct under any permutation. */
  lemma DistinctNamesPermuted(es: seq<LevelledMove>, r: seq<LevelledMove>)
    requires forall a, b :: 0 <= a < b < |es| ==> es[a].name != es[b].name
    requires multiset(r) == multiset(es)
    ensures forall i, j :: 0 <= i < j < |r| ==> r[i].name != r[j].name
  {
    AtMostOnce(es);
    forall i, j | 0 <= i < j < |r| ensures r[i].name != r[j].name {
      if r[i] == r[j] {
        RepeatCounted(r, i, j);
      } else {
        assert r[i] in multiset(es) && r[j] in multiset(es);
      }
    }
  }

  lemma RepeatCounted(r: seq<LevelledMove>, i: int, j: int)
    requires 0 <= i < j < |r| && r[i] == r[j]
    ensures multiset(r)[r[i]] >= 2
  {
    assert r == r[..j] + [r[j]] + r[j + 1..];
    assert r[i] in r[..j];
  }

  lemma {:induction false} AtMostOnce(es: seq<LevelledMove>)
    requires forall a, b :: 0 <= a < b < |es| ==> es[a].name != es[b].name
    ensures forall x :: multiset(es)[x] <= 1
  {
    if es != [] {
      var n := |es| - 1;
      AtMostOnce(es[..n]);
      assert es == es[..n] + [es[n]];
      assert es[n] !in es[..n];
    }
  }

  /** Moves of equal level are listed in the order their names were FIRST
      inserted into the map, whatever levels later moves of the same name wrote. */
  lemma UniqueMoveListTies(slots: seq<MoveSlot>, L: int)
    requires AllFetched(slots)
    ensures AtLevel(UniqueMoveList(slots).value, L) == AtLevel(EntryMoves(UniqueMoves(slots)), L)
    ensures forall i, j :: 0 <= i < j < |EntryMoves(UniqueMoves(slots))| ==>
      FirstWrite(MoveWrites(slots), EntryMoves(UniqueMoves(slots))[i].name)
        < FirstWrite(MoveWrites(slots), EntryMoves(UniqueMoves(slots))[j].name)
  {
    forall i, j | 0 <= i < j < |EntryMoves(UniqueMoves(slots))|
      ensures FirstWrite(MoveWrites(slots), EntryMoves(UniqueMoves(slots))[i].name)
        < FirstWrite(MoveWrites(slots), EntryMoves(UniqueMoves(slots))[j].name)
    {
      SetAllFirstInsertionOrder(Empty(), MoveWrites(slots), i, j);
    }
  }

  // ---------------------------------------------------------------------
  // details.js: sequential fetch, every matching move listed in input order

  /** The `<li>` items for moves whose records were all fetched: one per move
      with a matching detail, in input order. */
  function ListItems(slots: seq<MoveSlot>): seq<LevelledMove>
    decreases |slots|
  {
    if slots == [] then []
    else ListItems(slots[..|slots| - 1]) + ItemOf(slots[|slots| - 1])
  }

  /** The item one fetched move appends: its Korean name and the level of its
      first matching detail, when it has one. */
  function ItemOf(slot: MoveSlot): seq<LevelledMove>
  {
    if slot.record.Some? && LearnLevel(slot.details).Some? then
      [LevelledMove(MoveDisplayName(slot.record.value.names), LearnLevel(slot.details).value)]
    else []
  }

  /** How many leading moves had their records fetched before one failed. */
  function FetchedPrefix(slots: seq<MoveSlot>): (n: nat)
    ensures n <= |slots|
    ensures forall j :: 0 <= j < n ==> slots[j].record.Some?
    ensures n < |slots| ==> slots[n].record.None?
  {
    if slots == [] || slots[0].record.None? then 0
    else
      assert forall j :: 1 <= j < |slots| ==> slots[j] == slots[1..][j - 1];
      1 + FetchedPrefix(slots[1..])
  }

  /** details.js:67-92: the items appended, and whether a fetch threw and
      stopped the loop (the items appended before it stay in the list). */
  method ListMoves(slots: seq<MoveSlot>) returns (items: seq<LevelledMove>, aborted: bool)
    ensures items == ListItems(slots[..FetchedPrefix(slots)])
    ensures aborted <==> !AllFetched(slots)
  {
    items := [];
    var i := 0;
    while i < |slots| && slots[i].record.Some?
      invariant i <= |slots|
      invariant forall j :: 0 <= j < i ==> slots[j].record.Some?
      invariant items == ListItems(slots[..i])
    {
      ListItemsStep(slots, i);
      var rec := slots[i].record.value;
      var level := LearnLevel(slots[i].details);
      if level.Some? {
        items := items + [LevelledMove(MoveDisplayName(rec.names), level.value)];
      }
      i := i + 1;
    }
    FetchedPrefixIs(slots, i);
    aborted := i < |slots|;
  }

  lemma FetchedPrefixIs(slots: seq<MoveSlot>, i: nat)
    requires i <= |slots|
    requires forall j :: 0 <= j < i ==> slots[j].record.Some?
    requires i < |slots| ==> slots[i].record.None?
    ensures FetchedPrefix(slots) == i
    ensures i < |slots| <==> !AllFetched(slots)
  {
  }

  /** One more loop iteration appends its own item, if any. */
  lemma ListItemsStep(slots: seq<MoveSlot>, i: int)
    requires 0 <= i < |slots|
    ensures ListItems(slots[..i + 1]) == ListItems(slots[..i]) + ItemOf(slots[i])
  {
    assert slots[..i + 1][..i] == slots[..i];
  }

  /** Move `i` is listed as item `m`: its record was fetched and its first
      matching detail gives `m`'s level. */
  predicate ItemFor(slots: seq<MoveSlot>, i: int, m: LevelledMove)
  {
    0 <= i < |slots| && slots[i].record.Some? && LearnLevel(slots[i].details) == Some(m.level)
    && MoveDisplayName(slots[i].record.value.names) == m.name
  }

  /** The details.js list of a concatenation is the concatenation of the
      lists: every move is handled on its own, so repeated moves are listed
      again and nothing is sorted. */
  lemma {:induction false} ListItemsAppend(a: seq<MoveSlot>, b: seq<MoveSlot>)
    ensures ListItems(a + b) == ListItems(a) + ListItems(b)
    decreases |b|
  {
    if b == [] {
      assert a + b == a;
    } else {
      var n := |b| - 1;
      var front, last := b[..n], b[n];
      assert b == front + [last];
      assert a + b == (a + front) + [last];
      ListItemsAppend(a, front);
      ListItemsSnoc(a + front, last);
      ListItemsSnoc(front, last);
      var x, y, z := ListItems(a), ListItems(front), ItemOf(last);
      assert ListItems(a + b) == (x + y) + z;
      assert ListItems(b) == y + z;
      ConcatAssociative(x, y, z);
    }
  }

  lemma ConcatAssociative<T>(x: seq<T>, y: seq<T>, z: seq<T>)
    ensures (x + y) + z == x + (y + z)
  {
  }

  lemma ListItemsSnoc(s: seq<MoveSlot>, x: MoveSlot)
    ensures ListItems(s + [x]) == ListItems(s) + ItemOf(x)
  {
    assert (s + [x])[..|s|] == s;
  }

  /** Every item comes from a fetched move with a matching detail, and
      carries that detail's level with no cap. */
  lemma {:induction false} ListItemsSound(a: seq<MoveSlot>)
    ensures forall m :: m in ListItems(a) ==> exists i :: ItemFor(a, i, m)
    decreases |a|
  {
    if a != [] {
      var n := |a| - 1;
      var front := a[..n];
      ListItemsSound(front);
      assert ListItems(a) == ListItems(front) + ItemOf(a[n]);
      forall m | m in ListItems(a) ensures exists i :: ItemFor(a, i, m) {
        if m in ListItems(front) {
          var i :| ItemFor(front, i, m);
          assert front[i] == a[i];
          assert ItemFor(a, i, m);
        } else {
          assert m in ItemOf(a[n]);
          assert ItemFor(a, n, m);
        }
      }
    }
  }

  /** Every fetched move with a matching detail is listed, however many
      times its name occurs. */
  lemma {:induction false} ListItemsComplete(a: seq<MoveSlot>, i: int, m: LevelledMove)
    requires ItemFor(a, i, m)
    ensures m in ListItems(a)
    decreases |a|
  {
    var n := |a| - 1;
    assert ListItems(a) == ListItems(a[..n]) + ItemOf(a[n]);
    if i < n {
      assert ItemFor(a[..n], i, m) by {
        assert a[..n][i] == a[i];
      }
      ListItemsComplete(a[..n], i, m);
    } else {
      assert ItemOf(a[n]) == [m];
    }
  }
}

/** The parts of the remote API's JSON responses that the scripts read,
    as plain values, and the two `Array.prototype.find` searches they run
    over them. A fetch that rejects is `None` where a response is optional. */
module Api {
  import opened Wrappers

  /** An entry of a `names` array: `{name, language: {name}}`. */
  datatype LocalName = LocalName(name: string, language: string)

  /** A `/pokemon-species/{id}` response: `{name, names}`. */
  datatype SpeciesRecord = SpeciesRecord(name: string, names: seq<LocalName>)

  /** A `/move/{id}` response: `{name, names}`. */
  datatype MoveRecord = MoveRecord(name: string, names: seq<LocalName>)

  /** An entry of `version_group_details`:
      `{version_group: {name}, move_learn_method: {name}, level_learned_at}`. */
  datatype VersionDetail = VersionDetail(versionGroup: string, learnMethod: string, level: int)

  /** One entry of a `/pokemon/{id}` response's `moves`, together with the
      outcome of fetching the record its `move.url` points to. */
  datatype MoveSlot = MoveSlot(details: seq<VersionDetail>, record: Option<MoveRecord>)

  /** A `/pokemon/{id}` response: `{id, name, sprites.front_default, types, height, weight, moves}`.
      Height and weight stay in the API's integer decimetres and hectograms. */
  datatype PokemonRecord = PokemonRecord(
    id: int, name: string, sprite: string, types: seq<string>,
    height: int, weight: int, moves: seq<MoveSlot>)

  const Korean: string := "ko"
  const TargetVersionGroup: string := "sword-shield"
  const TargetLearnMethod: string := "level-up"

  /** `names.find(n => n.language.name === lang)`: the first entry in the
      given language, or `None` when there is none. */
  function FindLanguage(names: seq<LocalName>, lang: string): Option<LocalName>
  {
    if names == [] then None
    else if names[0].language == lang then Some(names[0])
    else FindLanguage(names[1..], lang)
  }

  /** The search finds nothing exactly when no entry is in the language, and
      otherwise the earliest entry in it. */
  lemma {:induction false} FindLanguageSpec(names: seq<LocalName>, lang: string)
    ensures FindLanguage(names, lang).None? <==> forall i :: 0 <= i < |names| ==> names[i].language != lang
    ensures FindLanguage(names, lang).Some? ==>
      exists i :: 0 <= i < |names| && names[i] == FindLanguage(names, lang).value && FirstInLanguage(names, lang, i)
  {
    if names != [] && names[0].language != lang {
      var tail := names[1..];
      FindLanguageSpec(tail, lang);
      assert forall i :: 1 <= i < |names| ==> names[i] == tail[i - 1];
      if FindLanguage(tail, lang).Some? {
        var i :| 0 <= i < |tail| && tail[i] == FindLanguage(tail, lang).value && FirstInLanguage(tail, lang, i);
        assert FirstInLanguage(names, lang, i + 1);
      }
    } else if names != [] {
      assert FirstInLanguage(names, lang, 0);
    }
  }

  predicate FirstInLanguage(names: seq<LocalName>, lang: string, i: int)
  {
    0 <= i < |names| && names[i].language == lang
    && forall j :: 0 <= j < i ==> names[j].language != lang
  }

  predicate IsTargetDetail(d: VersionDetail)
  {
    d.versionGroup == TargetVersionGroup && d.learnMethod == TargetLearnMethod
  }

  /** `version_group_details.find(d => d.version_group.name === "sword-shield"
      && d.move_learn_method.name === "level-up")?.level_learned_at`. */
  function LearnLevel(details: seq<VersionDetail>): Option<int>
  {
    if details == [] then None
    else if IsTargetDetail(details[0]) then Some(details[0].level)
    else LearnLevel(details[1..])
  }

  /** There is no level exactly when no detail is a `sword-shield` `level-up`
      one, and otherwise it is the level of the earliest such detail. */
  lemma {:induction false} LearnLevelSpec(details: seq<VersionDetail>)
    ensures LearnLevel(details).None? <==> forall i :: 0 <= i < |details| ==> !IsTargetDetail(details[i])
    ensures LearnLevel(details).Some? ==>
      exists i :: FirstTarget(details, i) && details[i].level == LearnLevel(details).value
  {
    if details != [] && !IsTargetDetail(details[0]) {
      var tail := details[1..];
      LearnLevelSpec(tail);
      assert forall i :: 1 <= i < |details| ==> details[i] == tail[i - 1];
      if LearnLevel(tail).Some? {
        var i :| FirstTarget(tail, i) && tail[i].level == LearnLevel(tail).value;
        assert FirstTarget(details, i + 1);
      }
    } else if details != [] {
      assert FirstTarget(details, 0);
    }
  }

  predicate FirstTarget(details: seq<VersionDetail>, i: int)
  {
    0 <= i < |details| && IsTargetDetail(details[i])
    && forall j :: 0 <= j < i ==> !IsTargetDetail(details[j])
  }
}

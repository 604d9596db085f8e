/** The Pokémon detail view: the title, the type tags and the measurements
    read from a `/pokemon/{id}` record. The Korean pages (script2.js, details.js)
    translate the title through a small name table (upper-casing names it
    lacks) and each type tag through an eighteen-entry type table (keeping
    tags it lacks); the English page (script.js) shows both raw. */
module Details {
  import opened Text
  import opened Api

  /** The display-name table of the Korean pages. */
  const NameTable: map<string, string> := map[
    "bulbasaur" := "이상해씨",
    "pikachu" := "피카츄",
    "charmander" := "파이리"
  ]

  /** The type table of the Korean pages: English type tag to Korean label. */
  const TypeTable: map<string, string> := map[
    "normal" := "노말",
    "fire" := "불꽃",
    "water" := "물",
    "grass" := "풀",
    "electric" := "전기",
    "ice" := "얼음",
    "fighting" := "격투",
    "poison" := "독",
    "ground" := "땅",
    "flying" := "비행",
    "psychic" := "에스퍼",
    "bug" := "벌레",
    "rock" := "바위",
    "ghost" := "고스트",
    "dragon" := "드래곤",
    "dark" := "악",
    "steel" := "강철",
    "fairy" := "페어리"
  ]

  /** The type table read backwards: Korean label to English type tag. */
  const LabelTable: map<string, string> := map[
    "노말" := "normal",
    "불꽃" := "fire",
    "물" := "water",
    "풀" := "grass",
    "전기" := "electric",
    "얼음" := "ice",
    "격투" := "fighting",
    "독" := "poison",
    "땅" := "ground",
    "비행" := "flying",
    "에스퍼" := "psychic",
    "벌레" := "bug",
    "바위" := "rock",
    "고스트" := "ghost",
    "드래곤" := "dragon",
    "악" := "dark",
    "강철" := "steel",
    "페어리" := "fairy"
  ]

  /** `nameTable[name] || name.toUpperCase()`: every table value is non-empty,
      so a listed name always takes its table value. */
  function DisplayName(name: string): (r: string)
    ensures name in NameTable ==> r == NameTable[name]
    ensures name !in NameTable ==> |r| == |name| && forall i :: 0 <= i < |r| ==> r[i] == UpperChar(name[i])
  {
    if name in NameTable then NameTable[name] else AsciiUpper(name)
  }

  /** `typeMap[tag] || tag`. */
  function TypeLabel(tag: string): string
  {
    if tag in TypeTable then TypeTable[tag] else tag
  }

  /** The type tags of a record, each translated, in the record's order. */
  function TypeLabels(tags: seq<string>): (r: seq<string>)
    ensures |r| == |tags|
    ensures forall i :: 0 <= i < |tags| ==> r[i] == TypeLabel(tags[i])
  {
    seq(|tags|, i requires 0 <= i < |tags| => TypeLabel(tags[i]))
  }

  /** Reading a label back to its tag. */
  function RawType(shown: string): string
  {
    if shown in LabelTable then LabelTable[shown] else shown
  }

  /** What the modal shows: the number, the title, the sprite, the type
      labels, and the height and weight in the API's decimetres and hectograms. */
  datatype DetailView = DetailView(
    number: int, title: string, sprite: string, types: seq<string>,
    heightDm: int, weightHg: int)

  /** The detail view of a record; `localised` selects the Korean pages'
      translations, otherwise name and tags are shown as the API gives them. */
  function View(rec: PokemonRecord, localised: bool): (v: DetailView)
    ensures v.number == rec.id && v.sprite == rec.sprite
    ensures v.heightDm == rec.height && v.weightHg == rec.weight
    ensures |v.types| == |rec.types|
    ensures !localised ==> v.title == rec.name && v.types == rec.types
    ensures localised ==> v.title == DisplayName(rec.name) && v.types == TypeLabels(rec.types)
  {
    if localised then
      DetailView(rec.id, DisplayName(rec.name), rec.sprite, TypeLabels(rec.types), rec.height, rec.weight)
    else
      DetailView(rec.id, rec.name, rec.sprite, rec.types, rec.height, rec.weight)
  }

  /** A name outside the table is upper-cased, and lower-casing the title gives
      the API's (lower-case) name back. */
  lemma {:induction false} DisplayNameRecoversName(name: string)
    requires name !in NameTable
    requires AsciiLower(name) == name
    ensures AsciiLower(DisplayName(name)) == name
  {
    UpperThenLower(name);
  }

  /** The type table and the label table are inverse to each other: no two
      tags share a label. */
  lemma TablesInverse()
    ensures forall t :: t in TypeTable ==> TypeTable[t] in LabelTable && LabelTable[TypeTable[t]] == t
  {
  }

  /** Translating a tag loses nothing: a known tag, or an unknown one that is
      not itself a Korean label, is read back from its label. */
  lemma TypeLabelRoundTrip(tag: string)
    requires tag in TypeTable || tag !in LabelTable
    ensures RawType(TypeLabel(tag)) == tag
  {
    TablesInverse();
  }

  /** The Korean pages show the same type tags as the English page, in the same
      order and number, only translated. */
  lemma {:induction false} LocalisedTypesRecoverRaw(rec: PokemonRecord)
    requires forall i :: 0 <= i < |rec.types| ==> rec.types[i] in TypeTable || rec.types[i] !in LabelTable
    ensures |View(rec, true).types| == |View(rec, false).types|
    ensures forall i :: 0 <= i < |rec.types| ==> RawType(View(rec, true).types[i]) == View(rec, false).types[i]
  {
    forall i | 0 <= i < |rec.types| ensures RawType(View(rec, true).types[i]) == rec.types[i] {
      TypeLabelRoundTrip(rec.types[i]);
    }
  }
}

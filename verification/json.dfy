/**
  Decoded JSON as the PHP normalizers see it, with PHP's reading rules:
  an absent key reads as null, `??` replaces null by a default, and
  `if ($x)` tests PHP truthiness. Objects are maps: the key order that the
  PHP arrays keep is not modelled.
 */
module Json {
  import opened Wrappers

  /**
    A member name of a wire object. Every name a codec of this model reads
    or writes is a constructor (`KeyName` gives its spelling on the wire);
    any other name is `Other(name)`, whose `name` is none of those.
   */
  datatype Key =
    | Type | Id | Date | Discriminator | Authors | AuthorsEtAl | ArticleTitle | Source
    | Doi | Uri | Author | Title | Publisher | Name | Address
    | BookTitle | Editors | EditorsEtAl | Volume | Edition | Pmid | Isbn
    | Inventors | InventorsEtAl | Assignees | AssigneesEtAl | PatentType | Country | Number
    | Version
    | Image | Label | Caption | Attribution | SourceData | Supplements
    | Published | ImpactStatement | Content | Subjects
    | Updated | Thumbnail | Banner | Sources | MediaType | Chapters | Time
    | Other(name: string)

  /** The spelling of a key on the wire. */
  function KeyName(k: Key): string {
    match k
    case Type => "type"
    case Id => "id"
    case Date => "date"
    case Discriminator => "discriminator"
    case Authors => "authors"
    case AuthorsEtAl => "authorsEtAl"
    case ArticleTitle => "articleTitle"
    case Source => "source"
    case Doi => "doi"
    case Uri => "uri"
    case Author => "author"
    case Title => "title"
    case Publisher => "publisher"
    case Name => "name"
    case Address => "address"
    case BookTitle => "bookTitle"
    case Editors => "editors"
    case EditorsEtAl => "editorsEtAl"
    case Volume => "volume"
    case Edition => "edition"
    case Pmid => "pmid"
    case Isbn => "isbn"
    case Inventors => "inventors"
    case InventorsEtAl => "inventorsEtAl"
    case Assignees => "assignees"
    case AssigneesEtAl => "assigneesEtAl"
    case PatentType => "patentType"
    case Country => "country"
    case Number => "number"
    case Version => "version"
    case Image => "image"
    case Label => "label"
    case Caption => "caption"
    case Attribution => "attribution"
    case SourceData => "sourceData"
    case Supplements => "supplements"
    case Published => "published"
    case ImpactStatement => "impactStatement"
    case Content => "content"
    case Subjects => "subjects"
    case Updated => "updated"
    case Thumbnail => "thumbnail"
    case Banner => "banner"
    case Sources => "sources"
    case MediaType => "mediaType"
    case Chapters => "chapters"
    case Time => "time"
    case Other(name) => name
  }

  datatype Json =
    | JNull
    | JBool(b: bool)
    | JInt(i: int)
    | JStr(s: string)
    | JArr(items: seq<Json>)
    | JObj(fields: map<Key, Json>)

  type Object = map<Key, Json>

  /** The two strings PHP treats as false: "" and "0". */
  predicate FalsyString(s: string) {
    |s| == 0 || (|s| == 1 && s[0] == '0')
  }

  /** PHP truthiness of a decoded JSON value (`if ($x)`, `array_filter`). */
  predicate Truthy(j: Json) {
    match j
    case JNull => false
    case JBool(b) => b
    case JInt(i) => i != 0
    case JStr(s) => !FalsyString(s)
    case JArr(a) => |a| > 0
    case JObj(m) => |m| > 0
  }

  /** An optional string that survives an `if ($x)` guard: absent, or truthy. */
  predicate KeptString(v: Option<string>) {
    v.None? || !FalsyString(v.value)
  }

  /** What an `if ($x)` guard lets through of an optional string: a falsy one is lost. */
  function Kept(v: Option<string>): (w: Option<string>)
    ensures KeptString(w)
    ensures KeptString(v) <==> w == v
  {
    if v.Some? && FalsyString(v.value) then None else v
  }

  /** What an `if ($x)` guard lets through of an optional integer: 0 is lost. */
  function KeptNumber(v: Option<int>): (w: Option<int>)
    ensures w.None? || w.value != 0
    ensures (v.None? || v.value != 0) <==> w == v
  {
    if v.Some? && v.value == 0 then None else v
  }

  /** `$data[$key]`: an absent key, or a value that is not an array, reads as null. */
  function At(j: Json, key: Key): Json {
    if j.JObj? && key in j.fields then j.fields[key] else JNull
  }

  // ---- readers: one per access pattern of the normalizers ----

  /** A required string, `$data['key']` passed to a `string` parameter. */
  function ReadString(j: Json, key: Key): (r: Result<string>)
    ensures r.Success? <==> At(j, key).JStr?
    ensures r.Success? ==> r.value == At(j, key).s
  {
    match At(j, key)
    case JStr(s) => Success(s)
    case JNull => Failure(MissingKey(KeyName(key)))
    case _ => Failure(WrongType(KeyName(key)))
  }

  /** An optional string, `$data['key'] ?? null`. */
  function ReadOptionalString(j: Json, key: Key): (r: Result<Option<string>>)
    ensures r == Success(None) <==> At(j, key).JNull?
    ensures r.Success? && r.value.Some? <==> At(j, key).JStr?
    ensures At(j, key).JStr? ==> r == Success(Some(At(j, key).s))
  {
    match At(j, key)
    case JNull => Success(None)
    case JStr(s) => Success(Some(s))
    case _ => Failure(WrongType(KeyName(key)))
  }

  /** A flag, `$data['key'] ?? false`. */
  function ReadFlag(j: Json, key: Key): (r: Result<bool>)
    ensures r == Success(false) <==> At(j, key).JNull? || At(j, key) == JBool(false)
    ensures r == Success(true) <==> At(j, key) == JBool(true)
  {
    match At(j, key)
    case JNull => Success(false)
    case JBool(b) => Success(b)
    case _ => Failure(WrongType(KeyName(key)))
  }

  /** A required integer. */
  function ReadInt(j: Json, key: Key): (r: Result<int>)
    ensures r.Success? <==> At(j, key).JInt?
    ensures r.Success? ==> r.value == At(j, key).i
  {
    match At(j, key)
    case JInt(i) => Success(i)
    case JNull => Failure(MissingKey(KeyName(key)))
    case _ => Failure(WrongType(KeyName(key)))
  }

  /** An optional integer, `$data['key'] ?? null`. */
  function ReadOptionalInt(j: Json, key: Key): (r: Result<Option<int>>)
    ensures r == Success(None) <==> At(j, key).JNull?
    ensures r.Success? && r.value.Some? <==> At(j, key).JInt?
    ensures At(j, key).JInt? ==> r == Success(Some(At(j, key).i))
  {
    match At(j, key)
    case JNull => Success(None)
    case JInt(i) => Success(Some(i))
    case _ => Failure(WrongType(KeyName(key)))
  }

  /** A required list, `$data['key']` handed to `array_map`. */
  function ReadList(j: Json, key: Key): (r: Result<seq<Json>>)
    ensures r.Success? <==> At(j, key).JArr?
    ensures r.Success? ==> r.value == At(j, key).items
  {
    match At(j, key)
    case JArr(xs) => Success(xs)
    case JNull => Failure(MissingKey(KeyName(key)))
    case _ => Failure(WrongType(KeyName(key)))
  }

  /** An optional list, `$data['key'] ?? []`. */
  function ReadOptionalList(j: Json, key: Key): (r: Result<seq<Json>>)
    ensures r == Success([]) <==> At(j, key).JNull? || At(j, key) == JArr([])
    ensures r.Success? <==> At(j, key).JNull? || At(j, key).JArr?
    ensures At(j, key).JArr? ==> r == Success(At(j, key).items)
  {
    match At(j, key)
    case JNull => Success([])
    case JArr(xs) => Success(xs)
    case _ => Failure(WrongType(KeyName(key)))
  }

  /** Every element of a list is a string. */
  function DecodeStrings(xs: seq<Json>): (r: Result<seq<string>>)
    ensures r.Success? <==> forall i :: 0 <= i < |xs| ==> xs[i].JStr?
    ensures r.Success? ==> EncodeStrings(r.value) == xs
  {
    if xs == [] then Success([])
    else if !xs[0].JStr? then Failure(WrongType("[]"))
    else
      var rest :- DecodeStrings(xs[1..]);
      assert ([xs[0].s] + rest)[1..] == rest;
      Success([xs[0].s] + rest)
  }

  /** A list of strings as a JSON list, in order. */
  function EncodeStrings(xs: seq<string>): (r: seq<Json>)
    ensures |r| == |xs|
  {
    if xs == [] then [] else [JStr(xs[0])] + EncodeStrings(xs[1..])
  }

  /** Decoding an encoded list of strings gives the same strings back. */
  lemma {:induction false} StringsRoundTrip(xs: seq<string>)
    ensures DecodeStrings(EncodeStrings(xs)) == Success(xs)
  {
    if xs != [] {
      StringsRoundTrip(xs[1..]);
      assert EncodeStrings(xs)[1..] == EncodeStrings(xs[1..]);
      assert [xs[0]] + xs[1..] == xs;
    }
  }

  // ---- guards: what one `if (...) { $data['key'] = ...; }` writes, if anything ----

  /** `if ($v) { $data['key'] = $v; }` for an optional string. */
  function IfString(v: Option<string>): Option<Json> {
    if v.Some? && !FalsyString(v.value) then Some(JStr(v.value)) else None
  }

  /** `if ($flag) { $data['key'] = true; }`. */
  function IfFlag(flag: bool): Option<Json> {
    if flag then Some(JBool(true)) else None
  }

  /** `if (!empty($xs)) { $data['key'] = $xs; }` for a list. */
  function IfList(xs: seq<Json>): Option<Json> {
    if |xs| > 0 then Some(JArr(xs)) else None
  }

  /** `if ($v) { $data['key'] = $v; }` for an optional integer (0 is falsy). */
  function IfInt(v: Option<int>): Option<Json> {
    if v.Some? && v.value != 0 then Some(JInt(v.value)) else None
  }

  /** What a key reads as when a guard decided its entry: the written value, or null. */
  function Written(w: Option<Json>): Json {
    if w.Some? then w.value else JNull
  }

  /**
    A string guard reads back as the value it guarded, as long as that
    value survives the guard.
   */
  lemma IfStringReadsBack(j: Json, key: Key, v: Option<string>)
    requires KeptString(v) && At(j, key) == Written(IfString(v))
    ensures ReadOptionalString(j, key) == Success(v)
  {
  }

  // ---- nested values whose normalizers are collaborators ----

  /**
    A value decoded by a nested normalizer that is not part of this model
    (author entries, person details, addresses, images, blocks, asset
    files, subjects, chapter content). It carries its wire object, so the
    nested codec is the identity and round-trips by construction.
   */
  datatype Embedded = Embedded(fields: Object)

  function EncodeEmbedded(e: Embedded): Json {
    JObj(e.fields)
  }

  /** A nested value; PHP's `array` type hint refuses anything but an array. */
  function DecodeEmbedded(j: Json, key: string): (r: Result<Embedded>)
    ensures r.Success? <==> j.JObj?
    ensures r.Success? ==> EncodeEmbedded(r.value) == j
  {
    match j
    case JObj(m) => Success(Embedded(m))
    case JNull => Failure(MissingKey(key))
    case _ => Failure(WrongType(key))
  }

  /** An optional nested value, `$data['key'] ?? null` handed to a nested normalizer. */
  function ReadOptionalEmbedded(j: Json, key: Key): (r: Result<Option<Embedded>>)
    ensures r == Success(None) <==> At(j, key).JNull?
    ensures r.Success? && r.value.Some? <==> At(j, key).JObj?
    ensures r.Success? && r.value.Some? ==> EncodeEmbedded(r.value.value) == At(j, key)
  {
    match At(j, key)
    case JNull => Success(None)
    case JObj(m) => Success(Some(Embedded(m)))
    case _ => Failure(WrongType(KeyName(key)))
  }

  /** A list of nested values as a JSON list, in order. */
  function EncodeEmbeddedList(es: seq<Embedded>): (r: seq<Json>)
    ensures |r| == |es|
  {
    if es == [] then [] else [EncodeEmbedded(es[0])] + EncodeEmbeddedList(es[1..])
  }

  /** `array_map(denormalize, $list)`: one nested value per element, in order. */
  function DecodeEmbeddedList(xs: seq<Json>, key: string): (r: Result<seq<Embedded>>)
    ensures r.Success? <==> forall i :: 0 <= i < |xs| ==> xs[i].JObj?
    ensures r.Success? ==> EncodeEmbeddedList(r.value) == xs
  {
    if xs == [] then Success([])
    else
      var head :- DecodeEmbedded(xs[0], key);
      var rest :- DecodeEmbeddedList(xs[1..], key);
      assert ([head] + rest)[1..] == rest;
      Success([head] + rest)
  }

  /** Decoding an encoded list gives back the same values in the same order. */
  lemma {:induction false} EmbeddedListRoundTrip(es: seq<Embedded>, key: string)
    ensures DecodeEmbeddedList(EncodeEmbeddedList(es), key) == Success(es)
  {
    if es != [] {
      EmbeddedListRoundTrip(es[1..], key);
      assert EncodeEmbeddedList(es)[1..] == EncodeEmbeddedList(es[1..]);
      assert [es[0]] + es[1..] == es;
    }
  }
}

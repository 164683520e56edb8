/**
  The image block codec: the block's `type` tag merged with its primary
  image file's keys, plus a `supplements` list of further image files when
  there are any. Each image file writes its image always and every other
  key only when the value is truthy or non-empty.
 */
module ImageNormalizer {
  import opened Wrappers
  import opened Json
  import opened Content
  import opened Values

  const Tag := "image"

  // ---- one image file ----

  /** Every key an image file's encoding can hold. */
  const FileKeys: set<Key> :=
    {Key.Image, Key.Doi, Key.Id, Key.Label, Key.Title, Key.Caption, Key.Attribution, Key.SourceData}

  /** What `normalizeImageFile` writes under a key, or nothing when its guard fails. */
  function FileEntry(f: ImageFile, k: Key): Option<Json> {
    match k
    case Image => Some(EncodeEmbedded(f.image))
    case Doi => IfString(f.doi)
    case Id => IfString(f.id)
    case Label => IfString(f.labelText)
    case Title => IfString(f.title)
    case Caption => IfList(EncodeEmbeddedList(f.caption))
    case Attribution => IfList(EncodeStrings(f.attribution))
    case SourceData => IfList(EncodeEmbeddedList(f.sourceData))
    case _ => None
  }

  /** `normalizeImageFile`: every image-file key whose table entry is present. */
  function NormalizeFile(f: ImageFile): Object {
    map k | k in FileKeys && FileEntry(f, k).Some? :: FileEntry(f, k).value
  }

  /** Each image-file key holds its table entry, and is absent when the entry is. */
  lemma FileEntryAt(f: ImageFile, k: Key)
    requires k in FileKeys
    ensures k in NormalizeFile(f) <==> FileEntry(f, k).Some?
    ensures k in NormalizeFile(f) ==> NormalizeFile(f)[k] == FileEntry(f, k).value
  {
  }

  /** The image is always written; each optional string exactly when it is truthy. */
  lemma FileStringsWritten(f: ImageFile)
    ensures var data := NormalizeFile(f);
      && Key.Image in data && data[Key.Image] == EncodeEmbedded(f.image)
      && (Key.Doi in data <==> f.doi.Some? && !FalsyString(f.doi.value))
      && (Key.Id in data <==> f.id.Some? && !FalsyString(f.id.value))
      && (Key.Label in data <==> f.labelText.Some? && !FalsyString(f.labelText.value))
      && (Key.Title in data <==> f.title.Some? && !FalsyString(f.title.value))
  {
    FileEntryAt(f, Key.Image); FileEntryAt(f, Key.Doi); FileEntryAt(f, Key.Id);
    FileEntryAt(f, Key.Label); FileEntryAt(f, Key.Title);
  }

  /** Caption, attribution and source data are each written, in order, exactly when non-empty. */
  lemma FileListsWritten(f: ImageFile)
    ensures var data := NormalizeFile(f);
      && (Key.Caption in data <==> |f.caption| > 0)
      && (Key.Caption in data ==> data[Key.Caption] == JArr(EncodeEmbeddedList(f.caption)))
      && (Key.Attribution in data <==> |f.attribution| > 0)
      && (Key.Attribution in data ==> data[Key.Attribution] == JArr(EncodeStrings(f.attribution)))
      && (Key.SourceData in data <==> |f.sourceData| > 0)
      && (Key.SourceData in data ==> data[Key.SourceData] == JArr(EncodeEmbeddedList(f.sourceData)))
  {
    FileEntryAt(f, Key.Caption); FileEntryAt(f, Key.Attribution); FileEntryAt(f, Key.SourceData);
  }

  /**
    `denormalizeImageFile`: the four strings default to null, the three
    lists to empty; the image is required. The parameter's `array` type
    hint refuses anything but an object.
   */
  function DecodeFile(j: Json): (r: Result<ImageFile>)
    ensures !j.JObj? ==> r.Failure?
    ensures r.Success? && At(j, Key.Doi).JNull? ==> r.value.doi.None?
    ensures r.Success? && At(j, Key.Id).JNull? ==> r.value.id.None?
    ensures r.Success? && At(j, Key.Label).JNull? ==> r.value.labelText.None?
    ensures r.Success? && At(j, Key.Title).JNull? ==> r.value.title.None?
    ensures r.Success? && At(j, Key.Caption).JNull? ==> r.value.caption == []
    ensures r.Success? && At(j, Key.Attribution).JNull? ==> r.value.attribution == []
    ensures r.Success? && At(j, Key.SourceData).JNull? ==> r.value.sourceData == []
    ensures r.Success? <==> j.JObj? && FileReads(j).Success?
  {
    if !j.JObj? then Failure(WrongType("image file")) else FileReads(j)
  }

  /** The reads of `denormalizeImageFile`, in argument order: the four optional strings first. */
  function FileReads(j: Json): Result<ImageFile> {
    var doi :- ReadOptionalString(j, Key.Doi);
    var id :- ReadOptionalString(j, Key.Id);
    var labelText :- ReadOptionalString(j, Key.Label);
    var title :- ReadOptionalString(j, Key.Title);
    FileListReads(j, doi, id, labelText, title)
  }

  /** The remaining reads: the caption, the image, the attribution and the source data. */
  function FileListReads(j: Json, doi: Option<string>, id: Option<string>,
                         labelText: Option<string>, title: Option<string>): Result<ImageFile> {
    var captionList :- ReadOptionalList(j, Key.Caption);
    var caption :- DecodeEmbeddedList(captionList, "caption");
    var image :- DecodeEmbedded(At(j, Key.Image), "image");
    var attributionList :- ReadOptionalList(j, Key.Attribution);
    var attribution :- DecodeStrings(attributionList);
    var sourceDataList :- ReadOptionalList(j, Key.SourceData);
    var sourceData :- DecodeEmbeddedList(sourceDataList, "sourceData");
    Success(ImageFile(doi, id, labelText, title, caption, image, attribution, sourceData))
  }

  /** The list reads look only at the caption, image, attribution and source data keys. */
  lemma ListReadsOnlyListKeys(j1: Json, j2: Json, doi: Option<string>, id: Option<string>,
                              labelText: Option<string>, title: Option<string>)
    requires At(j1, Key.Image) == At(j2, Key.Image) && At(j1, Key.Caption) == At(j2, Key.Caption)
    requires At(j1, Key.Attribution) == At(j2, Key.Attribution)
    requires At(j1, Key.SourceData) == At(j2, Key.SourceData)
    ensures FileListReads(j1, doi, id, labelText, title) == FileListReads(j2, doi, id, labelText, title)
  {
    assert ReadOptionalList(j1, Key.Caption) == ReadOptionalList(j2, Key.Caption);
    assert ReadOptionalList(j1, Key.Attribution) == ReadOptionalList(j2, Key.Attribution);
    assert ReadOptionalList(j1, Key.SourceData) == ReadOptionalList(j2, Key.SourceData);
  }

  /** Decoding an image file reads only the image-file keys: objects that agree on those decode alike. */
  lemma FileReadsOnlyFileKeys(j1: Json, j2: Json)
    requires j1.JObj? && j2.JObj?
    requires At(j1, Key.Image) == At(j2, Key.Image) && At(j1, Key.Doi) == At(j2, Key.Doi)
    requires At(j1, Key.Id) == At(j2, Key.Id) && At(j1, Key.Label) == At(j2, Key.Label)
    requires At(j1, Key.Title) == At(j2, Key.Title) && At(j1, Key.Caption) == At(j2, Key.Caption)
    requires At(j1, Key.Attribution) == At(j2, Key.Attribution)
    requires At(j1, Key.SourceData) == At(j2, Key.SourceData)
    ensures DecodeFile(j1) == DecodeFile(j2)
  {
    assert ReadOptionalString(j1, Key.Doi) == ReadOptionalString(j2, Key.Doi);
    assert ReadOptionalString(j1, Key.Id) == ReadOptionalString(j2, Key.Id);
    assert ReadOptionalString(j1, Key.Label) == ReadOptionalString(j2, Key.Label);
    assert ReadOptionalString(j1, Key.Title) == ReadOptionalString(j2, Key.Title);
    forall doi, id, labelText, title {
      ListReadsOnlyListKeys(j1, j2, doi, id, labelText, title);
    }
  }

  /** What an image file's encoding keeps: its falsy optional strings become absent. */
  function SurvivingFile(f: ImageFile): (s: ImageFile)
    ensures KeptString(s.doi) && KeptString(s.id) && KeptString(s.labelText) && KeptString(s.title)
    ensures s.caption == f.caption && s.image == f.image
    ensures s.attribution == f.attribution && s.sourceData == f.sourceData
  {
    f.(doi := Kept(f.doi), id := Kept(f.id), labelText := Kept(f.labelText), title := Kept(f.title))
  }

  /** An image file whose optional strings each survive the `if` guard. */
  predicate EncodableFile(f: ImageFile) {
    KeptString(f.doi) && KeptString(f.id) && KeptString(f.labelText) && KeptString(f.title)
  }

  /** The optional strings read back as what their guards let through. */
  lemma FileStringsRead(f: ImageFile)
    ensures var d := JObj(NormalizeFile(f));
      && ReadOptionalString(d, Key.Doi) == Success(Kept(f.doi))
      && ReadOptionalString(d, Key.Id) == Success(Kept(f.id))
      && ReadOptionalString(d, Key.Label) == Success(Kept(f.labelText))
      && ReadOptionalString(d, Key.Title) == Success(Kept(f.title))
  {
    FileEntryAt(f, Key.Doi); FileEntryAt(f, Key.Id); FileEntryAt(f, Key.Label); FileEntryAt(f, Key.Title);
  }

  /** The captions read back from an image file's encoding. */
  lemma CaptionsRead(f: ImageFile)
    ensures var d := JObj(NormalizeFile(f));
      ReadOptionalList(d, Key.Caption) == Success(EncodeEmbeddedList(f.caption))
      && DecodeEmbeddedList(EncodeEmbeddedList(f.caption), "caption") == Success(f.caption)
  {
    FileListsWritten(f);
    EmbeddedListRoundTrip(f.caption, "caption");
  }

  /** The attribution read back from an image file's encoding. */
  lemma AttributionRead(f: ImageFile)
    ensures var d := JObj(NormalizeFile(f));
      ReadOptionalList(d, Key.Attribution) == Success(EncodeStrings(f.attribution))
      && DecodeStrings(EncodeStrings(f.attribution)) == Success(f.attribution)
  {
    FileListsWritten(f);
    StringsRoundTrip(f.attribution);
  }

  /** The source data read back from an image file's encoding. */
  lemma SourceDataRead(f: ImageFile)
    ensures var d := JObj(NormalizeFile(f));
      ReadOptionalList(d, Key.SourceData) == Success(EncodeEmbeddedList(f.sourceData))
      && DecodeEmbeddedList(EncodeEmbeddedList(f.sourceData), "sourceData") == Success(f.sourceData)
  {
    FileListsWritten(f);
    EmbeddedListRoundTrip(f.sourceData, "sourceData");
  }

  /** The list reads of an image file's encoding give its lists and image back. */
  lemma FileListsDecoded(f: ImageFile, doi: Option<string>, id: Option<string>,
                         labelText: Option<string>, title: Option<string>)
    ensures FileListReads(JObj(NormalizeFile(f)), doi, id, labelText, title)
         == Success(ImageFile(doi, id, labelText, title, f.caption, f.image, f.attribution, f.sourceData))
  {
    FileStringsWritten(f);
    CaptionsRead(f);
    AttributionRead(f);
    SourceDataRead(f);
  }

  /** Decoding an image file's encoding gives it back, less what the guards drop. */
  lemma FileDecoded(f: ImageFile)
    ensures DecodeFile(JObj(NormalizeFile(f))) == Success(SurvivingFile(f))
  {
    FileStringsRead(f);
    FileListsDecoded(f, Kept(f.doi), Kept(f.id), Kept(f.labelText), Kept(f.title));
  }

  // ---- lists of image files ----

  /** The supplements as a JSON list, one encoded file per supplement, in order. */
  function EncodeFiles(fs: seq<ImageFile>): (r: seq<Json>)
    ensures |r| == |fs|
  {
    if fs == [] then [] else [JObj(NormalizeFile(fs[0]))] + EncodeFiles(fs[1..])
  }

  /** One decoded file per list element, in order; the first failure wins. */
  function DecodeFiles(xs: seq<Json>): (r: Result<seq<ImageFile>>)
    ensures r.Success? ==> |r.value| == |xs|
    ensures r.Success? ==> forall i :: 0 <= i < |xs| ==> DecodeFile(xs[i]) == Success(r.value[i])
  {
    if xs == [] then Success([])
    else
      var head :- DecodeFile(xs[0]);
      var rest :- DecodeFiles(xs[1..]);
      Success([head] + rest)
  }

  /** Every file of an encoded list decodes back to what its encoding keeps. */
  lemma {:induction false} FilesDecoded(fs: seq<ImageFile>)
    ensures DecodeFiles(EncodeFiles(fs)) == Success(SurvivingFiles(fs))
  {
    if fs != [] {
      FileDecoded(fs[0]);
      FilesDecoded(fs[1..]);
      assert EncodeFiles(fs)[1..] == EncodeFiles(fs[1..]);
    }
  }

  /** `SurvivingFile` of each file, in order. */
  function SurvivingFiles(fs: seq<ImageFile>): (r: seq<ImageFile>)
    ensures |r| == |fs|
    ensures forall i :: 0 <= i < |fs| ==> r[i] == SurvivingFile(fs[i])
  {
    if fs == [] then [] else [SurvivingFile(fs[0])] + SurvivingFiles(fs[1..])
  }

  // ---- the block ----

  /** Every key a block's encoding can hold. */
  const BlockKeys: set<Key> :=
    {Key.Type, Key.Supplements,
     Key.Image, Key.Doi, Key.Id, Key.Label, Key.Title, Key.Caption, Key.Attribution, Key.SourceData}

  /**
    What `normalize` writes under a key: `array_merge` of the tag with the
    primary file's keys (no file key is `type`, so nothing is overwritten),
    then `supplements` when there are any.
   */
  function Entry(b: ImageBlock, k: Key): Option<Json> {
    match k
    case Type => Some(JStr(Tag))
    case Supplements => IfList(EncodeFiles(b.supplements))
    case _ => FileEntry(b.image, k)
  }

  /** `normalize`: every block key whose table entry is present. */
  function Normalize(b: ImageBlock): Object {
    map k | k in BlockKeys && Entry(b, k).Some? :: Entry(b, k).value
  }

  /** Each block key holds its table entry, and is absent when the entry is. */
  lemma EntryAt(b: ImageBlock, k: Key)
    requires k in BlockKeys
    ensures k in Normalize(b) <==> Entry(b, k).Some?
    ensures k in Normalize(b) ==> Normalize(b)[k] == Entry(b, k).value
  {
  }

  /** The tag is always written; `supplements` exactly when there are some, in order. */
  lemma BlockKeysWritten(b: ImageBlock)
    ensures var data := Normalize(b);
      && Key.Type in data && data[Key.Type] == JStr(Tag)
      && (Key.Supplements in data <==> |b.supplements| > 0)
      && (Key.Supplements in data ==> data[Key.Supplements] == JArr(EncodeFiles(b.supplements)))
  {
    EntryAt(b, Key.Type); EntryAt(b, Key.Supplements);
  }

  /** An image-file key of the block's encoding reads as it does in the primary file's encoding. */
  lemma PrimaryKeyAt(b: ImageBlock, k: Key)
    requires k in FileKeys
    ensures At(JObj(Normalize(b)), k) == At(JObj(NormalizeFile(b.image)), k)
  {
    EntryAt(b, k);
    FileEntryAt(b.image, k);
  }

  /** `denormalize`: the primary file from the block object itself, then each supplement in order. */
  function Denormalize(data: Json): (r: Result<ImageBlock>)
    ensures r.Success? ==> DecodeFile(data) == Success(r.value.image)
    ensures r.Success? && At(data, Key.Supplements).JNull? ==> r.value.supplements == []
    ensures r.Success? && At(data, Key.Supplements).JArr? ==> |r.value.supplements| == |At(data, Key.Supplements).items|
    ensures r.Success? && At(data, Key.Supplements).JArr? ==> DecodeFiles(At(data, Key.Supplements).items) == Success(r.value.supplements)
    ensures At(data, Key.Supplements).JArr? && DecodeFiles(At(data, Key.Supplements).items).Failure? ==> r.Failure?
    ensures DecodeFile(data).Failure? ==> r.Failure?
    ensures !At(data, Key.Supplements).JNull? && !At(data, Key.Supplements).JArr? ==> r.Failure?
  {
    var image :- DecodeFile(data);
    var list :- ReadOptionalList(data, Key.Supplements);
    var supplements :- DecodeFiles(list);
    Success(ImageBlock(image, supplements))
  }

  /** The `Image` class itself, or the `Block` interface with an `image` tag. */
  predicate SupportsDenormalization(data: Json, cls: ClassName) {
    cls == ImageClass || (cls == BlockClass && At(data, Key.Type) == JStr(Tag))
  }

  /** Image blocks only. */
  predicate SupportsNormalization(v: Value) {
    v.ImageValue?
  }

  /** What a block's encoding keeps: every file, primary and supplements, as its encoding keeps it. */
  function Surviving(b: ImageBlock): (s: ImageBlock)
    ensures s.image == SurvivingFile(b.image)
    ensures |s.supplements| == |b.supplements|
    ensures forall i :: 0 <= i < |b.supplements| ==> s.supplements[i] == SurvivingFile(b.supplements[i])
  {
    ImageBlock(SurvivingFile(b.image), SurvivingFiles(b.supplements))
  }

  /** A block all of whose files survive the guards. */
  predicate Encodable(b: ImageBlock) {
    EncodableFile(b.image) && forall i :: 0 <= i < |b.supplements| ==> EncodableFile(b.supplements[i])
  }

  /** The primary file decodes from the block's encoding as from its own. */
  lemma PrimaryDecoded(b: ImageBlock)
    ensures DecodeFile(JObj(Normalize(b))) == Success(SurvivingFile(b.image))
  {
    PrimaryKeyAt(b, Key.Image); PrimaryKeyAt(b, Key.Doi); PrimaryKeyAt(b, Key.Id);
    PrimaryKeyAt(b, Key.Label); PrimaryKeyAt(b, Key.Title); PrimaryKeyAt(b, Key.Caption);
    PrimaryKeyAt(b, Key.Attribution); PrimaryKeyAt(b, Key.SourceData);
    FileReadsOnlyFileKeys(JObj(Normalize(b)), JObj(NormalizeFile(b.image)));
    FileDecoded(b.image);
  }

  /** Decoding a block's encoding gives back every file, in order, less what the guards drop. */
  lemma Decoded(b: ImageBlock)
    ensures Denormalize(JObj(Normalize(b))) == Success(Surviving(b))
  {
    var d := JObj(Normalize(b));
    PrimaryDecoded(b);
    BlockKeysWritten(b);
    assert ReadOptionalList(d, Key.Supplements) == Success(EncodeFiles(b.supplements));
    FilesDecoded(b.supplements);
  }

  /** Surviving leaves a block whose files all survive the guards unchanged. */
  lemma SurvivingKeepsEncodable(b: ImageBlock)
    requires Encodable(b)
    ensures Surviving(b) == b
  {
    var s := Surviving(b);
    assert s.supplements == b.supplements;
  }

  /** Decoding a block's encoding gives the block back when no file holds a falsy string. */
  lemma RoundTrip(b: ImageBlock)
    requires Encodable(b)
    ensures Denormalize(JObj(Normalize(b))) == Success(b)
  {
    Decoded(b);
    SurvivingKeepsEncodable(b);
  }
}

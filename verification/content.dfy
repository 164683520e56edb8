/**
  The content models with a codec in this model: the image block, the blog
  article and the podcast episode. Fields the library resolves lazily are
  `Deferred`; dates are their wire strings.
 */
module Content {
  import opened Wrappers
  import opened Json

  /** One image of an image block, with its caption blocks and source data. */
  datatype ImageFile = ImageFile(
    doi: Option<string>,
    id: Option<string>,
    labelText: Option<string>,   // `label` on the wire
    title: Option<string>,
    caption: seq<Embedded>,
    image: Embedded,
    attribution: seq<string>,
    sourceData: seq<Embedded>)

  /** The image block: a primary image and its supplements, in order. */
  datatype ImageBlock = ImageBlock(image: ImageFile, supplements: seq<ImageFile>)

  /** A blog article; subjects are kept by id. */
  datatype BlogArticle = BlogArticle(
    id: string,
    title: string,
    published: string,
    impactStatement: Option<string>,
    content: Deferred<seq<Embedded>>,
    subjects: Option<seq<string>>)
  {
    predicate HasSubjects() {
      subjects.Some? && |subjects.value| > 0
    }
  }

  datatype PodcastEpisodeSource = PodcastEpisodeSource(mediaType: string, uri: string)

  datatype PodcastEpisodeChapter = PodcastEpisodeChapter(
    number: int,
    title: string,
    time: int,
    impactStatement: Option<string>,
    content: seq<Embedded>)

  datatype PodcastEpisode = PodcastEpisode(
    number: int,
    title: string,
    impactStatement: Option<string>,
    published: string,
    updated: Option<string>,
    banner: Deferred<Embedded>,
    thumbnail: Embedded,
    sources: seq<PodcastEpisodeSource>,
    subjects: seq<Embedded>,
    chapters: Deferred<seq<PodcastEpisodeChapter>>)
}

/**
  Everything a normalizer can be asked about: the model values it may
  encode, the class names it may be asked to decode into, and the context
  flags passed along.
 */
module Values {
  import opened Places
  import opened References
  import opened Content

  /** A runtime value handed to `normalize`; `OtherObject` is any other class. */
  datatype Value =
    | ReferenceValue(reference: Reference)
    | ImageValue(imageBlock: ImageBlock)
    | BlogArticleValue(article: BlogArticle)
    | PlaceValue(place: Place)
    | PodcastEpisodeValue(episode: PodcastEpisode)
    | OtherObject

  /** The `$type` argument of `denormalize`: a model class, an interface, or any other class. */
  datatype ClassName =
    | PreprintReferenceClass
    | ThesisReferenceClass
    | BookReferenceClass
    | PatentReferenceClass
    | SoftwareReferenceClass
    | ReferenceClass          // the `Reference` interface
    | ImageClass
    | BlockClass              // the `Block` interface
    | BlogArticleClass
    | PlaceClass
    | PodcastEpisodeClass
    | ModelClass              // the `Model` interface
    | OtherClass(name: string)

  /** The serializer context: `snippet`, `complete` and `type` flags (absent reads as false). */
  datatype Context = Context(snippet: bool, complete: bool, typed: bool)

  const NoContext := Context(false, false, false)
}

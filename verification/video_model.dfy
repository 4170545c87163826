/** The Video document: its fields, the defaults and setters its schema
    declares, the required-field validation run on every save, and the
    generic field access that `updateVideo`'s patch loop relies on. */
module VideoModel {
  import opened Common
  import opened ObjectIds
  import opened Text

  /** The number paths hold `None` when the stored value is `null`, which
      is what Mongoose casts an empty string to. */
  datatype Video = Video(
    id: ObjectId,
    title: string,
    description: string,
    videoFile: string,
    videoPublicId: string,
    thumbnail: string,
    thumbnailPublicId: string,
    duration: string,
    category: string,
    owner: ObjectId,
    views: Option<int>,
    downloads: Option<int>,
    tags: seq<string>,
    isPublished: bool,
    isDeleted: bool,
    isPrivate: bool,
    reportReason: string,
    language: string,
    averageWatchTime: Option<int>,
    createdAt: Time)

  /** Discovery, detail and recommendation show only these videos. */
  predicate Visible(v: Video)
  {
    v.isPublished && !v.isDeleted
  }

  /** The `required: true` string paths; Mongoose rejects the empty string. */
  predicate HasRequired(v: Video)
  {
    && v.title != "" && v.description != ""
    && v.videoFile != "" && v.videoPublicId != ""
    && v.thumbnail != "" && v.thumbnailPublicId != ""
    && v.duration != "" && v.category != ""
  }

  /** The identifiers of a sequence of videos are pairwise different. */
  predicate UniqueIds(videos: seq<Video>)
  {
    forall i, j | 0 <= i < j < |videos| :: videos[i].id != videos[j].id
  }

  /** A video whose identifier a list with unique identifiers lacks goes in
      front of it. */
  lemma ConsUnique(head: Video, rest: seq<Video>)
    requires UniqueIds(rest)
    requires forall x | x in rest :: x.id != head.id
    ensures UniqueIds([head] + rest)
  {
    var r := [head] + rest;
    forall i, j | 0 <= i < j < |r|
      ensures r[i].id != r[j].id
    {
      assert r[j] == rest[j - 1] && r[j] in rest;
      if i > 0 {
        assert r[i] == rest[i - 1];
      }
    }
  }

  /** The document `Video.create` builds from the fields `publishVideo`
      passes, before validation: schema defaults for everything else, and the
      `trim` and `lowercase` setters applied to the category. */
  function Draft(id: ObjectId, now: Time, owner: ObjectId, title: string, description: string,
                 category: string, duration: string, videoFile: string, videoPublicId: string,
                 thumbnail: string, thumbnailPublicId: string): Video
  {
    Video(id := id, title := title, description := description,
          videoFile := videoFile, videoPublicId := videoPublicId,
          thumbnail := thumbnail, thumbnailPublicId := thumbnailPublicId,
          duration := duration, category := Normalise(category), owner := owner,
          views := Some(0), downloads := Some(0), tags := [],
          isPublished := true, isDeleted := false, isPrivate := false,
          reportReason := "", language := "", averageWatchTime := Some(0),
          createdAt := now)
  }

  /** `Video.create`: the new document, or None when validation rejects it. */
  function Create(id: ObjectId, now: Time, owner: ObjectId, title: string, description: string,
                  category: string, duration: string, videoFile: string, videoPublicId: string,
                  thumbnail: string, thumbnailPublicId: string): (r: Option<Video>)
    ensures r.Some? <==>
              && title != "" && description != "" && duration != ""
              && videoFile != "" && videoPublicId != ""
              && thumbnail != "" && thumbnailPublicId != ""
              && Trim(category) != ""
    ensures r.Some? ==> HasRequired(r.value) && IsNormalised(r.value.category) && Visible(r.value)
    ensures r.Some? ==> r.value.id == id && r.value.owner == owner && r.value.createdAt == now
  {
    var d := Draft(id, now, owner, title, description, category, duration,
                   videoFile, videoPublicId, thumbnail, thumbnailPublicId);
    NormaliseIdempotent(category);
    assert |Normalise(category)| == |Trim(category)|;
    if HasRequired(d) then Some(d) else None
  }

  /** A new video starts published, not deleted, public, with no views,
      downloads or tags; whatever is not passed takes its schema default. */
  lemma CreateDefaults(id: ObjectId, now: Time, owner: ObjectId, title: string, description: string,
                       category: string, duration: string, videoFile: string, videoPublicId: string,
                       thumbnail: string, thumbnailPublicId: string)
    ensures var r := Create(id, now, owner, title, description, category, duration,
                            videoFile, videoPublicId, thumbnail, thumbnailPublicId);
            r.Some? ==>
              && r.value.isPublished && !r.value.isDeleted && !r.value.isPrivate
              && r.value.views == Some(0) && r.value.downloads == Some(0) && r.value.tags == []
              && r.value.averageWatchTime == Some(0) && r.value.reportReason == "" && r.value.language == ""
              && r.value.title == title && r.value.duration == duration
  {
  }

  // Generic access to the schema paths.

  /** The schema paths of a Video document, the keys `key in video` finds. */
  datatype Path =
    | Title | Description | VideoFile | VideoPublicId | Thumbnail | ThumbnailPublicId
    | Duration | Category | Owner | Views | Downloads | Tags
    | IsPublished | IsDeleted | IsPrivate | ReportReason | Language | AverageWatchTime

  function Name(p: Path): string
  {
    match p
    case Title => "title"
    case Description => "description"
    case VideoFile => "videoFile"
    case VideoPublicId => "videoPublicId"
    case Thumbnail => "thumbnail"
    case ThumbnailPublicId => "thumbnailPublicId"
    case Duration => "duration"
    case Category => "category"
    case Owner => "owner"
    case Views => "views"
    case Downloads => "downloads"
    case Tags => "tags"
    case IsPublished => "isPublished"
    case IsDeleted => "isDeleted"
    case IsPrivate => "isPrivate"
    case ReportReason => "reportReason"
    case Language => "language"
    case AverageWatchTime => "averageWatchTime"
  }

  /** The path a body key names, if any: the inverse of Name. */
  function PathOf(key: string): (r: Option<Path>)
    ensures r.Some? ==> Name(r.value) == key
    ensures r.None? ==> forall p: Path :: Name(p) != key
  {
    if key == "title" then Some(Title)
    else if key == "description" then Some(Description)
    else if key == "videoFile" then Some(VideoFile)
    else if key == "videoPublicId" then Some(VideoPublicId)
    else if key == "thumbnail" then Some(Thumbnail)
    else if key == "thumbnailPublicId" then Some(ThumbnailPublicId)
    else if key == "duration" then Some(Duration)
    else if key == "category" then Some(Category)
    else if key == "owner" then Some(Owner)
    else if key == "views" then Some(Views)
    else if key == "downloads" then Some(Downloads)
    else if key == "tags" then Some(Tags)
    else if key == "isPublished" then Some(IsPublished)
    else if key == "isDeleted" then Some(IsDeleted)
    else if key == "isPrivate" then Some(IsPrivate)
    else if key == "reportReason" then Some(ReportReason)
    else if key == "language" then Some(Language)
    else if key == "averageWatchTime" then Some(AverageWatchTime)
    else None
  }

  /** Name is one-to-one: each path is found again from its name. */
  lemma PathOfName(p: Path)
    ensures PathOf(Name(p)) == Some(p)
  {
  }

  /** A value held by a path. */
  datatype FieldValue =
    | TextValue(s: string)
    | NumberValue(n: Option<int>)
    | FlagValue(b: bool)
    | RefValue(id: ObjectId)
    | ListValue(items: seq<string>)

  /** The declared type of a path. */
  datatype Kind = PlainText | NormalisedText | NumberKind | FlagKind | RefKind | ListKind

  function KindOf(p: Path): Kind
  {
    match p
    case Category | Language => NormalisedText
    case Views | Downloads | AverageWatchTime => NumberKind
    case IsPublished | IsDeleted | IsPrivate => FlagKind
    case Owner => RefKind
    case Tags => ListKind
    case _ => PlainText
  }

  predicate Fits(p: Path, x: FieldValue)
  {
    match KindOf(p)
    case PlainText | NormalisedText => x.TextValue?
    case NumberKind => x.NumberValue?
    case FlagKind => x.FlagValue?
    case RefKind => x.RefValue?
    case ListKind => x.ListValue?
  }

  function Get(v: Video, p: Path): (x: FieldValue)
    ensures Fits(p, x)
  {
    match p
    case Title => TextValue(v.title)
    case Description => TextValue(v.description)
    case VideoFile => TextValue(v.videoFile)
    case VideoPublicId => TextValue(v.videoPublicId)
    case Thumbnail => TextValue(v.thumbnail)
    case ThumbnailPublicId => TextValue(v.thumbnailPublicId)
    case Duration => TextValue(v.duration)
    case Category => TextValue(v.category)
    case Owner => RefValue(v.owner)
    case Views => NumberValue(v.views)
    case Downloads => NumberValue(v.downloads)
    case Tags => ListValue(v.tags)
    case IsPublished => FlagValue(v.isPublished)
    case IsDeleted => FlagValue(v.isDeleted)
    case IsPrivate => FlagValue(v.isPrivate)
    case ReportReason => TextValue(v.reportReason)
    case Language => TextValue(v.language)
    case AverageWatchTime => NumberValue(v.averageWatchTime)
  }

  /** The document with path `p` set to `x`; every other path, the identifier
      and the creation time are kept. */
  function Put(v: Video, p: Path, x: FieldValue): (r: Video)
    requires Fits(p, x)
    ensures Get(r, p) == x
    ensures forall q: Path | q != p :: Get(r, q) == Get(v, q)
    ensures r.id == v.id && r.createdAt == v.createdAt
  {
    match p
    case Title => v.(title := x.s)
    case Description => v.(description := x.s)
    case VideoFile => v.(videoFile := x.s)
    case VideoPublicId => v.(videoPublicId := x.s)
    case Thumbnail => v.(thumbnail := x.s)
    case ThumbnailPublicId => v.(thumbnailPublicId := x.s)
    case Duration => v.(duration := x.s)
    case Category => v.(category := x.s)
    case Owner => v.(owner := x.id)
    case Views => v.(views := x.n)
    case Downloads => v.(downloads := x.n)
    case Tags => v.(tags := x.items)
    case IsPublished => v.(isPublished := x.b)
    case IsDeleted => v.(isDeleted := x.b)
    case IsPrivate => v.(isPrivate := x.b)
    case ReportReason => v.(reportReason := x.s)
    case Language => v.(language := x.s)
    case AverageWatchTime => v.(averageWatchTime := x.n)
  }

  /** A request-body value: JSON or form text, a number, a boolean. */
  datatype BodyValue = Str(s: string) | Num(n: int) | Bool(b: bool)

  function PrintedText(x: BodyValue): string
  {
    match x
    case Str(s) => s
    case Num(n) => DecimalString(n)
    case Bool(b) => if b then "true" else "false"
  }

  /** Mongoose's cast of a body value to the type of path `p`; None is a cast
      failure, which later makes `save()` reject the document. */
  function CastTo(p: Path, x: BodyValue): (r: Option<FieldValue>)
    ensures r.Some? ==> Fits(p, r.value)
    ensures KindOf(p) == PlainText ==> r == Some(TextValue(PrintedText(x)))
    ensures KindOf(p) == NormalisedText ==> r.Some? && IsNormalised(r.value.s)
    ensures KindOf(p) == NumberKind && x.Num? ==> r == Some(NumberValue(Some(x.n)))
    ensures KindOf(p) == NumberKind && x == Str("") ==> r == Some(NumberValue(None))
    ensures KindOf(p) == NumberKind && x.Str? && x.s != "" && Trim(x.s) == "" ==> r == Some(NumberValue(Some(0)))
    ensures KindOf(p) == NumberKind && x.Bool? ==> r == Some(NumberValue(Some(if x.b then 1 else 0)))
    ensures KindOf(p) == FlagKind && x.Bool? ==> r == Some(FlagValue(x.b))
    ensures KindOf(p) == RefKind ==> (r.Some? <==> x.Str? && IsValid(x.s))
  {
    match KindOf(p)
    case PlainText => Some(TextValue(PrintedText(x)))
    case NormalisedText =>
      NormaliseIdempotent(PrintedText(x));
      Some(TextValue(Normalise(PrintedText(x))))
    case NumberKind =>
      (match x
       case Num(n) => Some(NumberValue(Some(n)))
       case Bool(b) => Some(NumberValue(Some(if b then 1 else 0)))
       case Str(s) =>
         // The empty string becomes null; any other text goes through
         // `Number`, which ignores surrounding white space and reads
         // blank text as 0.
         if s == "" then Some(NumberValue(None))
         else if Trim(s) == "" then Some(NumberValue(Some(0)))
         else (match ParseDecimal(Trim(s)) case Some(n) => Some(NumberValue(Some(n))) case None => None))
    case FlagKind =>
      (match x
       case Bool(b) => Some(FlagValue(b))
       case Num(n) => if n == 1 then Some(FlagValue(true)) else if n == 0 then Some(FlagValue(false)) else None
       case Str(s) =>
         if s == "true" || s == "1" || s == "yes" then Some(FlagValue(true))
         else if s == "false" || s == "0" || s == "no" then Some(FlagValue(false))
         else None)
    case RefKind =>
      (match x
       case Str(s) => (match Cast(s) case Some(id) => Some(RefValue(id)) case None => None)
       case _ => None)
    case ListKind => Some(ListValue([Normalise(PrintedText(x))]))
  }

  /** Text cast to a number path and read back gives the number. */
  lemma NumberCastRoundTrip(p: Path, n: int)
    requires KindOf(p) == NumberKind
    ensures CastTo(p, Str(DecimalString(n))) == Some(NumberValue(Some(n)))
  {
    DecimalRoundTrip(n);
    DecimalStringTrimmed(n);
  }

  /** White space around the decimal text of an integer does not change its
      cast to a number path. */
  lemma PaddedNumberCast(p: Path, n: int, pad: string)
    requires KindOf(p) == NumberKind
    requires forall k | 0 <= k < |pad| :: IsSpace(pad[k])
    ensures CastTo(p, Str(pad + DecimalString(n) + pad)) == Some(NumberValue(Some(n)))
  {
    DecimalRoundTrip(n);
    DecimalStringTrimmed(n);
    TrimPadded(pad, DecimalString(n));
  }
}

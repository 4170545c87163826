/** `publishVideo`, `updateVideo` and `deleteVideo`: creating a video from
    two uploads, replacing its media and patching its fields, and removing
    it. Uploads to the media store and deletions from it are inputs: an
    upload is the result the store returned, or None when the upload threw;
    a deletion is a flag saying whether it succeeded. */
module VideoLifecycle {
  import opened Common
  import opened ObjectIds
  import opened Text
  import opened VideoModel
  import opened Store

  /** The parts of an upload response the controller reads: `secure_url`,
      `public_id` and, for media, `duration` in seconds. */
  datatype Upload = Upload(url: string, publicId: string, duration: Option<real>)

  /** A media-store object a request destroyed. */
  datatype Asset = VideoAsset(publicId: string) | ImageAsset(publicId: string)

  /** `${Math.floor(duration)}`: the decimal digits of the whole seconds, or
      "NaN" when the upload reports no duration. */
  function DurationText(d: Option<real>): (s: string)
    ensures s != ""
    ensures d.Some? ==> ParseDecimal(s) == Some(d.value.Floor)
  {
    match d
    case Some(x) =>
      DecimalRoundTrip(x.Floor);
      DecimalString(x.Floor)
    case None => "NaN"
  }

  // publishVideo

  /** The request fields `publishVideo` checks before uploading. */
  predicate PublishFieldsPresent(title: string, description: string, category: string,
                                 hasVideoFile: bool, hasThumbnail: bool)
  {
    title != "" && description != "" && category != "" && hasVideoFile && hasThumbnail
  }

  /** The outcome of `publishVideo`: 400 when a field or file is missing; 500
      when an upload throws or `Video.create` rejects the document; otherwise
      the document created. */
  function PublishOutcome(newId: ObjectId, now: Time, owner: ObjectId,
                          title: string, description: string, category: string,
                          hasVideoFile: bool, hasThumbnail: bool,
                          videoUpload: Option<Upload>, thumbnailUpload: Option<Upload>): Result<Video>
  {
    if !PublishFieldsPresent(title, description, category, hasVideoFile, hasThumbnail) then Err(BadRequest)
    else if videoUpload.None? || thumbnailUpload.None? then Err(Internal)
    else
      var vu, tu := videoUpload.value, thumbnailUpload.value;
      match Create(newId, now, owner, title, description, category, DurationText(vu.duration),
                   vu.url, vu.publicId, tu.url, tu.publicId)
      case Some(v) => Ok(v)
      case None => Err(Internal)
  }

  /** What a publish promises: 400 exactly when a field or file is missing;
      success exactly when, in addition, both uploads returned a URL and a
      public id and the category is not blank; and the new video is owned
      by the caller, published, not deleted, unviewed, carries the uploaded
      media, a normalised category, and the whole seconds of the upload's
      duration as its decimal text. */
  lemma PublishShape(newId: ObjectId, now: Time, owner: ObjectId,
                     title: string, description: string, category: string,
                     hasVideoFile: bool, hasThumbnail: bool,
                     videoUpload: Option<Upload>, thumbnailUpload: Option<Upload>)
    ensures var r := PublishOutcome(newId, now, owner, title, description, category, hasVideoFile, hasThumbnail,
                                    videoUpload, thumbnailUpload);
            && (r == Err(BadRequest) <==> !PublishFieldsPresent(title, description, category, hasVideoFile, hasThumbnail))
            && (r.Ok? <==>
                  && PublishFieldsPresent(title, description, category, hasVideoFile, hasThumbnail)
                  && videoUpload.Some? && videoUpload.value.url != "" && videoUpload.value.publicId != ""
                  && thumbnailUpload.Some? && thumbnailUpload.value.url != "" && thumbnailUpload.value.publicId != ""
                  && Trim(category) != "")
            && (r.Ok? ==>
                  && r.value.id == newId && r.value.owner == owner && r.value.createdAt == now
                  && r.value.isPublished && !r.value.isDeleted && r.value.views == Some(0)
                  && r.value.title == title && r.value.description == description
                  && IsNormalised(r.value.category)
                  && r.value.videoFile == videoUpload.value.url && r.value.videoPublicId == videoUpload.value.publicId
                  && r.value.thumbnail == thumbnailUpload.value.url
                  && r.value.thumbnailPublicId == thumbnailUpload.value.publicId
                  && (videoUpload.value.duration.Some? ==>
                        ParseDecimal(r.value.duration) == Some(videoUpload.value.duration.value.Floor)))
  {
    if PublishFieldsPresent(title, description, category, hasVideoFile, hasThumbnail)
       && videoUpload.Some? && thumbnailUpload.Some? {
      var vu, tu := videoUpload.value, thumbnailUpload.value;
      CreateDefaults(newId, now, owner, title, description, category, DurationText(vu.duration),
                     vu.url, vu.publicId, tu.url, tu.publicId);
    }
  }

  /** The request: `owner` is the caller and `newId` the identifier the
      database assigns to the new document. */
  method PublishVideo(db: Store, owner: ObjectId, newId: ObjectId, now: Time,
                      title: string, description: string, category: string,
                      hasVideoFile: bool, hasThumbnail: bool,
                      videoUpload: Option<Upload>, thumbnailUpload: Option<Upload>)
    returns (r: Result<Video>)
    requires db.Valid()
    requires forall i | 0 <= i < |db.videos| :: db.videos[i].id != newId
    modifies db
    ensures db.Valid()
    ensures r == PublishOutcome(newId, now, owner, title, description, category, hasVideoFile, hasThumbnail,
                                videoUpload, thumbnailUpload)
    ensures db.videos == if r.Ok? then old(db.videos) + [r.value] else old(db.videos)
    ensures db.likes == old(db.likes) && db.subscriptions == old(db.subscriptions)
    ensures db.views == old(db.views) && db.users == old(db.users)
  {
    if !PublishFieldsPresent(title, description, category, hasVideoFile, hasThumbnail) {
      return Err(BadRequest);
    }
    if videoUpload.None? || thumbnailUpload.None? {
      return Err(Internal);
    }
    var vu, tu := videoUpload.value, thumbnailUpload.value;
    var created := Create(newId, now, owner, title, description, category, DurationText(vu.duration),
                          vu.url, vu.publicId, tu.url, tu.publicId);
    if created.None? {
      return Err(Internal);
    }
    db.videos := db.videos + [created.value];
    return Ok(created.value);
  }

  // updateVideo

  /** The value path `p` holds after the patch loop: the body's value cast
      to the path's type when the body names `p` and the cast succeeds, the
      old value otherwise. */
  function PatchedValue(v: Video, body: map<string, BodyValue>, p: Path): (x: FieldValue)
    ensures Fits(p, x)
  {
    if Name(p) in body && CastTo(p, body[Name(p)]).Some? then CastTo(p, body[Name(p)]).value else Get(v, p)
  }

  /** Some body key names a path its value cannot be cast to. */
  predicate CastFails(body: map<string, BodyValue>)
  {
    exists p: Path :: Name(p) in body && CastTo(p, body[Name(p)]).None?
  }

  /** The patch loop: each body key that names a path of the document is
      assigned through the path's cast; every other key is ignored. A failed
      cast is remembered, and makes the later save reject the document. */
  method ApplyUpdates(v: Video, body: map<string, BodyValue>) returns (r: Video, castFailed: bool)
    ensures forall p: Path :: Get(r, p) == PatchedValue(v, body, p)
    ensures r.id == v.id && r.createdAt == v.createdAt
    ensures castFailed <==> CastFails(body)
  {
    r := v;
    castFailed := false;
    var keys := body.Keys;
    ghost var done: set<string> := {};
    while keys != {}
      invariant keys + done == body.Keys && keys !! done
      invariant r.id == v.id && r.createdAt == v.createdAt
      invariant forall p: Path :: Get(r, p) == if Name(p) in done then PatchedValue(v, body, p) else Get(v, p)
      invariant castFailed <==> exists p: Path :: Name(p) in done && CastTo(p, body[Name(p)]).None?
      decreases keys
    {
      var k :| k in keys;
      var path := PathOf(k);
      if path.Some? {
        var p := path.value;
        forall q: Path | q != p
          ensures Name(q) != k
        {
          PathOfName(q);
        }
        var cast := CastTo(p, body[k]);
        if cast.Some? {
          r := Put(r, p, cast.value);
        } else {
          castFailed := true;
        }
      }
      keys := keys - {k};
      done := done + {k};
    }
  }

  /** The paths the schema marks required. */
  predicate RequiredPath(p: Path)
  {
    p in {Title, Description, VideoFile, VideoPublicId, Thumbnail, ThumbnailPublicId, Duration, Category}
  }

  /** Every required path is non-empty after the patch. */
  predicate KeepsRequired(v: Video, body: map<string, BodyValue>)
  {
    forall p: Path | RequiredPath(p) :: PatchedValue(v, body, p) != TextValue("")
  }

  /** The required strings of a document are its required paths. */
  lemma HasRequiredByPaths(v: Video)
    ensures HasRequired(v) <==> forall p: Path | RequiredPath(p) :: Get(v, p) != TextValue("")
  {
    assert RequiredPath(Title) && RequiredPath(Description) && RequiredPath(VideoFile);
    assert RequiredPath(VideoPublicId) && RequiredPath(Thumbnail) && RequiredPath(ThumbnailPublicId);
    assert RequiredPath(Duration) && RequiredPath(Category);
  }

  /** The new upload for the video file passes the controller's check. */
  predicate VideoUploadAccepted(u: Option<Upload>)
  {
    u.Some? && u.value.url != "" && u.value.publicId != "" && u.value.duration.Some? && u.value.duration.value != 0.0
  }

  /** The new upload for the thumbnail passes the controller's check. */
  predicate ThumbnailUploadAccepted(u: Option<Upload>)
  {
    u.Some? && u.value.url != "" && u.value.publicId != ""
  }

  /** The video-file step of `updateVideo` fails: the new upload is
      rejected, or the asset it replaces cannot be deleted. */
  predicate VideoStepFails(v: Video, hasVideoFile: bool, videoUpload: Option<Upload>, videoDeleted: bool)
  {
    hasVideoFile && (!VideoUploadAccepted(videoUpload) || (v.videoPublicId != "" && !videoDeleted))
  }

  /** The thumbnail step of `updateVideo` fails, in the same two ways. */
  predicate ThumbnailStepFails(v: Video, hasThumbnail: bool, thumbnailUpload: Option<Upload>, thumbnailDeleted: bool)
  {
    hasThumbnail && (!ThumbnailUploadAccepted(thumbnailUpload) || (v.thumbnailPublicId != "" && !thumbnailDeleted))
  }

  /** One of the media steps fails. */
  predicate MediaStepsFail(v: Video, hasVideoFile: bool, videoUpload: Option<Upload>, videoDeleted: bool,
                           hasThumbnail: bool, thumbnailUpload: Option<Upload>, thumbnailDeleted: bool)
  {
    VideoStepFails(v, hasVideoFile, videoUpload, videoDeleted)
    || ThumbnailStepFails(v, hasThumbnail, thumbnailUpload, thumbnailDeleted)
  }

  /** The document after a successful video-file step. */
  function WithVideoFile(v: Video, hasVideoFile: bool, videoUpload: Option<Upload>): (r: Video)
    requires hasVideoFile ==> VideoUploadAccepted(videoUpload)
    ensures !hasVideoFile ==> r == v
    ensures hasVideoFile ==> r.videoFile == videoUpload.value.url && r.videoPublicId == videoUpload.value.publicId
                             && ParseDecimal(r.duration) == Some(videoUpload.value.duration.value.Floor)
    ensures forall p: Path | p !in {VideoFile, VideoPublicId, Duration} :: Get(r, p) == Get(v, p)
    ensures r.id == v.id && r.createdAt == v.createdAt
  {
    if hasVideoFile then
      v.(videoFile := videoUpload.value.url, videoPublicId := videoUpload.value.publicId,
         duration := DurationText(videoUpload.value.duration))
    else v
  }

  /** The document after a successful thumbnail step. */
  function WithThumbnail(v: Video, hasThumbnail: bool, thumbnailUpload: Option<Upload>): (r: Video)
    requires hasThumbnail ==> ThumbnailUploadAccepted(thumbnailUpload)
    ensures !hasThumbnail ==> r == v
    ensures hasThumbnail ==> r.thumbnail == thumbnailUpload.value.url
                             && r.thumbnailPublicId == thumbnailUpload.value.publicId
    ensures forall p: Path | p !in {Thumbnail, ThumbnailPublicId} :: Get(r, p) == Get(v, p)
    ensures r.id == v.id && r.createdAt == v.createdAt
  {
    if hasThumbnail then v.(thumbnail := thumbnailUpload.value.url, thumbnailPublicId := thumbnailUpload.value.publicId)
    else v
  }

  /** The document after both media steps succeed. */
  function WithMedia(v: Video, hasVideoFile: bool, videoUpload: Option<Upload>,
                     hasThumbnail: bool, thumbnailUpload: Option<Upload>): Video
    requires hasVideoFile ==> VideoUploadAccepted(videoUpload)
    requires hasThumbnail ==> ThumbnailUploadAccepted(thumbnailUpload)
  {
    WithThumbnail(WithVideoFile(v, hasVideoFile, videoUpload), hasThumbnail, thumbnailUpload)
  }

  /** The asset the video-file step destroys. */
  function DestroyedByVideoStep(v: Video, hasVideoFile: bool, videoUpload: Option<Upload>, videoDeleted: bool)
    : seq<Asset>
  {
    if hasVideoFile && VideoUploadAccepted(videoUpload) && v.videoPublicId != "" && videoDeleted
    then [VideoAsset(v.videoPublicId)] else []
  }

  /** The asset the thumbnail step destroys. */
  function DestroyedByThumbnailStep(v: Video, hasThumbnail: bool, thumbnailUpload: Option<Upload>,
                                    thumbnailDeleted: bool): seq<Asset>
  {
    if hasThumbnail && ThumbnailUploadAccepted(thumbnailUpload) && v.thumbnailPublicId != "" && thumbnailDeleted
    then [ImageAsset(v.thumbnailPublicId)] else []
  }

  /** The media-store objects the media steps destroy: each replaced asset
      whose deletion succeeds, up to the first step that fails. */
  function DestroyedByMedia(v: Video, hasVideoFile: bool, videoUpload: Option<Upload>, videoDeleted: bool,
                            hasThumbnail: bool, thumbnailUpload: Option<Upload>, thumbnailDeleted: bool): seq<Asset>
  {
    DestroyedByVideoStep(v, hasVideoFile, videoUpload, videoDeleted)
    + (if VideoStepFails(v, hasVideoFile, videoUpload, videoDeleted) then []
       else DestroyedByThumbnailStep(v, hasThumbnail, thumbnailUpload, thumbnailDeleted))
  }

  /** A successful media step changes only its own paths; an old asset is
      destroyed only once its replacement's upload has been accepted, and
      nothing is destroyed when no file is sent. */
  lemma MediaStepsShape(v: Video, hasVideoFile: bool, videoUpload: Option<Upload>, videoDeleted: bool,
                        hasThumbnail: bool, thumbnailUpload: Option<Upload>, thumbnailDeleted: bool)
    ensures !MediaStepsFail(v, hasVideoFile, videoUpload, videoDeleted, hasThumbnail, thumbnailUpload, thumbnailDeleted)
            ==> var r := WithMedia(v, hasVideoFile, videoUpload, hasThumbnail, thumbnailUpload);
                && (forall p: Path | p !in {VideoFile, VideoPublicId, Duration, Thumbnail, ThumbnailPublicId}
                      :: Get(r, p) == Get(v, p))
                && (hasVideoFile ==> r.videoFile == videoUpload.value.url
                                     && ParseDecimal(r.duration) == Some(videoUpload.value.duration.value.Floor))
                && (hasThumbnail ==> r.thumbnail == thumbnailUpload.value.url)
    ensures var d := DestroyedByMedia(v, hasVideoFile, videoUpload, videoDeleted,
                                      hasThumbnail, thumbnailUpload, thumbnailDeleted);
            && (VideoAsset(v.videoPublicId) in d ==> hasVideoFile && VideoUploadAccepted(videoUpload))
            && (ImageAsset(v.thumbnailPublicId) in d ==> hasThumbnail && ThumbnailUploadAccepted(thumbnailUpload))
            && (forall a | a in d :: a == VideoAsset(v.videoPublicId) || a == ImageAsset(v.thumbnailPublicId))
            && (!hasVideoFile && !hasThumbnail ==> d == [])
  {
    if !MediaStepsFail(v, hasVideoFile, videoUpload, videoDeleted, hasThumbnail, thumbnailUpload, thumbnailDeleted) {
      var a := WithVideoFile(v, hasVideoFile, videoUpload);
      var r := WithThumbnail(a, hasThumbnail, thumbnailUpload);
      forall p: Path | p !in {VideoFile, VideoPublicId, Duration, Thumbnail, ThumbnailPublicId}
        ensures Get(r, p) == Get(v, p)
      {
        assert Get(r, p) == Get(a, p);
      }
      if hasThumbnail {
        assert Get(r, VideoFile) == Get(a, VideoFile) && Get(r, Duration) == Get(a, Duration);
      }
    }
  }

  /** The video-file step: check the upload, delete the asset it replaces,
      take the new URL, public id and duration. */
  method ReplaceVideoFile(v: Video, hasVideoFile: bool, videoUpload: Option<Upload>, videoDeleted: bool)
    returns (ok: bool, r: Video, destroyed: seq<Asset>)
    ensures ok <==> !VideoStepFails(v, hasVideoFile, videoUpload, videoDeleted)
    ensures destroyed == DestroyedByVideoStep(v, hasVideoFile, videoUpload, videoDeleted)
    ensures ok ==> r == WithVideoFile(v, hasVideoFile, videoUpload)
  {
    r, destroyed := v, [];
    if hasVideoFile {
      if !VideoUploadAccepted(videoUpload) {
        return false, r, destroyed;
      }
      if r.videoPublicId != "" {
        if !videoDeleted {
          return false, r, destroyed;
        }
        destroyed := [VideoAsset(r.videoPublicId)];
      }
      var u := videoUpload.value;
      r := r.(videoFile := u.url);
      r := r.(videoPublicId := u.publicId);
      r := r.(duration := DurationText(u.duration));
    }
    return true, r, destroyed;
  }

  /** The thumbnail step: check the upload, delete the image it replaces,
      take the new URL and public id. */
  method ReplaceThumbnail(v: Video, hasThumbnail: bool, thumbnailUpload: Option<Upload>, thumbnailDeleted: bool)
    returns (ok: bool, r: Video, destroyed: seq<Asset>)
    ensures ok <==> !ThumbnailStepFails(v, hasThumbnail, thumbnailUpload, thumbnailDeleted)
    ensures destroyed == DestroyedByThumbnailStep(v, hasThumbnail, thumbnailUpload, thumbnailDeleted)
    ensures ok ==> r == WithThumbnail(v, hasThumbnail, thumbnailUpload)
  {
    r, destroyed := v, [];
    if hasThumbnail {
      if !ThumbnailUploadAccepted(thumbnailUpload) {
        return false, r, destroyed;
      }
      if r.thumbnailPublicId != "" {
        if !thumbnailDeleted {
          return false, r, destroyed;
        }
        destroyed := [ImageAsset(r.thumbnailPublicId)];
      }
      var u := thumbnailUpload.value;
      r := r.(thumbnail := u.url);
      r := r.(thumbnailPublicId := u.publicId);
    }
    return true, r, destroyed;
  }

  /** The media steps of `updateVideo`, the video file first. */
  method ReplaceMedia(v: Video, hasVideoFile: bool, videoUpload: Option<Upload>, videoDeleted: bool,
                      hasThumbnail: bool, thumbnailUpload: Option<Upload>, thumbnailDeleted: bool)
    returns (ok: bool, r: Video, destroyed: seq<Asset>)
    ensures ok <==> !MediaStepsFail(v, hasVideoFile, videoUpload, videoDeleted,
                                    hasThumbnail, thumbnailUpload, thumbnailDeleted)
    ensures destroyed == DestroyedByMedia(v, hasVideoFile, videoUpload, videoDeleted,
                                          hasThumbnail, thumbnailUpload, thumbnailDeleted)
    ensures ok ==> r == WithMedia(v, hasVideoFile, videoUpload, hasThumbnail, thumbnailUpload)
  {
    var first;
    ok, r, destroyed := ReplaceVideoFile(v, hasVideoFile, videoUpload, videoDeleted);
    if !ok {
      return;
    }
    assert r.thumbnailPublicId == v.thumbnailPublicId by {
      assert Get(r, ThumbnailPublicId) == Get(v, ThumbnailPublicId);
    }
    first := destroyed;
    var second;
    ok, r, second := ReplaceThumbnail(r, hasThumbnail, thumbnailUpload, thumbnailDeleted);
    destroyed := first + second;
  }

  /** Replacing a video by one with the same identifier keeps identifiers
      unique. */
  lemma SameIdKeepsUnique(videos: seq<Video>, i: nat, w: Video)
    requires UniqueIds(videos) && i < |videos| && w.id == videos[i].id
    ensures UniqueIds(videos[i := w])
  {
    var r := videos[i := w];
    forall a, b | 0 <= a < b < |r|
      ensures r[a].id != r[b].id
    {
      assert r[a].id == videos[a].id && r[b].id == videos[b].id;
    }
  }

  /** The request: `videoParam` is the raw route parameter, `caller` the
      caller, `body` the request body; the flags say whether a new file was
      sent and whether deleting the asset it replaces succeeds. On success
      the stored document is replaced by the patched one; on any failure the
      stored document is unchanged, though assets destroyed before the
      failure stay destroyed. */
  method UpdateVideo(db: Store, caller: ObjectId, videoParam: string, body: map<string, BodyValue>,
                     hasVideoFile: bool, videoUpload: Option<Upload>, videoDeleted: bool,
                     hasThumbnail: bool, thumbnailUpload: Option<Upload>, thumbnailDeleted: bool)
    returns (r: Result<Video>, destroyed: seq<Asset>)
    requires db.Valid()
    modifies db
    ensures db.Valid()
    ensures Cast(videoParam).None? ==> r == Err(Internal) && destroyed == []
    ensures Cast(videoParam).Some? && FindIndex(old(db.videos), Cast(videoParam).value).None? ==>
              r == Err(NotFound) && destroyed == []
    ensures Cast(videoParam).Some? && FindIndex(old(db.videos), Cast(videoParam).value).Some? ==>
              var i := FindIndex(old(db.videos), Cast(videoParam).value).value;
              var v := old(db.videos)[i];
              && (v.owner != caller ==> r == Err(Unauthorized) && destroyed == [])
              && (v.owner == caller ==>
                    && destroyed == DestroyedByMedia(v, hasVideoFile, videoUpload, videoDeleted,
                                                     hasThumbnail, thumbnailUpload, thumbnailDeleted)
                    && (MediaStepsFail(v, hasVideoFile, videoUpload, videoDeleted,
                                       hasThumbnail, thumbnailUpload, thumbnailDeleted) ==>
                          r == Err(Internal))
                    && (!MediaStepsFail(v, hasVideoFile, videoUpload, videoDeleted,
                                        hasThumbnail, thumbnailUpload, thumbnailDeleted) ==>
                          var m := WithMedia(v, hasVideoFile, videoUpload, hasThumbnail, thumbnailUpload);
                          && (r.Ok? <==> !CastFails(body) && KeepsRequired(m, body))
                          && (r.Err? ==> r == Err(Internal))
                          && (r.Ok? ==>
                                && db.videos == old(db.videos)[i := r.value]
                                && r.value.id == v.id && r.value.createdAt == v.createdAt
                                && forall p: Path :: Get(r.value, p) == PatchedValue(m, body, p))))
    ensures r.Err? ==> db.videos == old(db.videos)
    ensures db.likes == old(db.likes) && db.subscriptions == old(db.subscriptions)
    ensures db.views == old(db.views) && db.users == old(db.users)
  {
    destroyed := [];
    // `Video.findById` casts the identifier and rejects a malformed one.
    var cast := Cast(videoParam);
    if cast.None? {
      return Err(Internal), destroyed;
    }
    var found := FindIndex(db.videos, cast.value);
    if found.None? {
      return Err(NotFound), destroyed;
    }
    var i := found.value;
    var video := db.videos[i];
    if video.owner != caller {
      return Err(Unauthorized), destroyed;
    }
    var mediaOk;
    mediaOk, video, destroyed := ReplaceMedia(video, hasVideoFile, videoUpload, videoDeleted,
                                              hasThumbnail, thumbnailUpload, thumbnailDeleted);
    if !mediaOk {
      return Err(Internal), destroyed;
    }
    ghost var m := video;
    var castFailed;
    video, castFailed := ApplyUpdates(video, body);
    HasRequiredByPaths(video);
    // `save()` rejects a failed cast and a required path left empty.
    if castFailed || !HasRequired(video) {
      return Err(Internal), destroyed;
    }
    SameIdKeepsUnique(db.videos, i, video);
    db.videos := db.videos[i := video];
    return Ok(video), destroyed;
  }
  // deleteVideo

  /** The assets `deleteVideo` destroys: each non-empty public id whose
      deletion succeeds. A failed deletion is logged and ignored. */
  function DestroyedByDelete(v: Video, videoDeleted: bool, thumbnailDeleted: bool): seq<Asset>
  {
    (if v.videoPublicId != "" && videoDeleted then [VideoAsset(v.videoPublicId)] else [])
    + (if v.thumbnailPublicId != "" && thumbnailDeleted then [ImageAsset(v.thumbnailPublicId)] else [])
  }

  /** Removing the video at position `i` keeps identifiers unique, removes
      its identifier from the collection and keeps every other video in
      order. */
  lemma RemoveAtShape(videos: seq<Video>, i: nat)
    requires UniqueIds(videos) && i < |videos|
    ensures var rest := videos[..i] + videos[i + 1..];
            && UniqueIds(rest)
            && |rest| == |videos| - 1
            && (forall j | 0 <= j < |rest| :: rest[j].id != videos[i].id)
            && (forall j | 0 <= j < |videos| && j != i :: videos[j] in rest)
  {
    var rest := videos[..i] + videos[i + 1..];
    forall j | 0 <= j < |rest|
      ensures rest[j] == videos[if j < i then j else j + 1]
    {
    }
    forall j | 0 <= j < |videos| && j != i
      ensures videos[j] in rest
    {
      assert videos[j] == rest[if j < i then j else j - 1];
    }
  }

  /** The request: `videoParam` is the raw route parameter, `caller` the
      caller, and the flags say whether the two asset deletions succeed. The
      likes, views and history entries of the video are left in place. */
  method DeleteVideo(db: Store, caller: ObjectId, videoParam: string, videoDeleted: bool, thumbnailDeleted: bool)
    returns (r: Result<()>, destroyed: seq<Asset>)
    requires db.Valid()
    modifies db
    ensures db.Valid()
    ensures Cast(videoParam).None? ==> r == Err(Internal)
    ensures Cast(videoParam).Some? && FindIndex(old(db.videos), Cast(videoParam).value).None? ==> r == Err(NotFound)
    ensures Cast(videoParam).Some? && FindIndex(old(db.videos), Cast(videoParam).value).Some? ==>
              var i := FindIndex(old(db.videos), Cast(videoParam).value).value;
              var v := old(db.videos)[i];
              && (v.owner != caller ==> r == Err(Unauthorized))
              && (v.owner == caller ==>
                    && r == Ok(())
                    && db.videos == old(db.videos)[..i] + old(db.videos)[i + 1..]
                    && destroyed == DestroyedByDelete(v, videoDeleted, thumbnailDeleted))
    ensures r.Err? ==> db.videos == old(db.videos) && destroyed == []
    ensures db.likes == old(db.likes) && db.subscriptions == old(db.subscriptions)
    ensures db.views == old(db.views) && db.users == old(db.users)
  {
    destroyed := [];
    var cast := Cast(videoParam);
    if cast.None? {
      return Err(Internal), destroyed;
    }
    var found := FindIndex(db.videos, cast.value);
    if found.None? {
      return Err(NotFound), destroyed;
    }
    var i := found.value;
    var video := db.videos[i];
    if video.owner != caller {
      return Err(Unauthorized), destroyed;
    }
    if video.videoPublicId != "" && videoDeleted {
      destroyed := destroyed + [VideoAsset(video.videoPublicId)];
    }
    if video.thumbnailPublicId != "" && thumbnailDeleted {
      destroyed := destroyed + [ImageAsset(video.thumbnailPublicId)];
    }
    RemoveAtShape(db.videos, i);
    db.videos := db.videos[..i] + db.videos[i + 1..];
    return Ok(()), destroyed;
  }
}

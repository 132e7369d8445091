/** The gallery's record type and the pure expressions the `App` component
    evaluates over it: MIME-prefix tests, the owner/admin check, lookup and
    removal by id, the derived counts, the per-video playback descriptors and
    the construction of new records from uploaded files. */
module Media {
  import opened Common

  /** One uploaded photo or video (the `MediaItem` interface). */
  datatype MediaItem = MediaItem(
    id: string,
    fileName: string,
    fileType: string,     // MIME type, e.g. "image/jpeg"
    fileData: string,     // the data URI produced by the file reader
    uploaderId: string,   // session identity of the uploader
    createdAt: string,    // ISO-8601 timestamp
    aspectRatio: real)    // height / width, as probed

  /** The distinguished identity that may delete every record. */
  const Admin: string := "admin"

  const ImagePrefix: string := "image/"
  const VideoPrefix: string := "video/"

  /** `s.startsWith(prefix)`. */
  predicate StartsWith(s: string, prefix: string)
  {
    |prefix| <= |s| && s[..|prefix|] == prefix
  }

  /** `fileType.startsWith('image/')`: the type is "image/" followed by anything. */
  predicate IsImage(fileType: string)
  {
    StartsWith(fileType, ImagePrefix)
  }

  /** `fileType.startsWith('video/')`: the type is "video/" followed by anything. */
  predicate IsVideo(fileType: string)
  {
    StartsWith(fileType, VideoPrefix)
  }

  /** The upload filter: only images and videos become records. A file that
      passes it takes exactly one of the two probe branches. */
  predicate IsMedia(fileType: string)
    ensures IsMedia(fileType) ==> (IsImage(fileType) <==> !IsVideo(fileType))
    ensures !IsMedia(fileType) ==> |fileType| < 6 || (fileType[..6] != "image/" && fileType[..6] != "video/")
  {
    ImageIsNotVideo(fileType);
    IsImage(fileType) || IsVideo(fileType)
  }

  /** No MIME type is both an image and a video type. */
  lemma ImageIsNotVideo(fileType: string)
    ensures !(IsImage(fileType) && IsVideo(fileType))
  {
  }

  /** The caller may delete `item` when it uploaded it or is the admin. */
  predicate CanDelete(item: MediaItem, userId: string)
  {
    item.uploaderId == userId || userId == Admin
  }

  /** `items.find(m => m.id === id)`: the first record carrying `id`. */
  function FindById(items: seq<MediaItem>, id: string): (r: Option<MediaItem>)
    ensures r.None? <==> forall k :: 0 <= k < |items| ==> items[k].id != id
    ensures r.Some? ==> exists k :: 0 <= k < |items| && items[k] == r.value && r.value.id == id &&
                          forall j :: 0 <= j < k ==> items[j].id != id
  {
    if items == [] then None
    else if items[0].id == id then Some(items[0])
    else
      var r := FindById(items[1..], id);
      if r.Some? then
        var k :| 0 <= k < |items| - 1 && items[1..][k] == r.value && r.value.id == id &&
                 forall j :: 0 <= j < k ==> items[1..][j].id != id;
        assert items[k + 1] == r.value;
        r
      else r
  }

  /** Whether a delete request for `id` by `userId` passes the guard of
      `deleteMedia`: a record with that id exists and the first such record
      may be deleted by the caller. */
  predicate Authorized(items: seq<MediaItem>, id: string, userId: string)
    ensures Authorized(items, id, userId) <==>
            exists k :: 0 <= k < |items| && items[k].id == id &&
                        (forall j :: 0 <= j < k ==> items[j].id != id) &&
                        CanDelete(items[k], userId)
  {
    var found := FindById(items, id);
    found.Some? && CanDelete(found.value, userId)
  }

  /** The predicate of the delete filter: the record does not carry `id`. */
  function OtherThan(id: string): MediaItem -> bool
  {
    (m: MediaItem) => m.id != id
  }

  predicate IsImageItem(m: MediaItem) { IsImage(m.fileType) }

  predicate IsVideoItem(m: MediaItem) { IsVideo(m.fileType) }

  predicate IsMediaUpload(f: Upload) { IsMedia(f.fileType) }

  /** `items.filter(m => m.id !== id)`. */
  function WithoutId(items: seq<MediaItem>, id: string): (r: seq<MediaItem>)
    ensures forall k :: 0 <= k < |r| ==> r[k].id != id && r[k] in items
    ensures forall k :: 0 <= k < |items| && items[k].id != id ==> items[k] in r
  {
    Filter(OtherThan(id), items)
  }

  /** The records that carry `id`, i.e. those a delete of `id` drops. */
  function WithId(items: seq<MediaItem>, id: string): seq<MediaItem>
  {
    Filter(Not(OtherThan(id)), items)
  }

  /** A delete removes exactly the records with that id: what it keeps and
      what it drops add up to the old collection, with multiplicity, and it
      keeps the survivors' relative order across any split of the list. */
  lemma WithoutIdRemovesExactly(items: seq<MediaItem>, id: string, front: seq<MediaItem>, back: seq<MediaItem>)
    requires items == front + back
    ensures multiset(WithoutId(items, id)) + multiset(WithId(items, id)) == multiset(items)
    ensures forall k :: 0 <= k < |WithId(items, id)| ==> WithId(items, id)[k].id == id
    ensures WithoutId(items, id) == WithoutId(front, id) + WithoutId(back, id)
  {
    FilterPartition(OtherThan(id), items);
    FilterAppend(OtherThan(id), front, back);
  }

  /** Deleting an id no record carries leaves the collection as it was, and
      deleting the same id twice is deleting it once. */
  lemma WithoutIdNoOp(items: seq<MediaItem>, id: string)
    ensures (forall k :: 0 <= k < |items| ==> items[k].id != id) ==> WithoutId(items, id) == items
    ensures WithoutId(WithoutId(items, id), id) == WithoutId(items, id)
  {
    if forall k :: 0 <= k < |items| ==> items[k].id != id {
      FilterKeepsAll(OtherThan(id), items);
    }
    FilterIdempotent(OtherThan(id), items);
  }

  /** No two records share an id. */
  predicate UniqueIds(items: seq<MediaItem>)
  {
    forall i, j :: 0 <= i < j < |items| ==> items[i].id != items[j].id
  }

  /** When ids are unique, an authorized delete only removes records the
      caller may delete. */
  lemma AuthorizedDeleteRemovesOnlyOwn(items: seq<MediaItem>, id: string, userId: string)
    requires UniqueIds(items)
    requires Authorized(items, id, userId)
    ensures forall k :: 0 <= k < |items| && items[k].id == id ==> CanDelete(items[k], userId)
    ensures |WithId(items, id)| == 1
  {
    var found := FindById(items, id).value;
    var f :| 0 <= f < |items| && items[f] == found && found.id == id &&
             forall j :: 0 <= j < f ==> items[j].id != id;
    forall k | 0 <= k < |items| && items[k].id == id
      ensures k == f
    {
    }
    OnlyOneWithId(items, id, f);
  }

  /** With unique ids, the only record carrying the id of `items[f]` is that record. */
  lemma {:induction false} OnlyOneWithId(items: seq<MediaItem>, id: string, f: nat)
    requires UniqueIds(items)
    requires f < |items| && items[f].id == id
    ensures WithId(items, id) == [items[f]]
  {
    var p := Not(OtherThan(id));
    assert items == items[..f] + [items[f]] + items[f + 1..];
    FilterAppend(p, items[..f] + [items[f]], items[f + 1..]);
    FilterAppend(p, items[..f], [items[f]]);
    assert forall x :: x in items[..f] ==> !p(x);
    assert forall x :: x in items[f + 1..] ==> !p(x);
    NoneKept(p, items[..f]);
    NoneKept(p, items[f + 1..]);
  }

  lemma {:induction false} NoneKept(p: MediaItem -> bool, s: seq<MediaItem>)
    requires forall x :: x in s ==> !p(x)
    ensures Filter(p, s) == []
  {
    if s != [] {
      assert s[0] in s;
      assert forall x :: x in s[1..] ==> x in s;
      NoneKept(p, s[1..]);
    }
  }

  /** Without unique ids the guard checks only the first record with the id,
      yet the filter drops every record with it: here the caller removes a
      record uploaded by someone else. */
  lemma DuplicateIdDeletesForeignRecord()
    ensures var mine := MediaItem("media-1", "a.jpg", "image/jpeg", "data:a", "user-a", "t0", 1.0);
            var theirs := MediaItem("media-1", "b.jpg", "image/jpeg", "data:b", "user-b", "t1", 1.0);
            Authorized([mine, theirs], "media-1", "user-a") &&
            !CanDelete(theirs, "user-a") &&
            theirs !in WithoutId([mine, theirs], "media-1")
  {
  }

  // ---------------------------------------------------------------------
  // Derived counts shown in the header

  /** `mediaItems.filter(m => m.file_type.startsWith('image/')).length`. */
  function ImageCount(items: seq<MediaItem>): (n: nat)
    ensures n <= |items|
    ensures n == 0 <==> forall k :: 0 <= k < |items| ==> !IsImage(items[k].fileType)
  {
    var kept := Filter(IsImageItem, items);
    assert kept != [] ==> IsImageItem(kept[0]) && kept[0] in items;
    |kept|
  }

  /** `mediaItems.filter(m => m.file_type.startsWith('video/')).length`. */
  function VideoCount(items: seq<MediaItem>): (n: nat)
    ensures n <= |items|
    ensures n == 0 <==> forall k :: 0 <= k < |items| ==> !IsVideo(items[k].fileType)
  {
    var kept := Filter(IsVideoItem, items);
    assert kept != [] ==> IsVideoItem(kept[0]) && kept[0] in items;
    |kept|
  }

  /** Images and videos together never exceed the total. */
  lemma CountsWithinTotal(items: seq<MediaItem>)
    ensures ImageCount(items) + VideoCount(items) <= |items|
  {
    forall m: MediaItem ensures IsImage(m.fileType) ==> !IsVideo(m.fileType) {
      ImageIsNotVideo(m.fileType);
    }
    FilterDisjointLength(IsImageItem, IsVideoItem, items);
  }

  /** When every record is an image or a video (as every uploaded one is),
      the two counts add up to the total. */
  lemma CountsCoverMedia(items: seq<MediaItem>)
    requires forall k :: 0 <= k < |items| ==> IsMedia(items[k].fileType)
    ensures ImageCount(items) + VideoCount(items) == |items|
  {
    forall m: MediaItem ensures IsImage(m.fileType) ==> !IsVideo(m.fileType) {
      ImageIsNotVideo(m.fileType);
    }
    FilterCoverLength(IsImageItem, IsVideoItem, items);
  }

  // ---------------------------------------------------------------------
  // Playback descriptors of videos

  datatype VideoState = VideoState(playing: bool, muted: bool)

  /** The descriptor assumed for a video that has none yet. */
  const DefaultVideoState := VideoState(false, true)

  /** `videoStates[id] || { playing: false, muted: true }`. */
  function StateOf(states: map<string, VideoState>, id: string): VideoState
  {
    if id in states then states[id] else DefaultVideoState
  }

  /** The map after toggling `playing` of `id`. */
  function WithPlayingFlipped(states: map<string, VideoState>, id: string): (r: map<string, VideoState>)
    ensures r.Keys == states.Keys + {id}
    ensures StateOf(r, id).playing == !StateOf(states, id).playing
    ensures StateOf(r, id).muted == StateOf(states, id).muted
    ensures forall k :: k in states && k != id ==> r[k] == states[k]
  {
    var cur := StateOf(states, id);
    states[id := cur.(playing := !cur.playing)]
  }

  /** The map after toggling `muted` of `id`. */
  function WithMutedFlipped(states: map<string, VideoState>, id: string): (r: map<string, VideoState>)
    ensures r.Keys == states.Keys + {id}
    ensures StateOf(r, id).muted == !StateOf(states, id).muted
    ensures StateOf(r, id).playing == StateOf(states, id).playing
    ensures forall k :: k in states && k != id ==> r[k] == states[k]
  {
    var cur := StateOf(states, id);
    states[id := cur.(muted := !cur.muted)]
  }

  /** Toggling twice restores every video's observable descriptor, and the
      two toggles commute. */
  lemma TogglesInvolutiveAndCommute(states: map<string, VideoState>, id: string, other: string)
    ensures StateOf(WithPlayingFlipped(WithPlayingFlipped(states, id), id), other) == StateOf(states, other)
    ensures StateOf(WithMutedFlipped(WithMutedFlipped(states, id), id), other) == StateOf(states, other)
    ensures WithMutedFlipped(WithPlayingFlipped(states, id), id) == WithPlayingFlipped(WithMutedFlipped(states, id), id)
  {
  }

  // ---------------------------------------------------------------------
  // Records built from an upload batch

  /** One file of a dropped or picked `FileList`, together with the outcomes
      of the asynchronous work done on it: the data URI from the file reader
      (`None` when the read rejects), the height/width ratio from the image
      or video probe (`None` when the probe errors), and the id and timestamp
      generated for its record. Fields other than `name` and `fileType` are
      only consulted for files that pass the MIME filter. */
  datatype Upload = Upload(
    name: string,
    fileType: string,
    encoded: Option<string>,
    probe: Option<real>,
    id: string,
    createdAt: string)

  /** The files the upload loop does not skip, in input order. */
  function Accepted(files: seq<Upload>): (r: seq<Upload>)
    ensures |r| <= |files|
    ensures forall k :: 0 <= k < |r| ==> IsMedia(r[k].fileType) && r[k] in files
    ensures forall k :: 0 <= k < |files| && IsMedia(files[k].fileType) ==> files[k] in r
  {
    Filter(IsMediaUpload, files)
  }

  /** Every file in `files` was read successfully. */
  predicate AllEncoded(files: seq<Upload>)
  {
    forall k :: 0 <= k < |files| ==> files[k].encoded.Some?
  }

  /** The probed ratio, or 1 when the probe fails. */
  function AspectRatioOf(probe: Option<real>): real
  {
    if probe.Some? then probe.value else 1.0
  }

  /** The record the upload loop pushes for an accepted, encoded file. */
  function NewRecord(f: Upload, userId: string): MediaItem
    requires f.encoded.Some?
  {
    MediaItem(f.id, f.name, f.fileType, f.encoded.value, userId, f.createdAt, AspectRatioOf(f.probe))
  }

  /** The records for a sequence of encoded files, one per file, in order. */
  function NewRecords(files: seq<Upload>, userId: string): (r: seq<MediaItem>)
    requires AllEncoded(files)
    ensures |r| == |files|
  {
    if files == [] then [] else [NewRecord(files[0], userId)] + NewRecords(files[1..], userId)
  }

  lemma {:induction false} NewRecordsAppend(a: seq<Upload>, b: seq<Upload>, userId: string)
    requires AllEncoded(a) && AllEncoded(b)
    ensures AllEncoded(a + b)
    ensures NewRecords(a + b, userId) == NewRecords(a, userId) + NewRecords(b, userId)
  {
    if a != [] {
      assert (a + b)[0] == a[0];
      assert (a + b)[1..] == a[1..] + b;
      NewRecordsAppend(a[1..], b, userId);
      assert NewRecords(a + b, userId) == [NewRecord(a[0], userId)] + NewRecords(a[1..] + b, userId);
    } else {
      assert a + b == b;
    }
  }

  /** Each new record carries the caller's identity as uploader, the file's
      own name, type, data, id and timestamp, and the probed ratio or 1. */
  lemma {:induction false} NewRecordsFields(files: seq<Upload>, userId: string, k: nat)
    requires AllEncoded(files) && k < |files|
    ensures var r := NewRecords(files, userId)[k];
            r.uploaderId == userId && r.fileType == files[k].fileType &&
            r.fileName == files[k].name && r.fileData == files[k].encoded.value &&
            r.id == files[k].id && r.createdAt == files[k].createdAt &&
            r.aspectRatio == AspectRatioOf(files[k].probe)
  {
    if k > 0 {
      NewRecordsFields(files[1..], userId, k - 1);
    }
  }

  /** One step of the upload loop: the accepted prefix grows by the next
      file exactly when that file is an image or a video. */
  lemma AcceptedStep(files: seq<Upload>, i: nat)
    requires i < |files|
    ensures Accepted(files[..i + 1]) ==
            Accepted(files[..i]) + if IsMedia(files[i].fileType) then [files[i]] else []
  {
    assert files[..i + 1] == files[..i] + [files[i]];
    FilterAppend(IsMediaUpload, files[..i], [files[i]]);
    assert Filter(IsMediaUpload, [files[i]]) == if IsMediaUpload(files[i]) then [files[i]] else [];
  }

  /** The records of a fully read batch, field by field. */
  lemma BatchRecordsFields(files: seq<Upload>, userId: string)
    requires AllEncoded(Accepted(files))
    ensures var r := NewRecords(Accepted(files), userId);
            |r| == |Accepted(files)| <= |files| &&
            forall k :: 0 <= k < |r| ==>
              r[k].uploaderId == userId && r[k].fileType == Accepted(files)[k].fileType &&
              IsMedia(r[k].fileType) && r[k].aspectRatio == AspectRatioOf(Accepted(files)[k].probe)
  {
    forall k | 0 <= k < |Accepted(files)|
      ensures NewRecords(Accepted(files), userId)[k].uploaderId == userId
      ensures NewRecords(Accepted(files), userId)[k].fileType == Accepted(files)[k].fileType
      ensures NewRecords(Accepted(files), userId)[k].aspectRatio == AspectRatioOf(Accepted(files)[k].probe)
    {
      NewRecordsFields(Accepted(files), userId, k);
    }
  }

  /** An accepted file that cannot be read spoils the whole batch. */
  lemma UnreadFileSpoilsBatch(files: seq<Upload>, i: nat)
    requires i < |files| && IsMedia(files[i].fileType) && files[i].encoded.None?
    ensures !AllEncoded(Accepted(files))
  {
  }

  /** The MIME filter keeps exactly the image and video files, in input order. */
  lemma AcceptedExactly(files: seq<Upload>, front: seq<Upload>, back: seq<Upload>)
    requires files == front + back
    ensures forall k :: 0 <= k < |Accepted(files)| ==> IsMedia(Accepted(files)[k].fileType) && Accepted(files)[k] in files
    ensures forall k :: 0 <= k < |files| && IsMedia(files[k].fileType) ==> files[k] in Accepted(files)
    ensures Accepted(files) == Accepted(front) + Accepted(back)
  {
    FilterAppend(IsMediaUpload, front, back);
  }
}

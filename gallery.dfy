/** The state machine held by the `App` component: the ordered collection of
    records, the connection status, the local backup snapshot, the selection,
    the playback descriptors of videos and the upload flag, with one method
    per handler. Each handler runs as one atomic step over the state it was
    entered with; the outcomes of remote calls, file reads, media probes and
    storage writes are its parameters. */
module Gallery {
  import opened Common
  import opened Media

  datatype ConnectionStatus = Connecting | Connected | Offline

  /** How a remote insert or delete ends: it succeeds, it returns an
      `error`, or the call throws. */
  datatype RemoteOutcome = Succeeded | ReturnedError | Threw

  /** How the remote select of all records (newest first) ends: the rows it
      returned (`None` for a `null` payload), a returned `error`, or a throw. */
  datatype SelectOutcome = Rows(data: Option<seq<MediaItem>>) | SelectError | SelectThrew

  /** The imperative command a toggle sends to the registered video element. */
  datatype PlayerCommand = Play | Pause | SetMuted(muted: bool)

  /** The connection status a load ends in. */
  function LoadedStatus(outcome: SelectOutcome): ConnectionStatus
  {
    if outcome.Rows? then Connected else Offline
  }

  /** The collection a load ends with: the remote rows (empty for `null`) on
      success; otherwise the backup snapshot when one is stored and parses,
      and the collection as it was when neither holds. */
  function LoadedItems(items: seq<MediaItem>, backup: Option<seq<MediaItem>>,
                       outcome: SelectOutcome, parses: bool): (r: seq<MediaItem>)
    ensures outcome.Rows? && outcome.data.Some? ==> r == outcome.data.value
    ensures outcome.Rows? && outcome.data.None? ==> r == []
    ensures !outcome.Rows? ==> r == items || (backup.Some? && parses && r == backup.value)
    ensures !outcome.Rows? && (backup.None? || !parses) ==> r == items
    ensures !outcome.Rows? && backup.Some? && parses ==> r == backup.value
  {
    match outcome
    case Rows(data) => if data.Some? then data.value else []
    case _ => if backup.Some? && parses then backup.value else items
  }

  /** A successful load is authoritative: what the collection held before,
      including purely local records, has no influence on the result. */
  lemma LoadIsAuthoritative(before1: seq<MediaItem>, before2: seq<MediaItem>,
                            backup: Option<seq<MediaItem>>, rows: Option<seq<MediaItem>>, parses: bool)
    ensures LoadedItems(before1, backup, Rows(rows), parses) == LoadedItems(before2, backup, Rows(rows), parses)
    ensures rows.None? ==> LoadedItems(before1, backup, Rows(rows), parses) == []
    ensures LoadedStatus(Rows(rows)) == Connected
  {
  }

  /** Re-running a load with no mutation in between, and the same remote
      answer, yields the same collection and status. */
  lemma LoadIsIdempotent(items: seq<MediaItem>, backup: Option<seq<MediaItem>>,
                         outcome: SelectOutcome, parses: bool)
    ensures LoadedItems(LoadedItems(items, backup, outcome, parses), backup, outcome, parses)
            == LoadedItems(items, backup, outcome, parses)
  {
  }

  /** A failed load never empties the collection on its own: a stored
      snapshot that parses is restored, and without one the collection is
      kept. */
  lemma FailedLoadKeepsOrRestores(items: seq<MediaItem>, backup: Option<seq<MediaItem>>,
                                  outcome: SelectOutcome, parses: bool)
    requires !outcome.Rows?
    ensures LoadedItems(items, backup, outcome, parses) == items ||
            (backup.Some? && parses && LoadedItems(items, backup, outcome, parses) == backup.value)
    ensures backup.Some? && parses ==> LoadedItems(items, backup, outcome, parses) == backup.value
    ensures backup.None? || !parses ==> LoadedItems(items, backup, outcome, parses) == items
    ensures LoadedStatus(outcome) == Offline
  {
  }

  /** The loop of `handleFileUpload`: visits the files in order, skips every
      file that is neither an image nor a video, and pushes a record for each
      other one. A file whose read rejects abandons the batch (`ok` false). */
  method CollectNewItems(files: seq<Upload>, userId: string) returns (ok: bool, newItems: seq<MediaItem>)
    ensures ok <==> AllEncoded(Accepted(files))
    ensures ok ==> newItems == NewRecords(Accepted(files), userId)
    ensures ok ==> |newItems| == |Accepted(files)| <= |files|
    ensures ok ==> forall k :: 0 <= k < |newItems| ==>
                    newItems[k].uploaderId == userId &&
                    newItems[k].fileType == Accepted(files)[k].fileType &&
                    IsMedia(newItems[k].fileType) &&
                    newItems[k].aspectRatio == AspectRatioOf(Accepted(files)[k].probe)
  {
    newItems := [];
    var i := 0;
    while i < |files|
      invariant 0 <= i <= |files|
      invariant AllEncoded(Accepted(files[..i]))
      invariant newItems == NewRecords(Accepted(files[..i]), userId)
    {
      var file := files[i];
      AcceptedStep(files, i);
      if IsMedia(file.fileType) {
        if file.encoded.None? {
          UnreadFileSpoilsBatch(files, i);
          ok := false;
          return;
        }
        NewRecordsAppend(Accepted(files[..i]), [file], userId);
        assert NewRecords([file], userId) == [NewRecord(file, userId)] + NewRecords([], userId);
        newItems := newItems + [NewRecord(file, userId)];
        assert Accepted(files[..i + 1]) == Accepted(files[..i]) + [file];
      } else {
        assert Accepted(files[..i + 1]) == Accepted(files[..i]);
      }
      i := i + 1;
    }
    assert files[..i] == files;
    ok := true;
    BatchRecordsFields(files, userId);
  }

  class App {
    /** The session identity, read from or first written to storage. */
    const userId: string
    /** `mediaItems`: the ordered collection shown in the grid. */
    var items: seq<MediaItem>
    /** `selectedMedia`: the record open in the full-screen view. */
    var selected: Option<MediaItem>
    /** `isUploading`. */
    var uploading: bool
    /** `videoStates`: playback descriptors by record id. */
    var videoStates: map<string, VideoState>
    /** The ids for which a video element has been registered (`videoRefs`). */
    var videoElements: set<string>
    /** `connectionStatus`. */
    var status: ConnectionStatus
    /** The `nutcracker-media-backup` snapshot, `None` when nothing is stored. */
    var backup: Option<seq<MediaItem>>

    /** The component's initial state, before the first load. */
    constructor (userId: string, storedBackup: Option<seq<MediaItem>>)
      ensures this.userId == userId && items == [] && selected == None && !uploading
      ensures videoStates == map[] && videoElements == {}
      ensures status == Connecting && backup == storedBackup
    {
      this.userId := userId;
      items := [];
      selected := None;
      uploading := false;
      videoStates := map[];
      videoElements := {};
      status := Connecting;
      backup := storedBackup;
    }

    /** `loadMediaFromDatabase`, run on mount and on every change
        notification. `parses` says whether the stored snapshot parses. */
    method LoadMediaFromDatabase(outcome: SelectOutcome, parses: bool)
      modifies this`items, this`status
      ensures status == LoadedStatus(outcome)
      ensures items == LoadedItems(old(items), backup, outcome, parses)
    {
      status := Connecting;
      match outcome {
        case Rows(data) =>
          items := if data.Some? then data.value else [];
          status := Connected;
        case SelectError =>
          status := Offline;
          LoadMediaFromLocalStorage(parses);
        case SelectThrew =>
          status := Offline;
          LoadMediaFromLocalStorage(parses);
      }
    }

    /** `loadMediaFromLocalStorage`: replaces the collection with the stored
        snapshot when there is one and it parses; a parse error is swallowed. */
    method LoadMediaFromLocalStorage(parses: bool)
      modifies this`items
      ensures backup.Some? && parses ==> items == backup.value
      ensures backup.None? || !parses ==> items == old(items)
    {
      if backup.Some? && parses {
        items := backup.value;
      }
    }

    /** `saveToLocalStorageBackup`: overwrites the snapshot with the whole
        collection; a failing write (`storageOk` false) is swallowed and
        leaves the old snapshot. */
    method SaveToLocalStorageBackup(snapshot: seq<MediaItem>, storageOk: bool)
      modifies this`backup
      ensures backup == if storageOk then Some(snapshot) else old(backup)
    {
      if storageOk {
        backup := Some(snapshot);
      }
    }

    /** The local write path of an upload: append the batch and snapshot the
        whole resulting collection. */
    method AppendLocally(newItems: seq<MediaItem>, storageOk: bool)
      modifies this`items, this`backup
      ensures items == old(items) + newItems
      ensures backup == if storageOk then Some(items) else old(backup)
    {
      var updated := items + newItems;
      items := updated;
      SaveToLocalStorageBackup(updated, storageOk);
    }

    /** `handleFileUpload`. `inserted` is the batch sent to the remote insert,
        `None` when no insert is attempted. */
    method HandleFileUpload(files: seq<Upload>, insert: RemoteOutcome, storageOk: bool)
      returns (inserted: Option<seq<MediaItem>>)
      modifies this`items, this`backup, this`uploading
      // an empty file list returns before anything happens
      ensures files == [] ==>
                inserted == None && uploading == old(uploading) &&
                items == old(items) && backup == old(backup)
      // a rejected file read escapes the handler: the batch is lost and the
      // upload flag stays set
      ensures files != [] && !AllEncoded(Accepted(files)) ==>
                inserted == None && uploading &&
                items == old(items) && backup == old(backup)
      ensures files != [] && AllEncoded(Accepted(files)) ==>
                var batch := NewRecords(Accepted(files), userId);
                !uploading &&
                inserted == (if status == Connected then Some(batch) else None) &&
                if status == Connected && insert == Succeeded then
                  items == old(items) && backup == old(backup)
                else
                  items == old(items) + batch &&
                  backup == if storageOk then Some(items) else old(backup)
    {
      if files == [] {
        return None;
      }
      uploading := true;
      var ok, newItems := CollectNewItems(files, userId);
      if !ok {
        return None;
      }
      inserted := None;
      if status == Connected {
        inserted := Some(newItems);
        match insert {
          case Succeeded =>
          case ReturnedError =>
            AppendLocally(newItems, storageOk);
          case Threw =>
            AppendLocally(newItems, storageOk);
        }
      } else {
        AppendLocally(newItems, storageOk);
      }
      uploading := false;
    }

    /** `deleteMedia`. `remote` is the outcome of the remote delete, which
        only reaches the console; `remoteDelete` says whether one was issued. */
    method DeleteMedia(mediaId: string, remote: RemoteOutcome, storageOk: bool)
      returns (remoteDelete: bool)
      modifies this`items, this`backup, this`selected
      ensures !Authorized(old(items), mediaId, userId) ==>
                !remoteDelete && items == old(items) &&
                backup == old(backup) && selected == old(selected)
      ensures Authorized(old(items), mediaId, userId) ==>
                remoteDelete == (status == Connected) &&
                items == WithoutId(old(items), mediaId) &&
                backup == (if storageOk then Some(items) else old(backup)) &&
                selected == if old(selected).Some? && old(selected).value.id == mediaId
                            then None else old(selected)
    {
      var found := FindById(items, mediaId);
      if found.None? || (found.value.uploaderId != userId && userId != Admin) {
        return false;
      }
      remoteDelete := status == Connected;
      var updated := WithoutId(items, mediaId);
      items := updated;
      SaveToLocalStorageBackup(updated, storageOk);
      if selected.Some? && selected.value.id == mediaId {
        selected := None;
      }
    }

    /** `toggleVideoPlay`. */
    method ToggleVideoPlay(mediaId: string) returns (cmd: Option<PlayerCommand>)
      modifies this`videoStates
      ensures mediaId !in videoElements ==> cmd == None && videoStates == old(videoStates)
      ensures mediaId in videoElements ==>
                cmd == Some(if StateOf(old(videoStates), mediaId).playing then Pause else Play) &&
                videoStates == WithPlayingFlipped(old(videoStates), mediaId)
    {
      if mediaId !in videoElements {
        return None;
      }
      var current := StateOf(videoStates, mediaId);
      cmd := Some(if current.playing then Pause else Play);
      videoStates := WithPlayingFlipped(videoStates, mediaId);
    }

    /** `toggleVideoMute`. */
    method ToggleVideoMute(mediaId: string) returns (cmd: Option<PlayerCommand>)
      modifies this`videoStates
      ensures mediaId !in videoElements ==> cmd == None && videoStates == old(videoStates)
      ensures mediaId in videoElements ==>
                cmd == Some(SetMuted(!StateOf(old(videoStates), mediaId).muted)) &&
                videoStates == WithMutedFlipped(old(videoStates), mediaId)
    {
      if mediaId !in videoElements {
        return None;
      }
      var current := StateOf(videoStates, mediaId);
      cmd := Some(SetMuted(!current.muted));
      videoStates := WithMutedFlipped(videoStates, mediaId);
    }

    /** The `ref` callback of a rendered video: registers its element. */
    method RegisterVideoElement(mediaId: string)
      modifies this`videoElements
      ensures videoElements == old(videoElements) + {mediaId}
    {
      videoElements := videoElements + {mediaId};
    }

    /** Opening a record in the full-screen view, or closing it (`None`). */
    method Select(media: Option<MediaItem>)
      modifies this`selected
      ensures selected == media
    {
      selected := media;
    }
  }
}

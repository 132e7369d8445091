# Gallery state machine of the photo/video sharing app

This project models the controller inside the `App` component of a
single-page photo and video gallery. Users drop or pick files; images and
videos become `MediaItem` records. The records are stored remotely when the
backend is reachable. Otherwise they are appended locally and the whole
collection is written to the `nutcracker-media-backup` entry of local
storage. Records are deleted by their uploader or by the `"admin"` identity.
Videos carry a transient `{playing, muted}` descriptor.

The model has four modules:

- `Common` (`common.dfy`): an `Option` type and an order-preserving `Filter`
  (JavaScript's `Array.prototype.filter`), with lemmas. The lemmas cover
  distribution over concatenation, idempotence, the kept/dropped partition
  and the length of two disjoint filters.
- `Media` (`media.dfy`): the record type and the component's pure
  expressions. These are the MIME-prefix tests, the owner/admin predicate,
  `find` and `filter` by id, the image and video counts, and the playback
  descriptor maps. It also builds new records from an upload batch.
- `Gallery` (`gallery.dfy`): the class `App`, with one field per piece of
  component state and one method per handler. It also holds the upload loop
  as the method `CollectNewItems`, and the functions that state what a load
  ends in.
- `Scenarios` (`scenarios.dfy`): client methods holding concrete scenarios
  checked against the handlers' contracts alone: an offline image upload, a
  plain-text upload, a refused and an admin delete, a reconnect that drops
  local-only records, and play/mute toggling.

Each handler is one atomic step over the state it was entered with. This
matches the source: each handler reads `mediaItems` and `connectionStatus`
as captured when it was called. Everything the handler waited for is a
parameter:

- the remote select, insert and delete outcomes (`SelectOutcome`,
  `RemoteOutcome`);
- whether the stored snapshot parses;
- whether a local-storage write succeeds;
- per file, the data URI (absent when the read rejects), the probe result
  (absent when the probe errors), and the generated id and timestamp.

A remote change notification is modelled as one more call of
`LoadMediaFromDatabase`. The session identity is a constructor parameter.

Behaviour of the code worth noting:

- A rejected file read is not caught. It aborts the whole batch and leaves
  `isUploading` set (`src/App.tsx:110`).
- A failed remote read with a snapshot that does not parse leaves the
  collection as it was.
- After a successful remote insert, the collection and the snapshot are not
  changed. The new records appear only after the next load.
- A non-empty batch with no image or video still runs the write path. Offline
  it rewrites the snapshot, and connected it sends an empty insert.
- A failed local-storage write is swallowed and leaves the old snapshot
  (`src/App.tsx:93-95`). So "snapshot equals collection" holds only when the
  write succeeds.
- The delete guard checks the first record carrying the id. The filter then
  drops every record with that id. When ids collide, another user's record
  can be removed (`Media.DuplicateIdDeletesForeignRecord`). Ids are random
  and never checked for uniqueness.
- The probed aspect ratio is whatever the probe returns. Nothing keeps it
  positive.

## Model

| member | source | states |
|---|---|---|
| `Common.Filter` | src/App.tsx:234 | The result is no longer than the input. It holds exactly the input elements that satisfy the predicate. |
| `Media.ImageIsNotVideo` | src/App.tsx:425-429 | No MIME type starts with both `image/` and `video/`, so the two header counts never count the same record. |
| `Media.StartsWith` | src/App.tsx:105 | The definition of `startsWith`. It has no contract of its own; `IsMedia`, `ImageIsNotVideo` and `AcceptedExactly` prove what the prefix tests built on it mean. |
| `Media.IsImage` | src/App.tsx:113 | The definition of the `image/` test. It has no contract of its own; `ImageIsNotVideo`, `IsMedia` and `AcceptedExactly` prove its properties. |
| `Media.IsVideo` | src/App.tsx:115 | The definition of the `video/` test. It has no contract of its own; `ImageIsNotVideo`, `IsMedia` and `AcceptedExactly` prove its properties. |
| `Media.IsMedia` | src/App.tsx:105 | A file passing the upload filter is an image or a video but not both, so it takes exactly one probe branch. A file failing it is shorter than six characters or starts with neither prefix. |
| `Media.CanDelete` | src/App.tsx:213 | The definition of the delete permission, also used for the button at `:327`. It has no contract of its own; `Authorized`, `AuthorizedDeleteRemovesOnlyOwn` and `App.DeleteMedia` state what it permits. |
| `Media.Authorized` | src/App.tsx:212-213 | The delete guard passes iff some record has the id, no earlier record has it, and the caller may delete that first record. |
| `Media.ImageCount` | src/App.tsx:425 | The image count is at most the total, and it is zero iff no record has an `image/` type. |
| `Media.VideoCount` | src/App.tsx:429 | The video count is at most the total, and it is zero iff no record has a `video/` type. |
| `Media.StateOf` | src/App.tsx:247 | The definition of the descriptor lookup with its `{playing: false, muted: true}` default. It has no contract of its own; `WithPlayingFlipped` and `WithMutedFlipped` state the toggles in its terms. |
| `Media.Accepted` | src/App.tsx:104-107 | The accepted files are no more than the input. Each is an image or video file of the input, and every image or video file of the input is among them. |
| `Media.AspectRatioOf` | src/App.tsx:111-117 | The definition of the ratio, which is the probe's value or 1. It has no contract of its own; `NewRecordsFields` and `BatchRecordsFields` state the ratio each record gets. |
| `Media.NewRecord` | src/App.tsx:119-127 | The definition of the pushed record. It has no contract of its own; `NewRecordsFields` and `BatchRecordsFields` state its fields. |
| `Media.NewRecords` | src/App.tsx:129 | One record is built per encoded file. `NewRecordsAppend` and `NewRecordsFields` give their order and fields. |
| `Media.BatchRecordsFields` | src/App.tsx:104-130 | A fully read batch yields one record per accepted file. Each has the caller's id, that file's media type and its probed ratio or 1. |
| `Gallery.LoadedStatus` | src/App.tsx:61-75 | The definition of the status a load ends in. It has no contract of its own; `LoadIsAuthoritative` proves a read with rows ends `connected`, and `FailedLoadKeepsOrRestores` proves a failed read ends `offline`. |
| `Gallery.LoadedItems` | src/App.tsx:61-88 | Rows replace the collection, and a `null` payload gives the empty list. On a failed read, a stored snapshot that parses is restored (`:64`, `:73`, `:81`); otherwise the old collection is kept. |
| `Media.FindById` | src/App.tsx:212 | The result is `None` iff no record has the id. Otherwise it is the first record with that id, so no earlier record has it. |
| `Media.WithoutId` | src/App.tsx:234 | No record left has the id. Every record without the id is kept. |
| `Media.WithoutIdRemovesExactly` | src/App.tsx:234 | Kept records plus dropped records give the old collection as a multiset. Every dropped record has the id. Filtering distributes over any split of the list, so the survivors keep their relative order. |
| `Media.WithoutIdNoOp` | src/App.tsx:234 | Deleting an id that no record has leaves the list unchanged. Deleting the same id twice is the same as deleting it once. |
| `Media.AuthorizedDeleteRemovesOnlyOwn` | src/App.tsx:212-215 | With unique ids, after the guard passes, every record the filter drops can be deleted by the caller, and exactly one record is dropped. |
| `Media.OnlyOneWithId` | src/App.tsx:234 | With unique ids, the only record with a given record's id is that record. |
| `Media.DuplicateIdDeletesForeignRecord` | src/App.tsx:212-234 | With two records sharing an id, the guard passes on the caller's record and the filter also drops the other user's record. |
| `Media.CountsWithinTotal` | src/App.tsx:421-429 | The image count plus the video count is at most the total. |
| `Media.CountsCoverMedia` | src/App.tsx:421-429 | When every record is an image or a video, the two counts add up to the total. |
| `Media.WithPlayingFlipped` | src/App.tsx:247-258 | The entry for the id gets the negated `playing` of its current descriptor (default `{false, true}`) and keeps its `muted`. Every other entry is unchanged. |
| `Media.WithMutedFlipped` | src/App.tsx:265-271 | The entry for the id gets the negated `muted` and keeps its `playing`. Every other entry is unchanged. |
| `Media.TogglesInvolutiveAndCommute` | src/App.tsx:243-272 | Two play toggles, or two mute toggles, restore every video's descriptor. A play toggle and a mute toggle commute. |
| `Media.NewRecordsAppend` | src/App.tsx:129 | Records are built in file order: building for `a + b` gives the records for `a` followed by those for `b`. |
| `Media.NewRecordsFields` | src/App.tsx:111-127 | Each new record has the caller's identity as `uploader_id`, the file's name and type, its data URI, the generated id and timestamp, and the probe's ratio or 1 when the probe failed. |
| `Media.AcceptedExactly` | src/App.tsx:104-107 | The upload filter keeps exactly the `image/` and `video/` files, and keeps them in input order. |
| `Media.AcceptedStep` | src/App.tsx:104-107 | Each loop step adds the next file to the accepted list exactly when its type starts with `image/` or `video/`. |
| `Media.UnreadFileSpoilsBatch` | src/App.tsx:110 | If one accepted file cannot be read, the batch as a whole is not fully read. |
| `Gallery.LoadIsAuthoritative` | src/App.tsx:68-69 | After a successful read the status is `connected` and the collection is the remote rows, whatever it held before. A `null` payload gives the empty list. |
| `Gallery.LoadIsIdempotent` | src/App.tsx:53-88 | Loading again with the same outcome and no mutation in between gives the same collection. |
| `Gallery.FailedLoadKeepsOrRestores` | src/App.tsx:61-88 | A failed read ends `offline`. A stored snapshot that parses replaces the collection; without one the old collection is kept. |
| `Gallery.CollectNewItems` | src/App.tsx:104-130 | The loop succeeds iff every accepted file was read. It then returns one record per accepted file, in order. Each record carries the caller's id, the file's media type and the probed ratio or 1. |
| `Gallery.App.constructor` | src/App.tsx:16-29 | Starts with an empty collection, no selection, no upload running, no descriptors or video elements, status `connecting`, and the stored snapshot. |
| `Gallery.App.LoadMediaFromDatabase` | src/App.tsx:53-76 | Success sets `connected` and the remote rows (empty for `null`). An error or a throw sets `offline` and falls back to the snapshot. Selection and snapshot are untouched. |
| `Gallery.App.LoadMediaFromLocalStorage` | src/App.tsx:78-88 | The collection is replaced by the snapshot iff one is stored and parses. Otherwise it is unchanged. |
| `Gallery.App.SaveToLocalStorageBackup` | src/App.tsx:90-96 | The snapshot becomes the given collection when the write succeeds. It stays as it was when the write fails. |
| `Gallery.App.AppendLocally` | src/App.tsx:142-144 | The local write path: collection is old collection followed by the batch, and the snapshot is that whole collection. |
| `Gallery.App.HandleFileUpload` | src/App.tsx:98-161 | Covers every path. An empty file list changes nothing. A rejected read leaves everything unchanged but `isUploading` set. When connected, the batch is sent to the remote insert; a successful insert leaves the collection and snapshot unchanged. When not connected, or when the insert errs or throws, the collection is the old one plus the batch and the snapshot is the whole collection. |
| `Gallery.App.DeleteMedia` | src/App.tsx:211-241 | If the id is absent or the caller is neither the uploader nor `"admin"`: no remote delete, and collection, snapshot and selection are unchanged. Otherwise: a remote delete iff connected; the records with the id are removed whatever the remote outcome; the snapshot is the new collection; the selection is cleared iff it had that id. |
| `Gallery.App.ToggleVideoPlay` | src/App.tsx:243-259 | A no-op without a registered element. Otherwise it issues pause if the current descriptor is playing and play if not, and flips only that id's `playing`. |
| `Gallery.App.ToggleVideoMute` | src/App.tsx:261-272 | A no-op without a registered element. Otherwise it sets the element's muted flag to the negated current `muted` and flips only that id's `muted`. |
| `Gallery.App.RegisterVideoElement` | src/App.tsx:292 | The rendered video's element is registered for its id. Registrations are never removed. |
| `Gallery.App.Select` | src/App.tsx:287 | Opening or closing the full-screen view sets the selection to the given record or to none. |

## Left out

- JSX rendering, the masonry layout, drag-over styling and the modal are UI, not part of the state machine. `src/App.tsx:194-209` and `:274-506` are not part of this model, except the image and video counts (`:421-429`), the delete-button predicate (`:327`), the video `ref` registration (`:292`) and the selection setter (`:287`).
- The backend client `src/lib/supabase.ts` and the realtime subscription (`src/App.tsx:38-50`) are network I/O over a foreign library. Remote calls are outcome parameters, and a change notification is one more `LoadMediaFromDatabase` call.
- `fileToBase64`, `getImageAspectRatio` and `getVideoAspectRatio` (`src/App.tsx:163-192`) are browser APIs. The data URI and the probed ratio are parameters, and the ratio is a `real`, not an IEEE double.
- Id, timestamp and session-identity generation (`src/App.tsx:19-26`, `:120`, `:125`) use the clock and randomness. They are parameters, and id uniqueness is not assumed.
- JSON serialisation of the snapshot (`src/App.tsx:82`, `:92`). The snapshot is a sequence of records, and "does not parse" is a flag of the load. A stored value that parses to something other than a record list is not modelled. Neither is a non-finite aspect ratio turning into `null` on the round trip.
- Rows returned by the remote select are taken to be well-formed records.
- Interleaving of concurrent handlers is not modelled; each handler is one atomic step. So the `connecting` status while a load waits and `isUploading` while an upload waits are not observable between steps.
- Remote calls and file reads that never settle are not modelled; the handler then never finishes, leaving `connecting` or `isUploading` in place.
- Error logging to the console.

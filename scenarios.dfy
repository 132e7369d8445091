/** Client code that drives an `App` through the gallery's documented
    scenarios, using nothing but the handlers' contracts. */
module Scenarios {
  import opened Common
  import opened Media
  import opened Gallery

  /** An image probed at 2000x1000 uploaded while offline: the collection and
      the snapshot both hold exactly its record. */
  method OfflineImageUpload()
  {
    var app := new App("user-a", None);
    app.LoadMediaFromDatabase(SelectError, true);
    assert app.status == Offline && app.items == [];
    var photo := Upload("selfie.jpg", "image/jpeg", Some("data:image/jpeg;base64,AAAA"), Some(0.5), "media-1", "2024-12-01T10:00:00.000Z");
    assert IsMedia(photo.fileType);
    assert Accepted([photo]) == [photo];
    var inserted := app.HandleFileUpload([photo], Succeeded, true);
    var record := NewRecord(photo, "user-a");
    assert NewRecords([photo], "user-a") == [record];
    assert inserted == None;
    assert app.items == [record] && app.backup == Some([record]);
    assert record.uploaderId == "user-a" && IsImage(record.fileType) && record.aspectRatio == 0.5;
    assert !app.uploading;
  }

  /** A plain-text file adds nothing; offline, the snapshot is still
      rewritten with the (unchanged) collection. */
  method NonMediaUpload()
  {
    var app := new App("user-a", None);
    app.LoadMediaFromDatabase(SelectThrew, false);
    var notes := Upload("notes.txt", "text/plain", None, None, "media-2", "2024-12-01T10:00:00.000Z");
    assert notes.fileType[..6][0] != ImagePrefix[0] && notes.fileType[..6][0] != VideoPrefix[0];
    assert !IsImage(notes.fileType) && !IsVideo(notes.fileType);
    assert Accepted([notes]) == [];
    var inserted := app.HandleFileUpload([notes], Succeeded, true);
    assert app.items == [] && app.backup == Some([]);
    assert inserted == None;
  }

  /** User B may not delete user A's record; the admin may. */
  method ForeignAndAdminDelete()
  {
    var mine := MediaItem("media-1", "a.jpg", "image/jpeg", "data:a", "user-a", "t0", 1.0);
    var b := new App("user-b", None);
    b.LoadMediaFromDatabase(Rows(Some([mine])), true);
    assert b.status == Connected && b.items == [mine];
    var issued := b.DeleteMedia("media-1", Succeeded, true);
    assert !Authorized([mine], "media-1", "user-b");
    assert !issued && b.items == [mine] && b.backup == None;

    var admin := new App(Admin, None);
    admin.LoadMediaFromDatabase(Rows(Some([mine])), true);
    admin.Select(Some(mine));
    issued := admin.DeleteMedia("media-1", ReturnedError, true);
    assert FindById([mine], "media-1") == Some(mine);
    assert issued && admin.items == [] && admin.backup == Some([]) && admin.selected == None;
  }

  /** A startup read that fails leaves the app offline; a later successful
      read flips it to connected and drops records that were only local. */
  method ReconnectDiscardsLocalOnly(remote: seq<MediaItem>)
  {
    var app := new App("user-a", None);
    app.LoadMediaFromDatabase(SelectError, true);
    var clip := Upload("clip.mp4", "video/mp4", Some("data:video/mp4;base64,AAAA"), None, "media-3", "2024-12-01T10:00:00.000Z");
    assert IsMedia(clip.fileType);
    assert Accepted([clip]) == [clip];
    var _ := app.HandleFileUpload([clip], Succeeded, true);
    assert |app.items| == 1 && app.items[0].aspectRatio == 1.0;
    app.LoadMediaFromDatabase(Rows(Some(remote)), true);
    assert app.status == Connected && app.items == remote;
  }

  /** Toggling play on a registered video starts it, toggling again pauses
      it; an unregistered id is ignored. */
  method PlayPause()
  {
    var app := new App("user-a", None);
    var cmd := app.ToggleVideoPlay("media-4");
    assert cmd == None && app.videoStates == map[];
    app.RegisterVideoElement("media-4");
    cmd := app.ToggleVideoPlay("media-4");
    assert cmd == Some(Play) && StateOf(app.videoStates, "media-4") == VideoState(true, true);
    cmd := app.ToggleVideoMute("media-4");
    assert cmd == Some(SetMuted(false)) && StateOf(app.videoStates, "media-4") == VideoState(true, false);
    cmd := app.ToggleVideoPlay("media-4");
    assert cmd == Some(Pause) && StateOf(app.videoStates, "media-4") == VideoState(false, false);
  }
}

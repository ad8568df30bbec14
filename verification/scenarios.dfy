/** Worked end-to-end runs of the machine on small concrete libraries. */
module Scenarios {
  import opened Wrappers
  import opened Library
  import opened Playback
  import Engine
  import Text
  import opened Machine
  import opened Samples

  lemma RoadTripPieces()
    ensures Text.AllWhitespace("  ") && Text.AllWhitespace(" ")
    ensures Text.Trimmed("Road Trip")
    ensures "  " + "Road Trip" + " " == "  Road Trip "
  {
    assert Text.IsWhitespace(' ');
    assert !Text.IsWhitespace('R') && !Text.IsWhitespace('p');
  }

  lemma RoadTripTrim()
    ensures Text.Trim("  Road Trip ") == "Road Trip"
  {
    RoadTripPieces();
    Text.TrimOfPadded("  ", "Road Trip", " ");
  }

  /** Creating "  Road Trip " in an empty library stores playlist 1 named "Road Trip". */
  lemma RoadTripCreated()
    ensures var made := Engine.CreateNewPlaylist(Initial(EmptyStore).(dialog := Dialog(true, None, "  Road Trip ")));
      && made.store.playlists == map[1 := Playlist(1, "Road Trip", [])]
      && made.dialog == ClosedDialog
  {
    RoadTripTrim();
    assert !Text.AllWhitespace("  Road Trip ") by {
      assert "  Road Trip "[2] == 'R';
    }
  }

  /** Selecting a video in the dialog and adding it to an existing playlist appends it. */
  lemma AddThroughDialog(s: App, pid: PlaylistId, v: Video)
    requires pid in s.store.playlists && !Contains(s.store.playlists[pid].videos, v.videoId)
    ensures var r := Step(Step(s, OpenPlaylistDialog(Some(v))), AddVideoToExistingPlaylist(pid));
      && r.store.playlists[pid].videos == s.store.playlists[pid].videos + [v]
      && r.store.playlists.Keys == s.store.playlists.Keys
  {
  }

  /** With "Road Trip" = [A, B, C]: play it, then "next" three times: A@0, B@1, C@2, A@0. */
  lemma RoadTripPlays(s: App)
    requires 1 in s.store.playlists && s.store.playlists[1].videos == [A, B, C]
    ensures var p0 := Step(s, PlayPlaylist(1));
      var p1 := Step(p0, PlayNext);
      var p2 := Step(p1, PlayNext);
      var p3 := Step(p2, PlayNext);
      && p0.cursor.index == 0 && p0.session.playingVideoId == Some("a")
      && p1.cursor.index == 1 && p1.session.playingVideoId == Some("b")
      && p2.cursor.index == 2 && p2.session.playingVideoId == Some("c")
      && p3.cursor.index == 0 && p3.session.playingVideoId == Some("a")
      && p3.store.history == s.store.history + [A, B, C, A]
  {
    var p0 := Step(s, PlayPlaylist(1));
    var p1 := Step(p0, PlayNext);
    var p2 := Step(p1, PlayNext);
    var p3 := Step(p2, PlayNext);
    assert p3.store.history == s.store.history + [A] + [B] + [C] + [A];
  }

  /** While B plays at index 1 of [A, B, C], removing B moves playback to C at the same index. */
  lemma RemovePlayingMiddle()
    ensures var st := Store(map[], [], map[1 := Playlist(1, "Mix", [A, B, C])], 2);
      var s := App(Session(Some("b"), "B", true, 0.0, 0.0, false), Cursor(Some(1), [A, B, C], 1), Off, true,
                   st, ClosedDialog, View(None, None));
      var r := Step(s, RemoveVideoFromPlaylist(1, "b"));
      && r.cursor == Cursor(Some(1), [A, C], 1)
      && r.session.playingVideoId == Some("c")
      && r.store.history == [C]
  {
    WithoutSamples();
  }

  /** A blank playlist name is rejected and nothing changes. */
  lemma BlankNameRejected(s: App)
    requires s.dialog.newPlaylistName == " \t"
    ensures Step(s, CreateNewPlaylist) == s
  {
    assert Text.IsWhitespace(' ');
    assert Text.IsWhitespace('\t');
    assert Text.AllWhitespace(" \t");
  }
}

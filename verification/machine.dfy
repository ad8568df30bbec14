/**
 * The whole sequencing engine as one state machine: every user command and
 * player callback of src/App.jsx that touches the session, the cursor or the
 * library, dispatched to its handler, and the invariants every step keeps.
 */
module Machine {
  import opened Wrappers
  import opened Library
  import opened Playback
  import Engine

  datatype Command =
    | PlayVideo(video: Video)
    | ClosePlayer
    | PlayNext
    | PlayPrevious
    | PlayerReady
    | PlayerStateChange(event: Engine.PlayerEvent)
    | Seek(time: Seconds)
    | SetSeeking(seeking: bool)
    | TimerTick(now: Seconds)
    | PlayPlaylist(pid: PlaylistId)
    | ToggleFavorite(video: Video)
    | OpenPlaylistDialog(videoToAdd: Option<Video>)
    | SetNewPlaylistName(name: string)
    | CloseDialog
    | CreateNewPlaylist
    | ShowPlaylist(pid: PlaylistId)
    | DeletePlaylist(pid: PlaylistId, confirmed: bool)
    | RemoveVideoFromPlaylist(pid: PlaylistId, vid: VideoId)
    | AddVideoToExistingPlaylist(pid: PlaylistId)

  /**
   * The player widget and its seek bar are mounted only while a video is loaded,
   * so their callbacks reach the handlers only then.
   */
  predicate FromPlayerWidget(cmd: Command)
  {
    cmd.PlayerReady? || cmd.PlayerStateChange? || cmd.Seek? || cmd.SetSeeking?
  }

  function Step(s: App, cmd: Command): App
  {
    if FromPlayerWidget(cmd) && s.session.playingVideoId.None? then s
    else
      match cmd
      case PlayVideo(v) => Engine.PlayVideo(s, v)
      case ClosePlayer => Engine.ClosePlayer(s)
      case PlayNext => Engine.PlayNext(s)
      case PlayPrevious => Engine.PlayPrevious(s)
      case PlayerReady => Engine.OnPlayerReady(s)
      case PlayerStateChange(e) => Engine.OnPlayerStateChange(s, e)
      case Seek(t) => Engine.Seek(s, t)
      case SetSeeking(b) => Engine.SetSeeking(s, b)
      case TimerTick(now) => Engine.TickAsWritten(s, now)
      case PlayPlaylist(pid) => Engine.PlayPlaylist(s, pid)
      case ToggleFavorite(v) => Engine.ToggleFavorite(s, v)
      case OpenPlaylistDialog(v) => Engine.OpenDialog(s, v)
      case SetNewPlaylistName(name) => Engine.SetNewPlaylistName(s, name)
      case CloseDialog => Engine.CloseDialog(s)
      case CreateNewPlaylist => Engine.CreateNewPlaylist(s)
      case ShowPlaylist(pid) => Engine.ShowPlaylist(s, pid)
      case DeletePlaylist(pid, confirmed) => Engine.DeletePlaylist(s, pid, confirmed)
      case RemoveVideoFromPlaylist(pid, vid) => Engine.RemoveVideoFromPlaylist(s, pid, vid)
      case AddVideoToExistingPlaylist(pid) => Engine.AddVideoToExistingPlaylist(s, pid)
  }

  /** A sequence of commands applied in order. */
  function Run(s: App, cmds: seq<Command>): App
    decreases |cmds|
  {
    if cmds == [] then s else Run(Step(s, cmds[0]), cmds[1..])
  }

  /** Without a driving playlist the snapshot is empty and the index is 0. */
  ghost predicate UndrivenCursorIsIdle(s: App)
  {
    s.cursor.playlistId.None? ==> s.cursor.videos == [] && s.cursor.index == 0
  }

  /** A driving playlist exists in the library and the snapshot equals its current content. */
  ghost predicate SnapshotInSync(s: App)
  {
    s.cursor.playlistId.Some? ==>
      && s.cursor.playlistId.value in s.store.playlists
      && s.cursor.videos == s.store.playlists[s.cursor.playlistId.value].videos
  }

  /** With nothing loaded, nothing plays and no progress poll is left running. */
  ghost predicate IdleSessionIsSilent(s: App)
  {
    s.session.playingVideoId.None? ==> !s.session.isPlaying && s.timer.Off?
  }

  ghost predicate Inv(s: App)
  {
    && Valid(s.store)
    && UndrivenCursorIsIdle(s)
    && SnapshotInSync(s)
    && IdleSessionIsSilent(s)
  }

  lemma InitialInv(st: Store)
    requires Valid(st)
    ensures Inv(Initial(st))
  {
  }

  lemma PlayPlaylistInv(s: App, pid: PlaylistId)
    requires Inv(s)
    ensures Inv(Engine.PlayPlaylist(s, pid))
  {
  }

  lemma DeletePlaylistInv(s: App, pid: PlaylistId, confirmed: bool)
    requires Inv(s)
    ensures Inv(Engine.DeletePlaylist(s, pid, confirmed))
  {
    var r := Engine.DeletePlaylist(s, pid, confirmed);
    if confirmed && s.cursor.playlistId.Some? && s.cursor.playlistId != Some(pid) {
      var id := s.cursor.playlistId.value;
      assert id in r.store.playlists && r.store.playlists[id] == s.store.playlists[id];
    }
  }

  lemma RemoveVideoInv(s: App, pid: PlaylistId, vid: VideoId)
    requires Inv(s)
    ensures Inv(Engine.RemoveVideoFromPlaylist(s, pid, vid))
  {
    var r := Engine.RemoveVideoFromPlaylist(s, pid, vid);
    if pid in s.store.playlists && s.cursor.playlistId.Some? {
      var id := s.cursor.playlistId.value;
      var st := Library.RemoveVideoFromPlaylist(s.store, pid, vid).value;
      assert Valid(st);
      if id != pid {
        assert r.store == st;
        assert st.playlists[id] == s.store.playlists[id];
      } else {
        assert r.store.playlists == st.playlists;
      }
    }
  }

  lemma AddVideoInv(s: App, pid: PlaylistId)
    requires Inv(s)
    ensures Inv(Engine.AddVideoToExistingPlaylist(s, pid))
  {
    var r := Engine.AddVideoToExistingPlaylist(s, pid);
    if s.dialog.videoToAdd.Some? && pid in s.store.playlists && s.cursor.playlistId.Some? {
      var id := s.cursor.playlistId.value;
      if id != pid {
        assert r.store.playlists[id] == s.store.playlists[id];
      }
    }
  }

  lemma CreatePlaylistInv(s: App)
    requires Inv(s)
    ensures Inv(Engine.CreateNewPlaylist(s))
  {
  }

  lemma PlayNextInv(s: App)
    requires Inv(s)
    ensures Inv(Engine.PlayNext(s))
  {
  }

  lemma PlayPreviousInv(s: App)
    requires Inv(s)
    ensures Inv(Engine.PlayPrevious(s))
  {
  }

  lemma PlayerWidgetInv(s: App, cmd: Command)
    requires Inv(s) && FromPlayerWidget(cmd)
    ensures Inv(Step(s, cmd))
  {
    if s.session.playingVideoId.Some? {
      match cmd
      case PlayerStateChange(e) =>
        if s.playerReady && e.Ended? {
          PlayNextInv(s);
        }
      case _ =>
    }
  }

  /** Commands that only touch the session, the dialog or the view keep the invariant. */
  lemma LocalStepInv(s: App, cmd: Command)
    requires Inv(s)
    requires cmd.PlayVideo? || cmd.ClosePlayer? || cmd.TimerTick? || cmd.ToggleFavorite?
          || cmd.OpenPlaylistDialog? || cmd.SetNewPlaylistName? || cmd.CloseDialog? || cmd.ShowPlaylist?
    ensures Inv(Step(s, cmd))
  {
  }

  /** Every command keeps the invariant. */
  lemma StepPreservesInv(s: App, cmd: Command)
    requires Inv(s)
    ensures Inv(Step(s, cmd))
  {
    if FromPlayerWidget(cmd) {
      PlayerWidgetInv(s, cmd);
    } else {
      match cmd
      case PlayNext => PlayNextInv(s);
      case PlayPrevious => PlayPreviousInv(s);
      case PlayPlaylist(pid) => PlayPlaylistInv(s, pid);
      case DeletePlaylist(pid, confirmed) => DeletePlaylistInv(s, pid, confirmed);
      case RemoveVideoFromPlaylist(pid, vid) => RemoveVideoInv(s, pid, vid);
      case AddVideoToExistingPlaylist(pid) => AddVideoInv(s, pid);
      case CreateNewPlaylist => CreatePlaylistInv(s);
      case _ => LocalStepInv(s, cmd);
    }
  }

  /** Every run of commands from a valid start keeps the invariant. */
  lemma {:induction false} RunPreservesInv(s: App, cmds: seq<Command>)
    requires Inv(s)
    ensures Inv(Run(s, cmds))
    decreases |cmds|
  {
    if cmds != [] {
      StepPreservesInv(s, cmds[0]);
      RunPreservesInv(Step(s, cmds[0]), cmds[1..]);
    }
  }
}

/**
 * The sequencing handlers of src/App.jsx as written. Each React handler is one
 * atomic transition: it reads the values its closure captured before the call,
 * and when it calls a setter more than once (directly or through a handler it
 * invokes) the last write wins. Toasts, view reloads and calls into the
 * embedded player widget have no effect on this state and are not modelled.
 */
module Engine {
  import opened Wrappers
  import opened Library
  import opened Playback
  import Text

  /** A playlist drives playback and its snapshot is non-empty (the guard at src/App.jsx:350, :366, :412). */
  predicate Driving(s: App)
  {
    s.cursor.playlistId.Some? && |s.cursor.videos| > 0
  }

  /**
   * `r` is `s` with `v` loaded by `playVideo`: the session shows `v` from the start,
   * exactly one history entry for `v` is appended, and nothing outside the session,
   * the history and the cursor changes.
   */
  ghost predicate Started(s: App, r: App, v: Video)
  {
    && r.session == Session(Some(v.videoId), v.title, true, 0.0, 0.0, s.session.isSeeking)
    && r.store.history == s.store.history + [v]
    && r.store == s.store.(history := r.store.history)
    && r.timer == s.timer
    && r.playerReady == s.playerReady
    && r.dialog == s.dialog
    && r.view == s.view
  }

  /** `r` is `s` after `handleClosePlayer`: idle session and cursor, poll cancelled, library untouched. */
  ghost predicate Closed(s: App, r: App)
  {
    && r.session == IdleSession(s.session.isSeeking)
    && r.cursor == IdleCursor
    && r.timer == Off
    && r.playerReady == s.playerReady
    && r.store == s.store
    && r.dialog == s.dialog
    && r.view == s.view
  }

  /** `playVideo`: loads the video and logs the play; a driving playlist is left in place. */
  function PlayVideo(s: App, v: Video): (r: App)
    ensures Started(s, r, v)
    ensures r.cursor == s.cursor
  {
    s.(session := Session(Some(v.videoId), v.title, true, 0.0, 0.0, s.session.isSeeking),
       store := AddHistoryEntry(s.store, v))
  }

  /** `handleClosePlayer`. */
  function ClosePlayer(s: App): (r: App)
    ensures Closed(s, r)
  {
    s.(session := IdleSession(s.session.isSeeking), cursor := IdleCursor, timer := Off)
  }

  /** `playNextVideo`: one step forward in the snapshot, wrapping to the start past the end. */
  function PlayNext(s: App): (r: App)
    ensures Driving(s) ==>
      var i := s.cursor.index;
      var n := |s.cursor.videos|;
      && r.cursor.index == (if i + 1 < n then i + 1 else 0)
      && r.cursor.index < n
      && r.cursor.playlistId == s.cursor.playlistId
      && r.cursor.videos == s.cursor.videos
      && Started(s, r, s.cursor.videos[r.cursor.index])
    ensures !Driving(s) ==> Closed(s, r)
  {
    if Driving(s) then
      var next := s.cursor.index + 1;
      if next < |s.cursor.videos| then
        PlayVideo(s.(cursor := s.cursor.(index := next)), s.cursor.videos[next])
      else
        PlayVideo(s.(cursor := s.cursor.(index := 0)), s.cursor.videos[0])
    else
      ClosePlayer(s)
  }

  /**
   * `playPreviousVideo`: one step back, wrapping to the last entry below 0. When the
   * index is stale (more than one past the end) the index is still written, but
   * `playVideo` receives `undefined` and fails before it writes anything.
   */
  function PlayPrevious(s: App): (r: App)
    ensures Driving(s) ==>
      var i := s.cursor.index;
      var n := |s.cursor.videos|;
      && r.cursor.index == (if i == 0 then n - 1 else i - 1)
      && r.cursor.playlistId == s.cursor.playlistId
      && r.cursor.videos == s.cursor.videos
      && (i <= n ==> r.cursor.index < n && Started(s, r, s.cursor.videos[r.cursor.index]))
      && (i > n ==> r == s.(cursor := r.cursor))
    ensures !Driving(s) ==> Closed(s, r)
  {
    if Driving(s) then
      if s.cursor.index >= 1 then
        var prev := s.cursor.index - 1;
        var s1 := s.(cursor := s.cursor.(index := prev));
        if prev < |s.cursor.videos| then PlayVideo(s1, s.cursor.videos[prev]) else s1
      else
        var last := |s.cursor.videos| - 1;
        PlayVideo(s.(cursor := s.cursor.(index := last)), s.cursor.videos[last])
    else
      ClosePlayer(s)
  }

  /** `onPlayerReady`: the player instance is known and playback is flagged as running. */
  function OnPlayerReady(s: App): (r: App)
    ensures r.playerReady && r.session.isPlaying
    ensures r.cursor == s.cursor && r.store == s.store && r.timer == s.timer
    ensures r.session == s.session.(isPlaying := true)
    ensures r.dialog == s.dialog && r.view == s.view
  {
    s.(playerReady := true, session := s.session.(isPlaying := true))
  }

  /** The widget's `YT.PlayerState` values the handler distinguishes; `Other` stands for the rest. */
  datatype PlayerEvent = Playing(duration: Seconds) | Paused | Ended | Other(code: int)

  /**
   * `onPlayerStateChange`. Ignored until the player is ready. PLAYING records the
   * duration and (re)starts the poll, PAUSED stops it, ENDED stops it and moves to
   * the next snapshot entry or closes.
   */
  function OnPlayerStateChange(s: App, e: PlayerEvent): (r: App)
    ensures !s.playerReady || e.Other? ==> r == s
    ensures s.playerReady && e.Playing? ==>
      r == s.(session := s.session.(isPlaying := true, duration := e.duration),
              timer := Running(s.session.isSeeking))
    ensures s.playerReady && e.Paused? ==>
      r == s.(session := s.session.(isPlaying := false), timer := Off)
    ensures s.playerReady && e.Ended? ==> r == PlayNext(s).(timer := Off)
    ensures s.playerReady && e.Ended? && !Driving(s) ==> Closed(s, r)
  {
    if !s.playerReady then s
    else
      match e
      case Playing(d) =>
        s.(session := s.session.(isPlaying := true, duration := d), timer := Running(s.session.isSeeking))
      case Paused =>
        s.(session := s.session.(isPlaying := false), timer := Off)
      case Ended =>
        var s1 := s.(session := s.session.(isPlaying := false, currentTime := 0.0), timer := Off);
        if Driving(s) then PlayNext(s1) else ClosePlayer(s1)
      case Other(_) => s
  }

  /**
   * One firing of the poll as written: the callback tests the `isSeeking` it closed
   * over when the poll was started, not the current one.
   */
  function TickAsWritten(s: App, now: Seconds): (r: App)
    ensures s.timer.Running? && !s.timer.seekingAtStart ==> r == s.(session := s.session.(currentTime := now))
    ensures s.timer.Off? || s.timer.seekingAtStart ==> r == s
  {
    match s.timer
    case Off => s
    case Running(seeking) => if !seeking then s.(session := s.session.(currentTime := now)) else s
  }

  /** `handleSeek`: once the player is ready the shown time becomes the requested one. */
  function Seek(s: App, time: Seconds): (r: App)
    ensures s.playerReady ==> r.session.currentTime == time && r == s.(session := r.session)
    ensures s.playerReady ==> r.session == s.session.(currentTime := time)
    ensures !s.playerReady ==> r == s
  {
    if s.playerReady then s.(session := s.session.(currentTime := time)) else s
  }

  /** `playPlaylist`: start a non-empty stored playlist from its first entry, otherwise close. */
  function PlayPlaylist(s: App, pid: PlaylistId): (r: App)
    ensures pid in s.store.playlists && |s.store.playlists[pid].videos| > 0 ==>
      var vs := s.store.playlists[pid].videos;
      && r.cursor == Cursor(Some(pid), vs, 0)
      && r.cursor.index < |r.cursor.videos|
      && Started(s, r, vs[0])
    ensures pid !in s.store.playlists || |s.store.playlists[pid].videos| == 0 ==> Closed(s, r)
  {
    match GetPlaylist(s.store, pid)
    case Some(p) =>
      if |p.videos| > 0 then PlayVideo(s.(cursor := Cursor(Some(pid), p.videos, 0)), p.videos[0])
      else ClosePlayer(s)
    case None => ClosePlayer(s)
  }

  /** `handleToggleFavorite`: flips whether the video is a favorite, touching nothing else. */
  function ToggleFavorite(s: App, v: Video): (r: App)
    ensures r == s.(store := r.store) && OnlyFavoritesChanged(s.store, r.store)
    ensures v.videoId in r.store.favorites <==> v.videoId !in s.store.favorites
    ensures v.videoId in r.store.favorites ==> r.store.favorites[v.videoId] == v
    ensures forall id :: id != v.videoId ==>
      (id in r.store.favorites <==> id in s.store.favorites)
      && (id in r.store.favorites ==> r.store.favorites[id] == s.store.favorites[id])
  {
    if IsFavorite(s.store, v.videoId) then s.(store := RemoveFavorite(s.store, v.videoId))
    else s.(store := AddFavorite(s.store, v))
  }

  /**
   * `handleCreateNewPlaylist`: a name that trims to nothing is rejected with no
   * change; otherwise an empty playlist named by the trimmed text is stored under
   * a fresh id and the dialog is closed.
   */
  function CreateNewPlaylist(s: App): (r: App)
    ensures Text.AllWhitespace(s.dialog.newPlaylistName) ==> r == s
    ensures !Text.AllWhitespace(s.dialog.newPlaylistName) ==>
      var id := s.store.nextId;
      && id in r.store.playlists
      && var name := r.store.playlists[id].name;
      && r.store.playlists == s.store.playlists[id := Playlist(id, name, [])]
      && name != [] && Text.Trimmed(name) && name == Text.Trim(s.dialog.newPlaylistName)
      && r.store.nextId > id
      && r.store.favorites == s.store.favorites && r.store.history == s.store.history
      && r.dialog == ClosedDialog
      && r == s.(store := r.store, dialog := r.dialog)
      && (Valid(s.store) ==> id !in s.store.playlists && Valid(r.store))
  {
    var name := Text.Trim(s.dialog.newPlaylistName);
    if name != [] then
      var (st, _) := CreatePlaylist(s.store, name);
      CloseDialog(s.(store := st))
    else s
  }

  /** `closeAddToPlaylistModal`: hides the dialog and forgets the selected video and the typed name. */
  function CloseDialog(s: App): (r: App)
    ensures !r.dialog.open && r.dialog.videoToAdd.None? && r.dialog.newPlaylistName == []
    ensures r == s.(dialog := r.dialog)
  {
    s.(dialog := ClosedDialog)
  }

  /**
   * `openCreatePlaylistModal` (no video) and `openAddToPlaylistModal` (a video):
   * shows the dialog with that selection and keeps the name typed so far.
   */
  function OpenDialog(s: App, v: Option<Video>): (r: App)
    ensures r.dialog.open && r.dialog.videoToAdd == v
    ensures r.dialog.newPlaylistName == s.dialog.newPlaylistName
    ensures r == s.(dialog := r.dialog)
  {
    s.(dialog := s.dialog.(open := true, videoToAdd := v))
  }

  /** The name field's `onChange`: only the typed name changes. */
  function SetNewPlaylistName(s: App, name: string): (r: App)
    ensures r.dialog.newPlaylistName == name
    ensures r.dialog.open == s.dialog.open && r.dialog.videoToAdd == s.dialog.videoToAdd
    ensures r == s.(dialog := r.dialog)
  {
    s.(dialog := s.dialog.(newPlaylistName := name))
  }

  /** The seek bar's `setIsSeeking`: only the seek latch changes; a running poll keeps what it captured. */
  function SetSeeking(s: App, seeking: bool): (r: App)
    ensures r.session.isSeeking == seeking
    ensures r.session.(isSeeking := s.session.isSeeking) == s.session
    ensures r == s.(session := r.session)
  {
    s.(session := s.session.(isSeeking := seeking))
  }

  /**
   * `handleViewPlaylist` followed by the view load it navigates to: the viewed id
   * is recorded, and the shown playlist is that id when it is stored and nothing
   * otherwise (`getPlaylist` yields `undefined`).
   */
  function ShowPlaylist(s: App, pid: PlaylistId): (r: App)
    ensures r.view.viewedPlaylistId == Some(pid)
    ensures r.view.shownPlaylistId.Some? <==> pid in s.store.playlists
    ensures r.view.shownPlaylistId.Some? ==> r.view.shownPlaylistId.value == pid
    ensures r == s.(view := r.view)
  {
    s.(view := View(if pid in s.store.playlists then Some(pid) else None, Some(pid)))
  }

  /**
   * `handleDeletePlaylist`, given the user's answer to the confirmation prompt.
   * Deleting the shown playlist clears the view; deleting the driving one closes.
   */
  function DeletePlaylist(s: App, pid: PlaylistId, confirmed: bool): (r: App)
    ensures !confirmed ==> r == s
    ensures confirmed ==> r.store == Library.DeletePlaylist(s.store, pid) && pid !in r.store.playlists
    ensures confirmed && s.view.shownPlaylistId == Some(pid) ==> r.view == View(None, None)
    ensures s.view.shownPlaylistId != Some(pid) ==> r.view == s.view
    ensures confirmed && s.cursor.playlistId == Some(pid) ==>
      r.session == IdleSession(s.session.isSeeking) && r.cursor == IdleCursor && r.timer == Off
    ensures s.cursor.playlistId != Some(pid) ==>
      r.session == s.session && r.cursor == s.cursor && r.timer == s.timer
    ensures r.dialog == s.dialog && r.playerReady == s.playerReady
  {
    if !confirmed then s
    else
      var s1 := s.(store := Library.DeletePlaylist(s.store, pid));
      var s2 := if s.view.shownPlaylistId == Some(pid) then s1.(view := View(None, None)) else s1;
      if s.cursor.playlistId == Some(pid) then ClosePlayer(s2) else s2
  }

  /**
   * The cursor side of `handleRemoveVideoFromPlaylist` for the driving playlist:
   * `s` already holds the updated store, its session and cursor are the values
   * captured before the call, and `updated` is the re-read playlist content.
   */
  function Reconcile(s: App, vid: VideoId, updated: seq<Video>): (r: App)
    ensures s.session.playingVideoId == Some(vid) && updated == [] ==> Closed(s, r)
    ensures s.session.playingVideoId == Some(vid) && Contains(updated, vid) ==>
      && r == s.(cursor := r.cursor)
      && r.cursor == s.cursor.(videos := updated, index := r.cursor.index)
      && r.cursor.index < |updated| && updated[r.cursor.index].videoId == vid
      && forall j :: 0 <= j < r.cursor.index ==> updated[j].videoId != vid
    ensures s.session.playingVideoId == Some(vid) && updated != [] && !Contains(updated, vid) ==>
      if s.cursor.videos == [] then Closed(s, r)
      else
        && r.cursor.index == (if s.cursor.index < |updated| - 1 then s.cursor.index else |updated| - 1)
        && r.cursor.index < |updated|
        && r.cursor == s.cursor.(videos := updated, index := r.cursor.index)
        && Started(s, r, updated[r.cursor.index])
    ensures s.session.playingVideoId != Some(vid) ==> r == s.(cursor := s.cursor.(videos := updated))
  {
    var s1 := s.(cursor := s.cursor.(videos := updated));
    if s.session.playingVideoId == Some(vid) && |updated| == 0 then
      ClosePlayer(s1)
    else if s.session.playingVideoId == Some(vid) then
      // `updated` is non-empty here, so the inner `length > 0` test always passes.
      var found := FindIndex(updated, vid);
      if found != -1 then
        s1.(cursor := s1.cursor.(index := found))
      else if |s.cursor.videos| > 0 then
        var next := if s.cursor.index < |updated| - 1 then s.cursor.index else |updated| - 1;
        PlayVideo(s1.(cursor := s1.cursor.(index := next)), updated[next])
      else
        ClosePlayer(s1)
    else
      s1
  }

  /**
   * `handleRemoveVideoFromPlaylist`. A missing playlist makes the store call fail
   * and nothing changes; otherwise the store drops the video and, when the playlist
   * drives playback, the cursor is reconciled with its new content.
   */
  function RemoveVideoFromPlaylist(s: App, pid: PlaylistId, vid: VideoId): (r: App)
    ensures pid !in s.store.playlists ==> r == s
    ensures pid in s.store.playlists ==>
      && pid in r.store.playlists
      && r.store.playlists[pid].videos == Without(s.store.playlists[pid].videos, vid)
      && OnlyVideosOfChanged(s.store, r.store.(history := s.store.history), pid)
    ensures pid in s.store.playlists && s.cursor.playlistId != Some(pid) ==>
      r == s.(store := r.store) && r.store == Library.RemoveVideoFromPlaylist(s.store, pid, vid).value
    ensures pid in s.store.playlists && s.cursor.playlistId == Some(pid) ==>
      var st := Library.RemoveVideoFromPlaylist(s.store, pid, vid).value;
      r == Reconcile(s.(store := st), vid, st.playlists[pid].videos)
    ensures r.dialog == s.dialog && r.view == s.view && r.playerReady == s.playerReady
  {
    match Library.RemoveVideoFromPlaylist(s.store, pid, vid)
    case Err(_) => s
    case Ok(st) =>
      var s1 := s.(store := st);
      if s.cursor.playlistId == Some(pid) then Reconcile(s1, vid, st.playlists[pid].videos) else s1
  }

  /**
   * `handleAddVideoToExistingPlaylist`. Without a selected video nothing happens; a
   * missing playlist makes the store call fail before anything changes. Otherwise
   * the video is added, the dialog is closed and a driving snapshot is refreshed;
   * index and session stay as they were.
   */
  function AddVideoToExistingPlaylist(s: App, pid: PlaylistId): (r: App)
    ensures s.dialog.videoToAdd.None? || pid !in s.store.playlists ==> r == s
    ensures s.dialog.videoToAdd.Some? && pid in s.store.playlists ==>
      && r.store == AddVideoToPlaylist(s.store, pid, s.dialog.videoToAdd.value).value
      && r.dialog == ClosedDialog
      && r.cursor.videos == (if s.cursor.playlistId == Some(pid) then r.store.playlists[pid].videos
                             else s.cursor.videos)
    ensures r.session == s.session && r.timer == s.timer && r.view == s.view && r.playerReady == s.playerReady
    ensures r.cursor.playlistId == s.cursor.playlistId && r.cursor.index == s.cursor.index
  {
    match s.dialog.videoToAdd
    case None => s
    case Some(v) =>
      match AddVideoToPlaylist(s.store, pid, v)
      case Err(_) => s
      case Ok(st) =>
        var s1 := CloseDialog(s.(store := st));
        if s.cursor.playlistId == Some(pid) then s1.(cursor := s1.cursor.(videos := st.playlists[pid].videos))
        else s1
  }
}

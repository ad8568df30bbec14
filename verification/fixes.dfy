/**
 * Two defects in the handlers as written, each shown on a concrete input, and
 * the corrected handlers with the intended property proved about them.
 *
 * 1. Removing a track that is not playing leaves `currentPlaylistIndex` where it
 *    was, so once an earlier track is removed the index no longer names the same
 *    entry and can run past the end of the refreshed snapshot; "previous" then
 *    replays the same track or hands `undefined` to `playVideo`.
 * 2. The progress poll tests the `isSeeking` value captured when PLAYING was
 *    handled, so a seek started later does not stop the poll from overwriting
 *    the time being scrubbed.
 */
module Fixes {
  import opened Wrappers
  import opened Library
  import opened Playback
  import Engine
  import Machine
  import opened Samples

  /** The cursor names an entry of its snapshot, or is 0. */
  ghost predicate CursorBound(c: Cursor)
  {
    c.index == 0 || c.index < |c.videos|
  }

  /**
   * Where the entry at `i` of `before` lands once `vid` is removed and the list has
   * `n` entries: it moves left by the number of removed entries in front of it,
   * clamped to the last entry (0 for an empty list).
   */
  function Relocate(before: seq<Video>, i: nat, vid: VideoId, n: nat): (k: nat)
    ensures n == 0 ==> k == 0
    ensures n > 0 ==> k < n
  {
    if n == 0 then 0
    else
      var shifted := |Without(before[..if i < |before| then i else |before|], vid)|;
      if shifted < n then shifted else n - 1
  }

  /** Corrected `handleRemoveVideoFromPlaylist`: as written, but the index follows its entry. */
  function RemoveVideoFromPlaylist(s: App, pid: PlaylistId, vid: VideoId): (r: App)
    ensures s.cursor.playlistId == Some(pid) && pid in s.store.playlists ==> CursorBound(r.cursor)
    ensures CursorBound(s.cursor) ==> CursorBound(r.cursor)
    ensures s.cursor.playlistId != Some(pid) ==> r == Engine.RemoveVideoFromPlaylist(s, pid, vid)
    ensures r.session == Engine.RemoveVideoFromPlaylist(s, pid, vid).session
    ensures r.store == Engine.RemoveVideoFromPlaylist(s, pid, vid).store
  {
    var r := Engine.RemoveVideoFromPlaylist(s, pid, vid);
    if pid in s.store.playlists && s.cursor.playlistId == Some(pid) && s.session.playingVideoId != Some(vid) then
      r.(cursor := r.cursor.(index := Relocate(s.cursor.videos, s.cursor.index, vid, |r.cursor.videos|)))
    else r
  }

  /**
   * With the snapshot in sync, removing a track other than the one under the
   * cursor keeps the cursor on that same entry.
   */
  lemma RemoveKeepsCursorEntry(s: App, pid: PlaylistId, vid: VideoId)
    requires Machine.Inv(s)
    requires s.cursor.playlistId == Some(pid) && s.session.playingVideoId != Some(vid)
    requires s.cursor.index < |s.cursor.videos| && s.cursor.videos[s.cursor.index].videoId != vid
    ensures var r := RemoveVideoFromPlaylist(s, pid, vid);
      && r.cursor.index < |r.cursor.videos|
      && r.cursor.videos[r.cursor.index] == s.cursor.videos[s.cursor.index]
  {
    var before := s.cursor.videos;
    var i := s.cursor.index;
    WithoutKeepsPosition(before, vid, i);
    var upd := Without(before, vid);
    var r0 := Engine.RemoveVideoFromPlaylist(s, pid, vid);
    assert r0.cursor.videos == upd;
    assert Relocate(before, i, vid, |upd|) == |Without(before[..i], vid)|;
  }

  /** Corrected poll: the current seek latch, not the captured one, suppresses the write. */
  function Tick(s: App, now: Seconds): (r: App)
    ensures s.session.isSeeking || s.timer.Off? ==> r == s
    ensures !s.session.isSeeking && s.timer.Running? ==> r == s.(session := s.session.(currentTime := now))
  {
    if s.timer.Running? && !s.session.isSeeking then s.(session := s.session.(currentTime := now)) else s
  }

  /** The corrected machine: the two corrected handlers in place of the originals. */
  function Step(s: App, cmd: Machine.Command): App
  {
    match cmd
    case RemoveVideoFromPlaylist(pid, vid) => RemoveVideoFromPlaylist(s, pid, vid)
    case TimerTick(now) => Tick(s, now)
    case _ => Machine.Step(s, cmd)
  }

  lemma AddVideoKeepsBound(s: App, pid: PlaylistId)
    requires Machine.Inv(s) && CursorBound(s.cursor)
    ensures CursorBound(Engine.AddVideoToExistingPlaylist(s, pid).cursor)
  {
  }

  lemma FixedRemoveInv(s: App, pid: PlaylistId, vid: VideoId)
    requires Machine.Inv(s)
    ensures Machine.Inv(RemoveVideoFromPlaylist(s, pid, vid))
  {
    Machine.RemoveVideoInv(s, pid, vid);
  }

  /** Every command other than the two corrected ones already keeps the bound. */
  lemma UnchangedStepKeepsBound(s: App, cmd: Machine.Command)
    requires Machine.Inv(s) && CursorBound(s.cursor)
    requires !cmd.RemoveVideoFromPlaylist? && !cmd.TimerTick?
    ensures CursorBound(Machine.Step(s, cmd).cursor)
  {
    if !(Machine.FromPlayerWidget(cmd) && s.session.playingVideoId.None?) {
      match cmd
      case AddVideoToExistingPlaylist(pid) => AddVideoKeepsBound(s, pid);
      case _ =>
    }
  }

  /**
   * In the corrected machine every command keeps both the invariant and the
   * cursor bound `index == 0 || index < |snapshot|`.
   */
  lemma StepKeepsCursorBound(s: App, cmd: Machine.Command)
    requires Machine.Inv(s) && CursorBound(s.cursor)
    ensures Machine.Inv(Step(s, cmd)) && CursorBound(Step(s, cmd).cursor)
  {
    match cmd
    case RemoveVideoFromPlaylist(pid, vid) =>
      FixedRemoveInv(s, pid, vid);
    case TimerTick(now) =>
    case _ =>
      Machine.StepPreservesInv(s, cmd);
      UnchangedStepKeepsBound(s, cmd);
  }

  /** Playlist 1 = [A, B, C] driving playback with C playing at index 2. */
  function PlayingLastOfThree(): App
  {
    var st := Store(map[], [], map[1 := Playlist(1, "Mix", [A, B, C])], 2);
    App(Session(Some("c"), "C", true, 0.0, 0.0, false), Cursor(Some(1), [A, B, C], 2), Off, true,
        st, ClosedDialog, View(None, None))
  }

  /**
   * As written: removing A and then B while C plays leaves index 2 over the
   * one-entry snapshot [C]; "previous" then moves to index 1 and plays nothing.
   * The corrected handler keeps the cursor on C.
   */
  lemma StaleIndexAfterEarlierRemoval()
    ensures var s := PlayingLastOfThree();
      var r1 := Engine.RemoveVideoFromPlaylist(s, 1, "a");
      var r2 := Engine.RemoveVideoFromPlaylist(r1, 1, "b");
      var r3 := Engine.PlayPrevious(r2);
      && Machine.Inv(s) && CursorBound(s.cursor)
      && r1.cursor.videos == [B, C] && r1.cursor.index == 2 && !CursorBound(r1.cursor)
      && r2.cursor.videos == [C] && r2.cursor.index == 2
      && r3.cursor.index == 1 && r3.session == r2.session && r3.store == r2.store
  {
    var s := PlayingLastOfThree();
    PlayingLastOfThreeInv();
    WithoutSamples();
    OtherRemovalKeepsIndex(s, 1, "a");
    var r1 := Engine.RemoveVideoFromPlaylist(s, 1, "a");
    OtherRemovalKeepsIndex(r1, 1, "b");
  }

  /** The starting state satisfies the invariant and the cursor bound. */
  lemma PlayingLastOfThreeInv()
    ensures Machine.Inv(PlayingLastOfThree()) && CursorBound(PlayingLastOfThree().cursor)
  {
    assert C in [A, B, C];
  }

  /**
   * As written, removing a track that is not playing from the driving playlist
   * refreshes the snapshot and leaves the index untouched.
   */
  lemma OtherRemovalKeepsIndex(s: App, pid: PlaylistId, vid: VideoId)
    requires pid in s.store.playlists && s.cursor.playlistId == Some(pid)
    requires s.session.playingVideoId != Some(vid)
    ensures var r := Engine.RemoveVideoFromPlaylist(s, pid, vid);
      && r.cursor.index == s.cursor.index
      && r.cursor.videos == Without(s.store.playlists[pid].videos, vid)
      && pid in r.store.playlists && r.store.playlists[pid].videos == r.cursor.videos
      && r.session == s.session && r.cursor.playlistId == s.cursor.playlistId
  {
  }

  /** The corrected handler keeps the cursor on C when A is removed. */
  lemma FixedRemoveFollowsPlayingEntry()
    ensures var r := RemoveVideoFromPlaylist(PlayingLastOfThree(), 1, "a");
      r.cursor.index == 1 && r.cursor.videos[1] == C
  {
    WithoutSamples();
    assert [A, B, C][..2] == [A, B];
  }

  /**
   * As written: a poll started while not seeking keeps writing the player's time
   * after a seek has begun. The corrected tick leaves the time alone.
   */
  lemma StalePollOverwritesSeek(s: App, duration: Seconds, now: Seconds)
    requires s.playerReady && s.session.playingVideoId.Some? && !s.session.isSeeking
    ensures var playing := Machine.Step(s, Machine.PlayerStateChange(Engine.Playing(duration)));
      var seeking := Machine.Step(playing, Machine.SetSeeking(true));
      && seeking.session.isSeeking
      && Machine.Step(seeking, Machine.TimerTick(now)).session.currentTime == now
      && Step(seeking, Machine.TimerTick(now)) == seeking
  {
  }
}

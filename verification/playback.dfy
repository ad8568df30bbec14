/**
 * The transient state of src/App.jsx that the sequencing handlers read and write:
 * the playback session, the playlist cursor, the progress timer, whether the
 * embedded player has reported ready, the persisted library, the
 * "add to playlist" dialog and the playlist currently shown on screen.
 */
module Playback {
  import opened Wrappers
  import opened Library

  /** Player clock readings. They are floats in the source; the model only stores and compares them. */
  type Seconds = real

  /**
   * The one-second progress poll (`intervalRef`). A running poll remembers the
   * value of `isSeeking` that its callback closed over when it was started.
   */
  datatype Timer = Off | Running(seekingAtStart: bool)

  /** `playingVideoId`, `currentPlayingTitle`, `isPlaying`, `videoCurrentTime`, `videoDuration`, `isSeeking`. */
  datatype Session = Session(
    playingVideoId: Option<VideoId>,
    title: string,
    isPlaying: bool,
    currentTime: Seconds,
    duration: Seconds,
    isSeeking: bool)

  /** `currentPlaylistPlayingId`, `currentPlaylistVideos` (a snapshot) and `currentPlaylistIndex`. */
  datatype Cursor = Cursor(playlistId: Option<PlaylistId>, videos: seq<Video>, index: nat)

  /** `showAddToPlaylistModal`, `videoToAdd` and `newPlaylistName`. */
  datatype Dialog = Dialog(open: bool, videoToAdd: Option<Video>, newPlaylistName: string)

  /** The id of the loaded `currentPlaylist` and `currentViewedPlaylistId`. */
  datatype View = View(shownPlaylistId: Option<PlaylistId>, viewedPlaylistId: Option<PlaylistId>)

  datatype App = App(
    session: Session,
    cursor: Cursor,
    timer: Timer,
    playerReady: bool,
    store: Store,
    dialog: Dialog,
    view: View)

  const IdleCursor: Cursor := Cursor(None, [], 0)

  const ClosedDialog: Dialog := Dialog(false, None, "")

  /** The session after a close: nothing loaded; only the seek latch is left as it was. */
  function IdleSession(isSeeking: bool): Session
  {
    Session(None, "", false, 0.0, 0.0, isSeeking)
  }

  /** The state the application mounts with, over whatever library was persisted before. */
  function Initial(st: Store): App
  {
    App(IdleSession(false), IdleCursor, Off, false, st, ClosedDialog, View(None, None))
  }
}

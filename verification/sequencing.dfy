/** Properties that relate several sequencing transitions to each other. */
module Sequencing {
  import opened Wrappers
  import opened Library
  import opened Playback
  import opened Engine
  import Text

  /** Closing an already closed player changes nothing. */
  lemma CloseIdempotent(s: App)
    ensures ClosePlayer(ClosePlayer(s)) == ClosePlayer(s)
  {
  }

  /** Replaying the same video logs it again: two plays, two history entries. */
  lemma ReplayLogsEveryPlay(s: App, v: Video)
    ensures PlayVideo(PlayVideo(s, v), v).store.history == s.store.history + [v, v]
    ensures PlayVideo(PlayVideo(s, v), v).session == PlayVideo(s, v).session
  {
    assert s.store.history + [v] + [v] == s.store.history + [v, v];
  }

  /** Toggling a favorite twice restores the library when the stored record is this video. */
  lemma ToggleFavoriteTwice(s: App, v: Video)
    requires v.videoId in s.store.favorites ==> s.store.favorites[v.videoId] == v
    ensures ToggleFavorite(ToggleFavorite(s, v), v) == s
  {
    if v.videoId in s.store.favorites {
      AddUndoesRemoveFavorite(s.store, v);
    } else {
      RemoveUndoesAddFavorite(s.store, v);
    }
  }

  /** The cursor is in bounds of a non-empty snapshot of a driving playlist. */
  predicate InBounds(s: App)
  {
    Driving(s) && s.cursor.index < |s.cursor.videos|
  }

  /** `k` presses of "next". */
  function NextTimes(s: App, k: nat): App
  {
    if k == 0 then s else PlayNext(NextTimes(s, k - 1))
  }

  /** `a mod n` by repeated subtraction: keeps the cycling proofs in linear arithmetic. */
  function Wrap(a: nat, n: nat): (r: nat)
    requires n > 0
    ensures r < n
    decreases a
  {
    if a < n then a else Wrap(a - n, n)
  }

  lemma {:induction false} WrapSucc(a: nat, n: nat)
    requires n > 0
    ensures Wrap(a + 1, n) == if Wrap(a, n) + 1 < n then Wrap(a, n) + 1 else 0
    decreases a
  {
    if a + 1 >= n && a >= n {
      WrapSucc(a - n, n);
      assert a + 1 - n == (a - n) + 1;
    }
  }

  lemma {:induction false} MulAtLeast(d: int, n: int)
    requires d >= 1 && n > 0
    ensures d * n >= n
  {
    if d > 1 {
      MulAtLeast(d - 1, n);
      assert d * n == (d - 1) * n + n;
    }
  }

  /** Euclidean division has exactly one quotient/remainder pair. */
  lemma ModUnique(a: int, n: int, q: int, r: int)
    requires n > 0 && 0 <= r < n && a == q * n + r
    ensures a % n == r
  {
    var q', r' := a / n, a % n;
    assert a == q' * n + r';
    assert (q - q') * n == r' - r;
    if q > q' {
      MulAtLeast(q - q', n);
    } else if q < q' {
      MulAtLeast(q' - q, n);
    }
  }

  /** The subtraction form agrees with Dafny's `%` on naturals. */
  lemma {:induction false} WrapIsMod(a: nat, n: nat)
    requires n > 0
    ensures Wrap(a, n) == a % n
    decreases a
  {
    if a < n {
      ModUnique(a, n, 0, a);
    } else {
      WrapIsMod(a - n, n);
      var q, r := (a - n) / n, (a - n) % n;
      assert a - n == q * n + r;
      assert a == (q + 1) * n + r;
      ModUnique(a, n, q + 1, r);
    }
  }

  /**
   * From an in-bounds cursor, `k` presses of "next" land on index `(i + k) mod n`,
   * play the entry there, keep the snapshot, and log exactly `k` plays.
   */
  lemma {:induction false} NextTimesCycles(s: App, k: nat)
    requires InBounds(s)
    ensures var r := NextTimes(s, k);
      && r.cursor.playlistId == s.cursor.playlistId
      && r.cursor.videos == s.cursor.videos
      && r.cursor.index == Wrap(s.cursor.index + k, |s.cursor.videos|)
      && |r.store.history| == |s.store.history| + k
      && (k > 0 ==> r.session.playingVideoId == Some(s.cursor.videos[r.cursor.index].videoId))
  {
    if k > 0 {
      NextTimesCycles(s, k - 1);
      WrapSucc(s.cursor.index + (k - 1), |s.cursor.videos|);
    }
  }

  /** Pressing "next" as many times as the snapshot is long comes back to the same entry. */
  lemma FullCycleReturns(s: App)
    requires InBounds(s)
    ensures NextTimes(s, |s.cursor.videos|).cursor == s.cursor
  {
    NextTimesCycles(s, |s.cursor.videos|);
  }

  /** The same landing index in the usual modular form: `(i + k) % n`. */
  lemma NextTimesIndexIsMod(s: App, k: nat)
    requires InBounds(s)
    ensures NextTimes(s, k).cursor.index == (s.cursor.index + k) % |s.cursor.videos|
  {
    NextTimesCycles(s, k);
    WrapIsMod(s.cursor.index + k, |s.cursor.videos|);
  }

  /** Of two seeks the later one decides the shown time. */
  lemma SeekLastWins(s: App, a: Seconds, b: Seconds)
    ensures Seek(Seek(s, a), b) == Seek(s, b)
  {
  }

  /** Confirming the deletion of a playlist a second time changes nothing more. */
  lemma DeleteTwiceIsDeleteOnce(s: App, pid: PlaylistId)
    ensures Engine.DeletePlaylist(Engine.DeletePlaylist(s, pid, true), pid, true) == Engine.DeletePlaylist(s, pid, true)
  {
    var once := Engine.DeletePlaylist(s, pid, true);
    assert once.store.playlists - {pid} == once.store.playlists;
  }

  /** Showing a stored playlist and then deleting it leaves nothing shown. */
  lemma ShowThenDeleteClearsView(s: App, pid: PlaylistId)
    requires pid in s.store.playlists
    ensures Engine.DeletePlaylist(ShowPlaylist(s, pid), pid, true).view == View(None, None)
  {
  }

  /** Opening the dialog and dismissing it is the same as dismissing it. */
  lemma OpenThenCloseDialog(s: App, v: Option<Video>)
    ensures CloseDialog(OpenDialog(s, v)) == CloseDialog(s)
  {
  }

  /** Raising the seek latch and putting it back restores the state. */
  lemma SeekingRoundTrip(s: App)
    ensures SetSeeking(SetSeeking(s, true), s.session.isSeeking) == s
  {
  }

  /** Typing a name that is not blank and confirming stores the trimmed name under the fresh id. */
  lemma TypedNameIsStoredTrimmed(s: App, name: string)
    requires !Text.AllWhitespace(name)
    ensures var r := CreateNewPlaylist(SetNewPlaylistName(s, name));
      && s.store.nextId in r.store.playlists
      && r.store.playlists[s.store.nextId].name == Text.Trim(name)
      && r.store.playlists[s.store.nextId].videos == []
  {
  }

  /** "previous" undoes "next" from an in-bounds cursor: same index, same entry playing. */
  lemma PreviousUndoesNext(s: App)
    requires InBounds(s)
    ensures PlayPrevious(PlayNext(s)).cursor == s.cursor
    ensures PlayPrevious(PlayNext(s)).session.playingVideoId == Some(s.cursor.videos[s.cursor.index].videoId)
  {
  }

  /** "next" undoes "previous" from an in-bounds cursor. */
  lemma NextUndoesPrevious(s: App)
    requires InBounds(s)
    ensures PlayNext(PlayPrevious(s)).cursor == s.cursor
    ensures PlayNext(PlayPrevious(s)).session.playingVideoId == Some(s.cursor.videos[s.cursor.index].videoId)
  {
  }

  /** "next" and "previous" preserve an in-bounds cursor. */
  lemma StepsKeepInBounds(s: App)
    requires InBounds(s)
    ensures InBounds(PlayNext(s)) && InBounds(PlayPrevious(s))
  {
  }

  /** The end of a track inside a driving playlist behaves as "next" with the poll stopped. */
  lemma EndedAdvances(s: App)
    requires s.playerReady && InBounds(s)
    ensures var r := OnPlayerStateChange(s, Ended);
      && r.cursor == PlayNext(s).cursor
      && r.session.isPlaying
      && r.timer == Off
  {
  }
}

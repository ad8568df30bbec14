/**
 * The local library behind `./db` (a Dexie/IndexedDB wrapper): favorites keyed by
 * video id, an append-only play history, and playlists keyed by an auto-incremented
 * numeric id. The database code itself is not part of this model; its operations are
 * modelled as pure functions over one `Store` value with the semantics the handlers
 * in src/App.jsx rely on.
 */
module Library {
  import opened Wrappers

  type VideoId = string

  /** IndexedDB auto-increment keys start at 1, so a playlist id is always truthy. */
  type PlaylistId = x: int | x > 0 witness 1

  /** A catalog item as the search results shape it (src/App.jsx:297-302). */
  datatype Video = Video(videoId: VideoId, title: string, channelTitle: string, thumbnail: string)

  datatype Playlist = Playlist(id: PlaylistId, name: string, videos: seq<Video>)

  datatype Store = Store(
    favorites: map<VideoId, Video>,
    history: seq<Video>,
    playlists: map<PlaylistId, Playlist>,
    nextId: PlaylistId)

  datatype StoreError = PlaylistNotFound(id: PlaylistId)

  const EmptyStore: Store := Store(map[], [], map[], 1)

  predicate Contains(vs: seq<Video>, id: VideoId)
  {
    exists v :: v in vs && v.videoId == id
  }

  /** Each video id occurs at most once in a playlist. */
  predicate DistinctIds(vs: seq<Video>)
  {
    forall i, j :: 0 <= i < j < |vs| ==> vs[i].videoId != vs[j].videoId
  }

  /**
   * Store well-formedness: every key is below the key generator, every record
   * carries its own key, and no playlist holds the same video twice.
   */
  ghost predicate Valid(st: Store)
  {
    forall id :: id in st.playlists ==>
      && id < st.nextId
      && st.playlists[id].id == id
      && DistinctIds(st.playlists[id].videos)
  }

  lemma EmptyStoreValid()
    ensures Valid(EmptyStore)
  {
  }

  /** `r` differs from `st` in the favorites table at most. */
  ghost predicate OnlyFavoritesChanged(st: Store, r: Store)
  {
    r == st.(favorites := r.favorites)
  }

  /**
   * `r` differs from `st` only in the videos of playlist `pid`: same keys, same
   * names, every other playlist untouched, favorites and history untouched.
   */
  ghost predicate OnlyVideosOfChanged(st: Store, r: Store, pid: PlaylistId)
  {
    && r.favorites == st.favorites
    && r.history == st.history
    && r.nextId == st.nextId
    && r.playlists.Keys == st.playlists.Keys
    && (forall id :: id in st.playlists && id != pid ==> r.playlists[id] == st.playlists[id])
    && (pid in st.playlists ==>
          r.playlists[pid] == st.playlists[pid].(videos := r.playlists[pid].videos))
  }

  /** `vs` with every entry for video `id` dropped, order kept. */
  function Without(vs: seq<Video>, id: VideoId): (r: seq<Video>)
    ensures |r| <= |vs|
    ensures forall v :: v in r <==> v in vs && v.videoId != id
    ensures !Contains(r, id)
    ensures DistinctIds(vs) ==> DistinctIds(r)
  {
    if vs == [] then []
    else
      var rest := Without(vs[1..], id);
      if vs[0].videoId == id then rest
      else
        HeadNotInTail(vs, rest);
        [vs[0]] + rest
  }

  /** With distinct ids, no entry drawn from the tail carries the head's id. */
  lemma HeadNotInTail(vs: seq<Video>, rest: seq<Video>)
    requires vs != [] && forall v :: v in rest ==> v in vs[1..]
    ensures DistinctIds(vs) ==> forall v :: v in rest ==> v.videoId != vs[0].videoId
  {
    if DistinctIds(vs) {
      forall v | v in rest ensures v.videoId != vs[0].videoId {
        var k :| 0 <= k < |vs[1..]| && vs[1..][k] == v;
        assert vs[k + 1] == v;
      }
    }
  }

  lemma {:induction false} WithoutAbsent(vs: seq<Video>, id: VideoId)
    requires !Contains(vs, id)
    ensures Without(vs, id) == vs
  {
    if vs != [] {
      var tail := vs[1..];
      assert vs[0] in vs;
      assert !Contains(tail, id) by {
        forall v | v in tail ensures v.videoId != id {
          assert v in vs;
        }
      }
      WithoutAbsent(tail, id);
      assert Without(vs, id) == [vs[0]] + Without(tail, id);
      assert vs == [vs[0]] + tail;
    }
  }

  lemma {:induction false} WithoutAppend(a: seq<Video>, b: seq<Video>, id: VideoId)
    ensures Without(a + b, id) == Without(a, id) + Without(b, id)
  {
    if a == [] {
      assert a + b == b;
    } else {
      assert (a + b)[1..] == a[1..] + b;
      WithoutAppend(a[1..], b, id);
    }
  }

  /**
   * Removing a video shifts every surviving entry left by the number of removed
   * entries before it: the entry at `i` lands at `|Without(vs[..i], id)|`.
   */
  lemma WithoutKeepsPosition(vs: seq<Video>, id: VideoId, i: nat)
    requires i < |vs| && vs[i].videoId != id
    ensures var k := |Without(vs[..i], id)|;
      k < |Without(vs, id)| && Without(vs, id)[k] == vs[i]
  {
    assert vs == vs[..i] + ([vs[i]] + vs[i + 1..]);
    WithoutAppend(vs[..i], [vs[i]] + vs[i + 1..], id);
    WithoutAppend([vs[i]], vs[i + 1..], id);
    assert Without([vs[i]], id) == [vs[i]] by {
      assert [vs[i]][1..] == [];
    }
  }

  /** `vs.findIndex(v => v.videoId === id)`: the first position holding the id, or -1. */
  function FindIndex(vs: seq<Video>, id: VideoId): (k: int)
    ensures -1 <= k < |vs|
    ensures k == -1 <==> !Contains(vs, id)
    ensures k >= 0 ==> vs[k].videoId == id && forall j :: 0 <= j < k ==> vs[j].videoId != id
  {
    if vs == [] then -1
    else if vs[0].videoId == id then 0
    else
      var k := FindIndex(vs[1..], id);
      assert Contains(vs, id) ==> Contains(vs[1..], id) by {
        if Contains(vs, id) {
          var v :| v in vs && v.videoId == id;
          var m :| 0 <= m < |vs| && vs[m] == v;
          assert vs[1..][m - 1] == v;
        }
      }
      if k == -1 then -1
      else
        assert vs[k + 1] in vs;
        k + 1
  }

  /** `isFavorite`: holds exactly when unfavoriting the id would change the store. */
  function IsFavorite(st: Store, id: VideoId): (r: bool)
    ensures r <==> RemoveFavorite(st, id) != st
  {
    id in st.favorites
  }

  /** Inserts or replaces the favorite keyed by the video's id. */
  function AddFavorite(st: Store, v: Video): (r: Store)
    ensures OnlyFavoritesChanged(st, r)
    ensures r.favorites.Keys == st.favorites.Keys + {v.videoId}
    ensures r.favorites[v.videoId] == v
    ensures forall id :: id in st.favorites && id != v.videoId ==> r.favorites[id] == st.favorites[id]
  {
    st.(favorites := st.favorites[v.videoId := v])
  }

  /** Deletes the favorite if present; absent ids are not an error. */
  function RemoveFavorite(st: Store, id: VideoId): (r: Store)
    ensures OnlyFavoritesChanged(st, r)
    ensures r.favorites.Keys == st.favorites.Keys - {id}
    ensures forall k :: k in r.favorites ==> r.favorites[k] == st.favorites[k]
    ensures id !in st.favorites ==> r == st
  {
    st.(favorites := st.favorites - {id})
  }

  /** Favoriting a video that was not a favorite and then unfavoriting it restores the store. */
  lemma RemoveUndoesAddFavorite(st: Store, v: Video)
    requires v.videoId !in st.favorites
    ensures RemoveFavorite(AddFavorite(st, v), v.videoId) == st
  {
    assert AddFavorite(st, v).favorites - {v.videoId} == st.favorites;
  }

  /** Unfavoriting the stored record and favoriting it again restores the store. */
  lemma AddUndoesRemoveFavorite(st: Store, v: Video)
    requires v.videoId in st.favorites && st.favorites[v.videoId] == v
    ensures AddFavorite(RemoveFavorite(st, v.videoId), v) == st
  {
    assert (st.favorites - {v.videoId})[v.videoId := v] == st.favorites;
  }

  /** Every play is logged: one entry appended, earlier entries kept in order. */
  function AddHistoryEntry(st: Store, v: Video): (r: Store)
    ensures |r.history| == |st.history| + 1
    ensures r.history[..|st.history|] == st.history && r.history[|st.history|] == v
    ensures r == st.(history := r.history)
  {
    st.(history := st.history + [v])
  }

  /** Creates an empty playlist under a fresh key and returns that key. */
  function CreatePlaylist(st: Store, name: string): (r: (Store, PlaylistId))
    ensures r.1 == st.nextId && r.0.nextId > r.1
    ensures r.0.playlists == st.playlists[r.1 := Playlist(r.1, name, [])]
    ensures r.0.favorites == st.favorites && r.0.history == st.history
    ensures Valid(st) ==> r.1 !in st.playlists && Valid(r.0)
  {
    var id := st.nextId;
    (st.(playlists := st.playlists[id := Playlist(id, name, [])], nextId := id + 1), id)
  }

  function GetPlaylist(st: Store, id: PlaylistId): (r: Option<Playlist>)
    ensures r.Some? <==> id in st.playlists
    ensures r.Some? ==> r.value == st.playlists[id]
  {
    if id in st.playlists then Some(st.playlists[id]) else None
  }

  /**
   * Appends the video unless the playlist already holds its id (a silent no-op);
   * a missing playlist is an error.
   */
  function AddVideoToPlaylist(st: Store, pid: PlaylistId, v: Video): (r: Result<Store, StoreError>)
    ensures r.Ok? <==> pid in st.playlists
    ensures r.Err? ==> r.error == PlaylistNotFound(pid)
    ensures r.Ok? ==> OnlyVideosOfChanged(st, r.value, pid)
    ensures r.Ok? ==>
      var before := st.playlists[pid].videos;
      var after := r.value.playlists[pid].videos;
      && Contains(after, v.videoId)
      && (if Contains(before, v.videoId) then after == before else after == before + [v])
    ensures r.Ok? && Valid(st) ==> Valid(r.value)
  {
    if pid !in st.playlists then Err(PlaylistNotFound(pid))
    else
      var p := st.playlists[pid];
      if Contains(p.videos, v.videoId) then Ok(st)
      else
        var vs := p.videos + [v];
        assert v in vs;
        assert DistinctIds(p.videos) ==> DistinctIds(vs) by {
          if DistinctIds(p.videos) {
            forall i, j | 0 <= i < j < |vs| ensures vs[i].videoId != vs[j].videoId {
              if j == |p.videos| {
                assert vs[i] in p.videos;
              }
            }
          }
        }
        Ok(st.(playlists := st.playlists[pid := p.(videos := vs)]))
  }

  /** Drops every entry for the video; an absent video is not an error, a missing playlist is. */
  function RemoveVideoFromPlaylist(st: Store, pid: PlaylistId, vid: VideoId): (r: Result<Store, StoreError>)
    ensures r.Ok? <==> pid in st.playlists
    ensures r.Err? ==> r.error == PlaylistNotFound(pid)
    ensures r.Ok? ==> OnlyVideosOfChanged(st, r.value, pid)
    ensures r.Ok? ==>
      var before := st.playlists[pid].videos;
      var after := r.value.playlists[pid].videos;
      && after == Without(before, vid)
      && !Contains(after, vid)
      && (forall v :: v in after <==> v in before && v.videoId != vid)
    ensures r.Ok? && Valid(st) ==> Valid(r.value)
  {
    if pid !in st.playlists then Err(PlaylistNotFound(pid))
    else
      var p := st.playlists[pid];
      Ok(st.(playlists := st.playlists[pid := p.(videos := Without(p.videos, vid))]))
  }

  /** Removes the playlist; deleting an absent id is not an error. */
  function DeletePlaylist(st: Store, pid: PlaylistId): (r: Store)
    ensures r.playlists.Keys == st.playlists.Keys - {pid}
    ensures forall id :: id in r.playlists ==> r.playlists[id] == st.playlists[id]
    ensures r == st.(playlists := r.playlists)
    ensures Valid(st) ==> Valid(r)
  {
    st.(playlists := st.playlists - {pid})
  }

  /** Adding a video twice is the same as adding it once. */
  lemma AddVideoIdempotent(st: Store, pid: PlaylistId, v: Video)
    requires pid in st.playlists
    ensures var once := AddVideoToPlaylist(st, pid, v).value;
      AddVideoToPlaylist(once, pid, v) == Ok(once)
  {
  }

  /** Removing a freshly added video restores the playlist exactly. */
  lemma RemoveUndoesAddVideo(st: Store, pid: PlaylistId, v: Video)
    requires pid in st.playlists && !Contains(st.playlists[pid].videos, v.videoId)
    ensures RemoveVideoFromPlaylist(AddVideoToPlaylist(st, pid, v).value, pid, v.videoId) == Ok(st)
  {
    var p := st.playlists[pid];
    var added := st.(playlists := st.playlists[pid := p.(videos := p.videos + [v])]);
    AddedShape(st, pid, v, added);
    WithoutAppendedAbsent(p.videos, v);
    RemovedShape(added, pid, v.videoId, p, added.(playlists := added.playlists[pid := p]));
    RestoreEntry(st, pid, p.videos + [v]);
  }

  lemma RestoreEntry(st: Store, pid: PlaylistId, vs: seq<Video>)
    requires pid in st.playlists
    ensures var p := st.playlists[pid];
      st.(playlists := st.playlists[pid := p.(videos := vs)][pid := p]) == st
  {
    var p := st.playlists[pid];
    assert st.playlists[pid := p.(videos := vs)][pid := p] == st.playlists;
  }

  lemma AddedShape(st: Store, pid: PlaylistId, v: Video, added: Store)
    requires pid in st.playlists && !Contains(st.playlists[pid].videos, v.videoId)
    requires added == st.(playlists := st.playlists[pid := st.playlists[pid].(videos := st.playlists[pid].videos + [v])])
    ensures AddVideoToPlaylist(st, pid, v) == Ok(added)
  {
  }

  lemma RemovedShape(added: Store, pid: PlaylistId, vid: VideoId, p: Playlist, removed: Store)
    requires pid in added.playlists && Without(added.playlists[pid].videos, vid) == p.videos
    requires added.playlists[pid] == p.(videos := added.playlists[pid].videos)
    requires removed == added.(playlists := added.playlists[pid := p])
    ensures RemoveVideoFromPlaylist(added, pid, vid) == Ok(removed)
  {
  }

  lemma WithoutAppendedAbsent(vs: seq<Video>, v: Video)
    requires !Contains(vs, v.videoId)
    ensures Without(vs + [v], v.videoId) == vs
  {
    WithoutAppend(vs, [v], v.videoId);
    WithoutAbsent(vs, v.videoId);
    assert Without([v], v.videoId) == [] by {
      assert [v][1..] == [];
    }
  }
}

# SpotyTube playback sequencing, in Dafny

SpotyTube is a single-page React player that plays YouTube videos through an
embedded, invisible player widget. Favorites, a play history and named playlists
live in a local IndexedDB library. This project models the sequencing core of
`src/App.jsx`: the handlers that start and stop playback and walk a playlist
forward and backward. It also covers the player-widget callbacks, the progress
poll, and the playlist and favorite edits that must keep the playlist cursor
consistent.

The model keeps the program's own structure:

- `Wrappers`: `Option` and `Result`.
- `Library`: the persisted library as one immutable `Store` value. It holds
  favorites keyed by video id, an append-only history, and playlists keyed by an
  auto-incremented id. Its operations are the ones the handlers call from `./db`.
- `Text`: JavaScript's `String.prototype.trim`, over the ECMAScript whitespace
  and line-terminator set.
- `Playback`: the transient React state. That is the session (`playingVideoId`,
  title, `isPlaying`, times, `isSeeking`), the playlist cursor (driving playlist
  id, snapshot, index), the progress timer, whether the player is ready, the
  "add to playlist" dialog, and the playlist shown on screen.
- `Engine`: one pure function per handler. Each is an atomic transition that
  reads the values its closure captured. When a setter runs twice, directly or
  through a handler it calls, the last write wins.
- `Sequencing`: lemmas relating several transitions. They cover cycling,
  next/previous inverses, idempotence, and replay logging.
- `Machine`: every command and player callback dispatched to its handler. It
  states the invariant every step keeps: a valid library, an idle cursor when no
  playlist drives playback, a snapshot equal to the driving playlist's stored
  content, and a silent session when nothing is loaded.
- `Fixes`: the two defects listed under Findings. Each is shown on a concrete
  input, together with its corrected handler and the property proved about it.
- `Samples`: three sample videos shared by the concrete runs.
- `Scenarios`: end-to-end runs on small libraries.

Modelling decisions:

- `./db` (a Dexie wrapper) is not part of this model. Its operations are pure
  functions chosen to match what the handlers rely on:
  - adding a video that is already in a playlist is a silent no-op;
  - removing a video drops every entry with that id;
  - a missing playlist makes add and remove fail with `PlaylistNotFound`, and the
    awaiting handler then stops before it writes any state.
- Playlist ids are positive integers, as IndexedDB auto-increment keys are. So
  the JavaScript truthiness tests on a playlist id are exactly "is set".
- Player clock values are `real`. They are only stored and compared.
- The player widget and its seek bar are mounted only while a video is loaded
  (`src/App.jsx:654`). Their callbacks (ready, state change, seek, seeking
  latch) therefore reach the handlers only then.
- The progress poll remembers the `isSeeking` value its callback closed over
  when PLAYING was handled. This is the `Timer.Running(seekingAtStart)` case.
- `playPreviousVideo` with an index more than one past the end of the snapshot
  writes the new index. It then hands `undefined` to `playVideo`, which fails on
  its first line before any setter runs. The model keeps the new index and
  leaves the session and history unchanged.

Behaviours of the code worth stating:

- `playVideo` does not clear a driving playlist. Playing a single video while a
  playlist drives playback keeps the cursor.
- `playPlaylist` on an empty or missing playlist closes the player; it does not
  leave the state unchanged.
- The progress poll tests a stale `isSeeking`, and the cursor index is not kept
  in bounds by removals. Both are listed under Findings.

## Model

| member | source | states |
|---|---|---|
| Library.Without | src/App.jsx:517 | the playlist minus every entry with the id, order kept: membership is exactly "was there and has another id", the id is gone, and distinct ids stay distinct |
| Library.FindIndex | src/App.jsx:527 | `findIndex` by video id: -1 exactly when no entry has the id, otherwise the first index holding it |
| Library.WithoutKeepsPosition | src/App.jsx:516-522 | a surviving entry at position i of the old list sits at position \|Without(prefix before i)\| of the new one |
| Library.IsFavorite | src/App.jsx:469 | the test holds exactly when unfavoriting the id would change the store |
| Library.AddFavorite | src/App.jsx:474 | the favorite is stored under its video id, other favorites and the rest of the library are untouched |
| Library.RemoveFavorite | src/App.jsx:471 | the id leaves the favorites, others keep their records, removing an absent id changes nothing |
| Library.RemoveUndoesAddFavorite | src/App.jsx:468-476 | favoriting a non-favorite and then unfavoriting it restores the library |
| Library.AddUndoesRemoveFavorite | src/App.jsx:468-476 | unfavoriting the stored record and favoriting it again restores the library |
| Library.AddHistoryEntry | src/App.jsx:324 | exactly one entry, the played video, is appended after the unchanged earlier history |
| Library.CreatePlaylist | src/App.jsx:486 | an empty playlist with the given name is stored under the fresh key, which was not in use, and the library stays valid |
| Library.GetPlaylist | src/App.jsx:438 | the stored playlist for a present id, nothing for a missing one |
| Library.AddVideoToPlaylist | src/App.jsx:565 | fails exactly for a missing playlist; otherwise the video is appended unless its id is already there, only that playlist's videos change, validity is kept |
| Library.RemoveVideoFromPlaylist | src/App.jsx:517 | fails exactly for a missing playlist; otherwise that playlist's videos become Without(videos, id) and nothing else changes |
| Library.DeletePlaylist | src/App.jsx:502 | the key is gone, every other playlist is kept as it was, nothing else changes |
| Library.AddVideoIdempotent | src/App.jsx:565 | adding the same video twice equals adding it once |
| Library.RemoveUndoesAddVideo | src/App.jsx:517 | removing a video that was just appended to a playlist lacking it restores the library exactly |
| Text.Trim | src/App.jsx:485-486 | the result has no whitespace at either end, is no longer than the input, and is empty exactly when the input is all whitespace |
| Text.TrimOfPadded | src/App.jsx:485-486 | a trimmed core between two whitespace runs is exactly what trim returns |
| Text.TrimSplits | src/App.jsx:485-486 | every string is its trim with whitespace on both sides |
| Text.TrimIdempotent | src/App.jsx:486 | trimming twice equals trimming once |
| Engine.PlayVideo | src/App.jsx:318-324 | the session shows the video from time 0 and playing, one history entry is appended, the cursor and everything else are untouched |
| Engine.ClosePlayer | src/App.jsx:331-347 | idle session, idle cursor, poll cancelled, library, dialog and view untouched |
| Engine.PlayNext | src/App.jsx:349-363 | with a driving non-empty snapshot: index i+1, or 0 past the end, and that entry is started on the same snapshot; otherwise a close |
| Engine.PlayPrevious | src/App.jsx:365-379 | with a driving non-empty snapshot: index i-1, or the last index from 0, and that entry is started; a stale index far past the end only moves the index; otherwise a close |
| Engine.OnPlayerReady | src/App.jsx:381-385 | the player becomes ready and the session is flagged playing; cursor, library, timer, dialog and view stay as they were |
| Engine.OnPlayerStateChange | src/App.jsx:387-418 | ignored before ready and for other states; PLAYING records the duration and starts the poll with the current seek latch; PAUSED stops it; ENDED stops it and equals "next", or closes without a driving playlist |
| Engine.TickAsWritten | src/App.jsx:396-400 | a running poll writes the time unless the latch it captured was set; a stopped poll does nothing |
| Engine.Seek | src/App.jsx:430-435 | once the player is ready the shown time becomes the requested one and nothing else changes; before that nothing changes |
| Engine.PlayPlaylist | src/App.jsx:437-449 | a stored non-empty playlist becomes the driving snapshot at index 0 and its first entry is started; an empty or missing one closes |
| Engine.ToggleFavorite | src/App.jsx:468-482 | the video's favorite membership flips, a new favorite is this video, every other favorite is unchanged, only the favorites change |
| Engine.CreateNewPlaylist | src/App.jsx:484-493 | an all-whitespace name changes nothing; otherwise an empty playlist named by the trimmed name, which is non-empty, is stored under a fresh id, favorites and history are untouched, the dialog is closed and the library stays valid |
| Engine.CloseDialog | src/App.jsx:87-91 | the dialog is hidden with no selected video and an empty name; nothing outside the dialog changes |
| Engine.OpenDialog | src/App.jsx:546-558 | the dialog is shown with the given selection (none for a new playlist), the typed name is kept, nothing outside the dialog changes |
| Engine.SetNewPlaylistName | src/App.jsx:711 | only the typed name changes; visibility and selection stay |
| Engine.SetSeeking | src/App.jsx:666 | only the seek latch changes; a running poll keeps the value it captured |
| Engine.ShowPlaylist | src/App.jsx:495-498 | the viewed id is recorded; the shown playlist is that id exactly when it is stored; nothing outside the view changes |
| Engine.DeletePlaylist | src/App.jsx:500-514 | unconfirmed does nothing; confirmed removes the playlist, clears the view when it was shown, closes when it drove playback and otherwise leaves the session and cursor alone |
| Engine.Reconcile | src/App.jsx:520-543 | the playing video removed and the list empty: close; still present: index moves to its first occurrence, as `findIndex` returns; gone: the index is clamped to min(i, n-1) and that entry started, or close when the old snapshot was empty; another video removed: only the snapshot is refreshed |
| Engine.RemoveVideoFromPlaylist | src/App.jsx:516-544 | a missing playlist changes nothing; otherwise the stored list loses the id; when that playlist does not drive playback the result is exactly the library removal with session and cursor untouched, and when it does the cursor is reconciled |
| Engine.AddVideoToExistingPlaylist | src/App.jsx:560-575 | with no selected video or a missing playlist nothing changes; otherwise the library gains the video, the dialog closes and a driving snapshot is refreshed while index and session stay |
| Sequencing.CloseIdempotent | src/App.jsx:331-347 | closing twice equals closing once |
| Sequencing.ReplayLogsEveryPlay | src/App.jsx:318-324 | replaying the same video logs it again: two plays, two entries |
| Sequencing.ToggleFavoriteTwice | src/App.jsx:468-482 | toggling twice restores the state when the stored record is this video |
| Sequencing.NextTimesCycles | src/App.jsx:349-363 | k presses of "next" from an in-bounds cursor land on (i+k) wrapped by n, play that entry, keep the snapshot and log exactly k plays |
| Sequencing.NextTimesIndexIsMod | src/App.jsx:349-363 | the landing index after k presses is (i+k) % n |
| Sequencing.FullCycleReturns | src/App.jsx:349-363 | n presses of "next" on an n-entry snapshot return the cursor to where it was |
| Sequencing.ShowThenDeleteClearsView | src/App.jsx:495-509 | showing a stored playlist and then deleting it leaves nothing shown |
| Sequencing.OpenThenCloseDialog | src/App.jsx:87-91 | opening the dialog and dismissing it equals dismissing it |
| Sequencing.SeekingRoundTrip | src/App.jsx:666 | raising the seek latch and restoring it gives back the same state |
| Sequencing.TypedNameIsStoredTrimmed | src/App.jsx:484-493 | typing a name that is not blank and confirming stores an empty playlist under the fresh id named by the trimmed text |
| Sequencing.PreviousUndoesNext | src/App.jsx:349-379 | "previous" after "next" restores the cursor and plays the original entry |
| Sequencing.NextUndoesPrevious | src/App.jsx:349-379 | "next" after "previous" restores the cursor and plays the original entry |
| Sequencing.StepsKeepInBounds | src/App.jsx:349-379 | "next" and "previous" keep an in-bounds cursor in bounds |
| Sequencing.EndedAdvances | src/App.jsx:406-416 | the end of a track in a driving playlist moves the cursor as "next" does, plays on, and leaves the poll stopped |
| Sequencing.SeekLastWins | src/App.jsx:430-435 | of two seeks the later decides the shown time |
| Sequencing.DeleteTwiceIsDeleteOnce | src/App.jsx:500-514 | confirming the same deletion twice equals confirming it once |
| Machine.InitialInv | src/App.jsx:57-84 | the mount state over a valid library satisfies the invariant |
| Machine.PlayPlaylistInv | src/App.jsx:437-449 | starting a playlist keeps the invariant |
| Machine.DeletePlaylistInv | src/App.jsx:500-514 | deleting a playlist keeps the invariant, closing when it drove playback |
| Machine.RemoveVideoInv | src/App.jsx:516-544 | removing a video keeps the invariant, including the snapshot equal to the stored list |
| Machine.AddVideoInv | src/App.jsx:560-575 | adding a video keeps the invariant, including the refreshed snapshot |
| Machine.CreatePlaylistInv | src/App.jsx:484-493 | creating a playlist keeps the invariant |
| Machine.PlayNextInv | src/App.jsx:349-363 | "next" keeps the invariant |
| Machine.PlayPreviousInv | src/App.jsx:365-379 | "previous" keeps the invariant |
| Machine.PlayerWidgetInv | src/App.jsx:381-435 | player callbacks, delivered only while a video is loaded, keep the invariant |
| Machine.StepPreservesInv | src/App.jsx:318-575 | every command keeps the invariant |
| Machine.RunPreservesInv | src/App.jsx:318-575 | every sequence of commands keeps the invariant |
| Fixes.OtherRemovalKeepsIndex | src/App.jsx:520-525 | as written, removing a non-playing track from the driving playlist refreshes the snapshot and leaves the index where it was |
| Fixes.StaleIndexAfterEarlierRemoval | src/App.jsx:516-544 | as written, on [A, B, C] with C playing at 2, removing A then B leaves index 2 over [C], and "previous" then moves to index 1 and plays nothing |
| Fixes.Relocate | src/App.jsx:520-523 | the corrected index is 0 for an empty list and otherwise a valid index |
| Fixes.RemoveVideoFromPlaylist | src/App.jsx:516-544 | corrected removal: same library and session as written, and the cursor is within its snapshot whenever the driving playlist exists or it was before |
| Fixes.RemoveKeepsCursorEntry | src/App.jsx:516-544 | corrected removal of a track other than the one under the cursor keeps the cursor on the same entry |
| Fixes.FixedRemoveFollowsPlayingEntry | src/App.jsx:516-544 | on [A, B, C] with C at 2, the corrected removal of A moves the index to 1, still C |
| Fixes.FixedRemoveInv | src/App.jsx:516-544 | the corrected removal keeps the invariant |
| Fixes.AddVideoKeepsBound | src/App.jsx:571-574 | adding a video never pushes the cursor out of its snapshot |
| Fixes.StepKeepsCursorBound | src/App.jsx:318-575 | in the corrected machine every command keeps both the invariant and the cursor bound |
| Fixes.Tick | src/App.jsx:396-400 | the corrected poll writes the time exactly when it is running and the current latch is clear |
| Fixes.StalePollOverwritesSeek | src/App.jsx:387-400 | as written, a poll started before a seek overwrites the scrubbed time; the corrected tick leaves the state unchanged |
| Scenarios.RoadTripTrim | src/App.jsx:485-486 | "  Road Trip " trims to "Road Trip" |
| Scenarios.RoadTripCreated | src/App.jsx:484-493 | creating "  Road Trip " in an empty library stores playlist 1 named "Road Trip" and closes the dialog |
| Scenarios.AddThroughDialog | src/App.jsx:553-575 | selecting a video in the dialog and adding it to a playlist lacking it appends it |
| Scenarios.RoadTripPlays | src/App.jsx:349-449 | [A, B, C] plays A at 0, then B at 1, C at 2 and A at 0 again, logging A, B, C, A |
| Scenarios.RemovePlayingMiddle | src/App.jsx:516-544 | removing the playing B at index 1 of [A, B, C] leaves [A, C] and plays C at index 1 |
| Scenarios.BlankNameRejected | src/App.jsx:484-492 | a name of only a space and a tab creates nothing and changes nothing |

## Left out

- Toasts (`showToast`) and `console` output: they change no state the handlers read.
- `loadData` reloads of the favorites, history and playlist screens, and routing (`navigate`): these are view refreshes. The library itself is modelled. The playlist shown on screen is set by Engine.ShowPlaylist and cleared by deleting it. The reloads of the shown playlist after a removal or an add (src/App.jsx:519, :569) are not modelled.
- `togglePlayPause` (src/App.jsx:420-428): it only calls the widget. The resulting PAUSED and PLAYING events are modelled through `OnPlayerStateChange`.
- Calls into the player widget (`stopVideo`, `seekTo`, `playVideo`, `getDuration`, `getCurrentTime`): the values they return are parameters of the model (`Playing(duration)`, `TimerTick(now)`).
- The timestamps the library adds to records (`playedAt`, `createdAt`, `addedAt`): they come from the clock and are never read by the handlers.
- Search, Google sign-in, the YouTube Data API and sync: these are outside the sequencing core. `src/components/SearchResults.jsx`, `SyncButton.jsx`, `GoogleAuth.jsx` and `Header.jsx` are not part of this model.
- The `./db` module (Dexie): it is not part of this model. Its behaviour is the one stated above.
- IndexedDB write failures: every library call succeeds except add and remove on a missing playlist. For example, a rejected `addHistoryEntry` would leave the session started by `playVideo` (src/App.jsx:319-323) without a history entry; `Engine.PlayVideo` always appends one.
- The playlist list that the dialog openers load (`setPlaylists`, src/App.jsx:549-550 and 556-557): it is a view refresh.
- Interleaving of two handlers suspended on `await`: each handler is one atomic step that sees its captured values.
- Floating-point behaviour of player times: times are real numbers, and the model only stores them.
- The confirmation dialog of `handleDeletePlaylist`: the user's answer is the `confirmed` parameter.
- Engine.PlayPrevious: a stale index more than one past the end is modelled as "index written, nothing played". The rejected promise of the failing `playVideo` call is not modelled.

## Findings

| source | as written | input that shows it | evidently intended | confidence | as-written member | corrected member |
|---|---|---|---|---|---|---|
| src/App.jsx:520-543 | removing a track that is not playing refreshes the snapshot but keeps `currentPlaylistIndex`, so the index stops naming the playing entry and can pass the end of the snapshot | playlist [A, B, C] driving playback with C playing at index 2; remove A, then B: index 2 over [C]; "previous" moves to index 1 and hands `undefined` to `playVideo` | the index follows its entry: it moves left by the number of removed entries before it, so it always names an entry of the snapshot | not executed | Fixes.StaleIndexAfterEarlierRemoval | Fixes.RemoveVideoFromPlaylist |
| src/App.jsx:396-400 | the progress poll tests the `isSeeking` captured when PLAYING was handled, so a seek begun later does not stop it from overwriting the scrubbed time | player ready, PLAYING while not seeking, then the seek latch set, then one poll tick: the time becomes the player's reading | the poll writes only while the current seek latch is clear | not executed | Fixes.StalePollOverwritesSeek | Fixes.Tick |

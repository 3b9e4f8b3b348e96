# token-animator: a Dafny model of its list and position logic

This project models the parts of the `token-animator` Foundry VTT module that decide what a
list or a position becomes, and proves properties of that model. It has three parts.

- **The YouTube Jukebox** (`scripts/main.js`).
  - The library is a list of playlists ("groups") of tracks. Its edits are: create,
    delete, rename or collapse a playlist; add, delete or move a track.
  - The "playlist cursor" (`nextPos`, `prevPos`, `firstPos`, `findVideo`) walks
    (playlist, track) positions in lexicographic order.
  - When the library arrives from another client, the selection is clamped to it.
  - When a track ends, `_onEnded` picks what to play next according to the loop mode, and
    `playAt` starts it.
  - Two helpers: `clamp0to100` and `escapeHTML`.
- **The per-token animation panel** (`scripts/ui/TokenAnimationsApp.js`).
  - Grid snapping of waypoints.
  - Rename, speed, snap and delete edits of a token's animation list.
  - The waypoint buffer of a new recording and the rule for saving it.
  - The path editor: `_beginEdit`, `_endEdit`, and its handles, which can be dragged,
    removed by right click, or added by tapping.
- **The global panel** (`scripts/ui/GlobalAnimatorPanel.js`).
  - `snapName` and the per-folder collapse memory.
  - `_collectAll`, which flattens every token's animations into rows.
  - Grouping of those rows into folder sections, in first-appearance order.
  - `saveAnimPatch` and the splice that deletes one animation.

Modules, one per source area:

- `JsCore` (`js_core.dfy`): the JavaScript semantics the source relies on:
  - `null`/`undefined` as `Option`;
  - numbers with NaN, infinities and truthiness, and `||` on numbers and strings;
  - `String.prototype.trim` with the exact ECMAScript white-space set;
  - `splice(k, 1)` with its negative-index rule, `filter((_, i) => i !== idx)`, and the
    `map((a, i) => i === idx ? … : a)` idiom.
- `JukeboxLibrary` (`jukebox_library.dfy`): `YTJ_Library` is a class whose methods update
  `groups` in place. The cursor methods are index loops proved equal to specification
  functions, and lemmas characterise those functions as lexicographic successor and
  predecessor. `applyRemote` updates the library and the `YTJ_State` selection.
- `JukeboxControl` (`jukebox_control.dfy`): `playAt` and `_onEnded`.
- `JukeboxHelpers` (`jukebox_helpers.dfy`): `clamp0to100` and `escapeHTML`, with an entity
  decoder as the inverse escaping is proved against.
- `TokenAnimations` (`token_animations.dfy`):
  - list edits as functions;
  - the recording buffer as a class whose invariant keeps its first point;
  - the panel and editor state as a class with one method per event handler.
- `GlobalAnimator` (`global_animator.dfy`):
  - the collapse map as a class;
  - `_collectAll` and the grouping loop as methods proved equal to specification functions;
  - lemmas that the grouping partitions the rows;
  - the patch and the delete of one entry.

Notes on how the source was read:

- **Collapse keys.** A folder literally named `__none__` shares its collapse flag with "no
  folder" (`CollapseKey`).
- **Crashing indices.** Where the source would throw a `TypeError` on an index it cannot
  reach, the model states that as a precondition:
  - `nextPos` with `g < -1`;
  - `prevPos` with `i < 1` and `g` past the end of the library;
  - the per-token snap toggle on a missing entry.
- **Play speeds.** "Play all" passes `speed ?? 4`, so it keeps a stored zero or NaN speed.
  The speed field and the play button use `|| 4`, which replaces them
  (`PlayAllKeepsFalsySpeed`).
- **Grid snapping.** It is the host's `canvas.grid` call. It is passed in as a function
  `center`; with snapping on, a point maps to `center(point)`.

## Model

| member | source | states |
|---|---|---|
| JsCore.Trim | scripts/main.js:499 | `trim()` yields a string no longer than the input that neither starts nor ends with ECMAScript white space, and is empty exactly when the input is all white space |
| JsCore.TrimIsPiece | scripts/main.js:499 | the result of `trim()` is a contiguous piece of the input with only white space before and after it |
| JsCore.TrimIdempotent | scripts/ui/GlobalAnimatorPanel.js:6 | trimming a trimmed string changes nothing |
| JsCore.SpliceOne | scripts/main.js:503 | `splice(k, 1)` removes the element at `k` when `0 <= k < length`, counts a negative `k` from the end (clamped to the first element), and removes nothing for `k >= length` |
| JsCore.RemoveAt | scripts/ui/TokenAnimationsApp.js:202 | the filter drops exactly the element at `idx` and keeps the order of the rest; an index outside the list drops nothing |
| JsCore.ReplaceAt | scripts/ui/TokenAnimationsApp.js:162 | the index-guarded map changes only position `idx`, and nothing for a missing index |
| JsCore.SpliceOneIsRemoveAt | scripts/ui/GlobalAnimatorPanel.js:220 | for a non-negative index, splice and filter remove the same element |
| JukeboxLibrary.EnsureDefaults | scripts/main.js:490-494 | the result is never empty: a non-empty groups array is kept, anything else becomes the single "Unsorted" playlist |
| JukeboxLibrary.EnsureDefaultsIdempotent | scripts/main.js:490-494 | applying the defaults twice is applying them once |
| JukeboxLibrary.NewItem | scripts/main.js:502 | an added track keeps the offered id, is not a favourite, and is titled by the offered title, or by the id when the title is empty (`item.title || item.id`), so it has a title whenever it has an id |
| JukeboxLibrary.AppendIfNew | scripts/main.js:502 | after the conditional push the playlist holds the id; the earlier tracks are untouched; it grows by one exactly when the id was absent, and then the new track is last; a playlist without duplicate ids keeps none |
| JukeboxLibrary.SpliceKeepsDistinct | scripts/main.js:503 | removing a track by splice keeps a playlist free of duplicate ids |
| JukeboxLibrary.FirstNonEmptyFrom | scripts/main.js:517 | the scan of later playlists finds the first one at or after `from` that holds a track, or reports that all are empty |
| JukeboxLibrary.LastNonEmptyBefore | scripts/main.js:523 | the downward scan finds the nearest playlist before `upto` that holds a track, or reports that all are empty |
| JukeboxLibrary.NextPosOf | scripts/main.js:514-519 | `nextPos(g, i)` stays in playlist `g` only by moving to index `i + 1`; any other result is the first track of a non-empty later playlist (its full characterisation is `NextPosIsSuccessor`) |
| JukeboxLibrary.PrevPosOf | scripts/main.js:520-525 | `prevPos(g, i)` stays in playlist `g` only by moving to index `i - 1`; any other result is the last track of a non-empty earlier playlist (its full characterisation is `PrevPosIsPredecessor`) |
| JukeboxLibrary.FirstPosOf | scripts/main.js:527 | `firstPos()` is (-1, -1) or the first track of a non-empty playlist (its full characterisation is `FirstPosIsLeast`) |
| JukeboxLibrary.NextPosIsSuccessor | scripts/main.js:514-519 | for g, i >= -1 (every position the player state can hold), any result of `nextPos(g, i)` names an existing track after (g, i) with no track strictly between; there is no result exactly when no track comes after (g, i) |
| JukeboxLibrary.PrevPosIsPredecessor | scripts/main.js:520-525 | for a position inside the library, any result of `prevPos(g, i)` names an existing track before (g, i) with no track strictly between; there is no result exactly when no track comes before |
| JukeboxLibrary.PrevPosIsBefore | scripts/main.js:520-525 | every result of `prevPos(g, i)` is lexicographically before (g, i) |
| JukeboxLibrary.FirstPosIsLeast | scripts/main.js:527 | `firstPos` is an existing track exactly when the library has one, it is then the least position, and otherwise it is (-1, -1) |
| JukeboxLibrary.IndexOfId | scripts/main.js:528 | `findIndex` returns the first index whose track has the id, or -1 when none has it |
| JukeboxLibrary.Library.constructor | scripts/main.js:470-473 | `load` installs the stored library with the defaults applied, so it has at least one playlist |
| JukeboxLibrary.Library.GetItem | scripts/main.js:526 | the track at (g, i) exactly when that position exists, and nothing otherwise |
| JukeboxLibrary.Library.CreateGroup | scripts/main.js:497 | a playlist with the fresh id, the name or "New Playlist", not collapsed, holding the given tracks, is appended; its index is returned |
| JukeboxLibrary.Library.DeleteGroup | scripts/main.js:498 | playlist `gi` is removed and the others keep their order; a bad index changes nothing |
| JukeboxLibrary.Library.RenameGroup | scripts/main.js:499 | playlist `gi` takes the trimmed name, or keeps its old one when the name is blank; a bad index changes nothing |
| JukeboxLibrary.Library.ToggleCollapsed | scripts/main.js:500 | the collapsed flag of playlist `gi` flips; a bad index changes nothing |
| JukeboxLibrary.Library.AddItemTo | scripts/main.js:502 | only playlist `gi` changes, by `AppendIfNew` of the new track; a bad index or a missing id changes nothing; no duplicates appear |
| JukeboxLibrary.Library.DeleteItem | scripts/main.js:503 | only playlist `gi` changes, by `splice(ii, 1)`; a bad `gi` changes nothing; no duplicates appear |
| JukeboxLibrary.Library.MoveItem | scripts/main.js:505-512 | the source playlist loses exactly track `fromI`; the destination gains it at its end unless it already holds the id; no other playlist changes; same playlists, a missing playlist or a missing track change nothing |
| JukeboxLibrary.Library.NextPos | scripts/main.js:514-519 | the loop returns `NextPosOf`, the successor characterised by `NextPosIsSuccessor` |
| JukeboxLibrary.Library.PrevPos | scripts/main.js:520-525 | the loop returns `PrevPosOf`, the predecessor characterised by `PrevPosIsPredecessor` |
| JukeboxLibrary.Library.FirstPos | scripts/main.js:527 | the loop returns `FirstPosOf`, characterised by `FirstPosIsLeast` |
| JukeboxLibrary.Library.FindVideo | scripts/main.js:528 | the result is the first position in playlist-then-track order whose track has the id, and there is none exactly when no track has it |
| JukeboxLibrary.JukeboxState.constructor | scripts/main.js:155-167 | the initial state plays and selects nothing, is stopped and unpaused, with loop mode "off" |
| JukeboxLibrary.ApplyRemote | scripts/main.js:481-488 | input without groups changes nothing; otherwise the library becomes `EnsureDefaults` of it and the selection fits it: a vanished playlist clears the selection; a selected index at or past the end of the playlist moves to its last track, or clears the selection when the playlist is now empty; any other selection, including (playlist, -1) on an emptied playlist, is kept |
| JukeboxControl.PlayAt | scripts/main.js:738-745 | without control permission or a track at (g, i) nothing happens; otherwise (g, i) becomes both the played and the selected position, playback is unpaused and unstopped, and the track's id is played |
| JukeboxControl.EndedChoice | scripts/main.js:764-777 | the position `_onEnded` chooses: in loop mode "one" only the current position or nothing, in loop mode "all" always some position (the mode lemmas below characterise it fully) |
| JukeboxControl.EndedOneReplays | scripts/main.js:766-768 | loop mode "one" replays the current position when there is one, and chooses nothing otherwise |
| JukeboxControl.EndedAllNeverStops | scripts/main.js:770-773 | in loop mode "all" a library with any track always yields an existing track: the next one, or else the very first |
| JukeboxControl.EndedOtherStopsAtEnd | scripts/main.js:775-776 | in any other loop mode the next track is chosen, and nothing exactly when no track comes after the current position |
| JukeboxControl.OnEnded | scripts/main.js:764-777 | the track played is the loop mode's choice from the state before the call, when control is permitted and the choice names a track, and it then becomes the played and the selected position with playback unpaused, at time 0 and unstopped, in the same loop mode; otherwise the state is unchanged |
| JukeboxHelpers.Round | scripts/main.js:1482 | `Math.round` gives the integer within one half of its argument, halves rounding up |
| JukeboxHelpers.Clamp0To100 | scripts/main.js:1482 | the result is an integer in [0, 100]; NaN and 0 give 0, values below the range 0, above it 100, and values inside it the nearest integer |
| JukeboxHelpers.ClampKeepsPercentages | scripts/main.js:1482 | every integer in [0, 100] is returned unchanged |
| JukeboxHelpers.ClampIdempotent | scripts/main.js:1482 | clamping a clamped value changes nothing |
| JukeboxHelpers.EscapeChar | scripts/main.js:1484 | the five special characters become entities (`&` ... `;`) and every other character stays as it is |
| JukeboxHelpers.EscapeHtml | scripts/main.js:1484 | the output contains none of `<`, `>`, `"`, `'`, and text without special characters is returned unchanged |
| JukeboxHelpers.EscapedSpecialStartsEntity | scripts/main.js:1484 | the replacement of each special character is one of the five entities |
| JukeboxHelpers.EscapedAmpersandsStartEntities | scripts/main.js:1484 | every `&` in the output begins one of the five entities |
| JukeboxHelpers.DecodeEscapedChar | scripts/main.js:1484 | decoding one replacement gives back its character |
| JukeboxHelpers.DecodeEscape | scripts/main.js:1484 | escaping loses nothing: decoding the entities of the output gives back the input |
| TokenAnimations.SnapPoint | scripts/ui/TokenAnimationsApp.js:46-60 | with snapping off the point is returned unchanged, with it on the grid's centre of the point |
| TokenAnimations.ApplySnapToArray | scripts/ui/TokenAnimationsApp.js:62 | the same number of points, each snapped in its own place; with snapping off the list is unchanged |
| TokenAnimations.ApplySnapAppend | scripts/ui/TokenAnimationsApp.js:62 | snapping a path with a point appended is snapping the path and then the point |
| TokenAnimations.SpeedFallback | scripts/ui/TokenAnimationsApp.js:167 | the stored speed is the typed number, else the default speed, else 4, and is never NaN or zero |
| TokenAnimations.RenameAt | scripts/ui/TokenAnimationsApp.js:160-164 | only entry `idx` changes and only its name: the trimmed value, or the name the row showed when the value is blank |
| TokenAnimations.SetSpeedAt | scripts/ui/TokenAnimationsApp.js:166-170 | only entry `idx` changes and only its speed, which becomes `SpeedFallback` of the typed number |
| TokenAnimations.SnapToggleAt | scripts/ui/TokenAnimationsApp.js:172-178 | only entry `idx` changes: it takes the new flag and as many points, each snapped with that flag |
| TokenAnimations.DeleteAt | scripts/ui/TokenAnimationsApp.js:196-204 | once confirmed, exactly entry `idx` is dropped and the rest keep their order; otherwise nothing changes |
| TokenAnimations.SaveRecording | scripts/ui/TokenAnimationsApp.js:302-307 | saving a buffer of more than one point appends exactly one entry (its name and points, the default speed or 4, the default snap flag, no folder id) after the unchanged earlier entries; otherwise the list is unchanged |
| TokenAnimations.Recording.constructor | scripts/ui/TokenAnimationsApp.js:270-272 | a recording starts with exactly one point, the token centre snapped with the default flag |
| TokenAnimations.Recording.PointerUp | scripts/ui/TokenAnimationsApp.js:276-284 | a left-button release appends the snapped position; other buttons change nothing; the first point stays |
| TokenAnimations.Recording.Undo | scripts/ui/TokenAnimationsApp.js:285-289 | undo drops the last point only when there are at least two, so the buffer is never empty and its first point stays |
| TokenAnimations.SavedRecordingStartsAtHome | scripts/ui/TokenAnimationsApp.js:302-306 | a saved recording's first waypoint is where the token stood when recording began |
| TokenAnimations.BeginEditOf | scripts/ui/TokenAnimationsApp.js:312-321 | an edit exists exactly for an existing entry, and then holds its index, name, points and snap flag |
| TokenAnimations.EndEditOf | scripts/ui/TokenAnimationsApp.js:324-335 | saving changes only the edited entry, which takes the edited points (snapped when the edit's flag is on) and the edit's flag; cancelling or a vanished entry changes nothing |
| TokenAnimations.EditWithoutChangesKeepsList | scripts/ui/TokenAnimationsApp.js:312-335 | opening an entry and saving it unchanged leaves an unsnapped list as it was, and otherwise only re-snaps that entry |
| TokenAnimations.AfterRebuild | scripts/ui/TokenAnimationsApp.js:370-376 | rebuilding the handles keeps a recorded drag's index but detaches its graphic |
| TokenAnimations.TokenPanel.constructor | scripts/ui/TokenAnimationsApp.js:19-22 | a panel starts with default speed 4, snapping on and no edit |
| TokenAnimations.TokenPanel.SetDefaultSpeed | scripts/ui/TokenAnimationsApp.js:211-213 | the default speed becomes the typed number, or 4 when it is NaN or zero |
| TokenAnimations.TokenPanel.FinishRecording | scripts/ui/TokenAnimationsApp.js:296-308 | the list becomes `SaveRecording` of the buffer with the panel's defaults, and a saved entry starts at the recording's first point |
| TokenAnimations.TokenPanel.BeginEdit | scripts/ui/TokenAnimationsApp.js:312-322 | a missing entry changes nothing; otherwise the edit becomes `BeginEditOf` the entry, and the freshly mounted overlay starts with no drag and no pointer capture |
| TokenAnimations.TokenPanel.EndEdit | scripts/ui/TokenAnimationsApp.js:324-339 | without an edit nothing changes; otherwise the list becomes `EndEditOf`, the edit is cleared, and the destroyed overlay takes its drag and pointer capture with it |
| TokenAnimations.TokenPanel.SetEditSnap | scripts/ui/TokenAnimationsApp.js:219-223 | the edit's snap flag becomes the check box value when an edit is in progress |
| TokenAnimations.TokenPanel.PressHandle | scripts/ui/TokenAnimationsApp.js:391-402 | a left-button press starts dragging that handle and captures the pointer; other buttons change nothing |
| TokenAnimations.TokenPanel.RemoveHandle | scripts/ui/TokenAnimationsApp.js:404-421 | a right click on handle `i` removes exactly point `i` and never point 0; a drag of that handle ends, and any other drag is detached by the rebuild |
| TokenAnimations.TokenPanel.MoveDraggedHandle | scripts/ui/TokenAnimationsApp.js:431-465 | a drag writes the snapped position into exactly point `index`, and only while the index is in range and the handle attached; otherwise the drag ends and the points are unchanged |
| TokenAnimations.TokenPanel.ReleaseHandle | scripts/ui/TokenAnimationsApp.js:467-474 | releasing ends the drag but keeps the capture until its timer runs |
| TokenAnimations.TokenPanel.ReleaseCapture | scripts/ui/TokenAnimationsApp.js:472 | the timer releases the capture |
| TokenAnimations.TokenPanel.Tap | scripts/ui/TokenAnimationsApp.js:477-486 | a left-button tap while no handle holds the pointer appends exactly one snapped point; anything else changes nothing |
| GlobalAnimator.SnapName | scripts/ui/GlobalAnimatorPanel.js:6 | null and undefined give ""; a string gives its trimmed form |
| GlobalAnimator.SnapNameTrimmed | scripts/ui/GlobalAnimatorPanel.js:6 | a folder name is "" exactly for null, undefined or white space, and otherwise has no surrounding white space |
| GlobalAnimator.SnapNameIdempotent | scripts/ui/GlobalAnimatorPanel.js:6 | `snapName` of a `snapName` result changes nothing |
| GlobalAnimator.CollapseKey | scripts/ui/GlobalAnimatorPanel.js:13 | the key is the folder name, or "__none__" for the empty name, and never empty |
| GlobalAnimator.FolderCollapse.constructor | scripts/ui/GlobalAnimatorPanel.js:10 | the setting starts as an empty object |
| GlobalAnimator.FolderCollapse.IsCollapsed | scripts/ui/GlobalAnimatorPanel.js:18-22 | a folder whose key was never stored reads as expanded, and otherwise reads as the stored flag |
| GlobalAnimator.FolderCollapse.SetCollapsed | scripts/ui/GlobalAnimatorPanel.js:12-22 | afterwards `isCollapsed` of the folder, and of every folder sharing its key, is the value set, and every other folder reads as before |
| GlobalAnimator.TokenRows | scripts/ui/GlobalAnimatorPanel.js:81-86 | one row per animation of the token, row `k` carrying index `k` and that animation |
| GlobalAnimator.AllRowsLength | scripts/ui/GlobalAnimatorPanel.js:78-87 | there is one row per stored animation |
| GlobalAnimator.AllRowsAt | scripts/ui/GlobalAnimatorPanel.js:78-87 | animation `k` of token `t` is the row after all rows of the earlier tokens and the first `k` rows of `t`, and it carries `k` as its index |
| GlobalAnimator.CollectAll | scripts/ui/GlobalAnimatorPanel.js:73-89 | no scene gives no rows; otherwise the nested loops produce `AllRows`, characterised by `AllRowsAt` |
| GlobalAnimator.RowsWithKey | scripts/ui/GlobalAnimatorPanel.js:98-101 | the rows collected under a key all have that key |
| GlobalAnimator.FoldersOf | scripts/ui/GlobalAnimatorPanel.js:97-102 | one section per folder key, in first-appearance order, holding that key's rows |
| GlobalAnimator.FolderKeysSnoc | scripts/ui/GlobalAnimatorPanel.js:100 | a row with a new key adds that key at the end, and a row with a known key adds none |
| GlobalAnimator.RowsWithKeySnoc | scripts/ui/GlobalAnimatorPanel.js:101 | a row joins the section of its own key and no other |
| GlobalAnimator.GroupStep | scripts/ui/GlobalAnimatorPanel.js:98-102 | one iteration of the grouping loop keeps the map equal to the grouping of the rows seen so far |
| GlobalAnimator.GroupedFolders | scripts/ui/GlobalAnimatorPanel.js:120 | reading the filled `Map` back in insertion order, once the loop has seen every row, gives exactly `FoldersOf` the rows |
| GlobalAnimator.GroupByFolder | scripts/ui/GlobalAnimatorPanel.js:97-102 | the `Map` read in insertion order gives `FoldersOf` the rows, characterised by `GroupingPartitionsRows` |
| GlobalAnimator.FolderKeysDistinct | scripts/ui/GlobalAnimatorPanel.js:100 | each folder key appears once |
| GlobalAnimator.FolderKeysCover | scripts/ui/GlobalAnimatorPanel.js:99-100 | every row's key is a folder key |
| GlobalAnimator.FolderKeysFromRows | scripts/ui/GlobalAnimatorPanel.js:99-100 | every folder key is the key of some row |
| GlobalAnimator.RowsWithAbsentKey | scripts/ui/GlobalAnimatorPanel.js:100 | a key no row has gets no rows |
| GlobalAnimator.RowsWithKeyComplete | scripts/ui/GlobalAnimatorPanel.js:101 | a row is in the section of its own key |
| GlobalAnimator.SectionSizesStep | scripts/ui/GlobalAnimatorPanel.js:101 | one more row adds one to the section sizes of distinct keys exactly when its key is among them |
| GlobalAnimator.SectionSizesAppend | scripts/ui/GlobalAnimatorPanel.js:100 | a new section adds its own size |
| GlobalAnimator.SectionSizesTotal | scripts/ui/GlobalAnimatorPanel.js:97-108 | the sections hold as many rows as were collected |
| GlobalAnimator.TotalRowsIsSectionSizes | scripts/ui/GlobalAnimatorPanel.js:130 | the counts shown per section add up to the section sizes |
| GlobalAnimator.GroupingPartitionsRows | scripts/ui/GlobalAnimatorPanel.js:97-108 | section keys are distinct, every row lies in the section of its own key, each section holds only rows with its key, and the section sizes sum to `all.length` |
| GlobalAnimator.ApplyPatch | scripts/ui/GlobalAnimatorPanel.js:182 | the patch's fields override the stored ones and every other field is kept |
| GlobalAnimator.ApplyPatchIdempotent | scripts/ui/GlobalAnimatorPanel.js:182 | applying a patch twice is applying it once, and the empty patch changes nothing |
| GlobalAnimator.SaveAnimPatch | scripts/ui/GlobalAnimatorPanel.js:178-184 | without a token document nothing is written; otherwise only entry `idx` changes, by `ApplyPatch`, and a stale index changes nothing (corrected, see Findings) |
| GlobalAnimator.StoredSlots | scripts/ui/GlobalAnimatorPanel.js:181 | the copied list as slots, one stored entry each |
| GlobalAnimator.Holes | scripts/ui/GlobalAnimatorPanel.js:182 | the holes an assignment past the end leaves |
| GlobalAnimator.SaveAnimPatchAsWritten | scripts/ui/GlobalAnimatorPanel.js:178-184 | as written, an index past the end grows the list to `idx + 1` slots, the last holding the patch alone |
| GlobalAnimator.StalePatchGrowsList | scripts/ui/GlobalAnimatorPanel.js:182 | a speed change for index 1 on a one-entry list writes back two entries as written, and one with the correction |
| GlobalAnimator.SaveAnimPatchAgreesInRange | scripts/ui/GlobalAnimatorPanel.js:182 | on an existing index the code as written and the correction agree |
| GlobalAnimator.PlayReadsBackPatchedSpeed | scripts/ui/GlobalAnimatorPanel.js:186-193 | the play button reads back the entry it just patched, with the typed speed (never NaN or zero) and the snap flag |
| GlobalAnimator.DeleteAnimAt | scripts/ui/GlobalAnimatorPanel.js:211-223 | nothing is written without a document or a confirmation; otherwise exactly entry `idx` is spliced out and the rest keep their order |
| GlobalAnimator.EditedSpeed | scripts/ui/GlobalAnimatorPanel.js:226 | the speed used by play and speed edits is the typed number, or 4 when it is NaN or zero |
| GlobalAnimator.PlayAllSpeed | scripts/ui/GlobalAnimatorPanel.js:270 | "Play all" passes the stored speed when there is one, and 4 only when none is stored |
| GlobalAnimator.PlayAllKeepsFalsySpeed | scripts/ui/GlobalAnimatorPanel.js:270 | for every stored speed, "Play all" keeps a NaN or zero speed that the speed field replaces by 4, and the two agree exactly when the stored speed is truthy |

## Left out

- The token animation runtime behind `api.play`, `api.pause`, `api.stop` and `api.playByName` is not part of this model. No file here implements it, so nothing about walking a path or pausing is modelled.
- `scripts/api.js`: thin wrappers over host flag storage and that runtime.
- `YTJ_Player` (the YouTube iframe API, timers, `Date.now`), `YTJ_Data` (network fetches and concurrent title workers) and `YTJ_Socket` (broadcasts): foreign calls, clocks, network and concurrency. `PlayAt` returns the play command instead of emitting it, so the start time is not modelled.
- `YTJ_Control.playSelected`, `pause`, `stop`, `seek`, `next`, `prev`: permission checks interleaved with socket and player calls; only `_onEnded`'s choice and `playAt` are modelled. The permission check `_assertCtrl` becomes the parameter `canControl`.
- `YTJ_Library.save`, the persistence of `load`, `groupIndexById` and `YTJ_Util.parse` (the browser URL parser).
- `randomId`: it uses `Math.random`, so `createGroup` takes the fresh id as a parameter.
- All DOM, PIXI drawing, dialogs, render and refresh calls, settings and keybinding registration. The folder-collapse setting is a plain map; its `game.settings` persistence and the `|| {}` / `catch` fallbacks of reading it are left out. Dialog prompts become parameters (`confirmed`, the recording's name).
- The recording's keyboard dispatch (Escape cancels, Enter saves, Backspace undoes) is not modelled separately: it calls `FinishRecording` with `false`/`true` or `Undo`.
- The global panel's snap check box handler (scripts/ui/GlobalAnimatorPanel.js:230-238): it writes `{ ...anims[idx], snap, points }` directly, the same patched-entry logic as `SaveAnimPatch` (with the same stale-index growth). The folder field handler (lines 240-243) is `SaveAnimPatch` with a folder patch. The play-all, pause-all and stop-all loops only call the unmodelled runtime.
- Number parsing (`Number(value)` of an input's text) is left out; the handlers take the resulting `JsNumber`.
- `_snapPoint` and host values such as `getFlag` returning non-arrays or entries that are not objects: the host's data is taken to be well formed.
- JukeboxLibrary.NextPosOf: requires `g >= -1`, because the source throws a `TypeError` for a smaller `g`.
- JukeboxLibrary.PrevPosOf: requires `i >= 1` or `g` within the library, because otherwise the source throws a `TypeError`.
- TokenAnimations.SnapToggleAt: requires an existing entry, because the handler reads that entry's points first and throws otherwise.
- TokenAnimations.Recording.constructor: requires a non-empty name, because `_startRecording` returns before creating a buffer when the prompt gives none.
- JukeboxLibrary.NextPosIsSuccessor: stated only for g, i >= -1, the positions the player state holds, because for an index i < -1 `nextPos` returns (g, i + 1), which is not a track.
- JukeboxLibrary.PrevPosIsPredecessor: the "no track strictly between" half is stated only for positions inside the library (or at a playlist's start), because for a position past the end of a playlist `prevPos` returns a position that is not a track.
- GlobalAnimator.FolderCollapse.SetCollapsed: the setting is an ordinary JavaScript object, and the model's map does not capture its `Object.prototype` property names. Before anything is stored, a folder named after an inherited property such as "constructor" or "toString" reads as collapsed in the source, because `!!m[key]` is true for the inherited function; in the model it reads as expanded. Writing to the key "__proto__" is ignored by the object, so `SetCollapsed("__proto__", v)` does not change what that folder reads; the model says it reads as `v`.
- GlobalAnimator.FolderCollapse.IsCollapsed: for the same reason, reads of inherited `Object.prototype` property names are not modelled.
- TokenAnimations.TokenPanel.ReleaseCapture: the pointer-capture flag belongs to one overlay. A release timer set before the overlay is rebuilt clears that old overlay's flag in the source, but it clears the panel's single flag in the model.

## Findings

| source | as written | input that shows it | evidently intended | confidence | as-written member | corrected member |
|---|---|---|---|---|---|---|
| scripts/ui/GlobalAnimatorPanel.js:182 | `anims[idx] = { ...anims[idx], ...patch }` with a stale `idx` past the end of the token's list writes an entry made only of the patch (and holes before it), so the list grows by an animation with no name and no points | the row was rendered for index 1, then the token's list shrank to one entry (deleted in the token panel); a speed change on that row stores `[a, { speed }]` (lemma `GlobalAnimator.StalePatchGrowsList`) | a stale index changes nothing, as the per-token panel's index-guarded `map` edits and `_endEdit`'s missing-entry guard already do | not executed; medium | GlobalAnimator.SaveAnimPatchAsWritten | GlobalAnimator.SaveAnimPatch |

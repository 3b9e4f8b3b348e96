/**
 * The per-token animation panel (scripts/ui/TokenAnimationsApp.js): grid snapping of
 * waypoints, the edits of the animation list, the recording buffer of a new animation and
 * the path editor with its draggable handles.
 *
 * Grid snapping is the host's `canvas.grid` call; it is a parameter `center` here, the
 * function that maps a point to the centre of its grid cell (or leaves it alone when the
 * grid offers no such call or the call fails).
 */
module TokenAnimations {
  import opened JsCore

  /** A canvas position. */
  datatype Point = Point(x: real, y: real)

  /**
   * One stored animation: its name, waypoints, speed (absent on entries written without one),
   * snap flag, folder id (null for new recordings) and the folder name the global panel groups by.
   */
  datatype Anim = Anim(
    name: string,
    points: seq<Point>,
    speed: Option<JsNumber>,
    snap: bool,
    folderId: Option<string>,
    folder: Option<string>)

  /** `_snapPoint(p, snapFlag)`: with snapping off the point is returned unchanged. */
  function SnapPoint(p: Point, snapOn: bool, center: Point -> Point): (r: Point)
    ensures !snapOn ==> r == p
    ensures snapOn ==> r == center(p)
  {
    if snapOn then center(p) else p
  }

  /** `_applySnapToArray(points, snapFlag)`: the same number of points, each snapped in place. */
  function ApplySnapToArray(points: seq<Point>, snapOn: bool, center: Point -> Point): (r: seq<Point>)
    ensures |r| == |points|
    ensures forall k :: 0 <= k < |points| ==> r[k] == SnapPoint(points[k], snapOn, center)
    ensures !snapOn ==> r == points
  {
    seq(|points|, k requires 0 <= k < |points| => SnapPoint(points[k], snapOn, center))
  }

  /** Snapping a path with one more point snaps the path and then the new point. */
  lemma ApplySnapAppend(points: seq<Point>, p: Point, snapOn: bool, center: Point -> Point)
    ensures ApplySnapToArray(points + [p], snapOn, center)
         == ApplySnapToArray(points, snapOn, center) + [SnapPoint(p, snapOn, center)]
  {
    var l := ApplySnapToArray(points + [p], snapOn, center);
    var r := ApplySnapToArray(points, snapOn, center) + [SnapPoint(p, snapOn, center)];
    assert |l| == |r|;
    forall k | 0 <= k < |l| ensures l[k] == r[k] {
      if k < |points| {
        assert (points + [p])[k] == points[k];
      } else {
        assert (points + [p])[k] == p;
      }
    }
  }

  /**
   * The speed the speed field stores: the number typed, or the default speed when that is NaN
   * or zero, or 4 when both are. The result is never NaN or zero.
   */
  function SpeedFallback(typed: JsNumber, defaultSpeed: JsNumber): (r: JsNumber)
    ensures Truthy(r)
    ensures Truthy(typed) ==> r == typed
    ensures !Truthy(typed) && Truthy(defaultSpeed) ==> r == defaultSpeed
    ensures !Truthy(typed) && !Truthy(defaultSpeed) ==> r == Num(4.0)
  {
    Or(Or(typed, defaultSpeed), Num(4.0))
  }

  /**
   * The name change handler: entry `idx` takes the trimmed field value, or the name the row
   * showed when it was rendered if the value trims to nothing; every other entry is kept.
   */
  function RenameAt(anims: seq<Anim>, idx: int, value: string, shown: string): (r: seq<Anim>)
    ensures |r| == |anims|
    ensures forall j :: 0 <= j < |anims| && j != idx ==> r[j] == anims[j]
    ensures 0 <= idx < |anims| ==> r[idx] == anims[idx].(name := r[idx].name)
    ensures 0 <= idx < |anims| && !AllSpace(value) ==> r[idx].name == Trim(value)
    ensures 0 <= idx < |anims| && AllSpace(value) ==> r[idx].name == shown
  {
    if 0 <= idx < |anims| then ReplaceAt(anims, idx, anims[idx].(name := OrStr(Trim(value), shown)))
    else anims
  }

  /**
   * The speed change handler: entry `idx` takes `SpeedFallback` of the typed number and the
   * panel's default speed; every other entry is kept.
   */
  function SetSpeedAt(anims: seq<Anim>, idx: int, typed: JsNumber, defaultSpeed: JsNumber): (r: seq<Anim>)
    ensures |r| == |anims|
    ensures forall j :: 0 <= j < |anims| && j != idx ==> r[j] == anims[j]
    ensures 0 <= idx < |anims| ==> r[idx] == anims[idx].(speed := Some(SpeedFallback(typed, defaultSpeed)))
  {
    if 0 <= idx < |anims| then ReplaceAt(anims, idx, anims[idx].(speed := Some(SpeedFallback(typed, defaultSpeed))))
    else anims
  }

  /**
   * The snap check box handler: entry `idx` takes the new flag and its points snapped with that
   * flag; every other entry is kept. The handler reads the entry's points first, so the entry
   * must exist.
   */
  function SnapToggleAt(anims: seq<Anim>, idx: int, snapOn: bool, center: Point -> Point): (r: seq<Anim>)
    requires 0 <= idx < |anims|
    ensures |r| == |anims|
    ensures forall j :: 0 <= j < |anims| && j != idx ==> r[j] == anims[j]
    ensures r[idx].snap == snapOn && |r[idx].points| == |anims[idx].points|
    ensures r[idx] == anims[idx].(snap := snapOn, points := ApplySnapToArray(anims[idx].points, snapOn, center))
  {
    ReplaceAt(anims, idx, anims[idx].(snap := snapOn, points := ApplySnapToArray(anims[idx].points, snapOn, center)))
  }

  /**
   * The delete handler: once confirmed, exactly entry `idx` is dropped and the rest keep
   * their order; without confirmation nothing changes.
   */
  function DeleteAt(anims: seq<Anim>, idx: int, confirmed: bool): (r: seq<Anim>)
    ensures confirmed && 0 <= idx < |anims| ==>
      |r| == |anims| - 1 && forall j :: 0 <= j < |r| ==> r[j] == anims[if j < idx then j else j + 1]
    ensures !(confirmed && 0 <= idx < |anims|) ==> r == anims
  {
    if confirmed then RemoveAt(anims, idx) else anims
  }

  /**
   * The end of a recording: with save and more than one point, one entry is appended with the
   * default speed (or 4 when it is NaN or zero), the default snap flag and no folder id; the
   * earlier entries are unchanged. Otherwise the list is unchanged.
   */
  function SaveRecording(anims: seq<Anim>, save: bool, name: string, points: seq<Point>,
                         defaultSpeed: JsNumber, defaultSnap: bool): (r: seq<Anim>)
    ensures save && |points| > 1 ==>
      && |r| == |anims| + 1 && r[..|anims|] == anims
      && r[|anims|].name == name && r[|anims|].points == points
      && r[|anims|].speed == Some(Or(defaultSpeed, Num(4.0))) && Truthy(r[|anims|].speed.value)
      && r[|anims|].snap == defaultSnap && r[|anims|].folderId.None?
    ensures !(save && |points| > 1) ==> r == anims
  {
    if save && |points| > 1 then
      anims + [Anim(name, points, Some(Or(defaultSpeed, Num(4.0))), defaultSnap, None, None)]
    else anims
  }

  /**
   * The waypoint buffer of `_startRecording`. It starts with the token centre, snapped with the
   * default snap flag; `home` remembers that first point, which no operation removes.
   */
  class Recording {
    var name: string
    var points: seq<Point>
    ghost var home: Point

    ghost predicate Valid()
      reads this
    {
      |points| >= 1 && points[0] == home
    }

    /** A recording is started only after a name was entered. */
    constructor(name: string, tokenCenter: Point, defaultSnap: bool, center: Point -> Point)
      requires name != ""
      ensures Valid()
      ensures this.name == name && points == [SnapPoint(tokenCenter, defaultSnap, center)]
      ensures home == SnapPoint(tokenCenter, defaultSnap, center)
    {
      this.name := name;
      points := [SnapPoint(tokenCenter, defaultSnap, center)];
      home := SnapPoint(tokenCenter, defaultSnap, center);
    }

    /** A pointer release adds the snapped position, but only for the left button (0). */
    method PointerUp(button: int, pos: Point, defaultSnap: bool, center: Point -> Point)
      requires Valid()
      modifies this
      ensures Valid() && home == old(home) && name == old(name)
      ensures button == 0 ==> points == old(points) + [SnapPoint(pos, defaultSnap, center)]
      ensures button != 0 ==> points == old(points)
    {
      if button != 0 { return; }
      points := points + [SnapPoint(pos, defaultSnap, center)];
    }

    /** Right click and Backspace drop the last point, but never the first one. */
    method Undo()
      requires Valid()
      modifies this
      ensures Valid() && home == old(home) && name == old(name)
      ensures |old(points)| > 1 ==> points == old(points)[..|old(points)| - 1]
      ensures |old(points)| == 1 ==> points == old(points)
    {
      if |points| > 1 {
        points := points[..|points| - 1];
      }
    }
  }

  /** A saved recording starts where the token stood when recording began. */
  lemma SavedRecordingStartsAtHome(anims: seq<Anim>, name: string, points: seq<Point>, home: Point,
                                   defaultSpeed: JsNumber, defaultSnap: bool)
    requires |points| > 1 && points[0] == home
    ensures var r := SaveRecording(anims, true, name, points, defaultSpeed, defaultSnap);
      |r| == |anims| + 1 && r[|anims|].points[0] == home
  {
  }

  /** The path being edited: which entry, its name, a copy of its points and its snap flag. */
  datatype Editing = Editing(index: int, name: string, points: seq<Point>, snap: bool)

  /** A handle being dragged: its index and whether its graphic still belongs to the overlay. */
  datatype Drag = Drag(index: int, alive: bool)

  /**
   * `_beginEdit(index)`: nothing for a missing entry; otherwise a copy of that entry's
   * name, points and snap flag.
   */
  function BeginEditOf(anims: seq<Anim>, index: int): (r: Option<Editing>)
    ensures r.Some? <==> 0 <= index < |anims|
    ensures r.Some? ==>
      r.value.index == index && r.value.points == anims[index].points
      && r.value.snap == anims[index].snap && r.value.name == anims[index].name
  {
    if 0 <= index < |anims| then
      Some(Editing(index, anims[index].name, anims[index].points, anims[index].snap))
    else None
  }

  /**
   * The list `_endEdit(save)` leaves: with save and the entry still present, only that entry
   * changes, taking the edited points (snapped when the edit's flag is on) and the edit's snap
   * flag; otherwise nothing changes.
   */
  function EndEditOf(anims: seq<Anim>, ed: Editing, save: bool, center: Point -> Point): (r: seq<Anim>)
    ensures |r| == |anims|
    ensures forall j :: 0 <= j < |anims| && j != ed.index ==> r[j] == anims[j]
    ensures save && 0 <= ed.index < |anims| ==>
      r[ed.index] == anims[ed.index].(points := ApplySnapToArray(ed.points, ed.snap, center), snap := ed.snap)
    ensures !(save && 0 <= ed.index < |anims|) ==> r == anims
  {
    if save && 0 <= ed.index < |anims| then
      ReplaceAt(anims, ed.index, anims[ed.index].(points := ApplySnapToArray(ed.points, ed.snap, center), snap := ed.snap))
    else anims
  }

  /**
   * Opening an entry in the editor and saving it unchanged leaves the list as it was when the
   * entry is not snapped, and otherwise only snaps that entry's points.
   */
  lemma EditWithoutChangesKeepsList(anims: seq<Anim>, index: int, center: Point -> Point)
    requires 0 <= index < |anims|
    ensures var ed := BeginEditOf(anims, index).value;
      var r := EndEditOf(anims, ed, true, center);
      && (!anims[index].snap ==> r == anims)
      && r == SnapToggleAt(anims, index, anims[index].snap, center)
  {
    var ed := BeginEditOf(anims, index).value;
    var r := EndEditOf(anims, ed, true, center);
    if !anims[index].snap {
      assert r[index] == anims[index];
      assert r == anims;
    }
  }

  /**
   * `rebuildHandles` destroys every handle graphic and draws new ones, so a drag still on
   * record afterwards refers to a graphic that left the overlay.
   */
  function AfterRebuild(d: Option<Drag>): (r: Option<Drag>)
    ensures r.None? <==> d.None?
    ensures r.Some? ==> r.value.index == d.value.index && !r.value.alive
  {
    match d
    case None => None
    case Some(g) => Some(g.(alive := false))
  }

  /**
   * The state of one token's panel: the token's stored animations, the path being edited,
   * the defaults for new recordings, and the editor's drag state (the handle being dragged
   * and whether a handle holds the pointer, which keeps a tap from adding a point).
   */
  class TokenPanel {
    var anims: seq<Anim>
    var editing: Option<Editing>
    var defaultSpeed: JsNumber
    var defaultSnap: bool
    var dragging: Option<Drag>
    var captured: bool

    /** A panel opens with default speed 4, snapping on, and no edit in progress. */
    constructor(anims: seq<Anim>)
      ensures this.anims == anims && editing.None? && defaultSpeed == Num(4.0) && defaultSnap
      ensures dragging.None? && !captured
    {
      this.anims := anims;
      editing := None;
      defaultSpeed := Num(4.0);
      defaultSnap := true;
      dragging := None;
      captured := false;
    }

    /** The default speed field stores the number typed, or 4 when it is NaN or zero. */
    method SetDefaultSpeed(typed: JsNumber)
      modifies this
      ensures defaultSpeed == Or(typed, Num(4.0)) && Truthy(defaultSpeed)
      ensures anims == old(anims) && editing == old(editing) && defaultSnap == old(defaultSnap)
      ensures dragging == old(dragging) && captured == old(captured)
    {
      defaultSpeed := Or(typed, Num(4.0));
    }

    /** The end of a recording stores what `SaveRecording` says, with the panel's defaults. */
    method FinishRecording(rec: Recording, save: bool)
      requires rec.Valid()
      modifies this
      ensures anims == SaveRecording(old(anims), save, rec.name, rec.points, defaultSpeed, defaultSnap)
      ensures save && |rec.points| > 1 ==> anims[|old(anims)|].points[0] == rec.home
      ensures editing == old(editing) && defaultSpeed == old(defaultSpeed) && defaultSnap == old(defaultSnap)
      ensures dragging == old(dragging) && captured == old(captured)
    {
      if save && |rec.points| > 1 {
        SavedRecordingStartsAtHome(anims, rec.name, rec.points, rec.home, defaultSpeed, defaultSnap);
        anims := anims + [Anim(rec.name, rec.points, Some(Or(defaultSpeed, Num(4.0))), defaultSnap, None, None)];
      }
    }

    /**
     * `_beginEdit(index)`: starts editing a copy of entry `index` when it exists. The re-render
     * mounts a fresh overlay, whose drag starts out empty and whose pointer is not captured.
     */
    method BeginEdit(index: int)
      modifies this
      ensures editing == (if 0 <= index < |anims| then BeginEditOf(anims, index) else old(editing))
      ensures anims == old(anims) && defaultSpeed == old(defaultSpeed) && defaultSnap == old(defaultSnap)
      ensures 0 <= index < |anims| ==> dragging.None? && !captured
      ensures !(0 <= index < |anims|) ==> dragging == old(dragging) && captured == old(captured)
    {
      if 0 <= index < |anims| {
        editing := Some(Editing(index, anims[index].name, anims[index].points, anims[index].snap));
        dragging := None;
        captured := false;
      }
    }

    /**
     * `_endEdit(save)`: stores the edited path as `EndEditOf` says when an edit is in progress,
     * and clears the edit together with the overlay, which takes its drag and its pointer
     * capture with it; without an edit nothing happens.
     */
    method EndEdit(save: bool, center: Point -> Point)
      modifies this
      ensures old(editing).None? ==>
        anims == old(anims) && editing.None? && dragging == old(dragging) && captured == old(captured)
      ensures old(editing).Some? ==>
        && anims == EndEditOf(old(anims), old(editing).value, save, center)
        && editing.None? && dragging.None? && !captured
      ensures defaultSpeed == old(defaultSpeed) && defaultSnap == old(defaultSnap)
    {
      if editing.None? { return; }
      var ed := editing.value;
      dragging := None;
      captured := false;
      if !(0 <= ed.index < |anims|) {
        editing := None;
        return;
      }
      if save {
        anims := anims[ed.index := anims[ed.index].(points := ApplySnapToArray(ed.points, ed.snap, center), snap := ed.snap)];
      }
      editing := None;
    }

    /** The edit banner's snap check box sets the edit's flag, if an edit is in progress. */
    method SetEditSnap(snapOn: bool)
      modifies this
      ensures editing == if old(editing).Some? then Some(old(editing).value.(snap := snapOn)) else None
      ensures anims == old(anims) && defaultSpeed == old(defaultSpeed) && defaultSnap == old(defaultSnap)
      ensures dragging == old(dragging) && captured == old(captured)
    {
      if editing.Some? {
        editing := Some(editing.value.(snap := snapOn));
      }
    }

    /** A left-button press on handle `i` starts dragging it and captures the pointer. */
    method PressHandle(i: nat, button: int)
      modifies this
      ensures button == 0 ==> dragging == Some(Drag(i, true)) && captured
      ensures button != 0 ==> dragging == old(dragging) && captured == old(captured)
      ensures anims == old(anims) && editing == old(editing)
      ensures defaultSpeed == old(defaultSpeed) && defaultSnap == old(defaultSnap)
    {
      if button != 0 { return; }
      dragging := Some(Drag(i, true));
      captured := true;
    }

    /**
     * A right click on handle `i` removes exactly point `i` of the edited path, never point 0;
     * a drag of that same handle ends, and any other drag loses its graphic to the rebuild.
     */
    method RemoveHandle(i: nat)
      modifies this
      ensures i == 0 || old(editing).None? ==>
        editing == old(editing) && dragging == old(dragging) && captured == old(captured)
      ensures i != 0 && old(editing).Some? ==>
        var before := old(editing).value.points;
        && editing == Some(old(editing).value.(points := SpliceOne(before, i)))
        && (i < |before| ==>
              |editing.value.points| == |before| - 1
              && forall j :: 0 <= j < |editing.value.points| ==>
                   editing.value.points[j] == before[if j < i then j else j + 1])
        && (|before| > 0 ==> editing.value.points[0] == before[0])
      ensures i != 0 && old(editing).Some? && old(dragging).Some? && old(dragging).value.index == i ==>
        dragging.None? && !captured
      ensures i != 0 && old(editing).Some? && !(old(dragging).Some? && old(dragging).value.index == i) ==>
        dragging == AfterRebuild(old(dragging)) && captured == old(captured)
      ensures anims == old(anims) && defaultSpeed == old(defaultSpeed) && defaultSnap == old(defaultSnap)
    {
      if i == 0 { return; }
      if editing.None? { return; }
      if dragging.Some? && dragging.value.index == i {
        dragging := None;
        captured := false;
      }
      var ed := editing.value;
      SpliceOneIsRemoveAt(ed.points, i);
      editing := Some(ed.(points := SpliceOne(ed.points, i)));
      dragging := AfterRebuild(dragging);
    }

    /**
     * A pointer move while dragging writes the snapped position into exactly point `index` of
     * the edited path, and only when that index is still in range and the handle still on the
     * overlay; otherwise the drag ends and the edit is unchanged.
     */
    method MoveDraggedHandle(pos: Point, center: Point -> Point)
      modifies this
      ensures old(dragging).None? || old(editing).None? ==>
        editing == old(editing) && dragging == old(dragging) && captured == old(captured)
      ensures old(dragging).Some? && old(editing).Some? ==>
        var d := old(dragging).value;
        var before := old(editing).value.points;
        if d.alive && 0 <= d.index < |before| then
          && editing == Some(old(editing).value.(points := before[d.index := SnapPoint(pos, old(editing).value.snap, center)]))
          && dragging == old(dragging) && captured == old(captured)
        else
          editing == old(editing) && dragging.None? && !captured
      ensures anims == old(anims) && defaultSpeed == old(defaultSpeed) && defaultSnap == old(defaultSnap)
    {
      if dragging.None? || editing.None? { return; }
      var d := dragging.value;
      var ed := editing.value;
      if !d.alive || !(0 <= d.index < |ed.points|) {
        dragging := None;
        captured := false;
        return;
      }
      editing := Some(ed.(points := ed.points[d.index := SnapPoint(pos, ed.snap, center)]));
    }

    /**
     * Releasing the pointer ends a drag; the capture stays in place until the timer queued
     * with it runs (`ReleaseCapture`), so the same release does not also add a point.
     */
    method ReleaseHandle()
      modifies this
      ensures dragging.None? && captured == old(captured) && editing == old(editing)
      ensures anims == old(anims) && defaultSpeed == old(defaultSpeed) && defaultSnap == old(defaultSnap)
    {
      dragging := None;
    }

    /** The timer queued by `ReleaseHandle` releases the capture. */
    method ReleaseCapture()
      modifies this
      ensures !captured && dragging == old(dragging) && editing == old(editing)
      ensures anims == old(anims) && defaultSpeed == old(defaultSpeed) && defaultSnap == old(defaultSnap)
    {
      captured := false;
    }

    /**
     * A left-button tap on the overlay, while no handle holds the pointer, appends the snapped
     * position as the last point of the edited path; anything else is ignored.
     */
    method Tap(button: int, pos: Point, center: Point -> Point)
      modifies this
      ensures captured || button != 0 || old(editing).None? ==>
        editing == old(editing) && dragging == old(dragging)
      ensures !captured && button == 0 && old(editing).Some? ==>
        && editing == Some(old(editing).value.(points := old(editing).value.points + [SnapPoint(pos, old(editing).value.snap, center)]))
        && dragging == AfterRebuild(old(dragging))
      ensures captured == old(captured)
      ensures anims == old(anims) && defaultSpeed == old(defaultSpeed) && defaultSnap == old(defaultSnap)
    {
      if captured || button != 0 || editing.None? { return; }
      var ed := editing.value;
      editing := Some(ed.(points := ed.points + [SnapPoint(pos, ed.snap, center)]));
      dragging := AfterRebuild(dragging);
    }
  }
}

/**
 * The part of `YTJ_Control` (scripts/main.js) that decides what to play: `playAt` and the
 * choice `_onEnded` makes when a track finishes, according to the loop mode.
 */
module JukeboxControl {
  import opened JsCore
  import opened JukeboxLibrary

  /** The `play` payload that `playAt` broadcasts and hands to the player (its start time aside). */
  datatype PlayCommand = PlayCommand(id: string, g: int, i: int)

  /**
   * `playAt(g, i)`: with control permission and a track at (g, i), that track becomes both the
   * playing and the selected position, playback is unpaused and unstopped, and its command is
   * issued; otherwise nothing happens.
   */
  method PlayAt(lib: Library, st: JukeboxState, canControl: bool, g: int, i: int)
    returns (cmd: Option<PlayCommand>)
    requires st.Valid()
    modifies st
    ensures st.Valid()
    ensures !(canControl && HasPos(lib.groups, Pos(g, i))) ==> cmd.None? && unchanged(st)
    ensures canControl && HasPos(lib.groups, Pos(g, i)) ==>
      && cmd == Some(PlayCommand(ItemAt(lib.groups, Pos(g, i)).id, g, i))
      && st.g == g && st.i == i && st.selG == g && st.selI == i
      && !st.paused && st.pausedTime == 0.0 && !st.stopped && st.loopMode == old(st.loopMode)
  {
    if !canControl { return None; }
    var it := lib.GetItem(g, i);
    if it.None? { return None; }
    st.g, st.i, st.selG, st.selI := g, i, g, i;
    st.paused, st.pausedTime, st.stopped := false, 0.0, false;
    return Some(PlayCommand(it.value.id, g, i));
  }

  /**
   * The position `_onEnded` asks `playAt` for. Loop mode "one" replays the current position
   * when there is one; "all" takes `nextPos` and otherwise wraps to `firstPos` (which may be
   * (-1, -1)); every other mode takes `nextPos` and otherwise stops.
   */
  function EndedChoice(G: seq<Group>, mode: string, g: int, i: int): (r: Option<Pos>)
    requires g >= -1
    ensures mode == "one" ==> r.None? || r.value == Pos(g, i)
    ensures mode == "all" ==> r.Some?
  {
    if mode == "one" then (if g >= 0 && i >= 0 then Some(Pos(g, i)) else None)
    else if mode == "all" then
      match NextPosOf(G, g, i)
      case Some(p) => Some(p)
      case None => Some(FirstPosOf(G))
    else NextPosOf(G, g, i)
  }

  /** In loop mode "one" a finished track is replayed, and nothing is chosen without a current position. */
  lemma EndedOneReplays(G: seq<Group>, g: int, i: int)
    requires g >= -1
    ensures EndedChoice(G, "one", g, i) == if g >= 0 && i >= 0 then Some(Pos(g, i)) else None
  {
  }

  /**
   * In loop mode "all" playback never runs out while the library holds any track: the choice
   * always names an existing track, the next one or else the very first.
   */
  lemma EndedAllNeverStops(G: seq<Group>, g: int, i: int)
    requires g >= -1 && i >= -1
    requires AnyItem(G)
    ensures var c := EndedChoice(G, "all", g, i);
      c.Some? && HasPos(G, c.value)
      && (NextPosOf(G, g, i).None? ==> c.value == FirstPosOf(G))
  {
    NextPosIsSuccessor(G, g, i);
    FirstPosIsLeast(G);
  }

  /**
   * In any other loop mode a finished track is followed by the next track in library
   * order and playback stops exactly when no track comes after the current position.
   */
  lemma EndedOtherStopsAtEnd(G: seq<Group>, mode: string, g: int, i: int)
    requires mode != "one" && mode != "all"
    requires g >= -1 && i >= -1
    ensures var c := EndedChoice(G, mode, g, i);
      && (c.None? <==> forall p :: HasPos(G, p) ==> !Before(Pos(g, i), p))
      && (c.Some? ==> HasPos(G, c.value) && Before(Pos(g, i), c.value))
  {
    NextPosIsSuccessor(G, g, i);
  }

  /**
   * `_onEnded()`: plays the position chosen for the loop mode through `playAt`; when no
   * position is chosen, or it holds no track, or control is not permitted, nothing happens.
   */
  method OnEnded(lib: Library, st: JukeboxState, canControl: bool) returns (cmd: Option<PlayCommand>)
    requires st.Valid()
    modifies st
    ensures st.Valid()
    ensures var c := EndedChoice(lib.groups, old(st.loopMode), old(st.g), old(st.i));
      cmd == if canControl && c.Some? && HasPos(lib.groups, c.value)
             then Some(PlayCommand(ItemAt(lib.groups, c.value).id, c.value.g, c.value.i))
             else None
    ensures cmd.None? ==> unchanged(st)
    ensures cmd.Some? ==>
      && st.g == cmd.value.g && st.i == cmd.value.i && st.selG == cmd.value.g && st.selI == cmd.value.i
      && !st.paused && st.pausedTime == 0.0 && !st.stopped && st.loopMode == old(st.loopMode)
  {
    var mode := st.loopMode;
    if mode == "one" {
      if st.g >= 0 && st.i >= 0 {
        cmd := PlayAt(lib, st, canControl, st.g, st.i);
      } else {
        cmd := None;
      }
      return;
    }
    if mode == "all" {
      var n := lib.NextPos(st.g, st.i);
      if n.None? {
        var f := lib.FirstPos();
        n := Some(f);
      }
      cmd := PlayAt(lib, st, canControl, n.value.g, n.value.i);
      return;
    }
    var n := lib.NextPos(st.g, st.i);
    if n.Some? {
      cmd := PlayAt(lib, st, canControl, n.value.g, n.value.i);
    } else {
      cmd := None;
    }
  }
}

/**
 * The YouTube Jukebox library (`YTJ_Library` in scripts/main.js): an ordered list of playlists
 * ("groups"), each an ordered list of tracks, with its editing operations and the playlist
 * cursor that walks (group, index) positions in lexicographic order.
 */
module JukeboxLibrary {
  import opened JsCore

  datatype Item = Item(id: string, title: string, fav: bool)
  datatype Group = Group(id: string, name: string, collapsed: bool, items: seq<Item>)

  /** A (group, index) position; -1 stands for "none" in the source. */
  datatype Pos = Pos(g: int, i: int)

  /** What a caller offers to `addItemTo`; an empty `id` or `title` stands for a missing or empty one. */
  datatype Offer = Offer(id: string, title: string)

  /** The `groups` field of a library object received from elsewhere. */
  datatype GroupsField =
    | Falsy            // missing, null, or another falsy value
    | NonArray         // present and truthy, but not an array
    | Array(groups: seq<Group>)

  /** The `lib` argument of `applyRemote`: missing, or an object with a `groups` field. */
  datatype LibValue = NoLib | Lib(groups: GroupsField)

  const UNSORTED: Group := Group("unsorted", "Unsorted", false, [])
  const NEW_PLAYLIST: string := "New Playlist"

  /** Position `p` names an existing track. */
  predicate HasPos(G: seq<Group>, p: Pos) {
    0 <= p.g < |G| && 0 <= p.i < |G[p.g].items|
  }

  function ItemAt(G: seq<Group>, p: Pos): Item
    requires HasPos(G, p)
  {
    G[p.g].items[p.i]
  }

  /** Lexicographic order on positions: by group, then by index. */
  predicate Before(p: Pos, q: Pos) {
    p.g < q.g || (p.g == q.g && p.i < q.i)
  }

  predicate AnyItem(G: seq<Group>) {
    exists k :: 0 <= k < |G| && |G[k].items| > 0
  }

  /** `items.some(x => x.id === id)` */
  predicate HasId(items: seq<Item>, id: string) {
    exists k :: 0 <= k < |items| && items[k].id == id
  }

  predicate DistinctIds(items: seq<Item>) {
    forall j, k :: 0 <= j < k < |items| ==> items[j].id != items[k].id
  }

  /** Every playlist of the library is free of duplicate track ids. */
  predicate NoDuplicates(G: seq<Group>) {
    forall k :: 0 <= k < |G| ==> DistinctIds(G[k].items)
  }

  /**
   * `_ensureDefaults`: the groups of `obj` when they form a non-empty array; otherwise the
   * single default "unsorted" playlist. The result is never empty.
   */
  function EnsureDefaults(f: GroupsField): (r: seq<Group>)
    ensures |r| >= 1
    ensures f.Array? && f.groups != [] ==> r == f.groups
    ensures !(f.Array? && f.groups != []) ==> r == [UNSORTED]
  {
    var out := if f.Array? then f.groups else [];
    if out == [] then [UNSORTED] else out
  }

  /** Applying the defaults to a library that already has them changes nothing. */
  lemma EnsureDefaultsIdempotent(f: GroupsField)
    ensures EnsureDefaults(Array(EnsureDefaults(f))) == EnsureDefaults(f)
  {
  }

  /** The track `addItemTo` stores for an offer: not a favourite, titled by its id when it has no title. */
  function NewItem(o: Offer): (it: Item)
    ensures it.id == o.id && !it.fav
    ensures it.title == if o.title != "" then o.title else o.id
    ensures it.title != "" || o.id == ""
  {
    Item(o.id, OrStr(o.title, o.id), false)
  }

  /**
   * Push `it` unless the playlist already holds its id: the result holds that id, keeps
   * every earlier track in place, grows by at most one, and stays free of duplicates.
   */
  function AppendIfNew(items: seq<Item>, it: Item): (r: seq<Item>)
    ensures HasId(r, it.id)
    ensures |items| <= |r| <= |items| + 1 && r[..|items|] == items
    ensures |r| == |items| + 1 <==> !HasId(items, it.id)
    ensures |r| == |items| + 1 ==> r[|items|] == it
    ensures DistinctIds(items) ==> DistinctIds(r)
  {
    if HasId(items, it.id) then items
    else assert (items + [it])[|items|] == it; items + [it]
  }

  /** Removing one track keeps a playlist free of duplicates. */
  lemma SpliceKeepsDistinct(items: seq<Item>, k: int)
    requires DistinctIds(items)
    ensures DistinctIds(SpliceOne(items, k))
  {
    var r := SpliceOne(items, k);
    var st := SpliceStart(|items|, k);
    if st < |items| {
      assert r == items[..st] + items[st + 1..];
      forall a, b | 0 <= a < b < |r| ensures r[a].id != r[b].id {
        var a' := if a < st then a else a + 1;
        var b' := if b < st then b else b + 1;
        assert r[a] == items[a'] && r[b] == items[b'];
      }
    }
  }

  /** The first playlist at or after `from` that holds a track. */
  function FirstNonEmptyFrom(G: seq<Group>, from: nat): (r: Option<nat>)
    ensures r.Some? ==> from <= r.value < |G| && |G[r.value].items| > 0
    ensures r.Some? ==> forall k :: from <= k < r.value ==> |G[k].items| == 0
    ensures r.None? ==> forall k :: from <= k < |G| ==> |G[k].items| == 0
    decreases |G| - from
  {
    if from >= |G| then None
    else if |G[from].items| > 0 then Some(from)
    else FirstNonEmptyFrom(G, from + 1)
  }

  /** The last playlist before `upto` that holds a track. */
  function LastNonEmptyBefore(G: seq<Group>, upto: int): (r: Option<nat>)
    requires upto <= |G|
    ensures r.Some? ==> r.value < upto && |G[r.value].items| > 0
    ensures r.Some? ==> forall k :: r.value < k < upto ==> |G[k].items| == 0
    ensures r.None? ==> forall k :: 0 <= k < upto ==> |G[k].items| == 0
    decreases upto
  {
    if upto <= 0 then None
    else if |G[upto - 1].items| > 0 then Some(upto - 1)
    else LastNonEmptyBefore(G, upto - 1)
  }

  /**
   * What `nextPos(g, i)` returns: the next index of the same playlist when there is one,
   * else the first track of the next non-empty playlist, else nothing. (With `g < -1`
   * the source reads a missing playlist and throws.)
   */
  function NextPosOf(G: seq<Group>, g: int, i: int): (r: Option<Pos>)
    requires g >= -1
    ensures r.Some? && r.value.g == g ==> r.value.i == i + 1
    ensures r.Some? && r.value.g != g ==> g < r.value.g < |G| && r.value.i == 0 && |G[r.value.g].items| > 0
  {
    if 0 <= g < |G| && i + 1 < |G[g].items| then Some(Pos(g, i + 1))
    else match FirstNonEmptyFrom(G, g + 1)
      case Some(k) => Some(Pos(k, 0))
      case None => None
  }

  /**
   * What `prevPos(g, i)` returns: index `i - 1` of the same playlist whenever `i >= 1`,
   * else the last track of the nearest earlier non-empty playlist, else nothing. (With
   * `i < 1` and `g` past the end of the library the source reads a missing playlist and throws.)
   */
  function PrevPosOf(G: seq<Group>, g: int, i: int): (r: Option<Pos>)
    requires i >= 1 || g <= |G|
    ensures r.Some? && r.value.g == g ==> r.value.i == i - 1
    ensures r.Some? && r.value.g != g ==> 0 <= r.value.g < g && r.value.g < |G| && r.value.i == |G[r.value.g].items| - 1 >= 0
  {
    if i - 1 >= 0 then Some(Pos(g, i - 1))
    else match LastNonEmptyBefore(G, g)
      case Some(k) => Some(Pos(k, |G[k].items| - 1))
      case None => None
  }

  /** What `firstPos()` returns: the first track of the first non-empty playlist, or (-1, -1). */
  function FirstPosOf(G: seq<Group>): (p: Pos)
    ensures p == Pos(-1, -1) || (0 <= p.g < |G| && p.i == 0 && |G[p.g].items| > 0)
  {
    match FirstNonEmptyFrom(G, 0)
    case Some(k) => Pos(k, 0)
    case None => Pos(-1, -1)
  }

  /**
   * `nextPos` is the lexicographic successor among existing tracks: any result names a track
   * after (g, i) with no track strictly between, and there is no result exactly when no track
   * comes after (g, i).
   */
  lemma NextPosIsSuccessor(G: seq<Group>, g: int, i: int)
    requires g >= -1 && i >= -1
    ensures var r := NextPosOf(G, g, i);
      && (r.Some? ==> HasPos(G, r.value) && Before(Pos(g, i), r.value))
      && (r.Some? ==> forall p :: HasPos(G, p) && Before(Pos(g, i), p) ==> !Before(p, r.value))
      && (r.None? <==> forall p :: HasPos(G, p) ==> !Before(Pos(g, i), p))
  {
    var r := NextPosOf(G, g, i);
    if 0 <= g < |G| && i + 1 < |G[g].items| {
      assert r == Some(Pos(g, i + 1));
      assert HasPos(G, Pos(g, i + 1)) && Before(Pos(g, i), Pos(g, i + 1));
    } else {
      var k := FirstNonEmptyFrom(G, g + 1);
      if k.None? {
        assert r.None?;
        forall p | HasPos(G, p) ensures !Before(Pos(g, i), p) {
        }
      } else {
        assert r == Some(Pos(k.value, 0));
        assert HasPos(G, Pos(k.value, 0)) && Before(Pos(g, i), Pos(k.value, 0));
        forall p | HasPos(G, p) && Before(Pos(g, i), p) ensures !Before(p, r.value) {
          if p.g > g {
            assert |G[p.g].items| > 0;
          }
        }
      }
    }
  }

  /**
   * `prevPos` is the lexicographic predecessor among existing tracks whenever (g, i) is a
   * position inside the library (or starts a playlist): any result names a track before
   * (g, i) with no track strictly between, and there is no result exactly when no track
   * comes before (g, i). Any result, valid or not, is lexicographically before (g, i).
   */
  lemma PrevPosIsPredecessor(G: seq<Group>, g: int, i: int)
    requires g <= |G|
    requires i <= 0 || (0 <= g < |G| && i <= |G[g].items|)
    ensures var r := PrevPosOf(G, g, i);
      && (r.Some? ==> HasPos(G, r.value) && Before(r.value, Pos(g, i)))
      && (r.Some? ==> forall p :: HasPos(G, p) && Before(p, Pos(g, i)) ==> !Before(r.value, p))
      && (r.None? <==> forall p :: HasPos(G, p) ==> !Before(p, Pos(g, i)))
  {
    var r := PrevPosOf(G, g, i);
    if r.None? {
      forall p | HasPos(G, p) ensures !Before(p, Pos(g, i)) {
      }
    } else {
      forall p | HasPos(G, p) && Before(p, Pos(g, i)) ensures !Before(r.value, p) {
        if p.g < g && i - 1 < 0 {
          assert |G[p.g].items| > 0;
        }
      }
      assert HasPos(G, r.value) && Before(r.value, Pos(g, i));
    }
  }

  /** Whatever `prevPos` returns lies lexicographically before (g, i). */
  lemma PrevPosIsBefore(G: seq<Group>, g: int, i: int)
    requires i >= 1 || g <= |G|
    ensures var r := PrevPosOf(G, g, i); r.Some? ==> Before(r.value, Pos(g, i))
  {
  }

  /** `firstPos` names the first track of the library, or is (-1, -1) exactly when there is none. */
  lemma FirstPosIsLeast(G: seq<Group>)
    ensures var p := FirstPosOf(G);
      && (AnyItem(G) <==> HasPos(G, p))
      && (!AnyItem(G) <==> p == Pos(-1, -1))
      && (HasPos(G, p) ==> forall q :: HasPos(G, q) ==> !Before(q, p))
  {
    var p := FirstPosOf(G);
    if AnyItem(G) {
      var k :| 0 <= k < |G| && |G[k].items| > 0;
      assert FirstNonEmptyFrom(G, 0).Some?;
    }
  }

  /** `items.findIndex(x => x.id === id)`: the first index holding `id`, or -1. */
  function IndexOfId(items: seq<Item>, id: string, from: nat := 0): (k: int)
    requires from <= |items|
    ensures k == -1 || from <= k < |items|
    ensures k >= 0 ==> items[k].id == id
    ensures k >= 0 ==> forall j :: from <= j < k ==> items[j].id != id
    ensures k == -1 ==> forall j :: from <= j < |items| ==> items[j].id != id
    decreases |items| - from
  {
    if from == |items| then -1
    else if items[from].id == id then from
    else IndexOfId(items, id, from + 1)
  }

  /** The library the Jukebox edits and walks. */
  class Library {
    var groups: seq<Group>

    /** `load()`: the stored library with the defaults applied (a missing setting has no groups). */
    constructor (stored: GroupsField)
      ensures groups == EnsureDefaults(stored) && |groups| >= 1
    {
      groups := EnsureDefaults(stored);
    }

    /** `getItem(g, i)`: the track at (g, i), or nothing when there is none. */
    function GetItem(g: int, i: int): (r: Option<Item>)
      reads this
      ensures r.Some? <==> HasPos(groups, Pos(g, i))
      ensures r.Some? ==> r.value == ItemAt(groups, Pos(g, i))
    {
      if 0 <= g < |groups| && 0 <= i < |groups[g].items| then Some(groups[g].items[i]) else None
    }

    /** `createGroup(name, items)`: appends a playlist with a fresh id and returns its index. */
    method CreateGroup(name: string, freshId: string, items: seq<Item>) returns (gi: nat)
      modifies this
      ensures groups == old(groups) + [Group(freshId, OrStr(name, NEW_PLAYLIST), false, items)]
      ensures gi == |groups| - 1 && groups[gi].name != ""
      ensures NoDuplicates(old(groups)) && DistinctIds(items) ==> NoDuplicates(groups)
    {
      groups := groups + [Group(freshId, OrStr(name, NEW_PLAYLIST), false, items)];
      gi := |groups| - 1;
    }

    /** `deleteGroup(gi)`: removes playlist `gi`; a bad index changes nothing. */
    method DeleteGroup(gi: int)
      modifies this
      ensures 0 <= gi < |old(groups)| ==> groups == old(groups)[..gi] + old(groups)[gi + 1..]
      ensures !(0 <= gi < |old(groups)|) ==> groups == old(groups)
      ensures NoDuplicates(old(groups)) ==> NoDuplicates(groups)
    {
      if !(0 <= gi < |groups|) { return; }
      ghost var G := groups;
      groups := groups[..gi] + groups[gi + 1..];
      assert forall k :: 0 <= k < |groups| ==> groups[k] == G[if k < gi then k else k + 1];
    }

    /** `renameGroup(gi, name)`: the trimmed new name, or the old one when that is blank. */
    method RenameGroup(gi: int, name: string)
      modifies this
      ensures 0 <= gi < |old(groups)| ==>
        groups == old(groups)[gi := old(groups)[gi].(name := OrStr(Trim(name), old(groups)[gi].name))]
      ensures !(0 <= gi < |old(groups)|) ==> groups == old(groups)
      ensures 0 <= gi < |old(groups)| && AllSpace(name) ==> groups == old(groups)
    {
      if !(0 <= gi < |groups|) { return; }
      var g := groups[gi];
      groups := groups[gi := g.(name := OrStr(Trim(name), g.name))];
    }

    /** `toggleCollapsed(gi)`; a bad index changes nothing. */
    method ToggleCollapsed(gi: int)
      modifies this
      ensures 0 <= gi < |old(groups)| ==>
        groups == old(groups)[gi := old(groups)[gi].(collapsed := !old(groups)[gi].collapsed)]
      ensures !(0 <= gi < |old(groups)|) ==> groups == old(groups)
    {
      if !(0 <= gi < |groups|) { return; }
      var g := groups[gi];
      groups := groups[gi := g.(collapsed := !g.collapsed)];
    }

    /**
     * `addItemTo(gi, item)`: appends the offered track to playlist `gi` unless that playlist
     * already has its id; a bad index or an offer without id changes nothing, and no other
     * playlist changes in any case.
     */
    method AddItemTo(gi: int, offer: Offer)
      modifies this
      ensures 0 <= gi < |old(groups)| && offer.id != "" ==>
        groups == old(groups)[gi := old(groups)[gi].(items := AppendIfNew(old(groups)[gi].items, NewItem(offer)))]
      ensures !(0 <= gi < |old(groups)| && offer.id != "") ==> groups == old(groups)
      ensures NoDuplicates(old(groups)) ==> NoDuplicates(groups)
    {
      if !(0 <= gi < |groups|) || offer.id == "" { return; }
      var g := groups[gi];
      groups := groups[gi := g.(items := AppendIfNew(g.items, NewItem(offer)))];
    }

    /** `deleteItem(gi, ii)`: `items.splice(ii, 1)` on playlist `gi`; a bad `gi` changes nothing. */
    method DeleteItem(gi: int, ii: int)
      modifies this
      ensures 0 <= gi < |old(groups)| ==>
        groups == old(groups)[gi := old(groups)[gi].(items := SpliceOne(old(groups)[gi].items, ii))]
      ensures !(0 <= gi < |old(groups)|) ==> groups == old(groups)
      ensures NoDuplicates(old(groups)) ==> NoDuplicates(groups)
    {
      if !(0 <= gi < |groups|) { return; }
      var g := groups[gi];
      if DistinctIds(g.items) { SpliceKeepsDistinct(g.items, ii); }
      groups := groups[gi := g.(items := SpliceOne(g.items, ii))];
    }

    /**
     * `moveItem(fromG, fromI, toG)`: takes track `fromI` out of playlist `fromG` and appends it
     * to playlist `toG` unless that one already holds its id (then the track is dropped).
     * Nothing changes when the two playlists are the same, either is missing, or the track is missing.
     */
    method MoveItem(fromG: int, fromI: int, toG: int)
      modifies this
      ensures var G := old(groups);
        if fromG != toG && 0 <= fromG < |G| && 0 <= toG < |G| && 0 <= fromI < |G[fromG].items|
        then groups == G[fromG := G[fromG].(items := RemoveAt(G[fromG].items, fromI))]
                        [toG := G[toG].(items := AppendIfNew(G[toG].items, G[fromG].items[fromI]))]
        else groups == G
      ensures NoDuplicates(old(groups)) ==> NoDuplicates(groups)
    {
      if fromG == toG { return; }
      if !(0 <= fromG < |groups|) || !(0 <= toG < |groups|) { return; }
      var gFrom, gTo := groups[fromG], groups[toG];
      if !(0 <= fromI < |gFrom.items|) { return; }
      var it := gFrom.items[fromI];
      if DistinctIds(gFrom.items) { SpliceKeepsDistinct(gFrom.items, fromI); }
      groups := groups[fromG := gFrom.(items := SpliceOne(gFrom.items, fromI))];
      groups := groups[toG := gTo.(items := AppendIfNew(gTo.items, it))];
    }

    /** `nextPos(g, i)`, scanning the later playlists with an index loop and an early return. */
    method NextPos(g: int, i: int) returns (r: Option<Pos>)
      requires g >= -1
      ensures r == NextPosOf(groups, g, i)
    {
      if 0 <= g < |groups| && i + 1 < |groups[g].items| {
        return Some(Pos(g, i + 1));
      }
      var gi: nat := g + 1;
      while gi < |groups|
        invariant g + 1 <= gi
        invariant FirstNonEmptyFrom(groups, g + 1) == FirstNonEmptyFrom(groups, gi)
        decreases |groups| - gi
      {
        if |groups[gi].items| > 0 {
          return Some(Pos(gi, 0));
        }
        gi := gi + 1;
      }
      return None;
    }

    /** `prevPos(g, i)`, scanning the earlier playlists downwards. */
    method PrevPos(g: int, i: int) returns (r: Option<Pos>)
      requires i >= 1 || g <= |groups|
      ensures r == PrevPosOf(groups, g, i)
    {
      if i - 1 >= 0 {
        return Some(Pos(g, i - 1));
      }
      var gi := g - 1;
      while gi >= 0
        invariant gi < |groups|
        invariant LastNonEmptyBefore(groups, g) == LastNonEmptyBefore(groups, gi + 1)
        decreases gi
      {
        var len := |groups[gi].items|;
        if len > 0 {
          return Some(Pos(gi, len - 1));
        }
        gi := gi - 1;
      }
      return None;
    }

    /** `firstPos()` */
    method FirstPos() returns (r: Pos)
      ensures r == FirstPosOf(groups)
    {
      var gi := 0;
      while gi < |groups|
        invariant 0 <= gi <= |groups|
        invariant FirstNonEmptyFrom(groups, 0) == FirstNonEmptyFrom(groups, gi)
      {
        if |groups[gi].items| > 0 {
          return Pos(gi, 0);
        }
        gi := gi + 1;
      }
      return Pos(-1, -1);
    }

    /**
     * `findVideo(id)`: the first position, in playlist-then-track order, whose track has `id`;
     * nothing exactly when no track has it.
     */
    method FindVideo(id: string) returns (r: Option<Pos>)
      ensures r.Some? ==> HasPos(groups, r.value) && ItemAt(groups, r.value).id == id
      ensures r.Some? ==> forall p :: HasPos(groups, p) && Before(p, r.value) ==> ItemAt(groups, p).id != id
      ensures r.None? <==> forall p :: HasPos(groups, p) ==> ItemAt(groups, p).id != id
    {
      var gi := 0;
      while gi < |groups|
        invariant 0 <= gi <= |groups|
        invariant forall p :: HasPos(groups, p) && p.g < gi ==> ItemAt(groups, p).id != id
      {
        var ii := IndexOfId(groups[gi].items, id);
        if ii >= 0 {
          return Some(Pos(gi, ii));
        }
        gi := gi + 1;
      }
      return None;
    }
  }

  /**
   * `YTJ_State`: the position being played (`g`, `i`), the selected position (`selG`, `selI`),
   * the pause / stop flags and the loop mode. The overlay player's fields, the search text and
   * the favourites filter are not part of this model.
   */
  class JukeboxState {
    var g: int
    var i: int
    var selG: int
    var selI: int
    var paused: bool
    var pausedTime: real
    var stopped: bool
    var loopMode: string

    /** The positions are -1 ("none") or non-negative. */
    ghost predicate Valid()
      reads this
    {
      g >= -1 && i >= -1
    }

    /** The initial state: nothing played or selected, stopped, loop mode "off". */
    constructor ()
      ensures Valid()
      ensures g == -1 && i == -1 && selG == -1 && selI == -1
      ensures !paused && pausedTime == 0.0 && stopped && loopMode == "off"
    {
      g, i, selG, selI := -1, -1, -1, -1;
      paused, pausedTime, stopped := false, 0.0, true;
      loopMode := "off";
    }

    /**
     * After a library update: no playlist selected (and no track), or a selected playlist
     * that exists with the selected index below its length.
     */
    predicate SelectionFits(G: seq<Group>)
      reads this
    {
      (selG == -1 && selI == -1) || (0 <= selG < |G| && selI < |G[selG].items|)
    }
  }

  /**
   * `applyRemote(lib)`: input without `groups` is ignored; otherwise the library becomes
   * `_ensureDefaults(lib)` and the selection is clamped to it: a selected playlist that is gone
   * clears the selection, and an index past the end moves to the last track or, for an
   * empty playlist, clears the selection.
   */
  method ApplyRemote(lib: Library, sel: JukeboxState, remote: LibValue)
    modifies lib, sel
    ensures remote.NoLib? || remote.groups.Falsy? ==>
      lib.groups == old(lib.groups) && unchanged(sel)
    ensures unchanged(sel`g, sel`i, sel`paused, sel`pausedTime, sel`stopped, sel`loopMode)
    ensures !(remote.NoLib? || remote.groups.Falsy?) ==>
      && lib.groups == EnsureDefaults(remote.groups)
      && sel.SelectionFits(lib.groups)
      && (!(0 <= old(sel.selG) < |lib.groups|) ==> sel.selG == -1 && sel.selI == -1)
      && (0 <= old(sel.selG) < |lib.groups| && old(sel.selI) < |lib.groups[old(sel.selG)].items| ==>
            sel.selG == old(sel.selG) && sel.selI == old(sel.selI))
      && (0 <= old(sel.selG) < |lib.groups| && 0 <= |lib.groups[old(sel.selG)].items| <= old(sel.selI) ==>
            if lib.groups[old(sel.selG)].items == [] then sel.selG == -1 && sel.selI == -1
            else sel.selG == old(sel.selG) && sel.selI == |lib.groups[old(sel.selG)].items| - 1)
  {
    if remote.NoLib? || remote.groups.Falsy? { return; }
    lib.groups := EnsureDefaults(remote.groups);
    var G := lib.groups;
    if !(0 <= sel.selG < |G|) {
      sel.selG, sel.selI := -1, -1;
    } else if sel.selI >= |G[sel.selG].items| {
      sel.selI := |G[sel.selG].items| - 1;
      if sel.selI < 0 { sel.selG := -1; }
    }
  }
}

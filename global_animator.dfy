/**
 * The global animation panel (scripts/ui/GlobalAnimatorPanel.js): folder names, the
 * per-folder collapse memory, the flattening of every token's animations into rows, the
 * grouping of rows by folder, and the patch and delete of one stored animation.
 */
module GlobalAnimator {
  import opened JsCore
  import opened TokenAnimations

  /** `snapName(s)`: the trimmed folder name, with null and undefined giving "". */
  function SnapName(s: Option<string>): (r: string)
    ensures s.None? ==> r == ""
    ensures s.Some? ==> r == Trim(s.value)
  {
    match s
    case None => ""
    case Some(t) => OrStr(Trim(t), "")
  }

  /**
   * A folder name is "" exactly for null, undefined and names made of white space; any other
   * name neither starts nor ends with white space.
   */
  lemma SnapNameTrimmed(s: Option<string>)
    ensures SnapName(s) == "" <==> s.None? || AllSpace(s.value)
    ensures SnapName(s) != "" ==> !IsSpace(SnapName(s)[0]) && !IsSpace(SnapName(s)[|SnapName(s)| - 1])
  {
  }

  /** A folder name that went through `snapName` once is not changed by it again. */
  lemma SnapNameIdempotent(s: Option<string>)
    ensures SnapName(Some(SnapName(s))) == SnapName(s)
  {
    if s.Some? {
      TrimIdempotent(s.value);
    }
  }

  /** The key a folder's collapse flag is stored under: "__none__" for the empty folder name. */
  function CollapseKey(folder: string): (k: string)
    ensures k != ""
    ensures folder != "" ==> k == folder
    ensures folder == "" ==> k == "__none__"
  {
    OrStr(folder, "__none__")
  }

  /** The folder-collapse setting, a map from folder key to flag. */
  class FolderCollapse {
    var stored: map<string, bool>

    /** The setting starts as an empty object. */
    constructor()
      ensures stored == map[]
    {
      stored := map[];
    }

    /** `isCollapsed(folder)`: the flag under the folder's key, false when none is stored. */
    function IsCollapsed(folder: string): (r: bool)
      reads this
      ensures CollapseKey(folder) !in stored ==> !r
      ensures CollapseKey(folder) in stored ==> r == stored[CollapseKey(folder)]
    {
      CollapseKey(folder) in stored && stored[CollapseKey(folder)]
    }

    /**
     * `setCollapsed(folder, val)`: afterwards the folder reads as `val`, and so does every
     * folder sharing its key; every other folder reads as before.
     */
    method SetCollapsed(folder: string, val: bool)
      modifies this
      ensures stored == old(stored)[CollapseKey(folder) := val]
      ensures IsCollapsed(folder) == val
      ensures forall f :: CollapseKey(f) == CollapseKey(folder) ==> IsCollapsed(f) == val
      ensures forall f :: CollapseKey(f) != CollapseKey(folder) ==> IsCollapsed(f) == old(IsCollapsed(f))
    {
      stored := stored[CollapseKey(folder) := val];
    }
  }

  /** A token of the current scene: its id, name and stored animations (`[]` when it has none). */
  datatype TokenDoc = TokenDoc(id: string, name: string, anims: seq<Anim>)

  /** One row of the panel: the token, the animation's index in that token's list, and the animation. */
  datatype Row = Row(tokenId: string, tokenName: string, idx: nat, anim: Anim)

  /** The rows of one token, in the order of its list. */
  function TokenRows(td: TokenDoc): (r: seq<Row>)
    ensures |r| == |td.anims|
    ensures forall k :: 0 <= k < |r| ==> r[k] == Row(td.id, td.name, k, td.anims[k])
  {
    seq(|td.anims|, k requires 0 <= k < |td.anims| => Row(td.id, td.name, k, td.anims[k]))
  }

  /** The rows of a list of tokens: token by token, each in the order of its list. */
  function AllRows(tds: seq<TokenDoc>): seq<Row>
  {
    if tds == [] then [] else AllRows(tds[..|tds| - 1]) + TokenRows(tds[|tds| - 1])
  }

  /** The number of animations stored on a list of tokens. */
  function AnimCount(tds: seq<TokenDoc>): nat
  {
    if tds == [] then 0 else AnimCount(tds[..|tds| - 1]) + |tds[|tds| - 1].anims|
  }

  /** There is one row per stored animation. */
  lemma {:induction false} AllRowsLength(tds: seq<TokenDoc>)
    ensures |AllRows(tds)| == AnimCount(tds)
    decreases |tds|
  {
    if tds != [] {
      AllRowsLength(tds[..|tds| - 1]);
    }
  }

  /**
   * Animation `k` of token `t` is the row after all rows of the tokens before `t` and the
   * first `k` rows of `t`, and that row carries `k` as its index.
   */
  lemma {:induction false} AllRowsAt(tds: seq<TokenDoc>, t: int, k: int)
    requires 0 <= t < |tds| && 0 <= k < |tds[t].anims|
    ensures AnimCount(tds[..t]) + k < |AllRows(tds)|
    ensures AllRows(tds)[AnimCount(tds[..t]) + k] == Row(tds[t].id, tds[t].name, k, tds[t].anims[k])
    decreases |tds|
  {
    var init := tds[..|tds| - 1];
    AllRowsLength(init);
    if t == |tds| - 1 {
      assert tds[..t] == init;
    } else {
      assert tds[..t] == init[..t];
      AllRowsAt(init, t, k);
    }
  }

  /**
   * `_collectAll()`: no rows without a current scene; otherwise one row for every animation of
   * every token, token by token, each token's rows in the order of its list.
   */
  method CollectAll(scene: Option<seq<TokenDoc>>) returns (out: seq<Row>)
    ensures scene.None? ==> out == []
    ensures scene.Some? ==> out == AllRows(scene.value)
  {
    out := [];
    if scene.None? { return; }
    var tds := scene.value;
    var t := 0;
    while t < |tds|
      invariant 0 <= t <= |tds|
      invariant out == AllRows(tds[..t])
    {
      var td := tds[t];
      var k := 0;
      while k < |td.anims|
        invariant 0 <= k <= |td.anims|
        invariant out == AllRows(tds[..t]) + TokenRows(td)[..k]
      {
        out := out + [Row(td.id, td.name, k, td.anims[k])];
        k := k + 1;
      }
      assert TokenRows(td)[..k] == TokenRows(td);
      assert tds[..t + 1][..t] == tds[..t];
      t := t + 1;
    }
    assert tds[..t] == tds;
  }

  /** The folder a row is grouped under. */
  function RowKey(r: Row): string {
    SnapName(r.anim.folder)
  }

  /** The folder keys of a list of rows, each once, in order of first appearance. */
  function FolderKeys(rows: seq<Row>): seq<string>
  {
    if rows == [] then []
    else
      var ks := FolderKeys(rows[..|rows| - 1]);
      if RowKey(rows[|rows| - 1]) in ks then ks else ks + [RowKey(rows[|rows| - 1])]
  }

  /** The rows under one folder key, in collection order. */
  function RowsWithKey(rows: seq<Row>, key: string): (r: seq<Row>)
    ensures |r| <= |rows|
    ensures forall j :: 0 <= j < |r| ==> RowKey(r[j]) == key
  {
    if rows == [] then []
    else
      var rs := RowsWithKey(rows[..|rows| - 1], key);
      if RowKey(rows[|rows| - 1]) == key then rs + [rows[|rows| - 1]] else rs
  }

  /** One folder section of the panel: its key and its rows. */
  datatype Folder = Folder(key: string, rows: seq<Row>)

  /** The sections the panel draws: one per folder key, in first-appearance order. */
  function FoldersOf(all: seq<Row>): (r: seq<Folder>)
    ensures |r| == |FolderKeys(all)|
    ensures forall i :: 0 <= i < |r| ==> r[i] == Folder(FolderKeys(all)[i], RowsWithKey(all, FolderKeys(all)[i]))
  {
    var ks := FolderKeys(all);
    seq(|ks|, i requires 0 <= i < |ks| => Folder(ks[i], RowsWithKey(all, ks[i])))
  }

  /** One more row adds its key at the end when it is new, and otherwise keeps the keys. */
  lemma FolderKeysSnoc(rows: seq<Row>, r: Row)
    ensures FolderKeys(rows + [r]) ==
      if RowKey(r) in FolderKeys(rows) then FolderKeys(rows) else FolderKeys(rows) + [RowKey(r)]
  {
    assert (rows + [r])[..|rows + [r]| - 1] == rows;
  }

  /** One more row joins the rows of its own key and no other. */
  lemma RowsWithKeySnoc(rows: seq<Row>, r: Row, key: string)
    ensures RowsWithKey(rows + [r], key) ==
      if RowKey(r) == key then RowsWithKey(rows, key) + [r] else RowsWithKey(rows, key)
  {
    assert (rows + [r])[..|rows + [r]| - 1] == rows;
  }

  /**
   * The state of the grouping `Map` after `rows`: its keys in insertion order are the folder
   * keys of `rows`, and each key holds the rows with that key.
   */
  ghost predicate GroupedAs(rows: seq<Row>, order: seq<string>, groups: map<string, seq<Row>>) {
    && order == FolderKeys(rows)
    && (forall key :: key in groups <==> key in order)
    && (forall key :: key in groups ==> groups[key] == RowsWithKey(rows, key))
  }

  /** One iteration of the grouping loop keeps `GroupedAs`. */
  lemma GroupStep(rows: seq<Row>, r: Row, order: seq<string>, groups: map<string, seq<Row>>)
    requires GroupedAs(rows, order, groups)
    ensures var key := RowKey(r);
      var order' := if key in groups then order else order + [key];
      var g0 := if key in groups then groups else groups[key := []];
      GroupedAs(rows + [r], order', g0[key := g0[key] + [r]])
  {
    var key := RowKey(r);
    var order' := if key in groups then order else order + [key];
    var g0 := if key in groups then groups else groups[key := []];
    var g1 := g0[key := g0[key] + [r]];
    FolderKeysSnoc(rows, r);
    assert order' == FolderKeys(rows + [r]);
    if key !in groups {
      assert RowsWithKey(rows, key) == [] by {
        FolderKeysCover(rows);
        RowsWithAbsentKey(rows, key);
      }
    }
    forall k | k in g1 ensures g1[k] == RowsWithKey(rows + [r], k) {
      RowsWithKeySnoc(rows, r, k);
    }
    assert forall k :: k in g1 <==> k in order';
  }

  /**
   * The grouping loop of `_renderInner`: a `Map` from folder key to rows, filled row by row
   * in collection order, read back in insertion order.
   */
  method GroupByFolder(all: seq<Row>) returns (folders: seq<Folder>)
    ensures folders == FoldersOf(all)
  {
    var order: seq<string> := [];
    var groups: map<string, seq<Row>> := map[];
    var n := 0;
    while n < |all|
      invariant 0 <= n <= |all|
      invariant GroupedAs(all[..n], order, groups)
    {
      var row := all[n];
      var key := RowKey(row);
      GroupStep(all[..n], row, order, groups);
      if key !in groups {
        order := order + [key];
        groups := groups[key := []];
      }
      groups := groups[key := groups[key] + [row]];
      assert all[..n + 1] == all[..n] + [row];
      n := n + 1;
    }
    assert all[..n] == all;
    folders := seq(|order|, i requires 0 <= i < |order| => Folder(order[i], groups[order[i]]));
    GroupedFolders(all, order, groups, folders);
  }

  /** Reading the filled `Map` back in insertion order gives the sections of `FoldersOf`. */
  lemma GroupedFolders(all: seq<Row>, order: seq<string>, groups: map<string, seq<Row>>, folders: seq<Folder>)
    requires GroupedAs(all, order, groups)
    requires |folders| == |order|
    requires forall i :: 0 <= i < |order| ==> order[i] in groups && folders[i] == Folder(order[i], groups[order[i]])
    ensures folders == FoldersOf(all)
  {
  }

  /** Predicate: no key occurs twice. */
  predicate DistinctKeys(ks: seq<string>) {
    forall i, j :: 0 <= i < j < |ks| ==> ks[i] != ks[j]
  }

  /** The folder keys are distinct. */
  lemma {:induction false} FolderKeysDistinct(rows: seq<Row>)
    ensures DistinctKeys(FolderKeys(rows))
    decreases |rows|
  {
    if rows != [] {
      var init := rows[..|rows| - 1];
      assert rows == init + [rows[|rows| - 1]];
      FolderKeysDistinct(init);
      FolderKeysSnoc(init, rows[|rows| - 1]);
    }
  }

  /** Every row's key is among the folder keys. */
  lemma {:induction false} FolderKeysCover(rows: seq<Row>)
    ensures forall j :: 0 <= j < |rows| ==> RowKey(rows[j]) in FolderKeys(rows)
    decreases |rows|
  {
    if rows != [] {
      var init := rows[..|rows| - 1];
      var r := rows[|rows| - 1];
      assert rows == init + [r];
      FolderKeysCover(init);
      FolderKeysSnoc(init, r);
      forall j | 0 <= j < |rows| ensures RowKey(rows[j]) in FolderKeys(rows) {
        if j < |init| {
          assert rows[j] == init[j];
        }
      }
    }
  }

  /** Every folder key is the key of some row. */
  lemma {:induction false} FolderKeysFromRows(rows: seq<Row>)
    ensures forall key :: key in FolderKeys(rows) ==> exists j :: 0 <= j < |rows| && RowKey(rows[j]) == key
    decreases |rows|
  {
    if rows != [] {
      var init := rows[..|rows| - 1];
      var r := rows[|rows| - 1];
      assert rows == init + [r];
      FolderKeysFromRows(init);
      FolderKeysSnoc(init, r);
      forall key | key in FolderKeys(rows) ensures exists j :: 0 <= j < |rows| && RowKey(rows[j]) == key {
        if key in FolderKeys(init) {
          var j :| 0 <= j < |init| && RowKey(init[j]) == key;
          assert rows[j] == init[j];
        } else {
          assert RowKey(rows[|rows| - 1]) == key;
        }
      }
    }
  }

  /** A key no row has collects no rows. */
  lemma {:induction false} RowsWithAbsentKey(rows: seq<Row>, key: string)
    requires forall j :: 0 <= j < |rows| ==> RowKey(rows[j]) != key
    ensures RowsWithKey(rows, key) == []
    decreases |rows|
  {
    if rows != [] {
      var init := rows[..|rows| - 1];
      assert forall j :: 0 <= j < |init| ==> init[j] == rows[j];
      RowsWithAbsentKey(init, key);
    }
  }

  /** Every row of a section has the section's key, and a row with that key is in it. */
  lemma {:induction false} RowsWithKeyComplete(rows: seq<Row>, key: string, j: int)
    requires 0 <= j < |rows| && RowKey(rows[j]) == key
    ensures rows[j] in RowsWithKey(rows, key)
    decreases |rows|
  {
    var init := rows[..|rows| - 1];
    if j < |rows| - 1 {
      assert rows[j] == init[j];
      RowsWithKeyComplete(init, key, j);
    }
  }

  /** The number of rows in the sections of the given keys. */
  function SectionSizes(rows: seq<Row>, ks: seq<string>): nat
  {
    if ks == [] then 0 else SectionSizes(rows, ks[..|ks| - 1]) + |RowsWithKey(rows, ks[|ks| - 1])|
  }

  /** One more row adds one to the sizes of a list of distinct keys exactly when its key is listed. */
  lemma {:induction false} SectionSizesStep(rows: seq<Row>, r: Row, ks: seq<string>)
    requires DistinctKeys(ks)
    ensures SectionSizes(rows + [r], ks) == SectionSizes(rows, ks) + if RowKey(r) in ks then 1 else 0
    decreases |ks|
  {
    if ks != [] {
      var init := ks[..|ks| - 1];
      assert (rows + [r])[..|rows + [r]| - 1] == rows;
      SectionSizesStep(rows, r, init);
      assert RowKey(r) in ks <==> RowKey(r) in init || RowKey(r) == ks[|ks| - 1];
      assert RowKey(r) == ks[|ks| - 1] ==> RowKey(r) !in init;
    }
  }

  /** Appending a key adds the size of its section. */
  lemma SectionSizesAppend(rows: seq<Row>, ks: seq<string>, key: string)
    ensures SectionSizes(rows, ks + [key]) == SectionSizes(rows, ks) + |RowsWithKey(rows, key)|
  {
    assert (ks + [key])[..|ks + [key]| - 1] == ks;
  }

  /** The sections of `FolderKeys` hold exactly as many rows as were collected. */
  lemma {:induction false} SectionSizesTotal(rows: seq<Row>)
    ensures SectionSizes(rows, FolderKeys(rows)) == |rows|
    decreases |rows|
  {
    if rows != [] {
      var init := rows[..|rows| - 1];
      var r := rows[|rows| - 1];
      assert rows == init + [r];
      var ks := FolderKeys(init);
      SectionSizesTotal(init);
      FolderKeysDistinct(init);
      FolderKeysSnoc(init, r);
      SectionSizesStep(init, r, ks);
      if RowKey(r) !in ks {
        SectionSizesAppend(rows, ks, RowKey(r));
        FolderKeysCover(init);
        RowsWithAbsentKey(init, RowKey(r));
        RowsWithKeySnoc(init, r, RowKey(r));
      }
    }
  }

  /** The total number of rows over a list of sections. */
  function TotalRows(fs: seq<Folder>): nat
  {
    if fs == [] then 0 else TotalRows(fs[..|fs| - 1]) + |fs[|fs| - 1].rows|
  }

  /** Sections over keys `ks` hold as many rows as `SectionSizes` counts. */
  lemma {:induction false} TotalRowsIsSectionSizes(all: seq<Row>, n: nat)
    requires n <= |FoldersOf(all)|
    ensures TotalRows(FoldersOf(all)[..n]) == SectionSizes(all, FolderKeys(all)[..n])
    decreases n
  {
    if n > 0 {
      var fs := FoldersOf(all)[..n];
      var ks := FolderKeys(all)[..n];
      assert fs[..n - 1] == FoldersOf(all)[..n - 1];
      assert ks[..n - 1] == FolderKeys(all)[..n - 1];
      TotalRowsIsSectionSizes(all, n - 1);
      assert fs[n - 1] == Folder(ks[n - 1], RowsWithKey(all, ks[n - 1]));
      assert TotalRows(fs) == TotalRows(fs[..n - 1]) + |fs[n - 1].rows|;
      assert SectionSizes(all, ks) == SectionSizes(all, ks[..n - 1]) + |RowsWithKey(all, ks[n - 1])|;
    }
  }

  /**
   * The grouping loses no row and duplicates none: the section keys are distinct, every row
   * is in the section of its own key, each section holds only rows with its key, and the
   * section sizes add up to the number of rows.
   */
  lemma GroupingPartitionsRows(all: seq<Row>)
    ensures var fs := FoldersOf(all);
      && (forall i, j :: 0 <= i < j < |fs| ==> fs[i].key != fs[j].key)
      && (forall j :: 0 <= j < |all| ==> exists i :: 0 <= i < |fs| && fs[i].key == RowKey(all[j]) && all[j] in fs[i].rows)
      && (forall i, k :: 0 <= i < |fs| && 0 <= k < |fs[i].rows| ==> RowKey(fs[i].rows[k]) == fs[i].key)
      && TotalRows(fs) == |all|
  {
    var fs := FoldersOf(all);
    var ks := FolderKeys(all);
    FolderKeysDistinct(all);
    FolderKeysCover(all);
    forall j | 0 <= j < |all|
      ensures exists i :: 0 <= i < |fs| && fs[i].key == RowKey(all[j]) && all[j] in fs[i].rows
    {
      var i :| 0 <= i < |ks| && ks[i] == RowKey(all[j]);
      RowsWithKeyComplete(all, ks[i], j);
      assert fs[i].key == RowKey(all[j]) && all[j] in fs[i].rows;
    }
    TotalRowsIsSectionSizes(all, |fs|);
    assert fs[..|fs|] == fs;
    assert ks[..|ks|] == ks;
    SectionSizesTotal(all);
  }

  /** The fields a patch of the global panel may set; an absent field keeps the stored one. */
  datatype Patch = Patch(speed: Option<JsNumber>, snap: Option<bool>, folder: Option<string>)

  /** `{ ...a, ...patch }`: the patch's fields override the stored ones. */
  function ApplyPatch(a: Anim, p: Patch): (r: Anim)
    ensures r.name == a.name && r.points == a.points && r.folderId == a.folderId
    ensures r.speed == (if p.speed.Some? then p.speed else a.speed)
    ensures r.snap == (if p.snap.Some? then p.snap.value else a.snap)
    ensures r.folder == (if p.folder.Some? then p.folder else a.folder)
  {
    a.(speed := if p.speed.Some? then p.speed else a.speed,
       snap := if p.snap.Some? then p.snap.value else a.snap,
       folder := if p.folder.Some? then p.folder else a.folder)
  }

  /** Applying the same patch twice is applying it once, and the empty patch changes nothing. */
  lemma ApplyPatchIdempotent(a: Anim, p: Patch)
    ensures ApplyPatch(ApplyPatch(a, p), p) == ApplyPatch(a, p)
    ensures ApplyPatch(a, Patch(None, None, None)) == a
  {
  }

  /**
   * `saveAnimPatch(patch)` with the stale-index case closed: no token document means nothing
   * is written (None); otherwise the list written back differs from the stored one only at
   * `idx`, which takes the patch, and an index past the end leaves the list as it is.
   */
  function SaveAnimPatch(doc: Option<seq<Anim>>, idx: nat, p: Patch): (r: Option<seq<Anim>>)
    ensures doc.None? <==> r.None?
    ensures doc.Some? ==> |r.value| == |doc.value|
    ensures doc.Some? ==> forall j :: 0 <= j < |doc.value| && j != idx ==> r.value[j] == doc.value[j]
    ensures doc.Some? && idx < |doc.value| ==> r.value[idx] == ApplyPatch(doc.value[idx], p)
    ensures doc.Some? && idx >= |doc.value| ==> r == doc
  {
    match doc
    case None => None
    case Some(anims) => Some(if idx < |anims| then ReplaceAt(anims, idx, ApplyPatch(anims[idx], p)) else anims)
  }

  /**
   * A slot of the array `saveAnimPatch` writes back as the code stands: an entry that was
   * stored, an entry made of the patch alone (`{ ...undefined, ...patch }`), or a hole that
   * the array gained when the index lay past its end.
   */
  datatype Slot = Stored(anim: Anim) | PatchOnly(patch: Patch) | Hole

  /** The stored entries as slots. */
  function StoredSlots(anims: seq<Anim>): (r: seq<Slot>)
    ensures |r| == |anims| && forall k :: 0 <= k < |r| ==> r[k] == Stored(anims[k])
  {
    if anims == [] then [] else [Stored(anims[0])] + StoredSlots(anims[1..])
  }

  /** `n` holes. */
  function Holes(n: nat): (r: seq<Slot>)
    ensures |r| == n && forall k :: 0 <= k < n ==> r[k] == Hole
  {
    if n == 0 then [] else [Hole] + Holes(n - 1)
  }

  /** `anims[idx] = { ...anims[idx], ...patch }` as written, on the stored slots. */
  function SaveAnimPatchAsWritten(doc: Option<seq<Anim>>, idx: nat, p: Patch): (r: Option<seq<Slot>>)
    ensures doc.None? <==> r.None?
    ensures doc.Some? ==> |r.value| == if idx < |doc.value| then |doc.value| else idx + 1
    ensures doc.Some? && idx >= |doc.value| ==> r.value[idx] == PatchOnly(p)
  {
    match doc
    case None => None
    case Some(anims) =>
      if idx < |anims| then Some(StoredSlots(anims)[idx := Stored(ApplyPatch(anims[idx], p))])
      else Some(StoredSlots(anims) + Holes(idx - |anims|) + [PatchOnly(p)])
  }

  /**
   * The stale-index case: a row rendered for the second animation of a token whose list has
   * since shrunk to one entry makes a speed change write back a list of two, the second an
   * animation with a speed and nothing else.
   */
  lemma StalePatchGrowsList(a: Anim)
    ensures SaveAnimPatchAsWritten(Some([a]), 1, Patch(Some(Num(2.0)), None, None))
         == Some([Stored(a), PatchOnly(Patch(Some(Num(2.0)), None, None))])
    ensures SaveAnimPatch(Some([a]), 1, Patch(Some(Num(2.0)), None, None)) == Some([a])
  {
    var p := Patch(Some(Num(2.0)), None, None);
    assert StoredSlots([a]) == [Stored(a)];
    assert Holes(0) == [];
    assert SaveAnimPatchAsWritten(Some([a]), 1, p) == Some(StoredSlots([a]) + Holes(0) + [PatchOnly(p)]);
    assert [Stored(a)] + [] + [PatchOnly(p)] == [Stored(a), PatchOnly(p)];
  }

  /** On an index that exists the code as written and the corrected function agree. */
  lemma SaveAnimPatchAgreesInRange(doc: seq<Anim>, idx: nat, p: Patch)
    requires idx < |doc|
    ensures var w := SaveAnimPatchAsWritten(Some(doc), idx, p).value;
      var c := SaveAnimPatch(Some(doc), idx, p).value;
      |w| == |c| && forall k :: 0 <= k < |w| ==> w[k] == Stored(c[k])
  {
  }

  /** The play button saves the patch and reads the entry back: it plays with the speed it typed. */
  lemma PlayReadsBackPatchedSpeed(doc: seq<Anim>, idx: nat, typed: JsNumber, snapOn: bool)
    requires idx < |doc|
    ensures var r := SaveAnimPatch(Some(doc), idx, Patch(Some(EditedSpeed(typed)), Some(snapOn), None)).value;
      r[idx].speed == Some(EditedSpeed(typed)) && r[idx].snap == snapOn && Truthy(r[idx].speed.value)
  {
  }

  /**
   * The delete button: nothing is written without a token document or without confirmation;
   * otherwise exactly entry `idx` is spliced out and the rest keep their order.
   */
  function DeleteAnimAt(doc: Option<seq<Anim>>, idx: nat, confirmed: bool): (r: Option<seq<Anim>>)
    ensures doc.None? || !confirmed ==> r.None?
    ensures doc.Some? && confirmed ==> r == Some(RemoveAt(doc.value, idx))
    ensures doc.Some? && confirmed && idx < |doc.value| ==>
      |r.value| == |doc.value| - 1 && forall j :: 0 <= j < |r.value| ==> r.value[j] == doc.value[if j < idx then j else j + 1]
  {
    if doc.None? || !confirmed then None
    else
      SpliceOneIsRemoveAt(doc.value, idx);
      Some(SpliceOne(doc.value, idx))
  }

  /** The speed the play button and the speed field use: the number typed, or 4 when it is NaN or zero. */
  function EditedSpeed(typed: JsNumber): (r: JsNumber)
    ensures Truthy(r)
    ensures Truthy(typed) ==> r == typed
    ensures !Truthy(typed) ==> r == Num(4.0)
  {
    Or(typed, Num(4.0))
  }

  /**
   * The speed "Play all" passes (`speed ?? 4`): the stored speed when there is one, even NaN or
   * zero, and 4 only when none is stored.
   */
  function PlayAllSpeed(speed: Option<JsNumber>): (r: JsNumber)
    ensures speed.Some? ==> r == speed.value
    ensures speed.None? ==> r == Num(4.0)
  {
    if speed.Some? then speed.value else Num(4.0)
  }

  /**
   * "Play all" keeps every stored falsy speed (NaN or zero) that the speed field would have
   * replaced by 4, and the two handlers agree on a stored speed exactly when it is truthy.
   */
  lemma PlayAllKeepsFalsySpeed(s: JsNumber)
    ensures !Truthy(s) ==> PlayAllSpeed(Some(s)) == s && EditedSpeed(s) == Num(4.0)
    ensures PlayAllSpeed(Some(s)) == EditedSpeed(s) <==> Truthy(s)
  {
  }
}

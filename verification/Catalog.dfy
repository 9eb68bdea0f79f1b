/**
The catalog of published projects: an update reuses the items whose project did not change and
builds the others again.
 */
module Catalog {
  import opened Wrappers
  import opened Sequences

  datatype Metadata = Metadata(uri: string, lastModified: real)

  /** A project found in the storage: its metadata, where it is published, and what is stored. */
  datatype Listed = Listed(md: Metadata, publicPath: string, location: string, pinned: bool, stored: string)

  datatype Item = Item(publicPath: string, md: Metadata, coll: string, location: string)

  type Items = map<string, Item>

  // ------------------------------------------------------------------
  // One update
  // ------------------------------------------------------------------

  function RemoveSuffix(s: string, suffix: string): string {
    if |suffix| <= |s| && s[|s| - |suffix|..] == suffix then s[..|s| - |suffix|] else s
  }

  /** The key of a published path in the catalog. */
  function Strip(path: string): string {
    RemoveSuffix(RemoveSuffix(path, ".qgs"), ".qgz")
  }

  /** The projects an update considers, under their keys. */
  function Selected(ls: seq<Listed>, pinnedOnly: bool): seq<Listed> {
    if ls == [] then []
    else
      var l := ls[|ls| - 1];
      Selected(ls[..|ls| - 1], pinnedOnly) +
      if pinnedOnly && !l.pinned then [] else [l.(publicPath := Strip(l.publicPath))]
  }

  function IsWanted(pinnedOnly: bool): Listed -> bool {
    (l: Listed) => !pinnedOnly || l.pinned
  }

  /** Exactly the wanted projects are considered, in the order of the listing, under their stripped paths. */
  lemma {:induction false} SelectedAt(ls: seq<Listed>, pinnedOnly: bool, i: nat)
    requires i < |ls|
    ensures |Selected(ls, pinnedOnly)| == Count(ls, IsWanted(pinnedOnly))
    ensures !pinnedOnly || ls[i].pinned ==>
              var k := Count(ls[..i], IsWanted(pinnedOnly));
              && k < |Selected(ls, pinnedOnly)|
              && Selected(ls, pinnedOnly)[k] == ls[i].(publicPath := Strip(ls[i].publicPath))
    decreases |ls|
  {
    var n := |ls| - 1;
    var init, f := ls[..n], IsWanted(pinnedOnly);
    assert ls == init + [ls[n]];
    CountSnoc(init, ls[n], f);
    if i < n {
      SelectedAt(init, pinnedOnly, i);
      assert init[..i] == ls[..i];
    } else if n > 0 {
      SelectedAt(init, pinnedOnly, 0);
    }
  }

  /** A suffix that is there is removed, once; one that is not leaves the text alone. */
  lemma RemoveSuffixOutcome(s: string, suffix: string)
    ensures RemoveSuffix(s + suffix, suffix) == s
    ensures (forall base: string :: s != base + suffix) ==> RemoveSuffix(s, suffix) == s
  {
    assert (s + suffix)[|s|..] == suffix && (s + suffix)[..|s|] == s;
    if |suffix| <= |s| && s[|s| - |suffix|..] == suffix {
      assert s == s[..|s| - |suffix|] + suffix;
    }
  }

  predicate HasSuffix(s: string, suffix: string) {
    |suffix| <= |s| && s[|s| - |suffix|..] == suffix
  }

  /** A file of either kind is published under its bare name, and under the same name as its twin. */
  lemma BothKindsShareTheirPath(base: string)
    requires !HasSuffix(base, ".qgs") && !HasSuffix(base, ".qgz")
    ensures Strip(base) == Strip(base + ".qgs") == Strip(base + ".qgz") == base
  {
    RemoveSuffixOutcome(base, ".qgs");
    RemoveSuffixOutcome(base, ".qgz");
    var z := base + ".qgz";
    assert z[|z| - 1] == 'z' && !HasSuffix(z, ".qgs") by {
      assert z[|z| - 4..][3] == 'z';
    }
  }

  /** Builds the item of a project; `load` gives None when loading the stored project fails. */
  function NewItem(l: Listed, load: string -> Option<string>): Option<Item> {
    match load(l.stored)
    case None => None
    case Some(coll) => Some(Item(l.publicPath, l.md, coll, l.location))
  }

  /** The item kept or built for a listed project; None when it is left out. */
  function Refresh(old_: Items, l: Listed, load: string -> Option<string>): Option<Item> {
    if Reused(old_, l) then Some(old_[l.publicPath]) else NewItem(l, load)
  }

  /** The new catalog; of two items with one public path the later one stays. */
  function Updated(old_: Items, ls: seq<Listed>, load: string -> Option<string>): Items {
    if ls == [] then map[]
    else
      var m := Updated(old_, ls[..|ls| - 1], load);
      var item := Refresh(old_, ls[|ls| - 1], load);
      if item.Some? then m[item.value.publicPath := item.value] else m
  }

  /** The catalog built from scratch. */
  function Rebuilt(ls: seq<Listed>, load: string -> Option<string>): Items {
    Updated(map[], ls, load)
  }

  /** Every item is stored under its own public path. */
  predicate Keyed(c: Items) {
    forall k <- c :: c[k].publicPath == k
  }

  // ------------------------------------------------------------------
  // Incremental equals rebuilt
  // ------------------------------------------------------------------

  predicate DistinctPaths(ls: seq<Listed>) {
    forall i, j | 0 <= i < j < |ls| :: ls[i].publicPath != ls[j].publicPath
  }

  /** The project is not newer than the item under its path, so an update keeps that item. */
  predicate Reused(c: Items, l: Listed) {
    l.publicPath in c && l.md.lastModified <= c[l.publicPath].md.lastModified
  }

  /** The last project listed for a path that an update of `c` keeps or manages to load; -1 if there is none. */
  function Winner(c: Items, ls: seq<Listed>, load: string -> Option<string>, path: string): (i: int)
    ensures -1 <= i < |ls|
    ensures i >= 0 ==> ls[i].publicPath == path && Refresh(c, ls[i], load).Some?
    ensures forall j | i < j < |ls| :: ls[j].publicPath == path ==> Refresh(c, ls[j], load).None?
  {
    if ls == [] then -1
    else if ls[|ls| - 1].publicPath == path && Refresh(c, ls[|ls| - 1], load).Some? then |ls| - 1
    else Winner(c, ls[..|ls| - 1], load, path)
  }

  /** The last project listed for a path that can be loaded at all. */
  function LastLoadable(ls: seq<Listed>, load: string -> Option<string>, path: string): int {
    Winner(map[], ls, load, path)
  }

  /** If an item is kept for a path, it is the one that the last loadable project of that path builds. */
  predicate Faithful(c: Items, ls: seq<Listed>, load: string -> Option<string>) {
    forall i | 0 <= i < |ls| ::
      var path := ls[i].publicPath;
      i == Winner(c, ls, load, path) && Reused(c, ls[i]) ==>
        var b := LastLoadable(ls, load, path); b >= 0 && NewItem(ls[b], load) == Some(c[path])
  }

  lemma {:induction false} UpdatedIsKeyed(c: Items, ls: seq<Listed>, load: string -> Option<string>)
    requires Keyed(c)
    ensures Keyed(Updated(c, ls, load))
    ensures forall k <- Updated(c, ls, load) :: exists i | 0 <= i < |ls| :: ls[i].publicPath == k
  {
    if ls != [] {
      var init := ls[..|ls| - 1];
      UpdatedIsKeyed(c, init, load);
      forall k | k in Updated(c, ls, load)
        ensures exists i | 0 <= i < |ls| :: ls[i].publicPath == k
      {
        if k in Updated(c, init, load) {
          var i :| 0 <= i < |init| && init[i].publicPath == k;
          assert ls[i].publicPath == k;
        } else {
          assert ls[|ls| - 1].publicPath == k;
        }
      }
    }
  }

  /** Which project each item of an update comes from: the last one that was kept or loaded for its path. */
  lemma {:induction false} UpdatedItems(c: Items, ls: seq<Listed>, load: string -> Option<string>, path: string)
    requires Keyed(c)
    ensures var i, m := Winner(c, ls, load, path), Updated(c, ls, load);
            if i >= 0 then path in m && Some(m[path]) == Refresh(c, ls[i], load) else path !in m
    decreases |ls|
  {
    if ls != [] {
      UpdatedItems(c, ls[..|ls| - 1], load, path);
    }
  }

  /** What a rebuilt catalog says of a path: everything comes from the last loadable project listed for it. */
  lemma RebuiltItems(ls: seq<Listed>, load: string -> Option<string>, path: string)
    ensures var i, m := LastLoadable(ls, load, path), Rebuilt(ls, load);
            if i >= 0 then path in m && load(ls[i].stored).Some?
                           && m[path] == Item(path, ls[i].md, load(ls[i].stored).value, ls[i].location)
            else path !in m
  {
    UpdatedItems(map[], ls, load, path);
  }

  /** The projects that an update has to load: those that are new under their path, or newer than their item. */
  predicate MustLoad(c: Items, l: Listed) {
    l.publicPath !in c || l.md.lastModified > c[l.publicPath].md.lastModified
  }

  /** No other project is loaded: what loading them would give, or whether it would fail, makes no difference. */
  lemma {:induction false} OnlyChangedProjectsAreLoaded(
    c: Items, ls: seq<Listed>, load: string -> Option<string>, load': string -> Option<string>)
    requires forall i | 0 <= i < |ls| :: MustLoad(c, ls[i]) ==> load(ls[i].stored) == load'(ls[i].stored)
    ensures Updated(c, ls, load) == Updated(c, ls, load')
    decreases |ls|
  {
    if ls != [] {
      OnlyChangedProjectsAreLoaded(c, ls[..|ls| - 1], load, load');
      assert Refresh(c, ls[|ls| - 1], load) == Refresh(c, ls[|ls| - 1], load');
    }
  }

  /** One path of an update against a rebuild. */
  lemma SamePathIff(c: Items, ls: seq<Listed>, load: string -> Option<string>, path: string)
    requires Keyed(c)
    ensures var i, b := Winner(c, ls, load, path), LastLoadable(ls, load, path);
            var m, r := Updated(c, ls, load), Rebuilt(ls, load);
            (path in m <==> path in r) && (path in m ==> m[path] == r[path])
            <==> (i >= 0 && Reused(c, ls[i]) ==> b >= 0 && NewItem(ls[b], load) == Some(c[path]))
  {
    var i, b := Winner(c, ls, load, path), LastLoadable(ls, load, path);
    UpdatedItems(c, ls, load, path);
    UpdatedItems(map[], ls, load, path);
    assert i >= 0 && !Reused(c, ls[i]) ==> b == i;
    assert i < 0 ==> b < 0;
  }

  /**
  The exact condition, shared paths included: an incremental update equals a rebuild if and only
  if every item it ends up keeping is the one that the last loadable project of its path builds.
   */
  lemma IncrementalIffFaithful(c: Items, ls: seq<Listed>, load: string -> Option<string>)
    requires Keyed(c)
    ensures Updated(c, ls, load) == Rebuilt(ls, load) <==> Faithful(c, ls, load)
  {
    var m, r := Updated(c, ls, load), Rebuilt(ls, load);
    if m == r {
      forall i | 0 <= i < |ls| && i == Winner(c, ls, load, ls[i].publicPath) && Reused(c, ls[i])
        ensures var b := LastLoadable(ls, load, ls[i].publicPath);
                b >= 0 && NewItem(ls[b], load) == Some(c[ls[i].publicPath])
      {
        SamePathIff(c, ls, load, ls[i].publicPath);
      }
    }
    if Faithful(c, ls, load) {
      forall path
        ensures (path in m <==> path in r) && (path in m ==> m[path] == r[path])
      {
        SamePathIff(c, ls, load, path);
        var i := Winner(c, ls, load, path);
        assert i >= 0 ==> ls[i].publicPath == path;
      }
      assert m == r;
    }
  }

  // ------------------------------------------------------------------
  // Over every run
  // ------------------------------------------------------------------

  /** From one listing to the next, a project that changed in any way has a later modification time. */
  predicate ClockAdvances(before: seq<Listed>, after: seq<Listed>) {
    forall i, j | 0 <= i < |before| && 0 <= j < |after| ::
      before[i].publicPath == after[j].publicPath && after[j].md.lastModified <= before[i].md.lastModified ==>
        after[j].(pinned := before[i].pinned) == before[i]
  }

  /** The listings that the successive updates see. */
  predicate IsHistory(h: seq<seq<Listed>>) {
    && (forall i | 0 <= i < |h| :: DistinctPaths(h[i]))
    && (forall i | 0 <= i < |h| - 1 :: ClockAdvances(h[i], h[i + 1]))
  }

  function AfterUpdates(h: seq<seq<Listed>>, load: string -> Option<string>): Items {
    if h == [] then map[] else Updated(AfterUpdates(h[..|h| - 1], load), h[|h| - 1], load)
  }

  /** Each listing is faithful to the catalog built from the one before it. */
  predicate StaysFaithful(h: seq<seq<Listed>>, load: string -> Option<string>) {
    var k := |h| - 1;
    k <= 0 || (StaysFaithful(h[..k], load) && Faithful(Rebuilt(h[k - 1], load), h[k], load))
  }

  /** After every update of the run the catalog is the one a rebuild would give. */
  predicate AlwaysRebuilt(h: seq<seq<Listed>>, load: string -> Option<string>) {
    h == [] || (AlwaysRebuilt(h[..|h| - 1], load) && AfterUpdates(h, load) == Rebuilt(h[|h| - 1], load))
  }

  lemma AfterOneMore(h: seq<seq<Listed>>, load: string -> Option<string>)
    requires |h| > 1 && AlwaysRebuilt(h[..|h| - 1], load)
    ensures AfterUpdates(h, load) == Updated(Rebuilt(h[|h| - 2], load), h[|h| - 1], load)
  {
    var past := h[..|h| - 1];
    assert past[|past| - 1] == h[|h| - 2];
  }

  /** Every update of a run leaves the catalog equal to a rebuild iff the listings stay faithful. */
  lemma {:induction false} EveryUpdateEqualsRebuiltIff(h: seq<seq<Listed>>, load: string -> Option<string>)
    ensures AlwaysRebuilt(h, load) <==> StaysFaithful(h, load)
    decreases |h|
  {
    if |h| == 1 {
      assert h[..0] == [] && AlwaysRebuilt(h[..0], load);
      assert AfterUpdates(h, load) == Updated(AfterUpdates(h[..0], load), h[0], load);
    } else if h != [] {
      var k := |h| - 1;
      EveryUpdateEqualsRebuiltIff(h[..k], load);
      if AlwaysRebuilt(h[..k], load) {
        AfterOneMore(h, load);
        UpdatedIsKeyed(map[], h[k - 1], load);
        IncrementalIffFaithful(Rebuilt(h[k - 1], load), h[k], load);
      }
    }
  }

  /** From one listing to the next, a file that changed in any way has a later modification time. */
  predicate FileClockAdvances(before: seq<Listed>, after: seq<Listed>) {
    forall i, j | 0 <= i < |before| && 0 <= j < |after| ::
      before[i].md.uri == after[j].md.uri && before[i].publicPath == after[j].publicPath &&
      after[j].md.lastModified <= before[i].md.lastModified ==>
        after[j].(pinned := before[i].pinned) == before[i]
  }

  /** For each path that keeps an item, the last loadable project listed is the item's own file, and not newer. */
  predicate KeepsItsFile(c: Items, ls: seq<Listed>, load: string -> Option<string>) {
    forall i | 0 <= i < |ls| ::
      var path := ls[i].publicPath;
      i == Winner(c, ls, load, path) && Reused(c, ls[i]) ==>
        var b := LastLoadable(ls, load, path);
        b >= 0 && ls[b].md.uri == c[path].md.uri && ls[b].md.lastModified <= c[path].md.lastModified
  }

  /** An unchanged file builds the item it built before, and no other file does. */
  lemma SameFileIffSameItem(
    before: seq<Listed>, now: seq<Listed>, load: string -> Option<string>, b: nat, path: string)
    requires FileClockAdvances(before, now) && b < |now| && now[b].publicPath == path
    requires NewItem(now[b], load).Some? && path in Rebuilt(before, load)
    ensures var item := Rebuilt(before, load)[path];
            NewItem(now[b], load) == Some(item) <==>
              now[b].md.uri == item.md.uri && now[b].md.lastModified <= item.md.lastModified
  {
    UpdatedItems(map[], before, load, path);
    var i := Winner(map[], before, load, path);
    assert NewItem(before[i], load) == Some(Rebuilt(before, load)[path]);
  }

  lemma KeepsItsFileIffFaithful(before: seq<Listed>, now: seq<Listed>, load: string -> Option<string>)
    requires FileClockAdvances(before, now)
    ensures KeepsItsFile(Rebuilt(before, load), now, load) <==> Faithful(Rebuilt(before, load), now, load)
  {
    var c := Rebuilt(before, load);
    forall i | 0 <= i < |now| && Reused(c, now[i]) && LastLoadable(now, load, now[i].publicPath) >= 0
      ensures var path := now[i].publicPath;
              var b := LastLoadable(now, load, path);
              NewItem(now[b], load) == Some(c[path]) <==>
                now[b].md.uri == c[path].md.uri && now[b].md.lastModified <= c[path].md.lastModified
    {
      SameFileIffSameItem(before, now, load, LastLoadable(now, load, now[i].publicPath), now[i].publicPath);
    }
  }

  /**
  The exact condition on what the listing shows, shared paths included, when each file's clock
  advances: the update equals a rebuild if and only if, for each path that keeps an item, the last
  loadable project listed for it is the file the item came from, and not newer.
   */
  lemma IncrementalIffKeepsItsFile(before: seq<Listed>, now: seq<Listed>, load: string -> Option<string>)
    requires FileClockAdvances(before, now)
    ensures var c := Rebuilt(before, load);
            Updated(c, now, load) == Rebuilt(now, load) <==> KeepsItsFile(c, now, load)
  {
    UpdatedIsKeyed(map[], before, load);
    IncrementalIffFaithful(Rebuilt(before, load), now, load);
    KeepsItsFileIffFaithful(before, now, load);
  }

  predicate FileClocksAdvance(h: seq<seq<Listed>>) {
    var k := |h| - 1;
    k <= 0 || (FileClocksAdvance(h[..k]) && FileClockAdvances(h[k - 1], h[k]))
  }

  predicate AlwaysKeepsItsFile(h: seq<seq<Listed>>, load: string -> Option<string>) {
    var k := |h| - 1;
    k <= 0 || (AlwaysKeepsItsFile(h[..k], load) && KeepsItsFile(Rebuilt(h[k - 1], load), h[k], load))
  }

  lemma {:induction false} KeepingFilesIsFaithful(h: seq<seq<Listed>>, load: string -> Option<string>)
    requires FileClocksAdvance(h)
    ensures AlwaysKeepsItsFile(h, load) <==> StaysFaithful(h, load)
    decreases |h|
  {
    var k := |h| - 1;
    if k > 0 {
      KeepingFilesIsFaithful(h[..k], load);
      KeepsItsFileIffFaithful(h[k - 1], h[k], load);
    }
  }

  /** The same over every run of updates: each one equals a rebuild iff each listing keeps its files. */
  lemma RunsEqualRebuiltIff(h: seq<seq<Listed>>, load: string -> Option<string>)
    requires FileClocksAdvance(h)
    ensures AlwaysRebuilt(h, load) <==> AlwaysKeepsItsFile(h, load)
  {
    KeepingFilesIsFaithful(h, load);
    EveryUpdateEqualsRebuiltIff(h, load);
  }

  lemma {:induction false} HistoriesStayFaithful(h: seq<seq<Listed>>, load: string -> Option<string>)
    requires IsHistory(h)
    ensures StaysFaithful(h, load)
    decreases |h|
  {
    var k := |h| - 1;
    if k > 0 {
      assert forall n | 0 <= n < k :: h[..k][n] == h[n];
      HistoriesStayFaithful(h[..k], load);
      assert ClockAdvances(h[k - 1], h[k - 1 + 1]);
      RebuiltIsFaithful(h[k - 1], h[k], load);
    }
  }

  /** After any run of updates the catalog equals one built from scratch from the last listing. */
  lemma IncrementalEqualsRebuilt(h: seq<seq<Listed>>, load: string -> Option<string>)
    requires IsHistory(h) && h != []
    ensures AfterUpdates(h, load) == Rebuilt(h[|h| - 1], load)
  {
    HistoriesStayFaithful(h, load);
    EveryUpdateEqualsRebuiltIff(h, load);
  }

  lemma RebuiltIsFaithful(before: seq<Listed>, now: seq<Listed>, load: string -> Option<string>)
    requires DistinctPaths(before) && DistinctPaths(now) && ClockAdvances(before, now)
    ensures Faithful(Rebuilt(before, load), now, load)
  {
    var c := Rebuilt(before, load);
    UpdatedIsKeyed(map[], before, load);
    forall j | 0 <= j < |now| && Reused(c, now[j])
      ensures var path := now[j].publicPath;
              LastLoadable(now, load, path) == j && NewItem(now[j], load) == Some(c[path])
    {
      var path := now[j].publicPath;
      UpdatedItems(map[], before, load, path);
      var i := Winner(map[], before, load, path);
      assert NewItem(before[i], load) == Some(c[path]) && before[i].md == c[path].md;
      assert now[j].(pinned := before[i].pinned) == before[i];
      assert NewItem(now[j], load).Some?;
      var b := LastLoadable(now, load, path);
      assert b >= j && now[b].publicPath == now[j].publicPath;
    }
  }

  /** Two files that publish one path: the older newcomer is listed last, and the kept item is not its own. */
  lemma SharedPathGoesStale(load: string -> Option<string>, x: string, y: string)
    requires load("one") == Some(x) && load("two") == Some(y) && x != y
    ensures var a := Listed(Metadata("/d/p.qgs", 5.0), "/p", "/", false, "one");
            var b := Listed(Metadata("/d/p.qgz", 3.0), "/p", "/", false, "two");
            && Strip("/p.qgs") == a.publicPath == b.publicPath == Strip("/p.qgz")
            && FileClockAdvances([a], [a, b]) && !KeepsItsFile(Rebuilt([a], load), [a, b], load)
            && Updated(Rebuilt([a], load), [a, b], load) != Rebuilt([a, b], load)
  {
    var a := Listed(Metadata("/d/p.qgs", 5.0), "/p", "/", false, "one");
    var b := Listed(Metadata("/d/p.qgz", 3.0), "/p", "/", false, "two");
    UpdatedOne(map[], a, load);
    var c := Rebuilt([a], load);
    assert c == map["/p" := Item("/p", a.md, x, "/")];
    assert Reused(c, [a, b][1]) && Winner(c, [a, b], load, "/p") == 1 == LastLoadable([a, b], load, "/p");
    IncrementalIffKeepsItsFile([a], [a, b], load);
  }

  lemma UpdatedOne(c: Items, a: Listed, load: string -> Option<string>)
    ensures Updated(c, [a], load) ==
            var i := Refresh(c, a, load); if i.Some? then map[i.value.publicPath := i.value] else map[]
  {
    assert [a][..0] == [];
  }

  // ------------------------------------------------------------------
  // The catalog object
  // ------------------------------------------------------------------

  lemma UpdatedSnoc(c: Items, ls: seq<Listed>, l: Listed, load: string -> Option<string>)
    ensures Updated(c, ls + [l], load) ==
            var i := Refresh(c, l, load);
            if i.Some? then Updated(c, ls, load)[i.value.publicPath := i.value] else Updated(c, ls, load)
  {
    assert (ls + [l])[..|ls|] == ls;
  }

  class CatalogObject {
    var catalog: Items

    constructor ()
      ensures catalog == map[]
    {
      catalog := map[];
    }

    /** The generator loop of `update_items`, collected into the new dictionary. */
    method Update(listing: seq<Listed>, pinnedOnly: bool, load: string -> Option<string>)
      modifies this
      ensures catalog == Updated(old(catalog), Selected(listing, pinnedOnly), load)
    {
      var fresh_: Items := map[];
      for n := 0 to |listing|
        invariant catalog == old(catalog)
        invariant fresh_ == Updated(catalog, Selected(listing[..n], pinnedOnly), load)
      {
        var l := listing[n];
        ghost var so := Selected(listing[..n], pinnedOnly);
        assert listing[..n + 1][..n] == listing[..n];
        if pinnedOnly && !l.pinned {
          assert so + [] == so;
          continue;
        }
        var ident := Strip(l.publicPath);
        var stripped := l.(publicPath := ident);
        UpdatedSnoc(catalog, so, stripped, load);
        var item: Option<Item> := if ident in catalog then Some(catalog[ident]) else None;
        if item.None? || l.md.lastModified > item.value.md.lastModified {
          item := NewItem(stripped, load);
          if item.None? {
            continue;
          }
        }
        fresh_ := fresh_[item.value.publicPath := item.value];
      }
      assert listing[..|listing|] == listing;
      catalog := fresh_;
    }
  }
}

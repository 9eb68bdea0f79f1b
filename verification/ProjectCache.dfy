/**
The cache of loaded projects: checkout against the storage, update, eviction by popularity, and
the `project()` request that combines them.
 */
module ProjectCache {
  import opened Wrappers

  type Uri = string

  datatype Metadata = Metadata(uri: Uri, lastModified: real)

  datatype Entry = Entry(md: Metadata, project: string, timestamp: real, hits: nat, pinned: bool)

  type Cache = map<Uri, Entry>

  datatype Status = NEW | NEEDUPDATE | UNCHANGED | UPDATED | REMOVED | NOTFOUND

  /** What the storage says about a resolved url. */
  datatype Lookup = Stored(md: Metadata) | Missing(uri: Uri)

  /** `checkout` answers with a cache entry, with metadata, or with nothing. */
  datatype Checked = OfEntry(entry: Entry) | OfMetadata(md: Metadata) | OfNothing

  datatype Failure = KeyError | ValueError | AttributeError | ZeroDivisionError | FileNotFoundError | LoadError

  datatype Result<T> = Ok(value: T) | Raised(failure: Failure)

  // ------------------------------------------------------------------
  // Checkout and update
  // ------------------------------------------------------------------

  function Checkout(c: Cache, found: Lookup): (Checked, Status) {
    match found
    case Stored(md) =>
      if md.uri in c then
        (OfEntry(c[md.uri]), if md.lastModified > c[md.uri].md.lastModified then NEEDUPDATE else UNCHANGED)
      else (OfMetadata(md), NEW)
    case Missing(uri) => if uri in c then (OfEntry(c[uri]), REMOVED) else (OfNothing, NOTFOUND)
  }

  function NewEntry(md: Metadata, project: string, now: real): Entry {
    Entry(md, project, now, 0, false)
  }

  /** `update` for metadata; `loaded` is the project, or None when loading raises. */
  function Update(c: Cache, md: Metadata, status: Status, loaded: Option<string>, now: real):
    (Cache, Result<(Entry, Status)>)
  {
    match status
    case NEW =>
      if loaded.None? then (c, Raised(LoadError))
      else var e := NewEntry(md, loaded.value, now); (c[md.uri := e], Ok((e, NEW)))
    case NEEDUPDATE =>
      if md.uri !in c then (c, Raised(KeyError))
      else if loaded.None? then (c - {md.uri}, Raised(LoadError))
      else var e := NewEntry(md, loaded.value, now); (c[md.uri := e], Ok((e, UPDATED)))
    case REMOVED => if md.uri !in c then (c, Raised(KeyError)) else (c - {md.uri}, Ok((c[md.uri], REMOVED)))
    case NOTFOUND => (c, Raised(ValueError))
    case _ => if md.uri !in c then (c, Raised(KeyError)) else (c, Ok((c[md.uri], status)))
  }

  /**
  `update` applied to what `checkout` returned.  A cache entry has no `uri`, so every branch that
  needs it raises, unless the caller takes the metadata out of the entry first (`unwrap`), as the
  cache administration does and `project()` does not.
   */
  function UpdateChecked(c: Cache, x: Checked, status: Status, loaded: Option<string>, now: real, unwrap: bool):
    (Cache, Result<(Entry, Status)>)
  {
    match x
    case OfMetadata(md) => Update(c, md, status, loaded, now)
    case OfEntry(e) =>
      if unwrap then Update(c, e.md, status, loaded, now)
      else (c, Raised(if status == NOTFOUND then ValueError else AttributeError))
    case OfNothing => if status == NOTFOUND then (c, Raised(ValueError)) else (c, Raised(AttributeError))
  }

  /** Every entry is stored under its own uri. */
  ghost predicate Keyed(c: Cache) {
    forall u <- c :: c[u].md.uri == u
  }

  lemma UpdateKeepsKeys(c: Cache, md: Metadata, status: Status, loaded: Option<string>, now: real)
    requires Keyed(c)
    ensures Keyed(Update(c, md, status, loaded, now).0)
    ensures forall u <- c :: u != md.uri ==> u in Update(c, md, status, loaded, now).0
                                             && Update(c, md, status, loaded, now).0[u] == c[u]
  {
  }

  /** Updating with freshly read metadata settles the entry: the next checkout finds it unchanged. */
  lemma FreshMetadataSettles(c: Cache, md: Metadata, project: string, now: real)
    requires Checkout(c, Stored(md)).1 == NEEDUPDATE
    ensures var d := Update(c, md, NEEDUPDATE, Some(project), now).0;
            && Checkout(d, Stored(md)).1 == UNCHANGED
            && forall later: Metadata | later.uri == md.uri ::
                 Checkout(d, Stored(later)).1 == if later.lastModified > md.lastModified then NEEDUPDATE else UNCHANGED
  {
  }

  /** A project that is loaded starts anew: its time stamp is the time of loading, nobody has used or pinned it. */
  lemma LoadedEntriesAreFresh(c: Cache, md: Metadata, status: Status, project: string, now: real)
    requires status == NEW || (status == NEEDUPDATE && md.uri in c)
    ensures var (d, r) := Update(c, md, status, Some(project), now);
            && md.uri in d && d[md.uri] == Entry(md, project, now, 0, false)
            && r == Ok((d[md.uri], if status == NEW then NEW else UPDATED))
  {
  }

  /** When an update raises, exactly, and what it leaves: only a failing reload changes the cache. */
  lemma UpdateRaisesIff(c: Cache, md: Metadata, status: Status, loaded: Option<string>, now: real)
    ensures var (d, r) := Update(c, md, status, loaded, now);
            && (r == Raised(ValueError) <==> status == NOTFOUND)
            && (r == Raised(KeyError) <==> status != NOTFOUND && status != NEW && md.uri !in c)
            && (r == Raised(LoadError) <==> loaded.None? && (status == NEW || (status == NEEDUPDATE && md.uri in c)))
            && (r.Raised? ==> r.failure in {ValueError, KeyError, LoadError})
            && (r.Raised? ==> d == if status == NEEDUPDATE && md.uri in c then c - {md.uri} else c)
  {
  }

  /** Whatever a checkout finds, acting upon it with what the storage says settles it. */
  lemma CheckedUpdateSettles(c: Cache, found: Lookup, project: string, now: real)
    requires Keyed(c)
    ensures var (x, status) := Checkout(c, found);
            match found
            case Stored(md) =>
              var (d, r) := Update(c, md, status, Some(project), now);
              r.Ok? && Checkout(d, found) == (OfEntry(r.value.0), UNCHANGED)
            case Missing(uri) =>
              status == NOTFOUND ||
              (var (d, r) := Update(c, x.entry.md, status, None, now);
               r == Ok((c[uri], REMOVED)) && Checkout(d, found) == (OfNothing, NOTFOUND))
  {
  }

  /** An update settles a project exactly when the metadata it uses is as recent as what is stored. */
  lemma UpdateSettlesIff(c: Cache, used: Metadata, md: Metadata, project: string, now: real)
    requires used.uri == md.uri && Checkout(c, Stored(md)).1 == NEEDUPDATE
    ensures Checkout(Update(c, used, NEEDUPDATE, Some(project), now).0, Stored(md)).1 == UNCHANGED
            <==> md.lastModified <= used.lastModified
  {
  }

  /** A checkout that finds `md` stored, followed by a reload of `project`. */
  datatype Round = Round(md: Metadata, project: string, now: real)

  /** Each round updates the entry with the metadata that the entry already has. */
  function ReloadWithOld(c: Cache, u: Uri, rounds: seq<Round>): (d: Cache)
    requires u in c && c[u].md.uri == u
    ensures u in d && d[u].md == c[u].md
  {
    if rounds == [] then c
    else
      var last := rounds[|rounds| - 1];
      var d := ReloadWithOld(c, u, rounds[..|rounds| - 1]);
      Update(d, d[u].md, NEEDUPDATE, Some(last.project), last.now).0
  }

  /** Updating with the old metadata never settles: after any number of rounds the project needs an update. */
  lemma OldMetadataNeverSettles(c: Cache, md: Metadata, rounds: seq<Round>, later: Metadata)
    requires Keyed(c) && Checkout(c, Stored(md)).1 == NEEDUPDATE
    requires later.uri == md.uri && later.lastModified >= md.lastModified
    ensures Checkout(ReloadWithOld(c, md.uri, rounds), Stored(later)).1 == NEEDUPDATE
    ensures rounds != [] ==>
              ReloadWithOld(c, md.uri, rounds)[md.uri].project == rounds[|rounds| - 1].project
  {
  }

  // ------------------------------------------------------------------
  // Eviction
  // ------------------------------------------------------------------

  /** Hits per unit of time in the cache. */
  function Popularity(e: Entry, now: real): real
    requires now != e.timestamp
  {
    (e.hits as real) / (now - e.timestamp)
  }

  ghost predicate Evictable(c: Cache, u: Uri) {
    u in c && !c[u].pinned
  }

  /** Some unpinned entry is as young as the clock: its popularity divides by zero. */
  ghost predicate DividesByZero(c: Cache, now: real) {
    exists u :: Evictable(c, u) && c[u].timestamp == now
  }

  /** A least popular entry among those that are not pinned. */
  ghost predicate IsVictim(c: Cache, now: real, u: Uri) {
    && Evictable(c, u) && !DividesByZero(c, now)
    && forall v | Evictable(c, v) :: Popularity(c[u], now) <= Popularity(c[v], now)
  }

  /** The victim has the fewest hits for its age, whichever other unpinned entry it is compared with. */
  lemma VictimIsLeastPopular(c: Cache, now: real, u: Uri, v: Uri)
    requires IsVictim(c, now, u) && Evictable(c, v) && c[u].timestamp < now && c[v].timestamp < now
    ensures (c[u].hits as real) * (now - c[v].timestamp) <= (c[v].hits as real) * (now - c[u].timestamp)
  {
    CrossMultiply(c[u].hits as real, now - c[u].timestamp, c[v].hits as real, now - c[v].timestamp);
  }

  lemma CrossMultiply(a: real, x: real, b: real, y: real)
    requires x > 0.0 && y > 0.0 && a / x <= b / y
    ensures a * y <= b * x
  {
    var p, q := a / x, b / y;
    assert a == p * x && b == q * y;
    assert (q - p) * (x * y) >= 0.0;
    assert a * y == p * (x * y) && b * x == q * (x * y);
  }

  /** The possible effects of `evict_by_popularity`. */
  ghost predicate Evicts(c: Cache, now: real, d: Cache, r: Result<Option<Uri>>) {
    if DividesByZero(c, now) then d == c && r == Raised(ZeroDivisionError)
    else if exists u :: Evictable(c, u) then
      r.Ok? && r.value.Some? && IsVictim(c, now, r.value.value) && d == c - {r.value.value}
    else d == c && r == Ok(None)
  }

  /** Eviction spares every pinned entry, and frees a place exactly when some entry is not pinned. */
  lemma EvictionSparesPinned(c: Cache, now: real, d: Cache, r: Result<Option<Uri>>)
    requires Evicts(c, now, d, r)
    ensures forall u <- c :: c[u].pinned ==> u in d && d[u] == c[u]
    ensures |d| == |c| - 1 <==> !DividesByZero(c, now) && exists u :: Evictable(c, u)
  {
    if !DividesByZero(c, now) && exists u :: Evictable(c, u) {
      assert d.Keys == c.Keys - {r.value.value};
    }
  }

  // ------------------------------------------------------------------
  // The project() request
  // ------------------------------------------------------------------

  datatype Request = Request(found: Lookup, loaded: Option<string>, now: real)

  function Hit(c: Cache, u: Uri): Cache {
    if u in c then c[u := c[u].(hits := c[u].hits + 1)] else c
  }

  /** The checked status and, for a new project in a full cache, the eviction. */
  ghost predicate Serves(c: Cache, max: nat, unwrap: bool, q: Request, d: Cache, r: Result<string>) {
    var (x, status) := Checkout(c, q.found);
    match status
    case REMOVED => var (c', u) := UpdateChecked(c, x, status, q.loaded, q.now, unwrap);
      d == c' && r == Raised(if u.Raised? then u.failure else FileNotFoundError)
    case NOTFOUND => d == c && r == Raised(FileNotFoundError)
    case _ =>
      if status == NEW && |c| >= max then
        exists evicted: Cache, e: Result<Option<Uri>> ::
          && Evicts(c, q.now, evicted, e)
          && if e.Raised? then d == evicted && r == Raised(e.failure) else Installs(evicted, x, status, unwrap, q, d, r)
      else Installs(c, x, status, unwrap, q, d, r)
  }

  ghost predicate Installs(
    c: Cache, x: Checked, status: Status, unwrap: bool, q: Request, d: Cache, r: Result<string>)
  {
    var (c', u) := UpdateChecked(c, x, status, q.loaded, q.now, unwrap);
    if u.Raised? then d == c' && r == Raised(u.failure)
    else d == Hit(c', u.value.0.md.uri) && r == Ok(u.value.0.project)
  }

  ghost predicate NonePinned(c: Cache) {
    forall u <- c :: !c[u].pinned
  }

  ghost predicate Bounded(c: Cache, max: nat) {
    Keyed(c) && NonePinned(c) && |c| <= max
  }

  lemma AddOne(c: Cache, u: Uri, e: Entry)
    ensures |c[u := e]| == |c| + if u in c then 0 else 1
  {
    assert c[u := e].Keys == c.Keys + {u};
    assert u in c ==> c[u := e].Keys == c.Keys;
  }

  lemma HitKeepsBound(c: Cache, max: nat, u: Uri)
    requires Bounded(c, max)
    ensures Bounded(Hit(c, u), max)
  {
    if u in c {
      AddOne(c, u, c[u].(hits := c[u].hits + 1));
    }
  }

  /** Only a project that is not cached needs a free place. */
  lemma UpdateKeepsBound(c: Cache, max: nat, md: Metadata, status: Status, loaded: Option<string>, now: real)
    requires Bounded(c, max) && (md.uri !in c ==> |c| < max)
    ensures Bounded(Update(c, md, status, loaded, now).0, max)
  {
    UpdateKeepsKeys(c, md, status, loaded, now);
    if loaded.Some? {
      AddOne(c, md.uri, NewEntry(md, loaded.value, now));
    }
    assert (c - {md.uri}).Keys == c.Keys - {md.uri};
  }

  lemma InstallsKeepsBound(
    c: Cache, max: nat, x: Checked, status: Status, unwrap: bool, q: Request, d: Cache, r: Result<string>)
    requires Bounded(c, max) && Installs(c, x, status, unwrap, q, d, r)
    requires x.OfEntry? ==> x.entry.md.uri in c
    requires x.OfMetadata? ==> |c| < max
    ensures Bounded(d, max)
  {
    var (c', u) := UpdateChecked(c, x, status, q.loaded, q.now, unwrap);
    if x.OfMetadata? {
      UpdateKeepsBound(c, max, x.md, status, q.loaded, q.now);
    } else if x.OfEntry? {
      UpdateKeepsBound(c, max, x.entry.md, status, q.loaded, q.now);
    }
    if u.Ok? {
      HitKeepsBound(c', max, u.value.0.md.uri);
    }
  }

  lemma EvictionMakesRoom(c: Cache, now: real, d: Cache, r: Result<Option<Uri>>)
    requires Keyed(c) && NonePinned(c) && c != map[] && Evicts(c, now, d, r)
    ensures Keyed(d) && NonePinned(d) && (r.Ok? ==> |d| == |c| - 1) && (r.Raised? ==> d == c)
  {
    if !DividesByZero(c, now) {
      var u :| u in c;
      assert Evictable(c, u);
      assert d.Keys == c.Keys - {r.value.value};
    }
  }

  /** One request keeps the cache within its bound, whatever it finds and whatever fails. */
  lemma ServesKeepsBound(c: Cache, max: nat, unwrap: bool, q: Request, d: Cache, r: Result<string>)
    requires max > 0 && Bounded(c, max) && Serves(c, max, unwrap, q, d, r)
    ensures Bounded(d, max)
  {
    var (x, status) := Checkout(c, q.found);
    if status == NEW && |c| >= max {
      var evicted: Cache, e: Result<Option<Uri>> :|
        && Evicts(c, q.now, evicted, e)
        && if e.Raised? then d == evicted && r == Raised(e.failure) else Installs(evicted, x, status, unwrap, q, d, r);
      EvictionMakesRoom(c, q.now, evicted, e);
      if e.Ok? {
        InstallsKeepsBound(evicted, max, x, status, unwrap, q, d, r);
      }
    } else if status == REMOVED {
      assert (c - {q.found.uri}).Keys == c.Keys - {q.found.uri};
    } else if status != NOTFOUND {
      InstallsKeepsBound(c, max, x, status, unwrap, q, d, r);
    }
  }

  datatype Served = Served(q: Request, after: Cache, r: Result<string>)

  ghost predicate IsRun(c: Cache, max: nat, unwrap: bool, run: seq<Served>)
    decreases |run|
  {
    run == [] ||
    (Serves(c, max, unwrap, run[0].q, run[0].after, run[0].r) && IsRun(run[0].after, max, unwrap, run[1..]))
  }

  function Last(c: Cache, run: seq<Served>): Cache {
    if run == [] then c else run[|run| - 1].after
  }

  /** Every run of requests without pinning keeps the cache within the configured size. */
  lemma {:induction false} RunsKeepBound(c: Cache, max: nat, unwrap: bool, run: seq<Served>)
    requires max > 0 && Bounded(c, max) && IsRun(c, max, unwrap, run)
    ensures Bounded(Last(c, run), max)
    decreases |run|
  {
    if run != [] {
      var first, rest := run[0], run[1..];
      ServesKeepsBound(c, max, unwrap, first.q, first.after, first.r);
      RunsKeepBound(first.after, max, unwrap, rest);
      assert Last(c, run) == Last(first.after, rest);
    }
  }

  /**
  As written, `project()` hands the cache entry back to `update`: a request is served exactly for a
  project that is stored, not cached and loadable, if there is room or the eviction does not divide
  by zero.  Every request for a cached project raises and changes nothing.
   */
  lemma OnlyUncachedProjectsAreServed(c: Cache, max: nat, q: Request, d: Cache, r: Result<string>)
    requires Serves(c, max, false, q, d, r)
    ensures r.Ok? <==>
              && q.found.Stored? && q.found.md.uri !in c && q.loaded.Some?
              && (|c| < max || !DividesByZero(c, q.now))
    ensures r.Ok? ==> r.value == q.loaded.value && q.found.md.uri in d
    ensures r.Ok? ==> d[q.found.md.uri] == Entry(q.found.md, q.loaded.value, q.now, 1, false)
    ensures q.found.Stored? && q.found.md.uri in c ==> r == Raised(AttributeError) && d == c
    ensures q.found.Missing? && q.found.uri in c ==> r == Raised(AttributeError) && d == c
  {
  }

  /** With the metadata taken out of the entry, an unchanged project is served from the cache and gains one hit. */
  lemma UnwrappedEntriesAreServed(c: Cache, max: nat, q: Request, d: Cache, r: Result<string>)
    requires Keyed(c) && Serves(c, max, true, q, d, r) && Checkout(c, q.found).1 == UNCHANGED
    ensures var u := q.found.md.uri;
            && r == Ok(c[u].project)
            && d == c[u := c[u].(hits := c[u].hits + 1)]
  {
  }

  /** And one that was removed from the storage leaves the cache. */
  lemma UnwrappedRemovalsLeave(c: Cache, max: nat, q: Request, d: Cache, r: Result<string>)
    requires Keyed(c) && Serves(c, max, true, q, d, r) && Checkout(c, q.found).1 == REMOVED
    ensures r == Raised(FileNotFoundError) && d == c - {q.found.uri}
  {
  }

  // ------------------------------------------------------------------
  // The objects
  // ------------------------------------------------------------------

  class CacheManager {
    var cache: Cache

    constructor ()
      ensures cache == map[]
    {
      cache := map[];
    }

    method CheckoutUrl(found: Lookup) returns (x: Checked, status: Status)
      ensures (x, status) == Checkout(cache, found)
    {
      match found
      case Stored(md) =>
        if md.uri in cache {
          var e := cache[md.uri];
          x := OfEntry(e);
          status := if md.lastModified > e.md.lastModified then NEEDUPDATE else UNCHANGED;
        } else {
          x, status := OfMetadata(md), NEW;
        }
      case Missing(uri) =>
        if uri in cache {
          x, status := OfEntry(cache[uri]), REMOVED;
        } else {
          x, status := OfNothing, NOTFOUND;
        }
    }

    /** Pops an entry; the caller has checked that it is there. */
    method DeleteEntry(md: Metadata) returns (e: Entry)
      requires md.uri in cache
      modifies this
      ensures e == old(cache)[md.uri] && cache == old(cache) - {md.uri}
    {
      e := cache[md.uri];
      cache := cache - {md.uri};
    }

    method UpdateEntry(md: Metadata, status: Status, loaded: Option<string>, now: real)
      returns (r: Result<(Entry, Status)>)
      requires Keyed(cache)
      modifies this
      ensures (cache, r) == Update(old(cache), md, status, loaded, now) && Keyed(cache)
    {
      UpdateKeepsKeys(cache, md, status, loaded, now);
      match status
      case NEW =>
        if loaded.None? {
          return Raised(LoadError);
        }
        var e := NewEntry(md, loaded.value, now);
        cache := cache[md.uri := e];
        r := Ok((e, NEW));
      case NEEDUPDATE =>
        if md.uri !in cache {
          return Raised(KeyError);
        }
        var _ := DeleteEntry(md);
        if loaded.None? {
          return Raised(LoadError);
        }
        var e := NewEntry(md, loaded.value, now);
        cache := cache[md.uri := e];
        assert cache == old(cache)[md.uri := e];
        r := Ok((e, UPDATED));
      case REMOVED =>
        if md.uri !in cache {
          return Raised(KeyError);
        }
        var e := DeleteEntry(md);
        r := Ok((e, REMOVED));
      case NOTFOUND => r := Raised(ValueError);
      case _ =>
        if md.uri !in cache {
          return Raised(KeyError);
        }
        r := Ok((cache[md.uri], status));
    }

    /** The minimum over the unpinned entries, in some order. */
    method LeastPopular(now: real) returns (r: Result<Option<Uri>>)
      ensures DividesByZero(cache, now) <==> r == Raised(ZeroDivisionError)
      ensures r.Raised? ==> r == Raised(ZeroDivisionError)
      ensures r == Ok(None) ==> forall u :: !Evictable(cache, u)
      ensures r.Ok? && r.value.Some? ==> IsVictim(cache, now, r.value.value)
    {
      var best: Option<Uri> := None;
      var todo := cache.Keys;
      while todo != {}
        invariant todo <= cache.Keys
        invariant forall u | Evictable(cache, u) && u !in todo :: cache[u].timestamp != now
        invariant best == None ==> forall u | u in cache && u !in todo :: cache[u].pinned
        invariant best.Some? ==> Evictable(cache, best.value) && best.value !in todo
        invariant best.Some? ==>
                    forall u | Evictable(cache, u) && u !in todo ::
                      Popularity(cache[best.value], now) <= Popularity(cache[u], now)
        decreases todo
      {
        var u :| u in todo;
        var e := cache[u];
        if !e.pinned {
          assert Evictable(cache, u);
          if e.timestamp == now {
            return Raised(ZeroDivisionError);
          }
          if best.None? || Popularity(e, now) < Popularity(cache[best.value], now) {
            best := Some(u);
          }
        }
        todo := todo - {u};
      }
      r := Ok(best);
    }

    method EvictByPopularity(now: real) returns (r: Result<Option<Uri>>)
      requires Keyed(cache)
      modifies this
      ensures Evicts(old(cache), now, cache, r) && Keyed(cache)
    {
      r := LeastPopular(now);
      if r.Ok? && r.value.Some? {
        var u := r.value.value;
        assert Evictable(cache, u);
        var _ := UpdateEntry(cache[u].md, REMOVED, None, now);
      }
    }

    method Project(max: nat, q: Request) returns (r: Result<string>)
      requires Keyed(cache)
      modifies this
      ensures Serves(old(cache), max, false, q, cache, r) && Keyed(cache)
    {
      var x, status := CheckoutUrl(q.found);
      if status == NOTFOUND {
        return Raised(FileNotFoundError);
      }
      if x.OfEntry? {
        return Raised(AttributeError);
      }
      if |cache| >= max {
        var evicted := EvictByPopularity(q.now);
        if evicted.Raised? {
          return Raised(evicted.failure);
        }
      }
      r := Install(x.md, q);
    }

    /** Loads a new project and counts its first hit. */
    method Install(md: Metadata, q: Request) returns (r: Result<string>)
      requires Keyed(cache)
      modifies this
      ensures Installs(old(cache), OfMetadata(md), NEW, false, q, cache, r) && Keyed(cache)
    {
      var u := UpdateEntry(md, NEW, q.loaded, q.now);
      if u.Raised? {
        return Raised(u.failure);
      }
      var e := u.value.0;
      cache := cache[e.md.uri := e.(hits := e.hits + 1)];
      r := Ok(e.project);
    }
  }
}

/**
 * The per-anime watched-episode map of the anime detail screen: a dictionary
 * from the anime's id (as an object key, so a string) to the list of episode
 * numbers marked watched. Every update goes through a JavaScript Set, so a
 * list is rebuilt as "first occurrences, in order"; that is Dedup below.
 */
module WatchedStore {

  import opened Wrappers

  type AnimeKey = string
  type Episode = int
  type WatchedMap = map<AnimeKey, seq<Episode>>

  function Elems(s: seq<Episode>): set<Episode> {
    set x | x in s
  }

  predicate NoDup(s: seq<Episode>) {
    forall i, j :: 0 <= i < j < |s| ==> s[i] != s[j]
  }

  /** `watchedMap[key] || []`: a stored list, or the empty list when the key is absent. */
  function Lookup(m: WatchedMap, key: AnimeKey): seq<Episode> {
    if key in m then m[key] else []
  }

  /**
   * The first occurrence of every element of s that is not in `seen`, in the
   * order of s: what a Set that already holds `seen` adds when s is fed to it.
   */
  function DedupAfter(s: seq<Episode>, seen: set<Episode>): (r: seq<Episode>)
    ensures NoDup(r)
    ensures Elems(r) == Elems(s) - seen
    ensures |r| <= |s|
  {
    if s == [] then []
    else if s[0] in seen then
      assert Elems(s) == {s[0]} + Elems(s[1..]);
      DedupAfter(s[1..], seen)
    else
      var rest := DedupAfter(s[1..], seen + {s[0]});
      assert Elems(s) == {s[0]} + Elems(s[1..]);
      assert Elems([s[0]] + rest) == {s[0]} + Elems(rest);
      [s[0]] + rest
  }

  lemma ElemsAppend(a: seq<Episode>, b: seq<Episode>)
    ensures Elems(a + b) == Elems(a) + Elems(b)
  {
  }

  /** `Array.from(new Set(s))`: each element once, the first one first. */
  function Dedup(s: seq<Episode>): (r: seq<Episode>)
    ensures NoDup(r) && Elems(r) == Elems(s)
    ensures s != [] ==> r != [] && r[0] == s[0]
  {
    DedupAfter(s, {})
  }

  lemma {:induction false} DedupAfterAppend(a: seq<Episode>, b: seq<Episode>, seen: set<Episode>)
    ensures DedupAfter(a + b, seen) == DedupAfter(a, seen) + DedupAfter(b, seen + Elems(a))
  {
    if a == [] {
      assert a + b == b;
      assert seen + Elems(a) == seen;
    } else {
      assert (a + b)[0] == a[0];
      assert (a + b)[1..] == a[1..] + b;
      assert Elems(a) == {a[0]} + Elems(a[1..]);
      if a[0] in seen {
        DedupAfterAppend(a[1..], b, seen);
        assert seen + Elems(a[1..]) == seen + Elems(a);
      } else {
        DedupAfterAppend(a[1..], b, seen + {a[0]});
        assert seen + {a[0]} + Elems(a[1..]) == seen + Elems(a);
      }
    }
  }

  /** A list with no repeats and nothing already seen passes through unchanged. */
  lemma {:induction false} DedupAfterKeeps(s: seq<Episode>, seen: set<Episode>)
    requires NoDup(s) && Elems(s) !! seen
    ensures DedupAfter(s, seen) == s
  {
    if s != [] {
      assert s[0] !in seen;
      assert Elems(s) == {s[0]} + Elems(s[1..]);
      assert s[0] !in Elems(s[1..]) by {
        forall i | 1 <= i < |s| ensures s[i] != s[0] { }
      }
      DedupAfterKeeps(s[1..], seen + {s[0]});
    }
  }

  /** De-duplicating against a smaller `seen` first changes nothing. */
  lemma {:induction false} DedupAfterTwice(s: seq<Episode>, a: set<Episode>, b: set<Episode>)
    requires a <= b
    ensures DedupAfter(DedupAfter(s, a), b) == DedupAfter(s, b)
  {
    if s != [] {
      if s[0] in a {
        DedupAfterTwice(s[1..], a, b);
      } else {
        var rest := DedupAfter(s[1..], a + {s[0]});
        assert DedupAfter(s, a) == [s[0]] + rest;
        assert ([s[0]] + rest)[1..] == rest;
        if s[0] in b {
          DedupAfterTwice(s[1..], a + {s[0]}, b);
        } else {
          DedupAfterTwice(s[1..], a + {s[0]}, b + {s[0]});
        }
      }
    }
  }

  /** `new Set([...new Set(a), ...new Set(b)])` lists the same as `new Set([...a, ...b])`. */
  lemma DedupOfDedups(a: seq<Episode>, b: seq<Episode>)
    ensures Dedup(Dedup(a) + Dedup(b)) == Dedup(a + b)
  {
    DedupAfterAppend(Dedup(a), Dedup(b), {});
    DedupAfterKeeps(Dedup(a), {});
    DedupAfterTwice(b, {}, Elems(Dedup(a)));
    assert {} + Elems(Dedup(a)) == Elems(a);
    DedupAfterAppend(a, b, {});
    assert {} + Elems(a) == Elems(a);
  }

  /** Adding one element to a Set-built list: kept as is, and appended when new. */
  lemma DedupSnoc(s: seq<Episode>, n: Episode)
    ensures Dedup(Dedup(s) + [n]) == Dedup(s) + (if n in s then [] else [n])
  {
    DedupAfterAppend(Dedup(s), [n], {});
    DedupAfterKeeps(Dedup(s), {});
    assert {} + Elems(Dedup(s)) == Elems(s);
    assert DedupAfter([n][1..], Elems(s) + {n}) == [];
  }

  // ---------------------------------------------------------------------------
  // Mark watched (the updater in handleEpisodePress)
  // ---------------------------------------------------------------------------

  /**
   * Copy the map, rebuild the anime's list through a Set, add the episode and
   * store the list back under the key.
   */
  function MarkWatched(m: WatchedMap, key: AnimeKey, n: Episode): (r: WatchedMap)
    ensures r.Keys == m.Keys + {key}
    ensures r[key] == Dedup(Lookup(m, key)) + (if n in Lookup(m, key) then [] else [n])
    ensures NoDup(r[key]) && Elems(r[key]) == Elems(Lookup(m, key)) + {n}
    ensures forall k :: k in m && k != key ==> r[k] == m[k]
  {
    var current := Dedup(Lookup(m, key));
    DedupSnoc(Lookup(m, key), n);
    ElemsAppend(current, if n in Lookup(m, key) then [] else [n]);
    m[key := Dedup(current + [n])]
  }

  /** Marking an episode that is already in a Set-built list changes nothing. */
  lemma MarkWatchedIdempotent(m: WatchedMap, key: AnimeKey, n: Episode)
    requires key in m && n in m[key] && NoDup(m[key])
    ensures MarkWatched(m, key, n) == m
  {
    DedupAfterKeeps(m[key], {});
    var r := MarkWatched(m, key, n);
    assert r.Keys == m.Keys;
    assert forall k :: k in m ==> r[k] == m[k];
  }

  /** Marking the same episode twice is the same as marking it once. */
  lemma MarkWatchedTwice(m: WatchedMap, key: AnimeKey, n: Episode)
    ensures MarkWatched(MarkWatched(m, key, n), key, n) == MarkWatched(m, key, n)
  {
    var once := MarkWatched(m, key, n);
    MarkWatchedIdempotent(once, key, n);
  }

  // ---------------------------------------------------------------------------
  // Whole-map load (loadWatchedEpisodesMap)
  // ---------------------------------------------------------------------------

  /**
   * What reading the storage key produced: a read error, nothing stored (null
   * or the empty string, both falsy), a string JSON.parse throws on, or a map.
   */
  datatype StoredValue = ReadFailed | Absent | Unparsable | Stored(m: WatchedMap)

  function Load(current: WatchedMap, stored: StoredValue): (r: WatchedMap)
    ensures stored.Stored? ==> r == stored.m
    ensures !stored.Stored? ==> r == current
  {
    match stored
    case Stored(m) => m
    case _ => current
  }

  // ---------------------------------------------------------------------------
  // Server snapshot merge (fetchUserWatchedEpisodes)
  // ---------------------------------------------------------------------------

  /** One element of `userData.watchedEpisodes`; a missing `episodes` field is None. */
  datatype ServerEntry = ServerEntry(animeId: AnimeKey, episodes: Option<seq<Episode>>)

  /** `entry.episodes || []`. */
  function EpisodesOf(e: ServerEntry): seq<Episode> {
    e.episodes.GetOr([])
  }

  /** True when no entry after position i has the same anime id as entry i. */
  predicate LastWithId(entries: seq<ServerEntry>, i: int)
    requires 0 <= i < |entries|
  {
    forall j :: i < j < |entries| ==> entries[j].animeId != entries[i].animeId
  }

  /** The map the `forEach` leaves: entries applied in order, a later entry overwriting an earlier one. */
  function ServerMapOf(entries: seq<ServerEntry>): WatchedMap
    decreases |entries|
  {
    if entries == [] then map[]
    else
      var last := entries[|entries| - 1];
      ServerMapOf(entries[..|entries| - 1])[last.animeId := EpisodesOf(last)]
  }

  /** The keys of the built map are exactly the snapshot's anime ids. */
  lemma {:induction false} ServerMapOfKeys(entries: seq<ServerEntry>)
    ensures forall k :: k in ServerMapOf(entries) <==> exists i :: 0 <= i < |entries| && entries[i].animeId == k
    decreases |entries|
  {
    if entries != [] {
      var n := |entries| - 1;
      var init, last := entries[..n], entries[n];
      var prev := ServerMapOf(init);
      assert ServerMapOf(entries) == prev[last.animeId := EpisodesOf(last)];
      ServerMapOfKeys(init);
      forall k ensures k in ServerMapOf(entries) <==> exists i :: 0 <= i < |entries| && entries[i].animeId == k {
        if k in prev {
          var i :| 0 <= i < |init| && init[i].animeId == k;
          assert entries[i] == init[i];
        }
        if i :| 0 <= i < |entries| && entries[i].animeId == k {
          if i < n {
            assert init[i] == entries[i];
            assert k in prev;
          }
        }
      }
    }
  }

  /** Each id holds the episodes of the last entry that carries it. */
  lemma {:induction false} ServerMapOfValues(entries: seq<ServerEntry>)
    ensures forall i :: 0 <= i < |entries| && LastWithId(entries, i) ==>
              entries[i].animeId in ServerMapOf(entries) &&
              ServerMapOf(entries)[entries[i].animeId] == EpisodesOf(entries[i])
    decreases |entries|
  {
    if entries != [] {
      var n := |entries| - 1;
      var init, last := entries[..n], entries[n];
      var prev := ServerMapOf(init);
      assert ServerMapOf(entries) == prev[last.animeId := EpisodesOf(last)];
      ServerMapOfValues(init);
      forall i | 0 <= i < |entries| && LastWithId(entries, i)
        ensures entries[i].animeId in ServerMapOf(entries)
        ensures ServerMapOf(entries)[entries[i].animeId] == EpisodesOf(entries[i])
      {
        if i < n {
          assert entries[i] == init[i];
          assert entries[i].animeId != last.animeId;
          assert LastWithId(init, i) by {
            forall j | i < j < |init| ensures init[j].animeId != init[i].animeId {
              assert entries[j] == init[j];
            }
          }
        }
      }
    }
  }

  /** The `forEach` that builds `serverMap`. */
  method BuildServerMap(entries: seq<ServerEntry>) returns (serverMap: WatchedMap)
    ensures serverMap == ServerMapOf(entries)
    ensures forall k :: k in serverMap <==> exists i :: 0 <= i < |entries| && entries[i].animeId == k
    ensures forall i :: 0 <= i < |entries| && LastWithId(entries, i) ==>
              serverMap[entries[i].animeId] == EpisodesOf(entries[i])
  {
    serverMap := map[];
    for n := 0 to |entries|
      invariant serverMap == ServerMapOf(entries[..n])
    {
      assert entries[..n + 1][..n] == entries[..n];
      serverMap := serverMap[entries[n].animeId := EpisodesOf(entries[n])];
    }
    assert entries[..|entries|] == entries;
    ServerMapOfKeys(entries);
    ServerMapOfValues(entries);
  }

  /**
   * The merge the updater performs: every key of the snapshot gets the
   * Set-union of the server list followed by the local one; every other key
   * keeps its local list.
   */
  function Merged(local: WatchedMap, server: WatchedMap): WatchedMap {
    map k | k in local.Keys + server.Keys ::
      if k in server then Dedup(server[k] + Lookup(local, k)) else local[k]
  }

  /** The merge after the keys in `done` have been processed. */
  function MergedOn(local: WatchedMap, server: WatchedMap, done: set<AnimeKey>): WatchedMap
    requires done <= server.Keys
  {
    map k | k in local.Keys + done ::
      if k in done then Dedup(server[k] + Lookup(local, k)) else local[k]
  }

  lemma MergedOnStep(local: WatchedMap, server: WatchedMap, done: set<AnimeKey>, id: AnimeKey)
    requires done <= server.Keys && id in server && id !in done
    ensures MergedOn(local, server, done + {id}) ==
            MergedOn(local, server, done)[id := Dedup(server[id] + Lookup(local, id))]
  {
  }

  lemma MergedOnAll(local: WatchedMap, server: WatchedMap)
    ensures MergedOn(local, server, server.Keys) == Merged(local, server)
  {
  }

  /** The updater itself: copy the map, then rewrite `merged[id]` for each server key. */
  method MergeSnapshot(local: WatchedMap, server: WatchedMap) returns (merged: WatchedMap)
    ensures merged == Merged(local, server)
  {
    merged := local;
    var todo := server.Keys;
    assert merged == MergedOn(local, server, {});
    while todo != {}
      invariant todo <= server.Keys
      invariant merged == MergedOn(local, server, server.Keys - todo)
      decreases todo
    {
      var id :| id in todo;
      ghost var done := server.Keys - todo;
      var serverEpisodes := Dedup(server[id]);
      var localEpisodes := Dedup(if id in merged then merged[id] else []);
      assert (if id in merged then merged[id] else []) == Lookup(local, id);
      DedupOfDedups(server[id], Lookup(local, id));
      merged := merged[id := Dedup(serverEpisodes + localEpisodes)];
      todo := todo - {id};
      MergedOnStep(local, server, done, id);
      assert server.Keys - todo == done + {id};
    }
    MergedOnAll(local, server);
  }

  /** For a snapshot key the merged list has no repeats and holds exactly both sides. */
  lemma MergedUnion(local: WatchedMap, server: WatchedMap, k: AnimeKey)
    requires k in server
    ensures k in Merged(local, server)
    ensures NoDup(Merged(local, server)[k])
    ensures Elems(Merged(local, server)[k]) == Elems(server[k]) + Elems(Lookup(local, k))
  {
    assert Elems(server[k] + Lookup(local, k)) == Elems(server[k]) + Elems(Lookup(local, k));
  }

  /** Keys the snapshot does not mention are left exactly as they were. */
  lemma MergedFrame(local: WatchedMap, server: WatchedMap, k: AnimeKey)
    requires k !in server
    ensures k in Merged(local, server) <==> k in local
    ensures k in local ==> Merged(local, server)[k] == local[k]
  {
  }

  /** Feeding the server list in front of an already merged list adds nothing new. */
  lemma DedupAbsorbs(a: seq<Episode>, b: seq<Episode>)
    ensures Dedup(a + Dedup(a + b)) == Dedup(a + b)
  {
    var ea := Elems(a);
    var da := Dedup(a);
    var tail := DedupAfter(b, ea);
    assert {} + ea == ea;
    DedupAfterAppend(a, b, {});
    assert Dedup(a + b) == da + tail;
    DedupAfterAppend(a, da + tail, {});
    assert Dedup(a + Dedup(a + b)) == da + DedupAfter(da + tail, ea);
    DedupAfterAppend(da, tail, ea);
    assert ea + Elems(da) == ea;
    DedupAfterNothingNew(da, ea);
    DedupAfterKeeps(tail, ea);
    assert DedupAfter(da + tail, ea) == tail;
  }

  /** Applying the same snapshot a second time changes nothing. */
  lemma MergedIdempotent(local: WatchedMap, server: WatchedMap)
    ensures Merged(Merged(local, server), server) == Merged(local, server)
  {
    var once := Merged(local, server);
    var twice := Merged(once, server);
    assert twice.Keys == once.Keys;
    forall k | k in twice
      ensures twice[k] == once[k]
    {
      if k in server {
        assert Lookup(once, k) == Dedup(server[k] + Lookup(local, k));
        DedupAbsorbs(server[k], Lookup(local, k));
      }
    }
  }

  lemma {:induction false} DedupAfterNothingNew(s: seq<Episode>, seen: set<Episode>)
    requires Elems(s) <= seen
    ensures DedupAfter(s, seen) == []
  {
    if s != [] {
      assert s[0] in Elems(s);
      assert Elems(s[1..]) <= Elems(s);
      DedupAfterNothingNew(s[1..], seen);
    }
  }

  // ---------------------------------------------------------------------------
  // The union law for any interleaving of marks and merges
  // ---------------------------------------------------------------------------

  datatype Update = Mark(key: AnimeKey, episode: Episode) | Merge(server: WatchedMap)

  function ApplyUpdate(m: WatchedMap, u: Update): WatchedMap {
    match u
    case Mark(key, n) => MarkWatched(m, key, n)
    case Merge(server) => Merged(m, server)
  }

  function ApplyAll(m: WatchedMap, us: seq<Update>): WatchedMap
    decreases |us|
  {
    if us == [] then m else ApplyAll(ApplyUpdate(m, us[0]), us[1..])
  }

  /** The episodes one update submits for a key. */
  function Submitted(u: Update, key: AnimeKey): set<Episode> {
    match u
    case Mark(k, n) => if k == key then {n} else {}
    case Merge(server) => if key in server then Elems(server[key]) else {}
  }

  function SubmittedAll(us: seq<Update>, key: AnimeKey): set<Episode>
    decreases |us|
  {
    if us == [] then {} else Submitted(us[0], key) + SubmittedAll(us[1..], key)
  }

  /**
   * Whatever the order of marks and merges, an anime ends up with exactly the
   * episodes it started with plus every episode any update submitted for it.
   */
  lemma {:induction false} ApplyAllIsUnion(m: WatchedMap, us: seq<Update>, key: AnimeKey)
    ensures Elems(Lookup(ApplyAll(m, us), key)) == Elems(Lookup(m, key)) + SubmittedAll(us, key)
    decreases |us|
  {
    if us != [] {
      var next := ApplyUpdate(m, us[0]);
      StepIsUnion(m, us[0], key);
      ApplyAllIsUnion(next, us[1..], key);
    }
  }

  lemma StepIsUnion(m: WatchedMap, u: Update, key: AnimeKey)
    ensures Elems(Lookup(ApplyUpdate(m, u), key)) == Elems(Lookup(m, key)) + Submitted(u, key)
  {
      var next := ApplyUpdate(m, u);
      match u
      case Mark(k, n) =>
        if k == key {
          assert Elems(Lookup(next, key)) == Elems(Lookup(m, key)) + {n};
        } else {
          assert Lookup(next, key) == Lookup(m, key);
        }
      case Merge(server) =>
        if key in server {
          MergedUnion(m, server, key);
        } else {
          MergedFrame(m, server, key);
        }
  }

  // ---------------------------------------------------------------------------
  // Queries used while rendering
  // ---------------------------------------------------------------------------

  /** `getLocalWatchedSet`: the episodes recorded for the anime, as a set. */
  function LocalWatchedSet(m: WatchedMap, key: AnimeKey): (r: set<Episode>)
    ensures key !in m ==> r == {}
    ensures key in m ==> forall n :: n in r <==> n in m[key]
  {
    Elems(Lookup(m, key))
  }

  /** After marking, the episode shows as watched and no other mark is lost. */
  lemma MarkShowsWatched(m: WatchedMap, key: AnimeKey, n: Episode)
    ensures LocalWatchedSet(MarkWatched(m, key, n), key) == LocalWatchedSet(m, key) + {n}
  {
  }
}

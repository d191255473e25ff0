/** The lease-counted source cache (internal/aphelion/mapping/reuse_cache.go): the state its
    mutex guards and the sections that run under it. */
module ReuseCaches {
  import opened Basics

  const MAX_SOURCES: nat := 32
  const MAX_BYTES: nat := 256 * 1024 * 1024

  datatype Key = Key(path: string, environment: string)

  /** reuseSourceEntry. Entries are named by their position in the order of creation. */
  datatype Entry = Entry(key: Key, source: nat, refs: nat, retained: bool, bytes: nat, lastUsed: nat)

  /** Everything the mutex guards; `entries` holds every entry ever created. */
  datatype Cache = Cache(closed: bool, clock: nat, sources: map<Key, nat>, entries: seq<Entry>, bytes: nat)

  function Empty(): Cache { Cache(false, 0, map[], [], 0) }

  /** The bytes of the retained entries. */
  function RetainedBytes(es: seq<Entry>): nat {
    if es == [] then 0 else RetainedBytes(es[..|es| - 1]) + Held(es[|es| - 1])
  }

  function Held(e: Entry): nat { if e.retained then e.bytes else 0 }

  predicate Within(c: Cache) { |c.sources| <= MAX_SOURCES && c.bytes <= MAX_BYTES }

  /** At most 32 sources and 256 MiB. */
  lemma WithinMeaning(c: Cache)
    ensures Within(c) <==> |c.sources| <= 32 && c.bytes <= 268_435_456
  {
  }

  /** The map names exactly the retained entries. */
  ghost predicate Indexed(sources: map<Key, nat>, es: seq<Entry>) {
    && (forall k :: k in sources ==> sources[k] < |es| && es[sources[k]].key == k && es[sources[k]].retained)
    && (forall e :: 0 <= e < |es| && es[e].retained ==> es[e].key in sources && sources[es[e].key] == e)
  }

  /** Every use got its own tick of the clock. */
  ghost predicate Ticked(clock: nat, es: seq<Entry>) {
    && (forall e :: 0 <= e < |es| ==> es[e].lastUsed <= clock)
    && (forall d, e :: 0 <= d < e < |es| ==> es[d].lastUsed != es[e].lastUsed)
  }

  ghost predicate Sized(es: seq<Entry>) { forall e :: 0 <= e < |es| ==> 0 < es[e].bytes <= MAX_BYTES }

  /** The accounting kept inside a locked section; the bounds hold again at its end. */
  ghost predicate Accounted(c: Cache) {
    && Indexed(c.sources, c.entries) && Ticked(c.clock, c.entries) && Sized(c.entries)
    && c.bytes == RetainedBytes(c.entries)
    && (c.closed ==> c.sources == map[])
  }

  ghost predicate CacheOk(c: Cache) { Accounted(c) && Within(c) }

  // ---- the locked sections on values --------------------------------------------------------

  function Borrow(c: Cache, e: nat): Cache
    requires e < |c.entries|
  {
    c.(clock := c.clock + 1,
       entries := c.entries[e := c.entries[e].(lastUsed := c.clock + 1, refs := c.entries[e].refs + 1)])
  }

  function GiveBack(c: Cache, e: nat): Cache
    requires e < |c.entries|
  {
    var refs := c.entries[e].refs;
    c.(entries := c.entries[e := c.entries[e].(refs := if refs > 0 then refs - 1 else refs)])
  }

  /** The guarded subtraction of the byte count. */
  function Less(total: nat, bytes: nat): nat { if bytes <= total then total - bytes else 0 }

  /** The entry has neither the cache nor a lease behind it. */
  predicate Unowned(c: Cache, e: nat)
    requires e < |c.entries|
  {
    !c.entries[e].retained && c.entries[e].refs == 0
  }

  function Unretained(es: seq<Entry>, gone: set<nat>): seq<Entry> {
    seq(|es|, i requires 0 <= i < |es| => if i in gone then es[i].(retained := false) else es[i])
  }

  /** The cache after it gave up the entries in `gone`. */
  function Without(c: Cache, gone: set<nat>): Cache {
    var es := Unretained(c.entries, gone);
    c.(sources := map k | k in c.sources &&
       c.sources[k] !in gone :: c.sources[k], entries := es, bytes := RetainedBytes(es))
  }

  function Invalidated(c: Cache, e: nat): Cache
    requires e < |c.entries|
  {
    if c.entries[e].key in c.sources && c.sources[c.entries[e].key] == e then Without(c, {e}) else c
  }

  function Inserted(c: Cache, key: Key, source: nat, bytes: nat): Cache {
    Cache(c.closed, c.clock + 1, c.sources[key := |c.entries|],
          c.entries + [Entry(key, source, 1, true, bytes, c.clock + 1)], c.bytes + bytes)
  }

  /** The retained entries without a lease. */
  ghost function Unused(c: Cache): set<nat>
  {
    set e | 0 <= e < |c.entries| && c.entries[e].retained && c.entries[e].refs == 0
  }

  ghost function AllRetained(c: Cache): set<nat> { set e | 0 <= e < |c.entries| && c.entries[e].retained }

  ghost function Shut(c: Cache): Cache { Without(c, AllRetained(c)).(closed := true) }

  /** The entries whose sources are to be closed when the cache gives up `gone`. */
  ghost function Orphans(c: Cache, gone: set<nat>): set<nat> {
    set e | e in gone && e < |c.entries| && c.entries[e].retained && c.entries[e].refs == 0
  }

  /** The newest of the given-up entries, without which the bounds were still exceeded. */
  ghost predicate LastNeeded(c: Cache, gone: set<nat>, g: nat)
    requires forall h :: h in gone ==> h < |c.entries|
  {
    g in gone && !Within(Without(c, gone - {g})) && forall h :: h in gone ==>
      c.entries[h].lastUsed <= c.entries[g].lastUsed
  }

  /** The given-up entries are the least recently used ones, no more than needed. */
  ghost predicate LeastUsed(c: Cache, gone: set<nat>) {
    && (forall g :: g in gone ==> g < |c.entries| && c.entries[g].retained)
    && (forall g, e :: g in gone && 0 <= e < |c.entries| && c.entries[e].retained && e !in gone ==>
          c.entries[g].lastUsed < c.entries[e].lastUsed)
    && (gone != {} ==> exists g :: LastNeeded(c, gone, g))
  }

  /** What trimming gives up. */
  ghost predicate IsTrim(c: Cache, gone: set<nat>) { LeastUsed(c, gone) && Within(Without(c, gone)) }

  // ---- accounting lemmas ----------------------------------------------------------------------

  lemma {:induction false} RetainedUpdate(es: seq<Entry>, i: nat, e: Entry)
    requires i < |es|
    ensures RetainedBytes(es[i := e]) + Held(es[i]) == RetainedBytes(es) + Held(e)
  {
    var last := |es| - 1;
    if i == last {
      assert es[i := e][..last] == es[..last];
    } else {
      assert es[i := e][..last] == es[..last][i := e];
      RetainedUpdate(es[..last], i, e);
    }
  }

  lemma RetainedAppend(es: seq<Entry>, e: Entry)
    ensures RetainedBytes(es + [e]) == RetainedBytes(es) + Held(e)
  {
    assert (es + [e])[..|es|] == es;
  }

  lemma UnretainedOne(es: seq<Entry>, gone: set<nat>, e: nat)
    requires e < |es| && e !in gone
    ensures Unretained(es, gone + {e}) == Unretained(es, gone)[e := es[e].(retained := false)]
    ensures RetainedBytes(Unretained(es, gone + {e})) + Held(es[e]) == RetainedBytes(Unretained(es, gone))
  {
    RetainedUpdate(Unretained(es, gone), e, es[e].(retained := false));
  }

  /** Giving up one more entry: what deleting it from the map and subtracting its bytes does. */
  lemma WithoutOne(c: Cache, gone: set<nat>, e: nat)
    requires Indexed(c.sources, c.entries) && e < |c.entries| && e !in gone && c.entries[e].retained
    ensures Without(c, gone + {e}).sources == Without(c, gone).sources - {c.entries[e].key}
    ensures Without(c, gone + {e}).entries == Without(c, gone).entries[e := c.entries[e].(retained := false)]
    ensures Without(c, gone + {e}).bytes + c.entries[e].bytes == Without(c, gone).bytes
    ensures c.entries[e].key in Without(c, gone).sources
  {
    hide RetainedBytes;
    UnretainedOne(c.entries, gone, e);
    hide Unretained;
    var m, m' := Without(c, gone).sources, Without(c, gone + {e}).sources;
    assert m'.Keys == m.Keys - {c.entries[e].key};
  }

  lemma WithoutNone(c: Cache)
    requires Accounted(c)
    ensures Without(c, {}) == c
  {
    assert Unretained(c.entries, {}) == c.entries;
    assert Without(c, {}).sources == c.sources;
  }

  lemma {:induction false} UnretainedLess(es: seq<Entry>, gone: set<nat>)
    ensures RetainedBytes(Unretained(es, gone)) <= RetainedBytes(es)
  {
    if es != [] {
      var init := es[..|es| - 1];
      UnretainedLess(init, gone);
      assert Unretained(es, gone)[..|es| - 1] == Unretained(init, gone);
    }
  }

  lemma WithoutAccounted(c: Cache, gone: set<nat>)
    requires Accounted(c)
    ensures Accounted(Without(c, gone)) && Without(c, gone).bytes <= c.bytes &&
      |Without(c, gone).sources| <= |c.sources|
  {
    hide RetainedBytes, Indexed, Ticked, Sized;
    UnretainedLess(c.entries, gone);
    SubsetSize(Without(c, gone).sources.Keys, c.sources.Keys);
    WithoutIndexed(c.sources, c.entries, gone);
    UnretainedKeeps(c.clock, c.entries, gone);
  }

  lemma WithoutIndexed(sources: map<Key, nat>, es: seq<Entry>, gone: set<nat>)
    requires Indexed(sources, es)
    ensures Indexed(map k | k in sources && sources[k] !in gone :: sources[k], Unretained(es, gone))
  {
  }

  lemma UnretainedKeeps(clock: nat, es: seq<Entry>, gone: set<nat>)
    requires Ticked(clock, es) && Sized(es)
    ensures Ticked(clock, Unretained(es, gone)) && Sized(Unretained(es, gone))
  {
    var out := Unretained(es, gone);
    SameUse(es, gone, out);
    hide Unretained;
    forall d, e | 0 <= d < e < |out| ensures out[d].lastUsed != out[e].lastUsed {
      assert es[d].lastUsed != es[e].lastUsed;
    }
  }

  lemma SameUse(es: seq<Entry>, gone: set<nat>, out: seq<Entry>)
    requires out == Unretained(es, gone)
    ensures |out| == |es|
    ensures forall e :: 0 <= e < |es| ==>
      out[e].lastUsed == es[e].lastUsed && out[e].bytes == es[e].bytes
  {
  }

  lemma BorrowOk(c: Cache, e: nat)
    requires CacheOk(c) && e < |c.entries|
    ensures CacheOk(Borrow(c, e))
  {
    RetainedUpdate(c.entries, e, Borrow(c, e).entries[e]);
  }

  lemma GiveBackOk(c: Cache, e: nat)
    requires CacheOk(c) && e < |c.entries|
    ensures CacheOk(GiveBack(c, e))
  {
    RetainedUpdate(c.entries, e, GiveBack(c, e).entries[e]);
  }

  lemma WithoutOk(c: Cache, gone: set<nat>)
    requires CacheOk(c)
    ensures CacheOk(Without(c, gone))
  {
    WithoutAccounted(c, gone);
  }

  lemma InsertedAccounted(c: Cache, key: Key, source: nat, bytes: nat)
    requires CacheOk(c) && !c.closed && key !in c.sources && 0 < bytes <= MAX_BYTES
    ensures Accounted(Inserted(c, key, source, bytes))
  {
    hide Indexed, Ticked, RetainedBytes;
    RetainedAppend(c.entries, Entry(key, source, 1, true, bytes, c.clock + 1));
    InsertedIndexed(c.sources, c.entries, Entry(key, source, 1, true, bytes, c.clock + 1));
    InsertedTicked(c.clock, c.entries, Entry(key, source, 1, true, bytes, c.clock + 1));
  }

  lemma InsertedIndexed(sources: map<Key, nat>, es: seq<Entry>, e: Entry)
    requires Indexed(sources, es) && e.retained && e.key !in sources
    ensures Indexed(sources[e.key := |es|], es + [e])
  {
  }

  lemma InsertedTicked(clock: nat, es: seq<Entry>, e: Entry)
    requires Ticked(clock, es) && e.lastUsed == clock + 1
    ensures Ticked(clock + 1, es + [e])
  {
  }

  /** The entry used last, alone, is within both bounds. */
  lemma AloneFits(c: Cache, gone: set<nat>, last: nat)
    requires Accounted(c) && last in gone && last < |c.entries| && c.entries[last].retained
    requires forall e :: 0 <= e < |c.entries| && c.entries[e].retained ==> e in gone
    ensures Within(Without(c, gone - {last}))
  {
    hide Ticked, RetainedBytes;
    var rest := gone - {last};
    assert rest + {last} == gone;
    WithoutOne(c, rest, last);
    AllGone(c, gone);
    hide Without, Indexed;
    assert Without(c, rest).sources.Keys <= {c.entries[last].key};
    SubsetSize(Without(c, rest).sources.Keys, {c.entries[last].key});
  }

  lemma AllGone(c: Cache, gone: set<nat>)
    requires Indexed(c.sources, c.entries) && forall e :: 0 <= e < |c.entries| && c.entries[e].retained ==> e in gone
    ensures Without(c, gone).sources == map[] && Without(c, gone).bytes == 0
  {
    hide RetainedBytes;
    NoneRetained(Unretained(c.entries, gone));
  }

  lemma {:induction false} NoneRetained(es: seq<Entry>)
    requires forall e :: 0 <= e < |es| ==> !es[e].retained
    ensures RetainedBytes(es) == 0
  {
    if es != [] { NoneRetained(es[..|es| - 1]); }
  }

  /** Trimming restores both bounds and never gives up the entry used last: had it gone, it
      would have gone last and alone, but alone it fits. */
  lemma TrimOk(c: Cache, gone: set<nat>, last: nat)
    requires Accounted(c) && IsTrim(c, gone)
    requires last < |c.entries| && c.entries[last].retained && c.entries[last].lastUsed == c.clock
    ensures CacheOk(Without(c, gone)) && last !in gone && Without(c, gone).entries[last] == c.entries[last]
  {
    hide Without, Indexed, Sized;
    WithoutAccounted(c, gone);
    if last in gone {
      AloneFits(c, gone, last);
      assert false;
    }
    KeptEntry(c, gone, last);
  }

  lemma KeptEntry(c: Cache, gone: set<nat>, e: nat)
    requires e < |c.entries|
    ensures |Without(c, gone).entries| == |c.entries|
    ensures Without(c, gone).entries[e] == if e in gone then c.entries[e].(retained := false) else c.entries[e]
  {
  }

  lemma OrphansOne(c: Cache, gone: set<nat>, e: nat)
    requires e < |c.entries| && e !in gone && c.entries[e].retained
    ensures multiset(Orphans(c, gone + {e})) ==
      multiset(Orphans(c, gone)) + if c.entries[e].refs == 0 then multiset{e} else multiset{}
  {
    if c.entries[e].refs == 0 {
      assert Orphans(c, gone + {e}) == Orphans(c, gone) + {e};
    } else {
      assert Orphans(c, gone + {e}) == Orphans(c, gone);
    }
  }

  lemma InvalidatedOne(c: Cache, e: nat)
    requires Accounted(c) && e < |c.entries| && c.entries[e].retained
    ensures Without(c, {e}) == c.(sources := c.sources - {c.entries[e].key},
                                  entries := c.entries[e := c.entries[e].(retained := false)],
                                  bytes := Less(c.bytes, c.entries[e].bytes))
  {
    hide Without, RetainedBytes, Ticked, Sized;
    WithoutNone(c);
    WithoutOne(c, {}, e);
    assert {} + {e} == {e};
    WithoutFrame(c, {e});
  }

  lemma WithoutFrame(c: Cache, gone: set<nat>)
    ensures Without(c, gone).closed == c.closed && Without(c, gone).clock == c.clock
  {
  }

  /** What the map and the entries of the trimmed cache say about the old one. */
  lemma WithoutView(c: Cache, gone: set<nat>, key: Key)
    requires Indexed(c.sources, c.entries)
    requires key in Without(c, gone).sources
    requires forall k :: k in Without(c, gone).sources ==>
      Without(c, gone).sources[k] < |Without(c, gone).entries| &&
      Without(c, gone).entries[Without(c, gone).sources[key]].lastUsed <=
        Without(c, gone).entries[Without(c, gone).sources[k]].lastUsed
    ensures key in c.sources && c.sources[key] !in gone && Without(c, gone).sources[key] == c.sources[key]
    ensures forall k :: k in c.sources && c.sources[k] !in gone ==>
      c.entries[c.sources[key]].lastUsed <= c.entries[c.sources[k]].lastUsed
  {
    hide RetainedBytes;
    forall k | k in c.sources && c.sources[k] !in gone
      ensures c.entries[c.sources[key]].lastUsed <= c.entries[c.sources[k]].lastUsed
    {
      assert k in Without(c, gone).sources;
    }
  }

  /** Trimming takes the oldest remaining entry next. */
  lemma TrimNext(c: Cache, gone: set<nat>, key: Key)
    requires Accounted(c) && LeastUsed(c, gone) && !Within(Without(c, gone)) && key in c.sources &&
      c.sources[key] !in gone
    requires forall k :: k in c.sources && c.sources[k] !in gone ==>
      c.entries[c.sources[key]].lastUsed <= c.entries[c.sources[k]].lastUsed
    ensures LeastUsed(c, gone + {c.sources[key]})
  {
    hide Sized, Within, Without;
    var e := c.sources[key];
    var gone' := gone + {e};
    assert gone' - {e} == gone;
    forall g, d | g in gone' && 0 <= d < |c.entries| && c.entries[d].retained && d !in gone'
      ensures c.entries[g].lastUsed < c.entries[d].lastUsed
    {
      if g == e {
        assert c.entries[d].key in c.sources && c.sources[c.entries[d].key] !in gone;
        assert c.entries[e].lastUsed <= c.entries[d].lastUsed;
        assert e != d;
      }
    }
    assert LastNeeded(c, gone', e);
  }

  /** Exceeding a bound takes at least one retained entry. */
  lemma OverFull(c: Cache)
    requires Accounted(c) && !Within(c)
    ensures c.sources != map[]
  {
    if c.sources == map[] { NoneRetained(c.entries); }
  }

  /** The entries among `all` whose keys a sweep over the map has visited. */
  ghost function Swept(c: Cache, all: set<nat>, left: set<Key>): set<nat> {
    set e | e in all && e < |c.entries| && c.entries[e].key !in left
  }

  lemma SweptNext(c: Cache, all: set<nat>, left: set<Key>, k: Key)
    requires Indexed(c.sources, c.entries) && k in left && left <= c.sources.Keys && all <= AllRetained(c)
    ensures c.sources[k] !in Swept(c, all, left)
    ensures Swept(c, all, left - {k}) == Swept(c, all, left) + if c.sources[k] in all then {c.sources[k]} else {}
  {
  }

  lemma StartSweep(c: Cache, all: set<nat>)
    requires Indexed(c.sources, c.entries) && all <= AllRetained(c)
    ensures Swept(c, all, c.sources.Keys) == {} && Swept(c, all, {}) == all
  {
  }

  lemma UnusedRetained(c: Cache)
    ensures Unused(c) <= AllRetained(c)
    ensures forall e :: e in AllRetained(c) ==> e < |c.entries| && (e in Unused(c) <==> c.entries[e].refs == 0)
    ensures Indexed(c.sources, c.entries) ==> forall k :: k in c.sources ==> c.sources[k] in AllRetained(c)
  {
  }

  /** A key still to be visited names the same entry as at the start. */
  lemma SweptView(c: Cache, gone: set<nat>, k: Key)
    requires Indexed(c.sources, c.entries) && k in c.sources && c.sources[k] !in gone
    ensures k in Without(c, gone).sources && Without(c, gone).sources[k] == c.sources[k] < |c.entries|
    ensures |Without(c, gone).entries| == |c.entries| &&
      Without(c, gone).entries[c.sources[k]] == c.entries[c.sources[k]]
  {
  }

  lemma ShutOk(c: Cache)
    requires CacheOk(c)
    ensures CacheOk(Shut(c)) && Shut(c).sources == map[] && Shut(c).bytes == 0
  {
    hide Without, RetainedBytes, Indexed, Ticked, Sized;
    WithoutAccounted(c, AllRetained(c));
    AllGone(c, AllRetained(c));
  }

  lemma InsertedView(c: Cache, gone: set<nat>, key: Key)
    requires Accounted(c) && key in c.sources && c.sources[key] !in gone
    ensures key in Without(c, gone).sources && Without(c, gone).sources[key] == c.sources[key]
    ensures |Without(c, gone).entries| == |c.entries|
  {
  }

  lemma StartTrim(c: Cache)
    ensures LeastUsed(c, {}) && Orphans(c, {}) == {}
  {
  }

  /** The cache object. Each method is one section under its mutex; the caller closes the
      sources of the listed entries after unlocking. */
  class ReuseCache {
    var closed: bool
    var clock: nat
    var sources: map<Key, nat>
    var entries: seq<Entry>
    var sourceBytes: nat

    constructor ()
      ensures State() == Empty() && CacheOk(State())
    {
      closed, clock, sources, entries, sourceBytes := false, 0, map[], [], 0;
    }

    function State(): Cache
      reads this
    {
      Cache(closed, clock, sources, entries, sourceBytes)
    }

    /** The first section of acquireSource: a lease on the entry of the key, if there is one. */
    method AcquireSection(key: Key) returns (e: Option<nat>)
      requires CacheOk(State())
      modifies this
      ensures CacheOk(State())
      ensures e == if key in old(sources) then Some(old(sources)[key]) else None
      ensures State() == match e case Some(i) => Borrow(old(State()), i) case None => old(State())
    {
      hide Ticked, Sized, RetainedBytes;
      if closed || key !in sources { return None; }
      var i := sources[key];
      BorrowOk(State(), i);
      clock := clock + 1;
      entries := entries[i := entries[i].(lastUsed := clock, refs := entries[i].refs + 1)];
      e := Some(i);
    }

    /** release, which its once guard runs at most once per lease. */
    method ReleaseSection(e: nat) returns (close: bool)
      requires CacheOk(State()) && e < |entries|
      modifies this`entries
      ensures CacheOk(State()) && State() == GiveBack(old(State()), e)
      ensures close <==> Unowned(State(), e)
    {
      hide Accounted;
      GiveBackOk(State(), e);
      var entry := entries[e];
      if entry.refs > 0 { entries := entries[e := entry.(refs := entry.refs - 1)]; }
        else { assert entries[e := entry] == entries; }
      close := !entries[e].retained && entries[e].refs == 0;
    }

    method InvalidateSection(key: Key, e: nat) returns (close: bool)
      requires CacheOk(State()) && e < |entries| && entries[e].key == key
      modifies this
      ensures CacheOk(State()) && State() == Invalidated(old(State()), e)
      ensures close <==> Unowned(State(), e)
    {
      hide Without, Ticked, Sized, Within, RetainedBytes;
      if key in sources && sources[key] == e {
        WithoutOk(State(), {e});
        InvalidatedOne(State(), e);
        sources := sources - {key};
        entries := entries[e := entries[e].(retained := false)];
        sourceBytes := Less(sourceBytes, entries[e].bytes);
      }
      close := !entries[e].retained && entries[e].refs == 0;
    }

    /** Gives up one entry, as trimming, eviction and closing do; lists it when nobody
        leases it. */
    method Drop(key: Key, ghost c: Cache, ghost gone: set<nat>, closing: seq<nat>)
      returns (closing': seq<nat>, ghost gone': set<nat>)
      requires Accounted(c) && State() == Without(c, gone) && key in sources
      requires multiset(closing) == multiset(Orphans(c, gone))
      modifies this
      ensures old(sources)[key] < |c.entries| && sourceBytes + c.entries[old(sources)[key]].bytes == old(sourceBytes)
      ensures sources == old(sources) - {key} && |sources| < |old(sources)|
      ensures gone' == gone + {old(sources)[key]} && State() == Without(c, gone')
      ensures multiset(closing') == multiset(Orphans(c, gone'))
    {
      hide Ticked, Sized, Orphans;
      var e := sources[key];
      gone', closing' := gone + {e}, closing;
      WithoutOne(c, gone, e);
      OrphansOne(c, gone, e);
      if entries[e].refs == 0 { closing' := closing' + [e]; }
      sourceBytes := Less(sourceBytes, entries[e].bytes);
      sources := sources - {key};
      entries := entries[e := entries[e].(retained := false)];
    }

    /** The least recently used entry, preferring one without leases on a tie. */
    method Victim() returns (key: Key)
      requires Accounted(State()) && sources != map[]
      ensures key in sources
      ensures forall k :: k in sources ==> entries[sources[key]].lastUsed <= entries[sources[k]].lastUsed
    {
      var left := sources.Keys;
      var first :| first in left;
      key, left := first, left - {first};
      while left != {}
        invariant left <= sources.Keys && key in sources && key !in left
        invariant forall k ::
          k in sources && k !in left ==> entries[sources[key]].lastUsed <= entries[sources[k]].lastUsed
        decreases left
      {
        var k :| k in left;
        left := left - {k};
        var entry, victim := entries[sources[k]], entries[sources[key]];
        if entry.lastUsed < victim.lastUsed ||
          (entry.lastUsed == victim.lastUsed && entry.refs == 0 && victim.refs != 0) {
          key := k;
        }
      }
    }

    /** trimSourcesLocked. */
    method Trim() returns (closing: seq<nat>, ghost gone: set<nat>)
      requires Accounted(State())
      modifies this
      ensures IsTrim(old(State()), gone) && State() == Without(old(State()), gone)
      ensures multiset(closing) == multiset(Orphans(old(State()), gone))
    {
      hide Orphans, Without, LeastUsed, Ticked, Sized, RetainedBytes;
      ghost var c := State();
      closing, gone := [], {};
      WithoutNone(c);
      StartTrim(c);
      while |sources| > MAX_SOURCES || sourceBytes > MAX_BYTES
        invariant State() == Without(c, gone) && LeastUsed(c, gone)
        invariant multiset(closing) == multiset(Orphans(c, gone))
        decreases |sources|
      {
        WithoutAccounted(c, gone);
        OverFull(State());
        var key := Victim();
        WithoutView(c, gone, key);
        TrimNext(c, gone, key);
        closing, gone := Drop(key, c, gone, closing);
      }
    }

    /** The locked section of one round of publishSource: borrow the entry already there, or
        insert the new source and trim. */
    method PublishSection(key: Key, source: nat, bytes: nat)
      returns (e: Option<nat>, inserted: bool, closing: seq<nat>, ghost gone: set<nat>)
      requires CacheOk(State()) && 0 < bytes <= MAX_BYTES
      modifies this
      ensures CacheOk(State())
      ensures old(closed) ==> e == None && State() == old(State())
      ensures !old(closed) && key in old(sources) ==>
        e == Some(old(sources)[key]) && !inserted && State() == Borrow(old(State()), old(sources)[key])
      ensures !inserted ==> closing == []
      ensures inserted <==> !old(closed) && key !in old(sources)
      ensures inserted ==>
        var c := Inserted(old(State()), key, source, bytes);
        && e == Some(old(|entries|)) && IsTrim(c, gone) && State() == Without(c, gone)
        && multiset(closing) == multiset(Orphans(c, gone))
        && key in sources && sources[key] == old(|entries|) && entries[sources[key]].refs == 1
    {
      hide Without, IsTrim, Orphans, Ticked, Sized, RetainedBytes;
      closing, gone, inserted := [], {}, false;
      if closed { return None, false, closing, gone; }
      if key in sources {
        var i := sources[key];
        BorrowOk(State(), i);
        clock := clock + 1;
        entries := entries[i := entries[i].(lastUsed := clock, refs := entries[i].refs + 1)];
        return Some(i), false, closing, gone;
      }
      e := Some(|entries|);
      closing, gone := InsertAndTrim(key, source, bytes);
      inserted := true;
    }

    method InsertAndTrim(key: Key, source: nat, bytes: nat) returns (closing: seq<nat>, ghost gone: set<nat>)
      requires CacheOk(State()) && 0 < bytes <= MAX_BYTES && !closed && key !in sources
      modifies this
      ensures CacheOk(State())
      ensures var c := Inserted(old(State()), key, source, bytes);
        && IsTrim(c, gone) && State() == Without(c, gone) && multiset(closing) == multiset(Orphans(c, gone))
      ensures key in sources && sources[key] == old(|entries|) < |entries| && entries[sources[key]].refs == 1
    {
      hide Without, IsTrim, Orphans, Accounted;
      ghost var c := Inserted(State(), key, source, bytes);
      InsertedAccounted(State(), key, source, bytes);
      clock := clock + 1;
      sources, sourceBytes := sources[key := |entries|], sourceBytes + bytes;
      entries := entries + [Entry(key, source, 1, true, bytes, clock)];
      assert State() == c;
      closing, gone := Trim();
      TrimOk(c, gone, |c.entries| - 1);
      InsertedView(c, gone, key);
    }

    /** EvictUnused. */
    method EvictSection() returns (closing: seq<nat>, freed: nat)
      requires CacheOk(State())
      modifies this
      ensures CacheOk(State()) && State() == Without(old(State()), Unused(old(State())))
      ensures multiset(closing) == multiset(Orphans(old(State()), Unused(old(State()))))
      ensures freed + sourceBytes == old(sourceBytes)
    {
      hide Without, Orphans, Unused, AllRetained, Swept, Ticked, Sized, RetainedBytes, Indexed, Within;
      ghost var c, gone, all := State(), {}, Unused(State());
      closing, freed := [], 0;
      WithoutNone(c);
      StartTrim(c);
      UnusedRetained(c);
      StartSweep(c, all);
      var left := sources.Keys;
      while left != {}
        invariant left <= c.sources.Keys && gone == Swept(c, all, left)
        invariant State() == Without(c, gone) && freed + sourceBytes == c.bytes
        invariant multiset(closing) == multiset(Orphans(c, gone))
        decreases left
      {
        var k :| k in left;
        SweptNext(c, all, left, k);
        SweptView(c, gone, k);
        if entries[sources[k]].refs == 0 {
          freed := freed + entries[sources[k]].bytes;
          closing, gone := Drop(k, c, gone, closing);
        }
        left := left - {k};
      }
      WithoutOk(c, all);
    }

    /** Close: the cache stops lending and gives up every entry. */
    method CloseSection() returns (closing: seq<nat>)
      requires CacheOk(State())
      modifies this
      ensures CacheOk(State())
      ensures old(closed) ==> State() == old(State()) && closing == []
      ensures !old(closed) ==> State() == Shut(old(State()))
      ensures !old(closed) ==> multiset(closing) == multiset(Orphans(old(State()), AllRetained(old(State()))))
    {
      hide Without, Orphans, Unused, AllRetained, Swept, Ticked, Sized, RetainedBytes, Indexed, Within;
      closing := [];
      if closed { return; }
      ghost var c, gone, all := State(), {}, AllRetained(State());
      WithoutNone(c);
      StartTrim(c);
      UnusedRetained(c);
      StartSweep(c, all);
      var left := sources.Keys;
      while left != {}
        invariant left <= c.sources.Keys && gone == Swept(c, all, left)
        invariant State() == Without(c, gone)
        invariant multiset(closing) == multiset(Orphans(c, gone))
        decreases left
      {
        var k :| k in left;
        SweptNext(c, all, left, k);
        SweptView(c, gone, k);
        closing, gone := Drop(k, c, gone, closing);
        left := left - {k};
      }
      ShutOk(c);
      closed, sourceBytes := true, 0;
    }
  }
}

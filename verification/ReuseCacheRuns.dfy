/** Every interleaving of the cache's callers (internal/aphelion/mapping/reuse_cache.go:76-282):
    each locked section is one step, and freshness is checked between steps. */
module ReuseCacheRuns {
  import opened Basics
  import opened ReuseCaches

  /** reuseSourceLease; `done` is its once guard. */
  datatype Lease = Lease(entry: nat, done: bool)

  /** A freshly parsed source that its parser offers to the cache. */
  datatype Parsed = Parsed(source: nat, key: Key, bytes: nat)

  /** Where a thread is between two locked sections. A publisher carries its own source. */
  datatype Pc =
    | Publishing(offer: Parsed)
    | Checking(own: Option<Parsed>, entry: nat, lease: nat)
    | Stale(own: Option<Parsed>, entry: nat, lease: nat)
    | Dropping(own: Option<Parsed>, entry: nat, lease: nat)

  /** The cache, all leases ever lent, the busy threads, the closes still to run and those that
      ran (a source once per call), and the number of sources parsed so far. */
  datatype World = World(cache: Cache, leases: seq<Lease>, threads: map<nat, Pc>, pending: multiset<nat>,
                         closes: multiset<nat>,
                         parsed: nat)

  function Start(): World { World(Empty(), [], map[], multiset{}, multiset{}, 0) }

  datatype Action =
    | Acquire(thread: nat, key: Key)
    | Offer(thread: nat, key: Key, bytes: nat, current: bool)
    | Publish(thread: nat, gone: set<nat>)
    | Check(thread: nat, current: bool)
    | Invalidate(thread: nat)
    | DropLease(thread: nat)
    | Release(lease: nat)
    | Evict
    | Close
    | CloseSource(source: nat)

  predicate HasLease(pc: Pc) { !pc.Publishing? }

  predicate HasOffer(pc: Pc) { pc.Publishing? || pc.own.Some? }

  function OfferOf(pc: Pc): Parsed
    requires HasOffer(pc)
  {
    if pc.Publishing? then pc.offer else pc.own.value
  }

  ghost predicate Enabled(w: World, a: Action) {
    match a
    case Acquire(t, _) => t !in w.threads
    case Offer(t, _, _, _) => t !in w.threads
    case Publish(t, gone) =>
      && t in w.threads && w.threads[t].Publishing?
      && var o := w.threads[t].offer;
         (!w.cache.closed && o.key !in w.cache.sources ==> IsTrim(Inserted(w.cache, o.key, o.source, o.bytes), gone))
    case Check(t, _) => t in w.threads && w.threads[t].Checking?
    case Invalidate(t) => t in w.threads && w.threads[t].Stale? && w.threads[t].entry < |w.cache.entries|
    case DropLease(t) => t in w.threads && w.threads[t].Dropping? && w.threads[t].entry < |w.cache.entries| &&
      w.threads[t].lease < |w.leases|
    case Release(l) => l < |w.leases| && w.leases[l].entry < |w.cache.entries| &&
      (forall t :: t in w.threads && HasLease(w.threads[t]) ==> w.threads[t].lease != l)
    case Evict => true
    case Close => true
    case CloseSource(s) => s in w.pending
  }

  /** A lease on e for thread t, which goes on to check the source outside the lock. */
  function Lend(w: World, t: nat, own: Option<Parsed>, e: nat): World
    requires e < |w.cache.entries|
  {
    w.(cache := Borrow(w.cache, e), leases := w.leases + [Lease(e, false)],
       threads := w.threads[t := Checking(own, e, |w.leases|)])
  }

  function ClosingOf(c: Cache, e: nat): multiset<nat>
    requires e < |c.entries|
  {
    if Unowned(c, e) then multiset{c.entries[e].source} else multiset{}
  }

  /** release of a lease that has not been released yet. */
  function Returned(w: World, l: nat, e: nat): World
    requires l < |w.leases| && e < |w.cache.entries|
  {
    var c := GiveBack(w.cache, e);
    w.(cache := c, leases := w.leases[l := w.leases[l].(done := true)], pending := w.pending + ClosingOf(c, e))
  }

  /** The map names entries: true in every reachable world. */
  ghost predicate Named(c: Cache) { forall k :: k in c.sources ==> c.sources[k] < |c.entries| }

  /** The sources to close when the cache gives up `gone`. */
  ghost function OrphanSources(c: Cache, gone: set<nat>): set<nat>
  {
    set e | e in Orphans(c, gone) :: c.entries[e].source
  }

  ghost function Next(w: World, a: Action): World
    requires Enabled(w, a) && Named(w.cache)
  {
    match a
    case Acquire(t, key) => if key in w.cache.sources then Lend(w, t, None, w.cache.sources[key]) else w
    case Offer(t, key, bytes, current) =>
      var w' := w.(parsed := w.parsed + 1);
      if 0 < bytes <= MAX_BYTES && current then w'.(threads := w.threads[t := Publishing(Parsed(w.parsed, key, bytes))])
        else w'
    case Publish(t, gone) =>
      var o := w.threads[t].offer;
      if w.cache.closed then w.(threads := w.threads - {t})
      else if o.key in w.cache.sources then Lend(w, t, Some(o), w.cache.sources[o.key])
      else
        var c := Inserted(w.cache, o.key, o.source, o.bytes);
        w.(cache := Without(c, gone), leases := w.leases + [Lease(|w.cache.entries|, false)],
           threads := w.threads - {t},
           pending := w.pending + multiset(OrphanSources(c, gone)))
    case Check(t, current) =>
      var pc := w.threads[t];
      if !current then w.(threads := w.threads[t := Stale(pc.own, pc.entry, pc.lease)])
      else w.(threads := w.threads - {t},
              pending := w.pending + if pc.own.Some? then multiset{pc.own.value.source} else multiset{})
    case Invalidate(t) =>
      var pc := w.threads[t];
      var c := Invalidated(w.cache, pc.entry);
      w.(cache := c, threads := w.threads[t := Dropping(pc.own, pc.entry, pc.lease)],
         pending := w.pending + ClosingOf(c, pc.entry))
    case DropLease(t) =>
      var pc := w.threads[t];
      Returned(w, pc.lease, pc.entry).(
        threads := if pc.own.Some? then w.threads[t := Publishing(pc.own.value)] else w.threads - {t})
    case Release(l) => if w.leases[l].done then w else Returned(w, l, w.leases[l].entry)
    case Evict => w.(cache := Without(w.cache, Unused(w.cache)),
                     pending := w.pending + multiset(OrphanSources(w.cache, Unused(w.cache))))
    case Close =>
      if w.cache.closed then w
      else w.(cache := Shut(w.cache), pending := w.pending + multiset(OrphanSources(w.cache, AllRetained(w.cache))))
    case CloseSource(s) => w.(pending := w.pending - multiset{s}, closes := w.closes + multiset{s})
  }

  // ---- the invariant ---------------------------------------------------------------------------

  /** The leases on e that were lent and not yet released. */
  function Outstanding(leases: seq<Lease>, e: nat): nat {
    if leases == [] then 0
    else Outstanding(leases[..|leases| - 1], e) + if leases[|leases| - 1] == Lease(e, false) then 1 else 0
  }

  /** How often a source was or is about to be closed. */
  function Closings(w: World, s: nat): nat { w.pending[s] + w.closes[s] }

  /** A reference count is the number of outstanding leases. */
  ghost predicate Counted(es: seq<Entry>, leases: seq<Lease>) {
    && (forall l :: 0 <= l < |leases| ==> leases[l].entry < |es|)
    && (forall e :: 0 <= e < |es| ==> es[e].refs == Outstanding(leases, e))
  }

  /** A cached source is closed once, when it has no owner left, and not before. */
  ghost predicate ClosedOnce(es: seq<Entry>, pending: multiset<nat>, closes: multiset<nat>) {
    forall e :: 0 <= e < |es| ==>
      pending[es[e].source] + closes[es[e].source] == if !es[e].retained && es[e].refs == 0 then 1 else 0
  }

  /** No two entries share a source: a published source belongs to its entry alone. */
  ghost predicate Apart(es: seq<Entry>) { forall d, e :: 0 <= d < e < |es| ==> es[d].source != es[e].source }

  /** Sources not parsed yet are unknown. */
  ghost predicate Known(w: World) {
    && (forall e :: 0 <= e < |w.cache.entries| ==> w.cache.entries[e].source < w.parsed)
    && (forall s: nat :: s in w.pending || s in w.closes ==> s < w.parsed)
  }

  /** What a busy thread holds: its lease is outstanding, its offer belongs to nobody else. */
  ghost predicate ThreadOk(w: World, pc: Pc) {
    && (HasLease(pc) ==> pc.lease < |w.leases| && w.leases[pc.lease] == Lease(pc.entry, false))
    && (HasOffer(pc) ==>
          var o := OfferOf(pc);
          o.source < w.parsed && Closings(w, o.source) == 0 && 0 < o.bytes <= MAX_BYTES
          && forall e :: 0 <= e < |w.cache.entries| ==> w.cache.entries[e].source != o.source)
  }

  ghost predicate ThreadsOk(w: World) { forall t :: t in w.threads ==> ThreadOk(w, w.threads[t]) }

  /** Two threads hold different leases and offer different sources. */
  ghost predicate ThreadsApart(w: World) {
    forall t, u :: t in w.threads && u in w.threads && t != u ==> PcsApart(w.threads[t], w.threads[u])
  }

  predicate PcsApart(p: Pc, q: Pc) {
    && (HasLease(p) && HasLease(q) ==> p.lease != q.lease)
    && (HasOffer(p) && HasOffer(q) ==> OfferOf(p).source != OfferOf(q).source)
  }

  /** What holds even inside the section that inserts and trims. */
  ghost predicate Balanced(w: World) {
    && Accounted(w.cache) && Apart(w.cache.entries) && Counted(w.cache.entries, w.leases) &&
      ClosedOnce(w.cache.entries, w.pending, w.closes)
    && Known(w) && ThreadsOk(w) && ThreadsApart(w)
  }

  ghost predicate Inv(w: World) { Balanced(w) && Within(w.cache) }

  lemma {:induction false} OutstandingAppend(leases: seq<Lease>, e: nat, d: nat)
    ensures Outstanding(leases + [Lease(e, false)], d) == Outstanding(leases, d) + if d == e then 1 else 0
  {
    assert (leases + [Lease(e, false)])[..|leases|] == leases;
  }

  lemma {:induction false} OutstandingDone(leases: seq<Lease>, l: nat, d: nat)
    requires l < |leases| && !leases[l].done
    ensures Outstanding(leases[l := leases[l].(done := true)], d) + (if d == leases[l].entry then 1 else 0) ==
      Outstanding(leases, d)
  {
    var last, leases' := |leases| - 1, leases[l := leases[l].(done := true)];
    if l == last {
      assert leases'[..last] == leases[..last];
    } else {
      assert leases'[..last] == leases[..last][l := leases[l].(done := true)];
      OutstandingDone(leases[..last], l, d);
    }
  }

  lemma {:induction false} OutstandingUnknown(leases: seq<Lease>, e: nat)
    requires forall l :: 0 <= l < |leases| ==> leases[l].entry < e
    ensures Outstanding(leases, e) == 0
  {
    if leases != [] { OutstandingUnknown(leases[..|leases| - 1], e); }
  }

  /** An outstanding lease is counted. */
  lemma {:induction false} OutstandingPositive(leases: seq<Lease>, l: nat)
    requires l < |leases| && !leases[l].done
    ensures Outstanding(leases, leases[l].entry) > 0
  {
    OutstandingDone(leases, l, leases[l].entry);
  }

  // ---- every step keeps the invariant ------------------------------------------------------------

  /** The same sources under the same names. */
  ghost predicate SameSources(es: seq<Entry>, es': seq<Entry>) {
    |es'| == |es| && forall e :: 0 <= e < |es| ==> es'[e].source == es[e].source
  }

  /** A thread's holdings survive a step that leaves its lease and its offer alone. */
  lemma ThreadKept(w: World, w': World, pc: Pc)
    requires ThreadOk(w, pc) && w.parsed <= w'.parsed && SameSources(w.cache.entries, w'.cache.entries)
    requires HasLease(pc) && pc.lease < |w.leases| ==>
      pc.lease < |w'.leases| && w'.leases[pc.lease] == w.leases[pc.lease]
    requires HasOffer(pc) ==> Closings(w', OfferOf(pc).source) == Closings(w, OfferOf(pc).source)
    ensures ThreadOk(w', pc)
  {
  }

  lemma LendOk(w: World, t: nat, own: Option<Parsed>, key: Key)
    requires Inv(w) && key in w.cache.sources
    requires if t in w.threads then w.threads[t].Publishing? && own == Some(w.threads[t].offer) else own == None
    ensures w.cache.sources[key] < |w.cache.entries| && Inv(Lend(w, t, own, w.cache.sources[key]))
  {
    hide Accounted, Outstanding, ThreadOk, Within, Known;
    IndexedEntry(w.cache, key);
    var e := w.cache.sources[key];
    var w' := Lend(w, t, own, e);
    BorrowOk(w.cache, e);
    forall d | 0 <= d < |w'.cache.entries| ensures w'.cache.entries[d].refs == Outstanding(w'.leases, d) {
      OutstandingAppend(w.leases, e, d);
    }
    BorrowKnown(w, w');
    forall u | u in w'.threads ensures ThreadOk(w', w'.threads[u]) {
      if u in w.threads { ThreadKept(w, w', w.threads[u]); }
      if u == t { LentThread(w, w', t, own, e); }
    }
    LentApart(w, w', t, own, e);
  }

  lemma IndexedEntry(c: Cache, key: Key)
    requires Accounted(c) && key in c.sources
    ensures c.sources[key] < |c.entries| && c.entries[c.sources[key]].retained && c.entries[c.sources[key]].key == key
  {
  }

  lemma BorrowKnown(w: World, w': World)
    requires Known(w) && SameSources(w.cache.entries, w'.cache.entries) && w'.parsed == w.parsed
    requires w'.pending == w.pending && w'.closes == w.closes
    ensures Known(w')
  {
  }

  lemma LentThread(w: World, w': World, t: nat, own: Option<Parsed>, e: nat)
    requires ThreadsOk(w) && e < |w.cache.entries| && w' == Lend(w, t, own, e)
    requires if t in w.threads then w.threads[t].Publishing? && own == Some(w.threads[t].offer) else own == None
    ensures ThreadOk(w', w'.threads[t])
  {
  }

  lemma LentApart(w: World, w': World, t: nat, own: Option<Parsed>, e: nat)
    requires ThreadsOk(w) && ThreadsApart(w) && e < |w.cache.entries| && w' == Lend(w, t, own, e)
    requires if t in w.threads then w.threads[t].Publishing? && own == Some(w.threads[t].offer) else own == None
    ensures ThreadsApart(w')
  {
    hide Closings;
    forall u | u in w.threads && u != t ensures PcsApart(w.threads[u], w'.threads[t]) &&
      PcsApart(w'.threads[t], w.threads[u]) {
      assert ThreadOk(w, w.threads[u]);
      if t in w.threads { assert PcsApart(w.threads[t], w.threads[u]); }
    }
  }

  /** The world after the cache gave up some entries. */
  ghost function GaveUp(w: World, gone: set<nat>): World {
    w.(cache := Without(w.cache, gone), pending := w.pending + multiset(OrphanSources(w.cache, gone)))
  }

  lemma GaveUpOk(w: World, gone: set<nat>)
    requires Balanced(w)
    ensures Balanced(GaveUp(w, gone)) && (Within(w.cache) ==> Within(GaveUp(w, gone).cache))
  {
    hide Accounted, Outstanding, ThreadOk, OrphanSources, Without, ClosedOnce, PcsApart;
    var w' := GaveUp(w, gone);
    WithoutAccounted(w.cache, gone);
    WithoutEntries(w.cache, gone);
    GaveUpClosings(w, gone);
    OrphansKnown(w.cache, gone);
    forall u | u in w'.threads ensures ThreadOk(w', w'.threads[u]) {
      if HasOffer(w.threads[u]) { OrphansNotOffered(w, gone, w.threads[u]); }
      ThreadKept(w, w', w.threads[u]);
    }
  }

  lemma WithoutEntries(c: Cache, gone: set<nat>)
    ensures SameSources(c.entries, Without(c, gone).entries)
    ensures forall e :: 0 <= e < |c.entries| ==> Without(c, gone).entries[e].refs == c.entries[e].refs
  {
  }

  lemma OrphansKnown(c: Cache, gone: set<nat>)
    ensures forall s :: s in OrphanSources(c, gone) ==> exists e :: 0 <= e < |c.entries| && c.entries[e].source == s
  {
  }

  lemma OrphansNotOffered(w: World, gone: set<nat>, pc: Pc)
    requires ThreadOk(w, pc) && HasOffer(pc)
    ensures OfferOf(pc).source !in OrphanSources(w.cache, gone)
  {
  }

  /** Exactly the sources that lose their last owner are scheduled to close. */
  lemma GaveUpClosings(w: World, gone: set<nat>)
    requires Apart(w.cache.entries) && ClosedOnce(w.cache.entries, w.pending, w.closes)
    ensures ClosedOnce(GaveUp(w, gone).cache.entries, GaveUp(w, gone).pending, w.closes)
  {
    hide Without;
    WithoutEntries(w.cache, gone);
    forall e | 0 <= e < |w.cache.entries|
      ensures var x := GaveUp(w, gone).cache.entries[e];
        GaveUp(w, gone).pending[x.source] + w.closes[x.source] == if !x.retained && x.refs == 0 then 1 else 0
    {
      KeptEntry(w.cache, gone, e);
      OrphanIff(w.cache, gone, e);
    }
  }

  lemma OrphanIff(c: Cache, gone: set<nat>, e: nat)
    requires Apart(c.entries) && e < |c.entries|
    ensures c.entries[e].source in OrphanSources(c, gone) <==>
      e in gone && c.entries[e].retained && c.entries[e].refs == 0
  {
  }

  /** pc' holds nothing that pc does not hold. */
  predicate Follows(pc: Pc, pc': Pc) {
    && (HasLease(pc') ==> HasLease(pc) && pc'.lease == pc.lease && pc'.entry == pc.entry)
    && (HasOffer(pc') ==> HasOffer(pc) && OfferOf(pc') == OfferOf(pc))
  }

  /** Threads may move on or finish, as long as they hold no more than before. */
  lemma MovedOn(w: World, ts: map<nat, Pc>)
    requires Inv(w) && forall u :: u in ts ==> u in w.threads && Follows(w.threads[u], ts[u])
    ensures Inv(w.(threads := ts))
  {
    hide Accounted, Counted, ClosedOnce;
    var w' := w.(threads := ts);
    forall u | u in ts ensures ThreadOk(w', ts[u]) { assert ThreadOk(w, w.threads[u]); }
    hide ThreadOk;
    forall t, u | t in ts && u in ts && t != u ensures PcsApart(ts[t], ts[u]) {
      assert PcsApart(w.threads[t], w.threads[u]);
    }
  }

  ghost predicate Leaseless(w: World, l: nat) {
    forall t :: t in w.threads && HasLease(w.threads[t]) ==> w.threads[t].lease != l
  }

  /** Releasing an outstanding lease that no thread works with. */
  lemma ReturnedOk(w: World, l: nat)
    requires Inv(w) && l < |w.leases| && !w.leases[l].done && Leaseless(w, l)
    ensures w.leases[l].entry < |w.cache.entries| && Inv(Returned(w, l, w.leases[l].entry))
  {
    hide Accounted, Outstanding, ThreadOk, PcsApart, Within;
    var e := w.leases[l].entry;
    var w' := Returned(w, l, e);
    GiveBackOk(w.cache, e);
    OutstandingPositive(w.leases, l);
    forall d | 0 <= d < |w'.cache.entries| ensures w'.cache.entries[d].refs == Outstanding(w'.leases, d) {
      OutstandingDone(w.leases, l, d);
    }
    forall u | u in w'.threads ensures ThreadOk(w', w'.threads[u]) {
      if HasOffer(w.threads[u]) { NotInEntries(w, w.threads[u]); }
      ThreadKept(w, w', w.threads[u]);
    }
  }

  lemma NotInEntries(w: World, pc: Pc)
    requires ThreadOk(w, pc) && HasOffer(pc)
    ensures forall e :: 0 <= e < |w.cache.entries| ==> w.cache.entries[e].source != OfferOf(pc).source
  {
  }

  /** A source that is parsed, open and known to no entry and no thread. */
  ghost predicate Loose(w: World, s: nat) {
    && s < w.parsed && Closings(w, s) == 0
    && (forall e :: 0 <= e < |w.cache.entries| ==> w.cache.entries[e].source != s)
    && (forall t :: t in w.threads && HasOffer(w.threads[t]) ==> OfferOf(w.threads[t]).source != s)
  }

  lemma FinishedOffer(w: World, t: nat)
    requires Inv(w) && t in w.threads && HasOffer(w.threads[t])
    ensures Inv(w.(threads := w.threads - {t})) && Loose(w.(threads := w.threads - {t}), OfferOf(w.threads[t]).source)
  {
    hide Accounted, Counted, ClosedOnce;
    MovedOn(w, w.threads - {t});
    assert ThreadOk(w, w.threads[t]);
    hide ThreadOk;
    forall u | u in w.threads - {t} && HasOffer(w.threads[u])
      ensures OfferOf(w.threads[u]).source != OfferOf(w.threads[t]).source
    {
      assert PcsApart(w.threads[u], w.threads[t]);
    }
  }

  /** A publisher that finds a fresh entry closes its own copy. */
  lemma DuplicateOk(w: World, s: nat)
    requires Inv(w) && Loose(w, s)
    ensures Inv(w.(pending := w.pending + multiset{s}))
  {
    hide Accounted, Counted, ThreadOk, PcsApart;
    var w' := w.(pending := w.pending + multiset{s});
    forall u | u in w'.threads ensures ThreadOk(w', w'.threads[u]) { ThreadKept(w, w', w.threads[u]); }
  }

  /** The world in the middle of the inserting section, before trimming. */
  function WithInserted(w: World, o: Parsed): World {
    w.(cache := Inserted(w.cache, o.key, o.source, o.bytes), leases := w.leases + [Lease(|w.cache.entries|, false)])
  }

  lemma InsertOk(w: World, o: Parsed)
    requires Inv(w) && Loose(w, o.source) && 0 < o.bytes <= MAX_BYTES && !w.cache.closed && o.key !in w.cache.sources
    ensures Balanced(WithInserted(w, o))
  {
    hide Accounted, Outstanding, ThreadOk, PcsApart, Within;
    var w', n := WithInserted(w, o), |w.cache.entries|;
    InsertedAccounted(w.cache, o.key, o.source, o.bytes);
    OutstandingUnknown(w.leases, n);
    forall d | 0 <= d < |w'.cache.entries| ensures w'.cache.entries[d].refs == Outstanding(w'.leases, d) {
      OutstandingAppend(w.leases, n, d);
    }
    forall u | u in w'.threads ensures ThreadOk(w', w'.threads[u]) { ThreadInserted(w, o, w.threads[u]); }
  }

  lemma ThreadInserted(w: World, o: Parsed, pc: Pc)
    requires ThreadOk(w, pc) && (HasOffer(pc) ==> OfferOf(pc).source != o.source)
    ensures ThreadOk(WithInserted(w, o), pc)
  {
  }

  lemma OfferOk(w: World, t: nat, key: Key, bytes: nat)
    requires Inv(w) && t !in w.threads && 0 < bytes <= MAX_BYTES
    ensures Inv(w.(parsed := w.parsed + 1, threads := w.threads[t := Publishing(Parsed(w.parsed, key, bytes))]))
  {
    hide Accounted, Counted;
    var pc := Publishing(Parsed(w.parsed, key, bytes));
    var w' := w.(parsed := w.parsed + 1, threads := w.threads[t := pc]);
    assert ThreadOk(w', pc);
    forall u | u in w.threads ensures ThreadOk(w', w.threads[u]) && PcsApart(w.threads[u], pc) &&
      PcsApart(pc, w.threads[u]) {
      assert ThreadOk(w, w.threads[u]);
      ThreadKept(w, w', w.threads[u]);
    }
    hide ThreadOk, PcsApart;
  }

  lemma ParsedOk(w: World)
    requires Inv(w)
    ensures Inv(w.(parsed := w.parsed + 1))
  {
    hide Accounted, Counted, ThreadOk, PcsApart;
    var w' := w.(parsed := w.parsed + 1);
    forall u | u in w.threads ensures ThreadOk(w', w.threads[u]) { ThreadKept(w, w', w.threads[u]); }
  }

  lemma CloseSourceOk(w: World, s: nat)
    requires Inv(w) && s in w.pending
    ensures Inv(w.(pending := w.pending - multiset{s}, closes := w.closes + multiset{s}))
  {
    hide Accounted, Counted, ThreadOk, PcsApart;
    var w' := w.(pending := w.pending - multiset{s}, closes := w.closes + multiset{s});
    forall u | u in w.threads ensures ThreadOk(w', w.threads[u]) { ThreadKept(w, w', w.threads[u]); }
  }

  lemma ShutWorldOk(w: World)
    requires Inv(w)
    ensures Inv(GaveUp(w, AllRetained(w.cache)).(cache := Shut(w.cache)))
  {
    hide Accounted, Counted, ClosedOnce, ThreadOk, PcsApart, AllRetained, OrphanSources, Without;
    var w1 := GaveUp(w, AllRetained(w.cache));
    var w' := w1.(cache := Shut(w.cache));
    GaveUpOk(w, AllRetained(w.cache));
    ShutOk(w.cache);
    forall u | u in w1.threads ensures ThreadOk(w', w1.threads[u]) { ThreadKept(w1, w', w1.threads[u]); }
  }

  /** The lease of a thread keeps its entry owned, so invalidating only takes it off the map. */
  lemma InvalidateOk(w: World, t: nat)
    requires Inv(w) && t in w.threads && HasLease(w.threads[t])
    ensures var e := w.threads[t].entry;
      && e < |w.cache.entries| && ClosingOf(Invalidated(w.cache, e), e) == multiset{}
      && Inv(w.(cache := Invalidated(w.cache, e)))
  {
    hide Accounted, ClosedOnce, PcsApart, Outstanding, ThreadsApart, Known;
    var pc := w.threads[t];
    var e := pc.entry;
    assert ThreadOk(w, pc);
    OutstandingPositive(w.leases, pc.lease);
    GaveUpOk(w, {e});
    NoOrphan(w.cache, e);
    WithoutEntries(w.cache, {e});
    assert w.pending + multiset{} == w.pending;
  }

  lemma NoOrphan(c: Cache, e: nat)
    requires e < |c.entries| && c.entries[e].refs > 0
    ensures multiset(OrphanSources(c, {e})) == multiset{}
  {
    assert OrphanSources(c, {e}) == {};
  }

  lemma PublishOk(w: World, t: nat, gone: set<nat>)
    requires Inv(w) && Named(w.cache) && Enabled(w, Publish(t, gone))
    ensures Inv(Next(w, Publish(t, gone)))
  {
    hide Accounted, Counted, ClosedOnce, ThreadOk, PcsApart, OrphanSources, Without, IsTrim, Known, ThreadsApart;
    var o := w.threads[t].offer;
    if w.cache.closed {
      MovedOn(w, w.threads - {t});
    } else if o.key in w.cache.sources {
      LendOk(w, t, Some(o), o.key);
    } else {
      OfferedBytes(w, w.threads[t]);
      FinishedOffer(w, t);
      var w1 := w.(threads := w.threads - {t});
      var w2 := WithInserted(w1, o);
      InsertOk(w1, o);
      GaveUpOk(w2, gone);
      TrimOk(w2.cache, gone, |w.cache.entries|);
      assert Next(w, Publish(t, gone)) == GaveUp(w2, gone);
    }
  }

  lemma OfferedBytes(w: World, pc: Pc)
    requires ThreadOk(w, pc) && HasOffer(pc)
    ensures 0 < OfferOf(pc).bytes <= MAX_BYTES
  {
  }

  /** Every step keeps the invariant. */
  lemma StepOk(w: World, a: Action)
    requires Inv(w) && Named(w.cache) && Enabled(w, a)
    ensures Inv(Next(w, a))
  {
    hide Accounted, Counted, ClosedOnce, ThreadOk, PcsApart, OrphanSources, Without, IsTrim, Known, ThreadsApart;
    match a
    case Acquire(t, key) => if key in w.cache.sources { LendOk(w, t, None, key); }
    case Offer(t, key, bytes, current) => if 0 < bytes <= MAX_BYTES && current { OfferOk(w, t, key, bytes); }
      else { ParsedOk(w); }
    case Publish(t, gone) => PublishOk(w, t, gone);
    case Check(t, current) =>
      var pc := w.threads[t];
      if !current {
        MovedOn(w, w.threads[t := Stale(pc.own, pc.entry, pc.lease)]);
      } else if pc.own.Some? {
        FinishedOffer(w, t);
        DuplicateOk(w.(threads := w.threads - {t}), pc.own.value.source);
      } else {
        MovedOn(w, w.threads - {t});
        assert w.pending + multiset{} == w.pending;
      }
    case Invalidate(t) =>
      var pc := w.threads[t];
      InvalidateOk(w, t);
      MovedOn(w.(cache := Invalidated(w.cache, pc.entry)), w.threads[t := Dropping(pc.own, pc.entry, pc.lease)]);
      assert w.pending + multiset{} == w.pending;
    case DropLease(t) => DropLeaseOk(w, t);
    case Release(l) => if !w.leases[l].done { ReturnedOk(w, l); }
    case Evict => GaveUpOk(w, Unused(w.cache));
    case Close => if !w.cache.closed { ShutWorldOk(w); }
    case CloseSource(s) => CloseSourceOk(w, s);
  }

  lemma DropLeaseOk(w: World, t: nat)
    requires Inv(w) && Named(w.cache) && Enabled(w, DropLease(t))
    ensures Inv(Next(w, DropLease(t)))
  {
    hide Accounted, Counted, ClosedOnce, Known;
    var pc := w.threads[t];
    var ts := if pc.own.Some? then w.threads[t := Publishing(pc.own.value)] else w.threads - {t};
    assert ThreadOk(w, pc);
    MovedOn(w, ts);
    var w1 := w.(threads := ts);
    forall u | u in ts && HasLease(ts[u]) ensures ts[u].lease != pc.lease {
      assert PcsApart(w.threads[u], w.threads[t]);
    }
    ReturnedOk(w1, pc.lease);
  }

  // ---- whole runs ----------------------------------------------------------------------------------

  ghost predicate Step(v: World, a: Action, w: World) { Named(v.cache) && Enabled(v, a) && w == Next(v, a) }

  /** A world that some interleaving of n steps leads to. */
  ghost predicate Reachable(n: nat, w: World) {
    if n == 0 then w == Start() else exists v, a :: Reachable(n - 1, v) && Step(v, a, w)
  }

  lemma {:induction false} ReachableInv(n: nat, w: World)
    requires Reachable(n, w)
    ensures Inv(w) && Named(w.cache)
  {
    hide Next, Enabled;
    if n == 0 {
      StartOk();
    } else {
      var v, a :| Reachable(n - 1, v) && Step(v, a, w);
      ReachableInv(n - 1, v);
      StepOk(v, a);
    }
    InvNamed(w);
  }

  lemma StartOk()
    ensures Inv(Start())
  {
  }

  lemma InvNamed(w: World)
    requires Inv(w)
    ensures Named(w.cache)
  {
    hide Counted, ClosedOnce, Known, ThreadsOk, ThreadsApart;
  }

  /** In every reachable world the counts are exact, a leased or retained source is open, and
      no cached source is closed twice. */
  lemma RunsAreSafe(n: nat, w: World)
    requires Reachable(n, w)
    ensures forall e :: 0 <= e < |w.cache.entries| ==> w.cache.entries[e].refs == Outstanding(w.leases, e)
    ensures forall l :: 0 <= l < |w.leases| && !w.leases[l].done ==>
      w.leases[l].entry < |w.cache.entries| && Closings(w, w.cache.entries[w.leases[l].entry].source) == 0
    ensures forall e ::
      0 <= e < |w.cache.entries| && w.cache.entries[e].retained ==> Closings(w, w.cache.entries[e].source) == 0
    ensures forall e :: 0 <= e < |w.cache.entries| ==> w.closes[w.cache.entries[e].source] <= 1
    ensures forall t :: t in w.threads && HasLease(w.threads[t]) ==>
      w.threads[t].entry < |w.cache.entries| && Closings(w, w.cache.entries[w.threads[t].entry].source) == 0
    ensures w.cache.bytes == RetainedBytes(w.cache.entries) <= MAX_BYTES && |w.cache.sources| <= MAX_SOURCES
  {
    hide Outstanding, Indexed, Ticked, Sized, RetainedBytes, Known, ThreadsApart, Reachable, Next, Enabled;
    ReachableInv(n, w);
    forall l | 0 <= l < |w.leases| && !w.leases[l].done
      ensures w.leases[l].entry < |w.cache.entries| && Closings(w, w.cache.entries[w.leases[l].entry].source) == 0
    {
      OutstandingPositive(w.leases, l);
    }
    forall t | t in w.threads && HasLease(w.threads[t])
      ensures w.threads[t].entry < |w.cache.entries| && Closings(w, w.cache.entries[w.threads[t].entry].source) == 0
    {
      assert ThreadOk(w, w.threads[t]);
    }
  }

  /** No source leaks: once the cache is closed, every lease is released and the scheduled closes
      have run, each cached source has been closed exactly once. */
  lemma NothingLeaks(n: nat, w: World, e: nat)
    requires Reachable(n, w) && e < |w.cache.entries|
    requires w.cache.closed && w.pending == multiset{} && forall l :: 0 <= l < |w.leases| ==> w.leases[l].done
    ensures w.closes[w.cache.entries[e].source] == 1
  {
    ReachableInv(n, w);
    NoneOutstanding(w.leases, e);
  }

  lemma {:induction false} NoneOutstanding(leases: seq<Lease>, e: nat)
    requires forall l :: 0 <= l < |leases| ==> leases[l].done
    ensures Outstanding(leases, e) == 0
  {
    if leases != [] { NoneOutstanding(leases[..|leases| - 1], e); }
  }

  /** The entry just published is still there when the publishing section ends. */
  lemma PublishKeepsItsEntry(n: nat, v: World, t: nat, gone: set<nat>, w: World)
    requires Reachable(n, v) && Step(v, Publish(t, gone), w) && !v.cache.closed &&
      v.threads[t].offer.key !in v.cache.sources
    ensures var o := v.threads[t].offer;
      && o.key in w.cache.sources && w.cache.sources[o.key] == |v.cache.entries| < |w.cache.entries|
      && w.cache.entries[|v.cache.entries|] == Entry(o.key, o.source, 1, true, o.bytes, v.cache.clock + 1)
      && Within(w.cache)
  {
    hide Accounted, Counted, ClosedOnce, ThreadOk, PcsApart, OrphanSources, Without, IsTrim, Known, ThreadsApart;
    var o := v.threads[t].offer;
    var c := Inserted(v.cache, o.key, o.source, o.bytes);
    ReachableInv(n, v);
    OfferedBytes(v, v.threads[t]);
    NotInEntries(v, v.threads[t]);
    InsertedAccounted(v.cache, o.key, o.source, o.bytes);
    TrimOk(c, gone, |v.cache.entries|);
    InsertedView(c, gone, o.key);
  }

  // ---- no thread is ever stuck ------------------------------------------------------------------

  lemma {:induction false} OldestOf(c: Cache, keys: set<Key>) returns (key: Key)
    requires keys != {} && Named(c) && keys <= c.sources.Keys
    ensures key in keys && forall k :: k in keys ==>
      c.entries[c.sources[key]].lastUsed <= c.entries[c.sources[k]].lastUsed
    decreases keys
  {
    var first :| first in keys;
    var rest := keys - {first};
    key := first;
    if rest != {} {
      var k := OldestOf(c, rest);
      if c.entries[c.sources[k]].lastUsed < c.entries[c.sources[first]].lastUsed { key := k; }
    }
    forall k | k in keys
      ensures c.entries[c.sources[key]].lastUsed <= c.entries[c.sources[k]].lastUsed
    {
      assert k == first || k in rest;
    }
  }

  /** Whatever the cache holds, there is something to trim it to. */
  lemma {:induction false} TrimExists(c: Cache, gone: set<nat>) returns (gone': set<nat>)
    requires Accounted(c) && LeastUsed(c, gone)
    ensures IsTrim(c, gone')
    decreases |Without(c, gone).sources|
  {
    hide Without, LeastUsed, Ticked, Sized, RetainedBytes;
    if Within(Without(c, gone)) { return gone; }
    WithoutAccounted(c, gone);
    OverFull(Without(c, gone));
    var key := OldestOf(Without(c, gone), Without(c, gone).sources.Keys);
    WithoutView(c, gone, key);
    TrimNext(c, gone, key);
    WithoutOne(c, gone, c.sources[key]);
    gone' := TrimExists(c, gone + {c.sources[key]});
  }

  /** The thread an action belongs to. */
  predicate ActsFor(a: Action, t: nat) {
    match a
    case Publish(u, _) => u == t
    case Check(u, _) => u == t
    case Invalidate(u) => u == t
    case DropLease(u) => u == t
    case _ => false
  }

  /** A busy thread can always take its next step, whatever the others did. */
  lemma NeverStuck(n: nat, w: World, t: nat) returns (a: Action)
    requires Reachable(n, w) && t in w.threads
    ensures Enabled(w, a) && ActsFor(a, t)
  {
    hide Accounted, ClosedOnce, PcsApart, OrphanSources, Without, IsTrim, Known, ThreadsApart, Outstanding;
    ReachableInv(n, w);
    var pc := w.threads[t];
    assert ThreadOk(w, pc);
    match pc
    case Checking(_, _, _) => a := Check(t, true);
    case Stale(_, _, _) => a := Invalidate(t);
    case Dropping(_, _, _) => a := DropLease(t);
    case Publishing(o) =>
      var gone := {};
      if !w.cache.closed && o.key !in w.cache.sources {
        var c := Inserted(w.cache, o.key, o.source, o.bytes);
        InsertedAccounted(w.cache, o.key, o.source, o.bytes);
        StartTrim(c);
        gone := TrimExists(c, {});
      }
      a := Publish(t, gone);
  }
}

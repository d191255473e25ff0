/** The coalescing background writer (internal/aphelion/configstore/store.go:43-111) under every
    interleaving of producers, Close, the worker and other processes. */
module ConfigWriter {
  import opened Basics

  type Path = string
  type Bytes = seq<int>
  type Files = map<Path, Bytes>

  /** What the mutex guards, and the one-slot wake channel. */
  datatype Guarded = Guarded(pending: Files, closed: bool, wake: bool)

  /** Where the worker is: waiting for a wake-up, between the wake-up and the lock, or writing
      the rest of a detached batch (`closing` when the batch was taken after Close). */
  datatype Worker = Waiting | Woken | Writing(batch: Files, closing: bool) | Done

  /** How the worker last dealt with a path. */
  datatype Outcome = Wrote(data: Bytes) | Failed(data: Bytes) | Skipped(data: Bytes)

  /** `latest` and `outcomes` record what was accepted and done; `touched` the paths another
      process wrote since. */
  datatype World = World(shared: Guarded, worker: Worker, last: Files, disk: Files, latest: Files, outcomes: map<Path,
                         Outcome>,
                         touched: set<Path>)

  function Start(disk: Files): World { World(Guarded(map[], false, false), Waiting, map[], disk, map[], map[], {}) }

  // ---- the sections under the mutex -------------------------------------------------------------

  function Submitted(g: Guarded, path: Path, data: Bytes): Guarded {
    if g.closed then g else Guarded(g.pending[path := data], false, true)
  }

  function Detached(g: Guarded): Guarded { g.(pending := map[]) }

  class Writer {
    var pending: Files
    var closed: bool
    var wake: bool

    constructor ()
      ensures State() == Guarded(map[], false, false)
    {
      pending, closed, wake := map[], false, false;
    }

    function State(): Guarded
      reads this
    {
      Guarded(pending, closed, wake)
    }

    method Submit(path: Path, data: Bytes) returns (ok: bool)
      modifies this
      ensures ok <==> !old(closed)
      ensures State() == Submitted(old(State()), path, data)
      ensures ok ==> wake && path in pending && pending[path] == data
    {
      if closed { return false; }
      pending := pending[path := data];
      if !wake { wake := true; }
      ok := true;
    }

    /** Close up to the point where it waits for the worker. */
    method CloseSection()
      modifies this
      ensures State() == old(State()).(closed := true, wake := true)
    {
      closed := true;
      if !wake { wake := true; }
    }

    method Detach() returns (batch: Files, closing: bool)
      modifies this
      ensures batch == old(pending) && closing == closed && State() == Detached(old(State()))
    {
      batch, closing := pending, closed;
      pending := map[];
    }
  }

  // ---- one file of a batch ------------------------------------------------------------------------

  /** The snapshot the worker remembers; a missing one compares equal to an empty snapshot. */
  function Remembered(last: Files, path: Path): Bytes { if path in last then last[path] else [] }

  /** Does the worker leave the file alone? `readable` says whether reading it succeeded. */
  predicate Skips(w: World, path: Path, data: Bytes, readable: bool) {
    Remembered(w.last, path) == data && readable && path in w.disk && w.disk[path] == data
  }

  function Handled(w: World, path: Path, readable: bool, written: bool): World
    requires w.worker.Writing? && path in w.worker.batch
  {
    var data := w.worker.batch[path];
    var w' := w.(worker := Writing(w.worker.batch - {path}, w.worker.closing), touched := w.touched - {path});
    if Skips(w, path, data, readable) then w'.(outcomes := w.outcomes[path := Skipped(data)])
    else if written then
      w'.(disk := w.disk[path := data], last := w.last[path := data], outcomes := w.outcomes[path := Wrote(data)])
    else w'.(outcomes := w.outcomes[path := Failed(data)], touched := w.touched)
  }

  /** The worker leaves a file alone exactly when it was the last to write this snapshot and still reads
      it from the file; otherwise it writes it, and remembers it only if that succeeds. Other files,
      and what is remembered of them, do not change. */
  lemma HandledMeaning(w: World, path: Path, readable: bool, written: bool)
    requires w.worker.Writing? && path in w.worker.batch
    ensures var data, w' := w.worker.batch[path], Handled(w, path, readable, written);
      var known := (if path in w.last then w.last[path] else []) == data;
      && (w'.outcomes[path] == Skipped(data) <==> known && readable && path in w.disk && w.disk[path] == data)
      && (!w'.outcomes[path].Skipped? ==> w'.outcomes[path] == if written then Wrote(data) else Failed(data))
      && (w'.outcomes[path].Wrote? ==> w'.disk == w.disk[path := data] && w'.last == w.last[path := data])
      && (!w'.outcomes[path].Wrote? ==> w'.disk == w.disk && w'.last == w.last)
      && w'.worker.batch.Keys == w.worker.batch.Keys - {path} && w'.shared == w.shared
  {
  }

  // ---- steps ---------------------------------------------------------------------------------------

  datatype Action =
    | Submit(path: Path, data: Bytes)
    | Close
    | Wake
    | Detach
    | Handle(path: Path, readable: bool, written: bool)
    | EndBatch
    | OtherProcess(path: Path, content: Option<Bytes>)

  predicate ByWorker(a: Action) { a.Wake? || a.Detach? || a.Handle? || a.EndBatch? }

  predicate Enabled(w: World, a: Action) {
    match a
    case Submit(_, _) => true
    case Close => true
    case Wake => w.worker.Waiting? && w.shared.wake
    case Detach => w.worker.Woken?
    case Handle(path, _, _) => w.worker.Writing? && path in w.worker.batch
    case EndBatch => w.worker.Writing? && w.worker.batch == map[]
    case OtherProcess(_, _) => true
  }

  function Next(w: World, a: Action): World
    requires Enabled(w, a)
  {
    match a
    case Submit(path, data) =>
      w.(shared := Submitted(w.shared, path, data), latest := if w.shared.closed then w.latest
         else w.latest[path := data])
    case Close => w.(shared := w.shared.(closed := true, wake := true))
    case Wake => w.(shared := w.shared.(wake := false), worker := Woken)
    case Detach => w.(shared := Detached(w.shared), worker := Writing(w.shared.pending, w.shared.closed))
    case Handle(path, readable, written) => Handled(w, path, readable, written)
    case EndBatch => w.(worker := if w.worker.closing then Done else Waiting)
    case OtherProcess(path, content) =>
      w.(disk := if content.Some? then w.disk[path := content.value]
         else w.disk - {path}, touched := w.touched + {path})
  }

  ghost predicate Step(v: World, a: Action, w: World) { Enabled(v, a) && w == Next(v, a) }

  /** A world that some interleaving of n steps leads to. */
  ghost predicate Reachable(n: nat, w: World) {
    if n == 0 then exists disk :: w == Start(disk) else exists v, a :: Reachable(n - 1, v) && Step(v, a, w)
  }

  // ---- the invariant -------------------------------------------------------------------------------

  /** Work that nobody is about to pick up always has a wake-up waiting. */
  ghost predicate NoLostWake(w: World) {
    && (w.shared.pending != map[] ==> w.shared.wake || w.worker.Woken?)
    && (w.shared.closed ==>
        w.shared.wake || w.worker.Woken? || w.worker.Done? || (w.worker.Writing? && w.worker.closing))
    && (w.worker.Done? || (w.worker.Writing? && w.worker.closing) ==> w.shared.closed && w.shared.pending == map[])
  }

  /** Where the last accepted snapshot of a path is: pending, in the batch, or dealt with. */
  ghost predicate Tracked(w: World, path: Path)
    requires path in w.latest
  {
    if path in w.shared.pending then w.shared.pending[path] == w.latest[path]
    else if w.worker.Writing? && path in w.worker.batch then w.worker.batch[path] == w.latest[path]
    else path in w.outcomes && w.outcomes[path].data == w.latest[path]
  }

  /** A path written or skipped, and not touched by another process since, holds that snapshot. */
  ghost predicate OnDisk(w: World, path: Path)
    requires path in w.outcomes
  {
    !w.outcomes[path].Failed? && path !in w.touched ==> path in w.disk && w.disk[path] == w.outcomes[path].data
  }

  ghost predicate Inv(w: World) {
    && NoLostWake(w)
    && (forall path :: path in w.latest ==> Tracked(w, path))
    && (forall path :: path in w.outcomes ==> OnDisk(w, path))
  }

  lemma StepOk(w: World, a: Action)
    requires Inv(w) && Enabled(w, a)
    ensures Inv(Next(w, a))
  {
    hide Tracked, OnDisk, NoLostWake, Next;
    var w' := Next(w, a);
    WakeKept(w, a);
    forall path | path in w'.latest ensures Tracked(w', path) { TrackedKept(w, a, path); }
    forall path | path in w'.outcomes ensures OnDisk(w', path) { OnDiskKept(w, a, path); }
  }

  lemma WakeKept(w: World, a: Action)
    requires NoLostWake(w) && Enabled(w, a)
    ensures NoLostWake(Next(w, a))
  {
  }

  lemma TrackedKept(w: World, a: Action, path: Path)
    requires Enabled(w, a) && path in Next(w, a).latest && (path in w.latest ==> Tracked(w, path)) && NoLostWake(w)
    ensures Tracked(Next(w, a), path)
  {
  }

  lemma OnDiskKept(w: World, a: Action, path: Path)
    requires Enabled(w, a) && path in Next(w, a).outcomes && (path in w.outcomes ==> OnDisk(w, path))
    ensures OnDisk(Next(w, a), path)
  {
  }

  lemma {:induction false} ReachableInv(n: nat, w: World)
    requires Reachable(n, w)
    ensures Inv(w)
  {
    if n != 0 {
      var v, a :| Reachable(n - 1, v) && Step(v, a, w);
      ReachableInv(n - 1, v);
      StepOk(v, a);
    }
  }

  /** When the worker has finished, the last accepted snapshot of every path is the last one it
      dealt with: written, attempted with an error, or skipped because the file already held it.
      Unless the write failed or another process interfered, the file holds it. */
  lemma LastSnapshotWins(n: nat, w: World, path: Path)
    requires Reachable(n, w) && w.worker.Done? && path in w.latest
    ensures path in w.outcomes && w.outcomes[path].data == w.latest[path]
    ensures w.outcomes[path].Failed? || path in w.touched || (path in w.disk && w.disk[path] == w.latest[path])
  {
    ReachableInv(n, w);
    assert Tracked(w, path);
    assert OnDisk(w, path);
  }

  /** No wake-up is lost: while there is unfinished work, or a Close waiting, the worker can step. */
  lemma WorkerCanStep(n: nat, w: World) returns (a: Action)
    requires Reachable(n, w) && !w.worker.Done?
    requires w.shared.pending != map[] || w.shared.closed || !w.worker.Waiting?
    ensures Enabled(w, a) && ByWorker(a)
  {
    ReachableInv(n, w);
    match w.worker
    case Waiting => a := Wake;
    case Woken => a := Detach;
    case Writing(batch, _) =>
      if batch == map[] {
        a := EndBatch;
      } else {
        var path :| path in batch;
        a := Handle(path, true, true);
      }
  }

  /** How many worker steps are left once the writer is closed. */
  function Left(w: World): nat {
    match w.worker
    case Done => 0
    case Writing(batch, true) => 1 + |batch|
    case Woken => 2 + |w.shared.pending|
    case Waiting => 3 + |w.shared.pending|
    case Writing(batch, false) => 4 + |w.shared.pending| + |batch|
  }

  /** After Close nothing is accepted, every worker step brings the worker closer to its end, and
      no other step takes it further away: Close returns. */
  lemma CloseReturns(n: nat, w: World, a: Action)
    requires Reachable(n, w) && w.shared.closed && Enabled(w, a)
    ensures Next(w, a).shared.closed && Next(w, a).latest == w.latest
    ensures ByWorker(a) ==> Left(Next(w, a)) < Left(w)
    ensures !ByWorker(a) ==> Left(Next(w, a)) == Left(w)
    ensures Left(w) == 0 <==> w.worker.Done?
  {
    hide Reachable, Next;
    ReachableInv(n, w);
    StaysClosed(w, a);
    if ByWorker(a) { WorkerCloser(w, a); }
  }

  lemma StaysClosed(w: World, a: Action)
    requires w.shared.closed && Enabled(w, a)
    ensures Next(w, a).shared.closed && Next(w, a).latest == w.latest
    ensures !ByWorker(a) ==> Next(w, a).shared.pending == w.shared.pending && Next(w, a).worker == w.worker
  {
  }

  lemma WorkerCloser(w: World, a: Action)
    requires w.shared.closed && Enabled(w, a) && ByWorker(a)
    ensures Left(Next(w, a)) < Left(w)
  {
    hide Handled;
    if a.Handle? { OneLess(w, a.path, a.readable, a.written); }
  }

  lemma OneLess(w: World, path: Path, readable: bool, written: bool)
    requires w.worker.Writing? && path in w.worker.batch
    ensures var w' := Handled(w, path, readable, written);
      w'.shared == w.shared && w'.worker == Writing(w.worker.batch - {path}, w.worker.closing) &&
        |w'.worker.batch| == |w.worker.batch| - 1
  {
    hide Skips;
    var rest := w.worker.batch - {path};
    assert rest.Keys == w.worker.batch.Keys - {path};
    assert |rest.Keys| == |rest|;
    assert |w.worker.batch.Keys| == |w.worker.batch|;
  }
}

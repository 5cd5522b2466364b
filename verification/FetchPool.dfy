/// One `fetchContent` call of src/node/piece-fetcher-service.ts: workers that share a queue.
module FetchPool {
  import opened Wrappers
  import opened Pieces
  import opened Replicas
  import opened ContentStores
  import opened Sorting

  // ---------- the workers as a state machine ----------

  /// What the workers share, the index each one is fetching, and which have returned. `started` and `fetched`
  /// list the indices in the order they left the queue and in the order they arrived.
  datatype Pool = Pool(queue: seq<nat>, inFlight: map<nat, nat>, returned: set<nat>, started: seq<nat>, fetched: seq<nat>,
                       pieces: map<nat, Bytes>)

  /// Everything that stays the same during a call: the number of workers, the first queue, the bytes a fetch
  /// yields, and the pieces cached before.
  datatype Call = Call(workers: nat, queue: seq<nat>, fetch: nat -> Bytes, cached: map<nat, Bytes>)

  function Start(c: Call): Pool {
    Pool(c.queue, map[], {}, [], [], c.cached)
  }

  /// The next event of worker w: its fetch completes, or it takes the head of the queue, or it finds the queue
  /// empty and returns. Events happen one at a time; any worker may be next.
  function Step(c: Call, s: Pool, w: nat): Pool {
    if w >= c.workers || w in s.returned then s
    else if w in s.inFlight then
      var i := s.inFlight[w];
      s.(inFlight := s.inFlight - {w}, fetched := s.fetched + [i], pieces := s.pieces[i := c.fetch(i)])
    else if s.queue == [] then s.(returned := s.returned + {w})
    else s.(queue := s.queue[1..], inFlight := s.inFlight[w := s.queue[0]], started := s.started + [s.queue[0]])
  }

  /// An interleaving is a list of workers.
  function Run(c: Call, schedule: seq<nat>): Pool {
    if schedule == [] then Start(c) else Step(c, Run(c, schedule[..|schedule| - 1]), schedule[|schedule| - 1])
  }

  predicate Finished(c: Call, s: Pool) {
    forall w: nat :: w < c.workers ==> w in s.returned
  }

  ghost predicate InFlight(s: Pool, i: nat) {
    exists w :: w in s.inFlight && s.inFlight[w] == i
  }

  /// Queued, in-flight and fetched indices partition the first queue; no two workers fetch the same index.
  ghost predicate Partition(c: Call, s: Pool) {
    && (forall i :: i in c.queue <==> i in s.queue || InFlight(s, i) || i in s.fetched)
    && (forall i :: i in s.queue ==> !InFlight(s, i) && i !in s.fetched)
    && (forall i :: InFlight(s, i) ==> i !in s.fetched)
    && (forall v, w :: v in s.inFlight && w in s.inFlight && s.inFlight[v] == s.inFlight[w] ==> v == w)
    && NoRepeat(s.queue) && NoRepeat(s.fetched)
  }

  /// The slots filled so far.
  ghost predicate Filled(c: Call, s: Pool) {
    && (forall i :: i in s.pieces <==> i in c.cached || i in s.fetched)
    && (forall i :: i in s.pieces ==> s.pieces[i] == if i in s.fetched then c.fetch(i) else c.cached[i])
  }

  ghost predicate WorkersSound(c: Call, s: Pool) {
    && (forall w :: w in s.inFlight ==> w < c.workers && w !in s.returned)
    && (s.returned != {} ==> s.queue == [])
    && s.started + s.queue == c.queue
  }

  ghost predicate Inv(c: Call, s: Pool) {
    Partition(c, s) && Filled(c, s) && WorkersSound(c, s)
  }

  /// A completed fetch moves an index from in-flight to fetched.
  lemma CompleteKeeps(c: Call, s: Pool, w: nat)
    requires Inv(c, s) && w < c.workers && w !in s.returned && w in s.inFlight
    ensures Inv(c, Step(c, s, w))
  {
    var t, i := Step(c, s, w), s.inFlight[w];
    assert InFlight(s, i);
    forall j ensures InFlight(t, j) <==> InFlight(s, j) && j != i {
      if InFlight(s, j) && j != i {
        var v :| v in s.inFlight && s.inFlight[v] == j;
        assert v in t.inFlight;
      }
    }
  }

  /// A taken index moves from the queue to in-flight.
  lemma TakeKeeps(c: Call, s: Pool, w: nat)
    requires Inv(c, s) && w < c.workers && w !in s.returned && w !in s.inFlight && s.queue != []
    ensures Inv(c, Step(c, s, w))
  {
    var t, i := Step(c, s, w), s.queue[0];
    assert t.inFlight[w] == i && i in s.queue;
    forall v | v in s.inFlight ensures s.inFlight[v] != i {
      assert InFlight(s, s.inFlight[v]);
    }
    forall j ensures InFlight(t, j) <==> InFlight(s, j) || j == i {
      if InFlight(s, j) {
        var v :| v in s.inFlight && s.inFlight[v] == j;
        assert v in t.inFlight && t.inFlight[v] == j;
      }
    }
    assert s.queue == [i] + t.queue;
    assert s.started + s.queue == t.started + t.queue;
  }

  lemma StepKeeps(c: Call, s: Pool, w: nat)
    requires Inv(c, s)
    ensures Inv(c, Step(c, s, w))
  {
    if w < c.workers && w !in s.returned {
      if w in s.inFlight {
        CompleteKeeps(c, s, w);
      } else if s.queue != [] {
        TakeKeeps(c, s, w);
      } else {
        var t := Step(c, s, w);
        assert forall i :: InFlight(t, i) <==> InFlight(s, i);
      }
    }
  }

  lemma StartSound(c: Call)
    requires NoRepeat(c.queue)
    ensures Inv(c, Start(c))
  {
  }

  /// At every point of every interleaving.
  lemma {:induction false} RunKeeps(c: Call, schedule: seq<nat>)
    requires NoRepeat(c.queue)
    ensures Inv(c, Run(c, schedule))
  {
    if schedule == [] {
      StartSound(c);
    } else {
      RunKeeps(c, schedule[..|schedule| - 1]);
      StepKeeps(c, Run(c, schedule[..|schedule| - 1]), schedule[|schedule| - 1]);
    }
  }

  /// When every worker has returned, each queued index was fetched exactly once, they left the queue in order,
  /// and every slot is the cached piece or the fetched one.
  lemma FinishedIsComplete(c: Call, s: Pool)
    requires Inv(c, s) && Finished(c, s) && c.workers >= 1 && NoRepeat(c.queue)
    ensures s.queue == [] && s.inFlight == map[] && s.started == c.queue
    ensures multiset(s.fetched) == multiset(c.queue) && forall i :: i in c.queue <==> i in s.fetched
    ensures forall i :: i in c.queue ==> i in s.pieces && s.pieces[i] == c.fetch(i)
    ensures forall i :: i in c.cached && i !in c.queue ==> i in s.pieces && s.pieces[i] == c.cached[i]
  {
    assert 0 in s.returned;
    assert s.inFlight == map[];
    assert forall i :: i in c.queue <==> i in s.fetched;
    SameMembers(s.fetched, c.queue);
  }

  function Active(c: Call, returned: set<nat>): set<nat> {
    set w: nat | w < c.workers && w !in returned
  }

  /// No worker is ever stuck: an event of a worker that has not returned brings the end nearer.
  function Remaining(c: Call, s: Pool): nat {
    2 * |s.queue| + |s.inFlight| + |Active(c, s.returned)|
  }

  lemma StepProgresses(c: Call, s: Pool, w: nat)
    requires w < c.workers && w !in s.returned
    ensures Remaining(c, Step(c, s, w)) < Remaining(c, s)
  {
    var t := Step(c, s, w);
    if w in s.inFlight {
      assert t.inFlight[w := s.inFlight[w]] == s.inFlight;
    } else if s.queue == [] {
      ActiveShrinks(c, s.returned, w);
    }
  }

  lemma ActiveShrinks(c: Call, returned: set<nat>, w: nat)
    requires w < c.workers && w !in returned
    ensures |Active(c, returned + {w})| == |Active(c, returned)| - 1
  {
    assert Active(c, returned) == Active(c, returned + {w}) + {w};
  }

  // ---------- the queue a call starts with ----------

  function Uncached(cached: map<nat, Bytes>, selected: seq<nat>): nat -> bool {
    (i: nat) => i !in cached && i !in selected
  }

  function UpTo(n: nat): (r: seq<nat>)
  {
    seq(n, i requires 0 <= i < n => i)
  }

  /// The selected pieces in their order, then every other piece that is not cached.
  function BuildQueue(selected: seq<nat>, cached: map<nat, Bytes>, totalPieces: nat): seq<nat> {
    selected + Filter(UpTo(totalPieces), Uncached(cached, selected))
  }

  /// The selected pieces come first, in their order, and the others follow by index.
  ghost predicate InOrder(queue: seq<nat>, tasks: seq<Task>) {
    && |tasks| <= |queue|
    && (forall k :: 0 <= k < |tasks| ==> queue[k] == tasks[k].pieceIndex)
    && (forall k, l :: |tasks| <= k < l < |queue| ==> queue[k] < queue[l])
  }

  /// No index is queued twice, and the queue is exactly the uncached indices, unless a cached piece was selected
  /// because the replica store does not list it.
  lemma QueueIsUncached(tasks: seq<Task>, held: set<nat>, providers: seq<Provider>, cached: map<nat, Bytes>, totalPieces: nat)
    requires Selection(tasks, totalPieces, held, providers)
    ensures var queue := BuildQueue(Indices(tasks), cached, totalPieces);
            && NoRepeat(queue) && InOrder(queue, tasks)
            && (forall i :: i in queue ==> i < totalPieces)
            && ((forall i: nat :: i in queue <==> i < totalPieces && i !in cached) <==> forall t :: t in tasks ==> t.pieceIndex !in cached)
    ensures (forall i :: i in cached ==> i in held) ==> forall t :: t in tasks ==> t.pieceIndex !in cached
  {
    var selected := Indices(tasks);
    var rest := Filter(UpTo(totalPieces), Uncached(cached, selected));
    SelectionRanked(tasks, totalPieces, held, providers);
    FilterAscending(UpTo(totalPieces), Uncached(cached, selected));
    forall i: nat ensures i in rest <==> i < totalPieces && i !in cached && i !in selected {
      FilterMember(UpTo(totalPieces), Uncached(cached, selected), i);
      assert i < totalPieces ==> UpTo(totalPieces)[i] == i;
    }
    ConcatNoRepeat(selected, rest);
    forall t | t in tasks ensures t.pieceIndex in selected {
      var k :| 0 <= k < |tasks| && tasks[k] == t;
      assert selected[k] == t.pieceIndex;
    }
    forall i | i in selected ensures exists t :: t in tasks && t.pieceIndex == i {
      var k :| 0 <= k < |selected| && selected[k] == i;
      assert tasks[k] in tasks;
    }
  }

  lemma ConcatNoRepeat(a: seq<nat>, b: seq<nat>)
    requires NoRepeat(a) && NoRepeat(b) && forall x :: x in b ==> x !in a
    ensures NoRepeat(a + b)
  {
    forall i, j | 0 <= i < j < |a + b| ensures (a + b)[i] != (a + b)[j] {
      if i < |a| <= j {
        assert (a + b)[j] == b[j - |a|] && b[j - |a|] in b && a[i] in a;
      }
    }
  }

  // ---------- the whole call ----------

  /// The bytes a fetch of piece i yields.
  function FetchOf(provider: Descriptor -> Bytes, pieceSize: nat, totalPieces: nat): nat -> Bytes {
    (i: nat) => provider(Describe(i, pieceSize, totalPieces))
  }

  function SlotOf(cached: map<nat, Bytes>, fetch: nat -> Bytes, i: nat): Bytes {
    if i in cached then cached[i] else fetch(i)
  }

  function Slots(cached: map<nat, Bytes>, fetch: nat -> Bytes, totalPieces: nat): (r: seq<Bytes>)
  {
    seq(totalPieces, i requires 0 <= i < totalPieces => SlotOf(cached, fetch, i))
  }

  function CacheAfter(cached: map<nat, Bytes>, fetch: nat -> Bytes, totalPieces: nat): map<nat, Bytes> {
    map i | i in cached.Keys + (set k | k in UpTo(totalPieces)) :: SlotOf(cached, fetch, i)
  }

  /// A provider that serves every piece of the content when asked for it.
  ghost predicate RangeCorrect(provider: Descriptor -> Bytes, data: Bytes, pieceSize: nat)
    requires pieceSize >= 1
  {
    var n := |Split(data, pieceSize)|;
    forall i: nat :: i < n ==> provider(Describe(i, pieceSize, n)) == Split(data, pieceSize)[i]
  }

  function FilesystemProvider(file: Bytes): Descriptor -> Bytes {
    (d: Descriptor) => FilesystemPiece(file, d)
  }

  lemma FilesystemRangeCorrect(data: Bytes, pieceSize: nat)
    requires pieceSize >= 1
    ensures RangeCorrect(FilesystemProvider(data), data, pieceSize)
  {
    forall i: nat | i < |Split(data, pieceSize)|
      ensures FilesystemProvider(data)(Describe(i, pieceSize, |Split(data, pieceSize)|)) == Split(data, pieceSize)[i]
    {
      FilesystemServesPieces(data, pieceSize, i);
    }
  }

  /// With a range-correct provider and a cache of right pieces the assembled bytes are the content, so the call
  /// succeeds, whatever the workers did.
  lemma FetchedIsOriginal(provider: Descriptor -> Bytes, data: Bytes, pieceSize: nat, cached: map<nat, Bytes>)
    requires pieceSize >= 1 && RangeCorrect(provider, data, pieceSize)
    requires forall i :: i in cached && i < |Split(data, pieceSize)| ==> cached[i] == Split(data, pieceSize)[i]
    ensures var n := |Split(data, pieceSize)|;
            Concat(Slots(cached, FetchOf(provider, pieceSize, n), n)) == data
  {
    var n := |Split(data, pieceSize)|;
    assert Slots(cached, FetchOf(provider, pieceSize, n), n) == Split(data, pieceSize);
    SplitConcat(data, pieceSize);
  }

  /// The cache keeps what a call fetched even when the hash did not match: a later call for the same hash and
  /// number of pieces assembles the same bytes, and fails again, from whichever provider.
  lemma FailureSticks(cached: map<nat, Bytes>, fetch: nat -> Bytes, later: nat -> Bytes, totalPieces: nat)
    ensures Slots(CacheAfter(cached, fetch, totalPieces), later, totalPieces) == Slots(cached, fetch, totalPieces)
  {
    InUpTo(totalPieces);
  }

  function ProvidersOf(inbound: seq<Neighbour>, reputation: string -> real, totalPieces: nat): seq<Provider> {
    Map(Filter(inbound, Offers(totalPieces)), AsProvider(reputation, totalPieces))
  }

  function ProviderColumn(): Task -> string {
    (t: Task) => t.provider
  }

  function CachedIn(pieceCache: map<string, map<nat, Bytes>>, hash: string): map<nat, Bytes> {
    if hash in pieceCache then pieceCache[hash] else map[]
  }

  ghost predicate Backed(pieceCache: map<string, map<nat, Bytes>>, held: map<string, set<nat>>) {
    forall h, i :: i in CachedIn(pieceCache, h) ==> i in HeldIn(held, h)
  }

  lemma InUpTo(n: nat)
    ensures forall i: nat :: i in UpTo(n) <==> i < n
  {
    forall i: nat ensures i in UpTo(n) <==> i < n {
      if i < n {
        assert UpTo(n)[i] == i;
      }
    }
  }

  class PieceFetcherService {
    const replicaStore: ReplicaStore
    const maxConcurrent: int
    const digest: Digest
    var pieceCache: map<string, map<nat, Bytes>>

    ghost function Cached(hash: string): map<nat, Bytes>
      reads this
    {
      CachedIn(pieceCache, hash)
    }

    /// Every cached piece is in the replica store.
    ghost predicate Valid()
      reads this, replicaStore
    {
      Backed(pieceCache, replicaStore.pieces)
    }

    constructor (replicaStore: ReplicaStore, maxConcurrent: int, digest: Digest)
      ensures Valid() && pieceCache == map[]
      ensures this.replicaStore == replicaStore && this.maxConcurrent == maxConcurrent && this.digest == digest
    {
      this.replicaStore, this.maxConcurrent, this.digest := replicaStore, maxConcurrent, digest;
      pieceCache := map[];
    }

    method RunWorkers(hash: string, provider: Descriptor -> Bytes, pieceSize: nat, workerCount: nat, firstQueue: seq<nat>,
                      pieces: array<Option<Bytes>>, ghost c: Call)
      returns (ghost s: Pool)
      requires c.workers == workerCount && c.queue == firstQueue && Inv(c, Start(c)) && c.fetch == FetchOf(provider, pieceSize, pieces.Length)
      requires forall i :: i in c.queue ==> i < pieces.Length
      requires Slotted(pieces[..], c.cached)
      requires hash in pieceCache && pieceCache[hash] == c.cached
      modifies this, replicaStore, pieces
      ensures Inv(c, s) && Finished(c, s)
      ensures pieceCache == old(pieceCache)[hash := s.pieces]
      ensures Slotted(pieces[..], s.pieces)
      ensures Grown(old(replicaStore.pieces), replicaStore.pieces, hash, s.fetched)
    {
      hide Inv, Slotted, Grown, Step, Remaining;
      var workers, queue, inFlight, returned: set<nat> := workerCount, firstQueue, map[], {};
      s := Start(c);
      StartGrown(replicaStore.pieces, hash);
      while exists w: nat :: w < workers && w !in returned
        invariant Inv(c, s) && queue == s.queue && inFlight == s.inFlight && returned == s.returned
        invariant pieceCache == old(pieceCache)[hash := s.pieces]
        invariant Slotted(pieces[..], s.pieces)
        invariant Grown(old(replicaStore.pieces), replicaStore.pieces, hash, s.fetched)
        decreases Remaining(c, s)
      {
        var w: nat :| w < workers && w !in returned;
        StepKeeps(c, s, w);
        StepProgresses(c, s, w);
        StepCases(c, s, w);
        if w in inFlight {
          InFlightIsQueued(c, s, w);
          var index := inFlight[w];
          var data := provider(Describe(index, pieceSize, pieces.Length));
          inFlight := inFlight - {w};
          SlottedStep(pieces[..], s.pieces, index, data);
          GrownStep(old(replicaStore.pieces), replicaStore.pieces, hash, s.fetched, index);
          Store(hash, index, data, pieces);
        } else if |queue| > 0 {
          inFlight := inFlight[w := queue[0]];
          queue := queue[1..];
        } else {
          returned := returned + {w};
        }
        s := Step(c, s, w);
      }
    }

    /// A piece has arrived.
    method Store(hash: string, index: nat, data: Bytes, pieces: array<Option<Bytes>>)
      requires index < pieces.Length && hash in pieceCache
      modifies this, replicaStore, pieces
      ensures pieceCache == old(pieceCache)[hash := With(old(pieceCache[hash]), index, data)]
      ensures pieces[..] == old(pieces[..])[index := Some(data)]
      ensures replicaStore.pieces == old(replicaStore.pieces)[hash := HeldIn(old(replicaStore.pieces), hash) + {index}]
    {
      pieces[index] := Some(data);
      pieceCache := pieceCache[hash := With(pieceCache[hash], index, data)];
      replicaStore.AddPiece(hash, index);
    }

    method PlanQueue(hash: string, totalPieces: nat, inbound: seq<Neighbour>, reputation: string -> real, cached: map<nat, Bytes>)
      returns (selected: seq<Task>, queue: seq<nat>)
      requires forall i :: i in cached ==> i in replicaStore.Held(hash)
      ensures NoRepeat(queue) && InOrder(queue, selected) && forall i: nat :: i in queue <==> i < totalPieces && i !in cached
      ensures Selection(selected, totalPieces, replicaStore.Held(hash), ProvidersOf(inbound, reputation, totalPieces))
    {
      var providers := BuildNeighbourProviders(inbound, reputation, totalPieces);
      selected := SelectPiecesToFetch(hash, totalPieces, replicaStore, providers);
      QueueIsUncached(selected, replicaStore.Held(hash), providers, cached, totalPieces);
      queue := BuildQueue(Indices(selected), cached, totalPieces);
    }

    method FillSlots(totalPieces: nat, cached: map<nat, Bytes>) returns (pieces: array<Option<Bytes>>)
      ensures fresh(pieces) && pieces.Length == totalPieces && Slotted(pieces[..], cached)
    {
      pieces := new Option<Bytes>[totalPieces](_ => None);
      for index := 0 to totalPieces
        invariant Slotted(pieces[..index], cached)
        invariant forall i: nat :: index <= i < totalPieces ==> pieces[i] == None
      {
        if index in cached {
          pieces[index] := Some(cached[index]);
        }
        assert pieces[..index + 1] == pieces[..index] + [pieces[index]];
      }
      assert pieces[..totalPieces] == pieces[..];
    }

    /// One call, with the workers' events in any order. It returns the assembled bytes if they have the hash, and
    /// otherwise the providers to blame; the fetched pieces are cached and held either way.
    method FetchContent(hash: string, totalPieces: nat, pieceSize: nat, provider: Descriptor -> Bytes,
                        inbound: seq<Neighbour>, reputation: string -> real)
      returns (r: Option<Bytes>, blamed: seq<string>, ghost tasks: seq<Task>, ghost call: Call, ghost end: Pool)
      requires Valid()
      modifies this, replicaStore
      ensures Valid()
      ensures var all := Concat(Slots(old(Cached(hash)), FetchOf(provider, pieceSize, totalPieces), totalPieces));
              r == if digest(all) == hash then Some(all) else None
      ensures pieceCache == old(pieceCache)[hash := CacheAfter(old(Cached(hash)), FetchOf(provider, pieceSize, totalPieces), totalPieces)]
      ensures Grown(old(replicaStore.pieces), replicaStore.pieces, hash, end.fetched)
      ensures Selection(tasks, totalPieces, old(replicaStore.Held(hash)), ProvidersOf(inbound, reputation, totalPieces))
      ensures r.Some? ==> blamed == []
      ensures r.None? ==> |blamed| == |tasks| && forall k :: 0 <= k < |tasks| ==> blamed[k] == tasks[k].provider
      ensures call.workers == if maxConcurrent < 1 || call.queue == [] then 1 else if maxConcurrent < |call.queue| then maxConcurrent else |call.queue|
      ensures call.cached == old(Cached(hash)) && NoRepeat(call.queue) && InOrder(call.queue, tasks)
      ensures forall i: nat :: i in call.queue <==> i < totalPieces && i !in old(Cached(hash))
      ensures Inv(call, end) && Finished(call, end)
    {
      hide Backed, Grown, Inv, Finished, Slotted, NoRepeat, CacheAfter, Concat, Selection, BuildQueue, ProvidersOf, InOrder;
      var cached := CachedIn(pieceCache, hash);
      CachedIsHeld(pieceCache, replicaStore.pieces, hash);
      replicaStore.DeclareTotal(hash, totalPieces);
      pieceCache := pieceCache[hash := cached];
      var selected, queue := PlanQueue(hash, totalPieces, inbound, reputation, cached);
      var workers := WorkerCount(maxConcurrent, |queue|);
      call := Call(workers, queue, FetchOf(provider, pieceSize, totalPieces), cached);
      var pieces := FillSlots(totalPieces, cached);
      StartSound(call);
      end := RunWorkers(hash, provider, pieceSize, workers, queue, pieces, call);
      tasks := selected;
      assert pieceCache == old(pieceCache)[hash := end.pieces];
      GrownFrom(old(replicaStore.pieces), replicaStore.pieces, hash, end.fetched);
      CallEnds(old(pieceCache), old(replicaStore.pieces), replicaStore.pieces, hash, call, end, totalPieces, pieces[..]);
      var all := Concat(Map(pieces[..], OrEmpty()));
      blamed := [];
      if digest(all) == hash {
        r := Some(all);
      } else {
        r := None;
        blamed := Map(selected, ProviderColumn());
      }
    }
  }

  lemma CachedIsHeld(pieceCache: map<string, map<nat, Bytes>>, held: map<string, set<nat>>, hash: string)
    requires Backed(pieceCache, held)
    ensures forall i :: i in CachedIn(pieceCache, hash) ==> i in HeldIn(held, hash)
  {
  }

  lemma CallEnds(pieceCache: map<string, map<nat, Bytes>>, before: map<string, set<nat>>, after: map<string, set<nat>>,
                 hash: string, c: Call, s: Pool, totalPieces: nat, slots: seq<Option<Bytes>>)
    requires Inv(c, s) && Finished(c, s) && c.workers >= 1 && NoRepeat(c.queue)
    requires forall i: nat :: i in c.queue <==> i < totalPieces && i !in c.cached
    requires Backed(pieceCache, before) && Grown(before, after, hash, s.fetched) && c.cached == CachedIn(pieceCache, hash)
    requires |slots| == totalPieces && Slotted(slots, s.pieces)
    ensures Backed(pieceCache[hash := s.pieces], after)
    ensures s.pieces == CacheAfter(c.cached, c.fetch, totalPieces)
    ensures Map(slots, OrEmpty()) == Slots(c.cached, c.fetch, totalPieces)
  {
    EndIsCacheAfter(c, s, totalPieces);
  }

  function Lookup(m: map<nat, Bytes>, i: nat): Option<Bytes> {
    if i in m then Some(m[i]) else None
  }

  function With(m: map<nat, Bytes>, i: nat, data: Bytes): map<nat, Bytes> {
    m[i := data]
  }

  /// `piece ?? Buffer.alloc(0)`
  function OrEmpty(): Option<Bytes> -> Bytes {
    (piece: Option<Bytes>) => piece.GetOr([])
  }

  lemma EndIsCacheAfter(c: Call, s: Pool, totalPieces: nat)
    requires Inv(c, s) && Finished(c, s) && c.workers >= 1 && NoRepeat(c.queue)
    requires forall i: nat :: i in c.queue <==> i < totalPieces && i !in c.cached
    ensures s.pieces == CacheAfter(c.cached, c.fetch, totalPieces)
    ensures forall i: nat :: i in s.fetched <==> i < totalPieces && i !in c.cached
    ensures forall i: nat :: i < totalPieces ==> Lookup(s.pieces, i) == Some(SlotOf(c.cached, c.fetch, i))
  {
    FinishedIsComplete(c, s);
    InUpTo(totalPieces);
  }

  /// An array of slots holds the pieces of a map.
  ghost predicate Slotted(slots: seq<Option<Bytes>>, m: map<nat, Bytes>) {
    forall i :: 0 <= i < |slots| ==> slots[i] == Lookup(m, i)
  }

  lemma SlottedStep(slots: seq<Option<Bytes>>, m: map<nat, Bytes>, index: nat, data: Bytes)
    requires Slotted(slots, m) && index < |slots|
    ensures Slotted(slots[index := Some(data)], m[index := data])
  {
  }

  /// The replica store has gained exactly the fetched pieces of one hash.
  ghost predicate Grown(before: map<string, set<nat>>, after: map<string, set<nat>>, hash: string, fetched: seq<nat>) {
    forall h :: HeldIn(after, h) == if h == hash then HeldIn(before, h) + (set i | i in fetched) else HeldIn(before, h)
  }

  lemma StartGrown(before: map<string, set<nat>>, hash: string)
    ensures Grown(before, before, hash, [])
  {
  }

  lemma GrownFrom(before: map<string, set<nat>>, after: map<string, set<nat>>, hash: string, fetched: seq<nat>)
    requires Grown(before[hash := HeldIn(before, hash)], after, hash, fetched)
    ensures Grown(before, after, hash, fetched)
  {
  }

  lemma GrownStep(before: map<string, set<nat>>, after: map<string, set<nat>>, hash: string, fetched: seq<nat>, index: nat)
    requires Grown(before, after, hash, fetched)
    ensures Grown(before, after[hash := HeldIn(after, hash) + {index}], hash, fetched + [index])
  {
  }

  /// The fields of a step, one case at a time.
  lemma StepCases(c: Call, s: Pool, w: nat)
    requires w < c.workers && w !in s.returned
    ensures var t := Step(c, s, w);
            if w in s.inFlight then
              && t.queue == s.queue && t.returned == s.returned && t.inFlight == s.inFlight - {w}
              && t.fetched == s.fetched + [s.inFlight[w]] && t.pieces == s.pieces[s.inFlight[w] := c.fetch(s.inFlight[w])]
            else if s.queue == [] then
              t.queue == s.queue && t.returned == s.returned + {w} && t.inFlight == s.inFlight && t.fetched == s.fetched && t.pieces == s.pieces
            else
              && t.queue == s.queue[1..] && t.returned == s.returned && t.inFlight == s.inFlight[w := s.queue[0]]
              && t.fetched == s.fetched && t.pieces == s.pieces
  {
  }

  lemma InFlightIsQueued(c: Call, s: Pool, w: nat)
    requires Inv(c, s) && w in s.inFlight
    ensures s.inFlight[w] in c.queue
  {
  }

  function WorkerCount(maxConcurrent: int, queued: nat): (n: nat)
    ensures maxConcurrent <= 1 || queued <= 1 ==> n == 1
    ensures maxConcurrent >= 1 && queued >= 1 ==> n <= maxConcurrent && n <= queued && (n == maxConcurrent || n == queued)
  {
    var wanted := if queued == 0 then 1 else queued;
    var n := if maxConcurrent < wanted then maxConcurrent else wanted;
    if n < 1 then 1 else n
  }
}

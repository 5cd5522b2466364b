/// Which pieces are held (src/core/content/replica-store.ts) and which to fetch from whom
/// (src/core/content/piece-fetcher.ts, and `buildNeighbourProviders` of src/node/piece-fetcher-service.ts).
module Replicas {
  import opened Wrappers
  import opened Sorting

  function HeldIn(pieces: map<string, set<nat>>, hash: string): set<nat> {
    if hash in pieces then pieces[hash] else {}
  }

  class ReplicaStore {
    var pieces: map<string, set<nat>>
    var totals: map<string, nat>

    constructor ()
      ensures pieces == map[] && totals == map[]
    {
      pieces, totals := map[], map[];
    }

    ghost function Held(hash: string): set<nat>
      reads this
    {
      HeldIn(pieces, hash)
    }

    method DeclareTotal(hash: string, count: nat)
      modifies this
      ensures totals == old(totals)[hash := count]
      ensures pieces == old(pieces)[hash := old(Held(hash))]
    {
      totals := totals[hash := count];
      if hash !in pieces {
        pieces := pieces[hash := {}];
      }
    }

    method AddPiece(hash: string, index: nat)
      modifies this
      ensures totals == old(totals)
      ensures pieces == old(pieces)[hash := old(Held(hash)) + {index}]
    {
      var held := HeldIn(pieces, hash);
      pieces := pieces[hash := held + {index}];
    }

    predicate HasPiece(hash: string, index: nat)
      reads this
      ensures HasPiece(hash, index) <==> index in Held(hash)
    {
      hash in pieces && index in pieces[hash]
    }

    /// The source compares counts: pieces past the end weigh against missing ones.
    method IsComplete(hash: string) returns (complete: bool)
      ensures complete <==> hash in totals && |Missing(Held(hash), totals[hash])| <= |Stray(Held(hash), totals[hash])|
    {
      complete := hash in totals && (if hash in pieces then |pieces[hash]| else 0) >= totals[hash];
      if hash in totals {
        CountBalance(Held(hash), totals[hash]);
      }
    }
  }

  /// Indices held past the end, and indices before it that are not held.
  ghost function Stray(held: set<nat>, total: nat): set<nat> {
    set i | i in held && i >= total
  }

  ghost function Missing(held: set<nat>, total: nat): set<nat> {
    set i: nat | 0 <= i < total && i !in held
  }

  lemma {:induction false} CountBalance(held: set<nat>, total: nat)
    ensures |held| + |Missing(held, total)| == total + |Stray(held, total)|
  {
    if total == 0 {
      assert Stray(held, 0) == held && Missing(held, 0) == {};
    } else {
      CountBalance(held, total - 1);
      OneMore(held, total - 1);
      hide Missing, Stray;
    }
  }

  lemma OneMore(held: set<nat>, last: nat)
    ensures |Missing(held, last + 1)| == |Missing(held, last)| + if last in held then 0 else 1
    ensures |Stray(held, last)| == |Stray(held, last + 1)| + if last in held then 1 else 0
  {
    assert Missing(held, last + 1) == Missing(held, last) + if last in held then {} else {last};
    assert Stray(held, last) == Stray(held, last + 1) + if last in held then {last} else {};
  }

  predicate EveryPiece(held: set<nat>, total: nat) {
    forall i :: 0 <= i < total ==> i in held
  }

  /// When the answer of `IsComplete` for a declared total means "every piece is held": unless pieces
  /// are missing and at least as many are held past the end. In particular it does if none is.
  lemma CompleteMeansEvery(held: set<nat>, total: nat)
    ensures (|Missing(held, total)| <= |Stray(held, total)| <==> EveryPiece(held, total))
       <==> !(0 < |Missing(held, total)| <= |Stray(held, total)|)
    ensures (|Missing(held, total)| <= |Stray(held, total)| <==> EveryPiece(held, total))
       <==> Stray(held, total) == {} || EveryPiece(held, total) || |held| < total
  {
    CountBalance(held, total);
    if EveryPiece(held, total) {
      assert Missing(held, total) == {};
    } else {
      var i :| 0 <= i < total && i !in held;
      assert i in Missing(held, total);
    }
  }

  /// With pieces 0 and 5 of two the answer is yes, and piece 1 is missing.
  lemma StrayPieceCounts()
    ensures |Missing({0, 5}, 2)| <= |Stray({0, 5}, 2)| && !EveryPiece({0, 5}, 2)
  {
    assert Missing({0, 5}, 2) == {1} && Stray({0, 5}, 2) == {5};
  }

  // ---------- providers ----------

  datatype Provider = Provider(nodeId: string, reputation: real, pieceRanges: seq<(int, int)>)
  datatype Task = Task(pieceIndex: nat, provider: string)
  datatype Neighbour = Neighbour(nodeId: string, pieceRanges: seq<(int, int)>, hasReplica: bool)

  predicate CanServe(p: Provider, i: int) {
    exists k :: 0 <= k < |p.pieceRanges| && p.pieceRanges[k].0 <= i <= p.pieceRanges[k].1
  }

  function Offered(n: Neighbour, totalPieces: nat): seq<(int, int)> {
    if n.pieceRanges != [] then n.pieceRanges else if n.hasReplica then [(0, totalPieces - 1)] else []
  }

  function Offers(totalPieces: nat): Neighbour -> bool {
    (n: Neighbour) => Offered(n, totalPieces) != []
  }

  function AsProvider(reputation: string -> real, totalPieces: nat): Neighbour -> Provider {
    (n: Neighbour) => Provider(n.nodeId, reputation(n.nodeId), Offered(n, totalPieces))
  }

  method BuildNeighbourProviders(inbound: seq<Neighbour>, reputation: string -> real, totalPieces: nat) returns (providers: seq<Provider>)
    ensures providers == Map(Filter(inbound, Offers(totalPieces)), AsProvider(reputation, totalPieces))
  {
    providers := [];
    for k := 0 to |inbound|
      invariant providers == Map(Filter(inbound[..k], Offers(totalPieces)), AsProvider(reputation, totalPieces))
    {
      assert inbound[..k + 1] == inbound[..k] + [inbound[k]];
      FilterSnoc(inbound[..k], inbound[k], Offers(totalPieces));
      var ranges := Offered(inbound[k], totalPieces);
      if ranges != [] {
        providers := providers + [Provider(inbound[k].nodeId, reputation(inbound[k].nodeId), ranges)];
      }
    }
    assert inbound[..|inbound|] == inbound;
  }

  /// The providers, one by one: those neighbours that advertise ranges or hold a replica, in order, each under its
  /// own id with the reputation of that id, and with its own ranges or else with all pieces.
  ghost predicate ProvidersAt(inbound: seq<Neighbour>, reputation: string -> real, totalPieces: nat, providers: seq<Provider>, at: seq<nat>) {
    && Ascending(at) && |providers| == |at| && (forall k :: 0 <= k < |at| ==> at[k] < |inbound|)
    && (forall j: nat :: j in at <==> j < |inbound| && (inbound[j].pieceRanges != [] || inbound[j].hasReplica))
    && forall k :: 0 <= k < |at| ==>
         var n := inbound[at[k]];
         && providers[k].nodeId == n.nodeId && providers[k].reputation == reputation(n.nodeId)
         && providers[k].pieceRanges == if n.pieceRanges == [] then [(0, totalPieces - 1)] else n.pieceRanges
  }

  lemma ProvidersExact(inbound: seq<Neighbour>, reputation: string -> real, totalPieces: nat) returns (at: seq<nat>)
    ensures ProvidersAt(inbound, reputation, totalPieces, Map(Filter(inbound, Offers(totalPieces)), AsProvider(reputation, totalPieces)), at)
  {
    at := FilterPositions(inbound, Offers(totalPieces));
    hide Filter;
  }

  /// A neighbour serves what it advertises: its ranges, or everything if it has the replica and no ranges.
  lemma NeighbourServes(inbound: seq<Neighbour>, reputation: string -> real, totalPieces: nat, i: int)
    ensures (exists p :: p in Map(Filter(inbound, Offers(totalPieces)), AsProvider(reputation, totalPieces)) && CanServe(p, i))
            <==> exists n :: n in inbound && if n.pieceRanges == [] then n.hasReplica && 0 <= i < totalPieces
                                           else exists k :: 0 <= k < |n.pieceRanges| && n.pieceRanges[k].0 <= i <= n.pieceRanges[k].1
  {
    var kept := Filter(inbound, Offers(totalPieces));
    var providers := Map(kept, AsProvider(reputation, totalPieces));
    forall p | p in providers && CanServe(p, i)
      ensures exists n :: n in inbound && p == AsProvider(reputation, totalPieces)(n)
    {
      var k :| 0 <= k < |kept| && providers[k] == p;
      FilterMember(inbound, Offers(totalPieces), kept[k]);
      assert kept[k] in kept;
    }
    forall n | n in inbound && Offered(n, totalPieces) != []
      ensures AsProvider(reputation, totalPieces)(n) in providers
    {
      FilterMember(inbound, Offers(totalPieces), n);
      var k :| 0 <= k < |kept| && kept[k] == n;
      assert providers[k] == AsProvider(reputation, totalPieces)(n);
    }
    forall n | n in inbound && n.pieceRanges == [] && n.hasReplica && 0 <= i < totalPieces
      ensures CanServe(AsProvider(reputation, totalPieces)(n), i)
    {
      assert AsProvider(reputation, totalPieces)(n).pieceRanges[0] == (0, totalPieces - 1);
    }
  }

  // ---------- selection ----------

  function Serving(i: nat): Provider -> bool {
    (p: Provider) => CanServe(p, i)
  }

  function BestFirst(): Provider -> real {
    (p: Provider) => -p.reputation
  }

  /// The provider chosen for a piece: the candidates are sorted by falling reputation and the first is taken.
  function Best(providers: seq<Provider>, i: nat): Option<Provider> {
    var candidates := Filter(providers, Serving(i));
    if candidates == [] then None
    else
      SortMember(candidates, BestFirst(), candidates[0]);
      Some(Sort(candidates, BestFirst())[0])
  }

  /// It can serve the piece, no other that can has a higher reputation, and there is one if any can serve.
  lemma BestIsBest(providers: seq<Provider>, i: nat)
    ensures Best(providers, i).Some? <==> exists p :: p in providers && CanServe(p, i)
    ensures var best := Best(providers, i);
            best.Some? ==> best.value in providers && CanServe(best.value, i)
                           && forall p :: p in providers && CanServe(p, i) ==> p.reputation <= best.value.reputation
  {
    var candidates := Filter(providers, Serving(i));
    var sorted := Sort(candidates, BestFirst());
    forall p ensures p in candidates <==> p in providers && CanServe(p, i) {
      FilterMember(providers, Serving(i), p);
    }
    SortSorted(candidates, BestFirst());
    forall p ensures p in sorted <==> p in candidates && |sorted| == |candidates| {
      SortMember(candidates, BestFirst(), p);
    }
    if candidates != [] {
      assert candidates[0] in candidates;
      assert sorted[0] in sorted;
    }
  }

  /// Reputation ties go to the provider listed first.
  lemma BestIsFirst(providers: seq<Provider>, i: nat, k: nat)
    requires k < |providers| && CanServe(providers[k], i)
    requires forall j :: 0 <= j < |providers| && CanServe(providers[j], i) ==> providers[j].reputation <= providers[k].reputation
    requires forall j :: 0 <= j < k && CanServe(providers[j], i) ==> providers[j].reputation < providers[k].reputation
    ensures Best(providers, i) == Some(providers[k])
  {
    SortedHead(providers, Serving(i), BestFirst(), k);
  }

  function ChosenReputation(chosen: map<nat, Provider>): nat -> real {
    (i: nat) => if i in chosen then -chosen[i].reputation else 0.0
  }

  function Chosen(chosen: map<nat, Provider>): nat -> bool {
    (i: nat) => i in chosen
  }

  function AsTask(chosen: map<nat, Provider>): nat -> Task {
    (i: nat) => Task(i, if i in chosen then chosen[i].nodeId else "")
  }

  /// Strictly ordered by the key, then by the index.
  ghost predicate Ranked(s: seq<nat>, key: nat -> real) {
    forall a, b :: 0 <= a < b < |s| ==> Before(key, s[a], s[b])
  }

  predicate Before(key: nat -> real, x: nat, y: nat) {
    key(x) < key(y) || (key(x) == key(y) && x < y)
  }

  lemma AscendingSnoc(s: seq<nat>, x: nat)
    requires Ascending(s) && forall y :: y in s ==> y < x
    ensures Ascending(s + [x])
  {
    assert forall a :: 0 <= a < |s| ==> s[a] in s;
  }

  /// Sorting ascending indices by the key alone ranks them by key and index: the sort is stable.
  lemma RankedByIndex(s: seq<nat>, key: nat -> real)
    requires Ascending(s)
    ensures Ranked(Sort(s, key), key)
  {
    Sorting.SortRanked(s, key, (i: nat) => i as int);
  }

  /// There is only one way to rank a set of indices, so the result of the source's comparison sort is determined.
  lemma {:induction false} RankedUnique(s: seq<nat>, t: seq<nat>, key: nat -> real)
    requires Ranked(s, key) && Ranked(t, key) && forall i :: i in s <==> i in t
    ensures s == t
  {
    NoMembers(s, t);
    NoMembers(t, s);
    if s != [] {
      assert s[0] in t && t[0] in s;
      forall i ensures i in s[1..] <==> i in t[1..] {
        TailMember(s, key, i);
        TailMember(t, key, i);
      }
      RankedUnique(s[1..], t[1..], key);
      assert s == [s[0]] + s[1..] && t == [t[0]] + t[1..];
    }
  }

  lemma NoMembers(s: seq<nat>, t: seq<nat>)
    requires forall i :: i in s <==> i in t
    ensures s == [] ==> t == []
  {
    if t != [] {
      assert t[0] in t;
    }
  }

  lemma TailMember(s: seq<nat>, key: nat -> real, i: nat)
    requires s != [] && Ranked(s, key)
    ensures i in s[1..] <==> i in s && i != s[0]
  {
  }

  lemma {:induction false} FilterAscending(s: seq<nat>, p: nat -> bool)
    requires Ascending(s)
    ensures Ascending(Filter(s, p))
  {
    if s != [] {
      var front, last := s[..|s| - 1], s[|s| - 1];
      FilterAscending(front, p);
      forall y | y in Filter(front, p) ensures y < last {
        FilterMember(front, p, y);
      }
      AscendingSnoc(Filter(front, p), last);
    }
  }

  function Indices(tasks: seq<Task>): (r: seq<nat>)
  {
    Map(tasks, (t: Task) => t.pieceIndex)
  }

  function BestReputation(providers: seq<Provider>): nat -> real {
    (i: nat) => match Best(providers, i) case Some(p) => -p.reputation case None => 0.0
  }

  /// Provider k serves piece i; no other that does has a higher reputation, and none before it has the same.
  ghost predicate FirstBest(providers: seq<Provider>, i: nat, k: int) {
    && 0 <= k < |providers| && CanServe(providers[k], i)
    && forall j :: 0 <= j < |providers| && CanServe(providers[j], i) ==>
         providers[j].reputation < providers[k].reputation || (providers[j].reputation == providers[k].reputation && k <= j)
  }

  ghost predicate FromBest(providers: seq<Provider>, t: Task) {
    exists k :: FirstBest(providers, t.pieceIndex, k) && t.provider == providers[k].nodeId
  }

  /// Task t comes before task u: its best provider has a higher reputation, or the same and its index is lower.
  ghost predicate Sooner(providers: seq<Provider>, t: Task, u: Task) {
    forall k, l :: FirstBest(providers, t.pieceIndex, k) && FirstBest(providers, u.pieceIndex, l) ==>
      providers[k].reputation > providers[l].reputation || (providers[k].reputation == providers[l].reputation && t.pieceIndex < u.pieceIndex)
  }

  /// What a selection must be: every missing piece that somebody serves, once, with the best provider for it,
  /// by falling reputation and then by index.
  ghost predicate Selection(tasks: seq<Task>, totalPieces: nat, held: set<nat>, providers: seq<Provider>) {
    && (forall i: nat :: i in Indices(tasks) <==> i < totalPieces && i !in held && exists p :: p in providers && CanServe(p, i))
    && (forall t :: t in tasks ==> FromBest(providers, t))
    && forall a, b :: 0 <= a < b < |tasks| ==> Sooner(providers, tasks[a], tasks[b])
  }

  lemma FindBest(providers: seq<Provider>, i: nat) returns (k: nat)
    requires exists p :: p in providers && CanServe(p, i)
    ensures FirstBest(providers, i, k) && Best(providers, i) == Some(providers[k])
  {
    k := FindFirstLeast(providers, Serving(i), BestFirst());
    assert FirstLeast(providers, Serving(i), BestFirst(), k);
    forall j | 0 <= j < |providers| && CanServe(providers[j], i)
      ensures providers[j].reputation < providers[k].reputation || (providers[j].reputation == providers[k].reputation && k <= j)
    {
      assert Serving(i)(providers[j]);
    }
    BestIsFirst(providers, i, k);
  }

  lemma FirstBestIsBest(providers: seq<Provider>, i: nat, k: int)
    requires FirstBest(providers, i, k)
    ensures Best(providers, i) == Some(providers[k])
  {
    BestIsFirst(providers, i, k);
  }

  /// The indices of a selection are ranked.
  lemma SelectionRanked(tasks: seq<Task>, totalPieces: nat, held: set<nat>, providers: seq<Provider>)
    requires Selection(tasks, totalPieces, held, providers)
    ensures Ranked(Indices(tasks), BestReputation(providers))
    ensures forall t :: t in tasks ==> Best(providers, t.pieceIndex).Some? && t.provider == Best(providers, t.pieceIndex).value.nodeId
  {
    hide Best;
    forall t | t in tasks
      ensures Best(providers, t.pieceIndex).Some? && t.provider == Best(providers, t.pieceIndex).value.nodeId
    {
      var k :| FirstBest(providers, t.pieceIndex, k) && t.provider == providers[k].nodeId;
      FirstBestIsBest(providers, t.pieceIndex, k);
    }
    forall a, b | 0 <= a < b < |tasks|
      ensures Before(BestReputation(providers), tasks[a].pieceIndex, tasks[b].pieceIndex)
    {
      assert FromBest(providers, tasks[a]) && FromBest(providers, tasks[b]) && Sooner(providers, tasks[a], tasks[b]);
      var k :| FirstBest(providers, tasks[a].pieceIndex, k);
      var l :| FirstBest(providers, tasks[b].pieceIndex, l);
      FirstBestIsBest(providers, tasks[a].pieceIndex, k);
      FirstBestIsBest(providers, tasks[b].pieceIndex, l);
    }
  }

  /// There is only one selection.
  lemma SelectionUnique(s: seq<Task>, t: seq<Task>, totalPieces: nat, held: set<nat>, providers: seq<Provider>)
    requires Selection(s, totalPieces, held, providers) && Selection(t, totalPieces, held, providers)
    ensures s == t
  {
    SelectionRanked(s, totalPieces, held, providers);
    SelectionRanked(t, totalPieces, held, providers);
    RankedUnique(Indices(s), Indices(t), BestReputation(providers));
    hide Best, Ranked;
    assert |s| == |Indices(s)| == |Indices(t)| == |t|;
    forall k | 0 <= k < |s| ensures s[k] == t[k] {
      assert s[k] in s && t[k] in t;
      assert Indices(s)[k] == s[k].pieceIndex && Indices(t)[k] == t[k].pieceIndex;
    }
  }

  lemma RankedIsSelection(tasks: seq<Task>, totalPieces: nat, held: set<nat>, providers: seq<Provider>)
    requires forall i: nat :: i in Indices(tasks) <==> i < totalPieces && i !in held && Best(providers, i).Some?
    requires forall t :: t in tasks ==> Best(providers, t.pieceIndex).Some? && t.provider == Best(providers, t.pieceIndex).value.nodeId
    requires Ranked(Indices(tasks), BestReputation(providers))
    ensures Selection(tasks, totalPieces, held, providers)
  {
    forall i: nat ensures Best(providers, i).Some? <==> exists p :: p in providers && CanServe(p, i) {
      BestIsBest(providers, i);
    }
    hide Best, CanServe;
    forall t | t in tasks ensures FromBest(providers, t) {
      var k := FindBest(providers, t.pieceIndex);
    }
    forall a, b | 0 <= a < b < |tasks| ensures Sooner(providers, tasks[a], tasks[b]) {
      var x, y := tasks[a].pieceIndex, tasks[b].pieceIndex;
      assert Before(BestReputation(providers), Indices(tasks)[a], Indices(tasks)[b]);
      forall k, l | FirstBest(providers, x, k) && FirstBest(providers, y, l)
        ensures providers[k].reputation > providers[l].reputation || (providers[k].reputation == providers[l].reputation && x < y)
      {
        FirstBestIsBest(providers, x, k);
        FirstBestIsBest(providers, y, l);
      }
    }
  }

  method SelectPiecesToFetch(hash: string, totalPieces: nat, store: ReplicaStore, providers: seq<Provider>) returns (tasks: seq<Task>)
    ensures Selection(tasks, totalPieces, store.Held(hash), providers)
  {
    var missing := MissingPieces(hash, totalPieces, store);
    var providerByPiece := ChooseProviders(missing, providers);
    var order := Sort(Filter(missing, Chosen(providerByPiece)), ChosenReputation(providerByPiece));
    tasks := Map(order, AsTask(providerByPiece));
    OrderIsSelection(missing, providerByPiece, providers, order);
    assert Indices(tasks) == order;
    RankedIsSelection(tasks, totalPieces, store.Held(hash), providers);
  }

  method MissingPieces(hash: string, totalPieces: nat, store: ReplicaStore) returns (missing: seq<nat>)
    ensures Ascending(missing) && forall i: nat :: i in missing <==> i < totalPieces && i !in store.Held(hash)
  {
    missing := [];
    for index := 0 to totalPieces
      invariant Ascending(missing) && forall i: nat :: i in missing <==> i < index && i !in store.Held(hash)
    {
      if !store.HasPiece(hash, index) {
        AscendingSnoc(missing, index);
        missing := missing + [index];
      }
    }
  }

  method ChooseProviders(missing: seq<nat>, providers: seq<Provider>) returns (chosen: map<nat, Provider>)
    ensures forall i: nat :: i in chosen <==> i in missing && Best(providers, i).Some?
    ensures forall i :: i in chosen ==> Some(chosen[i]) == Best(providers, i)
  {
    chosen := map[];
    for k := 0 to |missing|
      invariant forall i: nat :: i in chosen <==> i in missing[..k] && Best(providers, i).Some?
      invariant forall i :: i in chosen ==> Some(chosen[i]) == Best(providers, i)
    {
      assert missing[..k + 1] == missing[..k] + [missing[k]];
      var candidates := Filter(providers, Serving(missing[k]));
      if |candidates| > 0 {
        SortMember(candidates, BestFirst(), candidates[0]);
        chosen := chosen[missing[k] := Sort(candidates, BestFirst())[0]];
      }
    }
    assert missing[..|missing|] == missing;
  }

  lemma OrderIsSelection(missing: seq<nat>, chosen: map<nat, Provider>, providers: seq<Provider>, order: seq<nat>)
    requires Ascending(missing) && order == Sort(Filter(missing, Chosen(chosen)), ChosenReputation(chosen))
    requires forall i: nat :: i in chosen <==> i in missing && Best(providers, i).Some?
    requires forall i :: i in chosen ==> Some(chosen[i]) == Best(providers, i)
    ensures forall i: nat :: i in order <==> i in chosen
    ensures Ranked(order, BestReputation(providers))
  {
    var kept := Filter(missing, Chosen(chosen));
    FilterAscending(missing, Chosen(chosen));
    RankedByIndex(kept, ChosenReputation(chosen));
    forall i: nat ensures i in order <==> i in chosen {
      SortMember(kept, ChosenReputation(chosen), i);
      FilterMember(missing, Chosen(chosen), i);
    }
    hide Sort, Filter, Best;
    forall a | 0 <= a < |order|
      ensures ChosenReputation(chosen)(order[a]) == BestReputation(providers)(order[a])
    {
      assert order[a] in order;
    }
  }
}

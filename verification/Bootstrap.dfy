/// The bootstrap node's cache of service records (src/node/bootstrap-service.ts).
module Bootstrap {
  import opened Wrappers
  import opened Sorting

  const DELTA_REQUEST := 20800
  const SERVICE_RECORD := 30181

  /// A signed event, with its `expiration` tag read as the source reads it: a number of seconds after
  /// `createdAt`, absent when the tag is missing or not a finite number.
  datatype Record = Record(id: string, kind: int, pubkey: string, createdAt: int, ttl: Option<real>)

  predicate Expired(r: Record, now: int) {
    r.ttl.Some? && r.createdAt as real + r.ttl.value <= now as real
  }

  // ---------- the cache as a value: records in insertion order ----------

  ghost predicate UniquePubkeys(cache: seq<Record>) {
    forall i, j :: 0 <= i < j < |cache| ==> cache[i].pubkey != cache[j].pubkey
  }

  function Find(cache: seq<Record>, pubkey: string): (r: Option<nat>)
    ensures r.Some? ==> r.value < |cache| && cache[r.value].pubkey == pubkey
    ensures r.None? ==> forall i :: 0 <= i < |cache| ==> cache[i].pubkey != pubkey
  {
    if cache == [] then None
    else if cache[|cache| - 1].pubkey == pubkey then Some(|cache| - 1)
    else Find(cache[..|cache| - 1], pubkey)
  }

  /// The first record of least time.
  function Oldest(cache: seq<Record>): (k: nat)
    requires cache != []
    ensures k < |cache|
    ensures forall i :: 0 <= i < |cache| ==> cache[k].createdAt <= cache[i].createdAt
    ensures forall i :: 0 <= i < k ==> cache[k].createdAt < cache[i].createdAt
  {
    if |cache| == 1 then 0
    else
      var k := Oldest(cache[..|cache| - 1]);
      if cache[|cache| - 1].createdAt < cache[k].createdAt then |cache| - 1 else k
  }

  function NotPubkey(pubkey: string): Record -> bool {
    (r: Record) => r.pubkey != pubkey
  }

  function Remove(cache: seq<Record>, pubkey: string): seq<Record> {
    Filter(cache, NotPubkey(pubkey))
  }

  /// Eviction. The source tests the found pubkey for truth, so an empty one is not evicted.
  function EvictOldest(cache: seq<Record>): seq<Record> {
    if cache == [] || cache[Oldest(cache)].pubkey == "" then cache
    else Remove(cache, cache[Oldest(cache)].pubkey)
  }

  /// An accepted service record: only a strictly newer one replaces, in place; a new pubkey evicts
  /// when the cache is full.
  function Accept(cache: seq<Record>, r: Record, maxPeers: nat): seq<Record> {
    match Find(cache, r.pubkey)
    case Some(k) => if cache[k].createdAt >= r.createdAt then cache else cache[k := r]
    case None => (if |cache| >= maxPeers then EvictOldest(cache) else cache) + [r]
  }

  ghost predicate FirstOldest(cache: seq<Record>, k: int) {
    && 0 <= k < |cache|
    && forall j :: 0 <= j < |cache| ==>
         cache[k].createdAt < cache[j].createdAt || (cache[k].createdAt == cache[j].createdAt && k <= j)
  }

  /// What caching r makes of the cache: it takes the place of the record of its pubkey, if there is one, and
  /// otherwise comes last, and if the cache was full the first of the oldest goes, unless its pubkey is empty.
  ghost predicate Taken(cache: seq<Record>, r: Record, maxPeers: nat, after: seq<Record>) {
    if exists x :: x in cache && x.pubkey == r.pubkey then exists k :: 0 <= k < |cache| && cache[k].pubkey == r.pubkey && after == cache[k := r]
    else if cache == [] || |cache| < maxPeers then after == cache + [r]
    else exists k :: FirstOldest(cache, k) && after == if cache[k].pubkey == "" then cache + [r] else cache[..k] + cache[k + 1..] + [r]
  }

  lemma AcceptedIsTaken(cache: seq<Record>, r: Record, maxPeers: nat)
    requires UniquePubkeys(cache)
    ensures var after := Accept(cache, r, maxPeers);
            if exists x :: x in cache && x.pubkey == r.pubkey && x.createdAt >= r.createdAt then after == cache
            else Taken(cache, r, maxPeers, after)
  {
    match Find(cache, r.pubkey)
    case Some(k) => assert cache[k] in cache;
    case None =>
      if cache != [] {
        var k := Oldest(cache);
        assert FirstOldest(cache, k);
        RemovePosition(cache, k);
      }
  }

  lemma RemovedMembers(cache: seq<Record>, peer: string)
    ensures forall x :: x in Remove(cache, peer) <==> x in cache && x.pubkey != peer
  {
    forall x ensures x in Remove(cache, peer) <==> x in cache && x.pubkey != peer {
      FilterMember(cache, NotPubkey(peer), x);
    }
  }

  lemma SweptMembers(verify: Record -> bool, pubkey: string, maxPeers: nat, cache: seq<Record>, now: int)
    ensures forall x :: x in Step(verify, pubkey, maxPeers, cache, Swept(now))
                        <==> x in cache && !(x.ttl.Some? && x.createdAt as real + x.ttl.value <= now as real)
  {
    forall x ensures x in Filter(cache, Unexpired(now)) <==> x in cache && !Expired(x, now) {
      FilterMember(cache, Unexpired(now), x);
    }
  }

  function Unexpired(now: int): Record -> bool {
    (r: Record) => !Expired(r, now)
  }

  /// What the service is told: a message at a time of the clock, a disconnect, a tick of the eviction timer.
  datatype Op = Heard(record: Record, now: int) | Disconnected(peer: string) | Swept(now: int)

  predicate Accepted(verify: Record -> bool, pubkey: string, r: Record, now: int) {
    r.kind == SERVICE_RECORD && verify(r) && r.pubkey != pubkey && !Expired(r, now)
  }

  function Step(verify: Record -> bool, pubkey: string, maxPeers: nat, cache: seq<Record>, op: Op): seq<Record> {
    match op
    case Heard(r, now) => if Accepted(verify, pubkey, r, now) then Accept(cache, r, maxPeers) else cache
    case Disconnected(peer) => Remove(cache, peer)
    case Swept(now) => Filter(cache, Unexpired(now))
  }

  function Run(verify: Record -> bool, pubkey: string, maxPeers: nat, ops: seq<Op>): seq<Record> {
    if ops == [] then []
    else Step(verify, pubkey, maxPeers, Run(verify, pubkey, maxPeers, ops[..|ops| - 1]), ops[|ops| - 1])
  }

  // ---------- the service ----------

  class BootstrapService {
    const pubkey: string
    const maxPeers: nat
    const verify: Record -> bool
    var order: seq<string>
    var cache: map<string, Record>

    ghost predicate Valid()
      reads this
    {
      && (forall i, j :: 0 <= i < j < |order| ==> order[i] != order[j])
      && (forall k :: k in order <==> k in cache)
      && (forall k :: k in cache ==> cache[k].pubkey == k)
    }

    /// The map's values in insertion order.
    ghost function View(): (r: seq<Record>)
      requires Valid()
      reads this
      ensures |r| == |order|
      ensures forall i {:trigger r[i]} :: 0 <= i < |r| ==> order[i] in cache && r[i] == cache[order[i]] && r[i].pubkey == order[i]
      ensures UniquePubkeys(r)
    {
      assert forall i :: 0 <= i < |order| ==> order[i] in order;
      seq(|order|, i requires 0 <= i < |order| && order[i] in cache reads this => cache[order[i]])
    }

    constructor (pubkey: string, maxPeers: nat, verify: Record -> bool)
      ensures Valid() && View() == [] && this.pubkey == pubkey && this.maxPeers == maxPeers && this.verify == verify
    {
      this.pubkey, this.maxPeers, this.verify := pubkey, maxPeers, verify;
      order, cache := [], map[];
    }

    /// `Map.delete`.
    method Delete(key: string)
      requires Valid()
      modifies this
      ensures Valid() && View() == Remove(old(View()), key)
    {
      ghost var before := View();
      ghost var keys := order;
      order := Filter(order, (k: string) => k != key);
      cache := cache - {key};
      DeleteTogether(before, keys, order, key);
      forall k ensures k in order <==> k in cache {
        FilterMember(keys, (x: string) => x != key, k);
      }
      assert View() == Remove(before, key);
    }

    static lemma {:induction false} DeleteTogether(before: seq<Record>, keys: seq<string>, kept: seq<string>, key: string)
      requires Paired(before, keys)
      requires forall i, j :: 0 <= i < j < |keys| ==> keys[i] != keys[j]
      requires kept == Filter(keys, (k: string) => k != key)
      ensures forall i, j :: 0 <= i < j < |kept| ==> kept[i] != kept[j]
      ensures |Remove(before, key)| == |kept|
      ensures forall i :: 0 <= i < |kept| ==> Remove(before, key)[i].pubkey == kept[i] && Remove(before, key)[i] in before
    {
      if keys != [] {
        var n := |keys| - 1;
        DeleteTogether(before[..n], keys[..n], Filter(keys[..n], (k: string) => k != key), key);
        FilterMember(keys[..n], (k: string) => k != key, keys[n]);
      }
    }

    /// `Map.set`: an existing key keeps its place.
    method Set(r: Record)
      requires Valid()
      modifies this
      ensures Valid()
      ensures View() == match Find(old(View()), r.pubkey) case Some(k) => old(View())[k := r] case None => old(View()) + [r]
    {
      ghost var before := View();
      ghost var found := Find(before, r.pubkey);
      FoundInCache(r.pubkey);
      if r.pubkey !in cache {
        order := order + [r.pubkey];
      }
      cache := cache[r.pubkey := r];
      assert View() == match found case Some(k) => before[k := r] case None => before + [r];
    }

    method EvictOldestEntry()
      requires Valid()
      modifies this
      ensures Valid() && View() == EvictOldest(old(View()))
    {
      var oldestPubkey: Option<string> := None;
      var oldestTime := 0;
      hide Oldest, Remove;
      ghost var view := View();
      for i := 0 to |order|
        invariant Valid() && View() == view
        invariant oldestPubkey.None? <==> i == 0
        invariant i > 0 ==> var k := Oldest(view[..i]); oldestPubkey == Some(view[k].pubkey) && oldestTime == view[k].createdAt
      {
        assert view[i] == cache[order[i]];
        assert view[..i + 1] == view[..i] + [view[i]];
        var event := cache[order[i]];
        if oldestPubkey.None? || event.createdAt < oldestTime {
          oldestTime := event.createdAt;
          oldestPubkey := Some(order[i]);
        }
      }
      assert view[..|order|] == view;
      if oldestPubkey.Some? && oldestPubkey.value != "" {
        Delete(oldestPubkey.value);
      }
    }

    /// A delta request is answered with the cached ids; a service record that is signed, foreign,
    /// unexpired and news is cached and passed on. Nothing else changes anything.
    method HandleEvent(r: Record, now: int) returns (broadcast: bool, reply: Option<seq<string>>)
      requires Valid()
      modifies this
      ensures Valid()
      ensures reply.Some? <==> r.kind == 20800
      ensures reply.Some? ==> |reply.value| == |View()| && forall i :: 0 <= i < |View()| ==> reply.value[i] == View()[i].id
      ensures broadcast <==> r.kind == 30181 && verify(r) && r.pubkey != pubkey
                             && !(r.ttl.Some? && r.createdAt as real + r.ttl.value <= now as real)
                             && forall x :: x in old(View()) && x.pubkey == r.pubkey ==> x.createdAt < r.createdAt
      ensures if broadcast then Taken(old(View()), r, maxPeers, View()) else View() == old(View())
      ensures View() == Step(verify, pubkey, maxPeers, old(View()), Heard(r, now))
    {
      AcceptedIsTaken(View(), r, maxPeers);
      hide Find, Filter, Oldest, Taken;
      broadcast, reply := false, None;
      if r.kind == DELTA_REQUEST {
        reply := Some([]);
        var ids := CachedIds();
        reply := Some(ids);
        return;
      }
      if r.kind != SERVICE_RECORD || !verify(r) || r.pubkey == pubkey || Expired(r, now) {
        return;
      }
      ghost var view := View();
      ghost var found := Find(view, r.pubkey);
      FoundInCache(r.pubkey);
      if r.pubkey in cache && cache[r.pubkey].createdAt >= r.createdAt {
        assert view[found.value] in view;
        return;
      }
      if r.pubkey !in cache && |order| >= maxPeers {
        EvictOldestEntry();
        EvictKeepsAbsence(view, r.pubkey);
      }
      Set(r);
      broadcast := true;
    }

    lemma FoundInCache(key: string)
      requires Valid()
      ensures Find(View(), key).Some? <==> key in cache
      ensures key in cache ==> View()[Find(View(), key).value] == cache[key]
    {
      if key in cache {
        assert key in order;
        var i :| 0 <= i < |order| && order[i] == key;
        assert View()[i].pubkey == key;
      }
    }

    static lemma EvictKeepsAbsence(view: seq<Record>, key: string)
      requires Find(view, key).None?
      ensures Find(EvictOldest(view), key).None?
    {
      var after := EvictOldest(view);
      if after != view {
        match Find(after, key)
        case None =>
        case Some(k) =>
          FilterMember(view, NotPubkey(view[Oldest(view)].pubkey), after[k]);
      }
    }

    method CachedIds() returns (ids: seq<string>)
      requires Valid()
      ensures ids == Map(View(), (x: Record) => x.id)
    {
      ids := [];
      for i := 0 to |order|
        invariant |ids| == i && forall j :: 0 <= j < i ==> ids[j] == View()[j].id
      {
        assert View()[i] == cache[order[i]];
        ids := ids + [cache[order[i]].id];
      }
    }

    method OnPeerDisconnected(peer: string)
      requires Valid()
      modifies this
      ensures Valid() && View() == Step(verify, pubkey, maxPeers, old(View()), Disconnected(peer))
      ensures forall x :: x in View() <==> x in old(View()) && x.pubkey != peer
    {
      RemovedMembers(View(), peer);
      Delete(peer);
    }

    method EvictExpired(now: int)
      requires Valid()
      modifies this
      ensures Valid() && View() == Step(verify, pubkey, maxPeers, old(View()), Swept(now))
      ensures forall x :: x in View() <==> x in old(View()) && !(x.ttl.Some? && x.createdAt as real + x.ttl.value <= now as real)
    {
      SweptMembers(verify, pubkey, maxPeers, View(), now);
      hide Filter, UniquePubkeys, SweptTo, Remove, Valid, View, Step, Paired;
      var keys := order;
      ghost var view := View();
      SweepStarts(now);
      for i := 0 to |keys|
        invariant Valid() && View() == SweptTo(view, i, now)
      {
        SweepKey(keys, i, now, view);
      }
    }

    lemma SweepStarts(now: int)
      requires Valid()
      ensures Paired(View(), order) && View() == SweptTo(View(), 0, now)
      ensures Step(verify, pubkey, maxPeers, View(), Swept(now)) == SweptTo(View(), |View()|, now)
    {
      SweptEnds(View(), now);
    }

    /// One step of a sweep over the keys it started with.
    method SweepKey(keys: seq<string>, i: nat, now: int, ghost view: seq<Record>)
      requires Valid() && UniquePubkeys(view) && Paired(view, keys) && i < |keys| && View() == SweptTo(view, i, now)
      modifies this
      ensures Valid() && View() == SweptTo(view, i + 1, now)
    {
      var key := keys[i];
      CachedStill(view, i, key, now);
      StillThere(view, i, now);
      if Expired(cache[key], now) {
        Delete(key);
      }
    }

    /// The next key of a sweep has not been swept away yet.
    lemma CachedStill(view: seq<Record>, i: nat, key: string, now: int)
      requires Valid() && i < |view| && view[i].pubkey == key
      requires View() == SweptTo(view, i, now)
      ensures key in cache && cache[key] == view[i]
    {
      var k := |Filter(view[..i], Unexpired(now))|;
      assert View()[k] == view[i];
      assert order[k] in order;
    }

    /// One step of a sweep: the next record is deleted or kept.
    static lemma StillThere(view: seq<Record>, i: nat, now: int)
      requires UniquePubkeys(view) && i < |view|
      ensures SweptTo(view, i + 1, now)
              == if Expired(view[i], now) then Remove(SweptTo(view, i, now), view[i].pubkey) else SweptTo(view, i, now)
    {
      var front, rest, key := Filter(view[..i], Unexpired(now)), view[i + 1..], view[i].pubkey;
      assert view[..i + 1] == view[..i] + [view[i]];
      FilterSnoc(view[..i], view[i], Unexpired(now));
      assert front + view[i..] == (front + [view[i]]) + rest;
      if Expired(view[i], now) {
        FilterConcat(front + [view[i]], rest, NotPubkey(key));
        FilterSnoc(front, view[i], NotPubkey(key));
        forall x | x in front ensures x.pubkey != key {
          FilterMember(view[..i], Unexpired(now), x);
        }
        RemoveAbsent(front, key);
        RemoveAbsent(rest, key);
      }
    }
  }

  ghost predicate Paired(view: seq<Record>, keys: seq<string>) {
    |view| == |keys| && forall i :: 0 <= i < |view| ==> view[i].pubkey == keys[i]
  }

  /// The cache when a sweep has come to position i.
  function SweptTo(view: seq<Record>, i: nat, now: int): seq<Record>
    requires i <= |view|
  {
    Filter(view[..i], Unexpired(now)) + view[i..]
  }

  lemma SweptEnds(view: seq<Record>, now: int)
    ensures SweptTo(view, 0, now) == view && SweptTo(view, |view|, now) == Filter(view, Unexpired(now))
  {
    assert view[..|view|] == view;
  }

  lemma RemoveAbsent(s: seq<Record>, key: string)
    requires forall x :: x in s ==> x.pubkey != key
    ensures Remove(s, key) == s
  {
    FilterAll(s, NotPubkey(key));
  }

  // ---------- the bound ----------

  lemma {:induction false} RemoveSize(cache: seq<Record>, k: nat)
    requires UniquePubkeys(cache) && k < |cache|
    ensures |Remove(cache, cache[k].pubkey)| == |cache| - 1
    ensures UniquePubkeys(Remove(cache, cache[k].pubkey))
    ensures forall x :: x in Remove(cache, cache[k].pubkey) <==> x in cache && x != cache[k]
  {
    hide Remove;
    RemovePosition(cache, k);
    var rest := cache[..k] + cache[k + 1..];
    forall x | x in cache && x != cache[k] ensures x in rest {
      var i :| 0 <= i < |cache| && cache[i] == x;
      assert x == if i < k then rest[i] else rest[i - 1];
    }
  }

  function Bound(maxPeers: nat): nat {
    if maxPeers > 1 then maxPeers else 1
  }

  /// A verified pubkey is not empty, so a full cache always finds something to evict. Then the cache
  /// never holds more than maxPeers records (one, if maxPeers is 0).
  lemma AcceptBounded(cache: seq<Record>, r: Record, maxPeers: nat)
    requires UniquePubkeys(cache) && |cache| <= Bound(maxPeers)
    requires r.pubkey != "" && forall x :: x in cache ==> x.pubkey != ""
    ensures var after := Accept(cache, r, maxPeers);
            && UniquePubkeys(after) && |after| <= Bound(maxPeers) && forall x :: x in after ==> x.pubkey != ""
  {
    match Find(cache, r.pubkey)
    case Some(k) =>
    case None =>
      var kept := if |cache| >= maxPeers then EvictOldest(cache) else cache;
      if |cache| >= maxPeers && cache != [] {
        RemoveSize(cache, Oldest(cache));
      }
      assert forall x :: x in kept ==> x in cache && x.pubkey != r.pubkey;
      assert forall i :: 0 <= i < |kept| ==> kept[i] in kept;
  }

  /// What `r.pubkey != ""` is for: an empty pubkey would never be evicted. Verification rejects it, so
  /// no run gets there.
  lemma EmptyPubkeyBreaksBound(r: Record, s: Record)
    requires r.pubkey == "" && s.pubkey != "" && r.createdAt <= s.createdAt
    ensures |Accept(Accept([], r, 1), s, 1)| == 2
  {
  }

  /// While a pubkey stays cached its time strictly rises with every change of its record.
  lemma TimeRises(cache: seq<Record>, r: Record, maxPeers: nat, x: Record, y: Record)
    requires UniquePubkeys(cache) && x in cache && y in Accept(cache, r, maxPeers) && x.pubkey == y.pubkey
    ensures y == x || y.createdAt > x.createdAt
  {
    match Find(cache, r.pubkey)
    case Some(k) =>
    case None =>
      if y != r {
        forall z | z in EvictOldest(cache) ensures z in cache {
          FilterMember(cache, NotPubkey(cache[Oldest(cache)].pubkey), z);
        }
      }
  }

  /// A record kept by a filter keeps its place among the others.
  lemma {:induction false} FilterUnique(cache: seq<Record>, p: Record -> bool)
    requires UniquePubkeys(cache)
    ensures UniquePubkeys(Filter(cache, p)) && |Filter(cache, p)| <= |cache|
  {
    if cache != [] {
      var front, last := cache[..|cache| - 1], cache[|cache| - 1];
      FilterUnique(front, p);
      forall x | x in Filter(front, p) ensures x.pubkey != last.pubkey {
        FilterMember(front, p, x);
      }
    }
  }

  ghost predicate SignersNamed(verify: Record -> bool) {
    forall r: Record :: verify(r) ==> r.pubkey != ""
  }

  /// Over every run of messages, disconnects and sweeps the cache holds one record per pubkey and
  /// never more than maxPeers of them.
  lemma {:induction false} RunBounded(verify: Record -> bool, pubkey: string, maxPeers: nat, ops: seq<Op>)
    requires SignersNamed(verify)
    ensures var cache := Run(verify, pubkey, maxPeers, ops);
            && UniquePubkeys(cache) && |cache| <= Bound(maxPeers)
            && forall x :: x in cache ==> x.pubkey != "" && verify(x) && x.pubkey != pubkey
  {
    if ops != [] {
      RunBounded(verify, pubkey, maxPeers, ops[..|ops| - 1]);
      StepBounded(verify, pubkey, maxPeers, Run(verify, pubkey, maxPeers, ops[..|ops| - 1]), ops[|ops| - 1]);
    }
  }

  /// Whatever is cached was heard: as a verified, foreign service record, at a time when it was not expired.
  lemma {:induction false} RunHeard(verify: Record -> bool, pubkey: string, maxPeers: nat, ops: seq<Op>, x: Record)
    requires x in Run(verify, pubkey, maxPeers, ops)
    ensures exists i :: 0 <= i < |ops| && ops[i].Heard? && ops[i].record == x
                        && !(x.ttl.Some? && x.createdAt as real + x.ttl.value <= ops[i].now as real)
    ensures x.kind == 30181 && verify(x) && x.pubkey != pubkey
  {
    if ops != [] {
      var front, op := ops[..|ops| - 1], ops[|ops| - 1];
      StepMember(verify, pubkey, maxPeers, Run(verify, pubkey, maxPeers, front), op, x);
      hide Step;
      if x in Run(verify, pubkey, maxPeers, front) {
        RunHeard(verify, pubkey, maxPeers, front, x);
        var i :| 0 <= i < |front| && front[i].Heard? && front[i].record == x
          && !(x.ttl.Some? && x.createdAt as real + x.ttl.value <= front[i].now as real);
        assert ops[i] == front[i];
      } else {
        assert ops[|ops| - 1] == op;
      }
    }
  }

  /// With `maxPeers` 0 one record is held all the same: "never more than maxPeers" holds exactly from
  /// one place on, whenever there is a record to accept at all.
  lemma BoundHolds(verify: Record -> bool, pubkey: string, maxPeers: nat, r: Record, now: int)
    requires SignersNamed(verify) && Accepted(verify, pubkey, r, now)
    ensures (forall ops :: |Run(verify, pubkey, maxPeers, ops)| <= maxPeers) <==> maxPeers >= 1
  {
    if maxPeers >= 1 {
      forall ops ensures |Run(verify, pubkey, maxPeers, ops)| <= maxPeers {
        RunBounded(verify, pubkey, maxPeers, ops);
      }
    } else {
      var ops := [Heard(r, now)];
      assert ops[..0] == [];
      assert Run(verify, pubkey, maxPeers, ops) == [r];
    }
  }

  lemma StepBounded(verify: Record -> bool, pubkey: string, maxPeers: nat, cache: seq<Record>, op: Op)
    requires SignersNamed(verify) && UniquePubkeys(cache) && |cache| <= Bound(maxPeers)
    requires forall x :: x in cache ==> x.pubkey != "" && verify(x) && x.pubkey != pubkey
    ensures var after := Step(verify, pubkey, maxPeers, cache, op);
            && UniquePubkeys(after) && |after| <= Bound(maxPeers)
            && forall x :: x in after ==> x.pubkey != "" && verify(x) && x.pubkey != pubkey
  {
    hide UniquePubkeys, Find, Filter;
    forall x | x in Step(verify, pubkey, maxPeers, cache, op)
      ensures x in cache || (op.Heard? && x == op.record && Accepted(verify, pubkey, x, op.now))
    {
      StepMember(verify, pubkey, maxPeers, cache, op, x);
    }
    match op
    case Heard(r, now) =>
      if Accepted(verify, pubkey, r, now) {
        AcceptBounded(cache, r, maxPeers);
      }
    case Disconnected(peer) => FilterUnique(cache, NotPubkey(peer));
    case Swept(now) => FilterUnique(cache, Unexpired(now));
  }

  /// Nothing enters the cache but the accepted record.
  lemma StepMember(verify: Record -> bool, pubkey: string, maxPeers: nat, cache: seq<Record>, op: Op, x: Record)
    requires x in Step(verify, pubkey, maxPeers, cache, op)
    ensures x in cache || (op.Heard? && x == op.record && Accepted(verify, pubkey, x, op.now))
  {
    match op
    case Heard(r, now) =>
      if cache != [] {
        FilterMember(cache, NotPubkey(cache[Oldest(cache)].pubkey), x);
      }
    case Disconnected(peer) => FilterMember(cache, NotPubkey(peer), x);
    case Swept(now) => FilterMember(cache, Unexpired(now), x);
  }

  ghost predicate Cached(cache: seq<Record>, pubkey: string) {
    exists x :: x in cache && x.pubkey == pubkey
  }

  /// While a pubkey stays cached, from any point of a run on, its record only ever gives way to one
  /// of strictly later time.
  lemma {:induction false} RunTimeRises(verify: Record -> bool, own: string, maxPeers: nat, ops: seq<Op>, from: nat, x: Record, y: Record)
    requires SignersNamed(verify) && from <= |ops| && x.pubkey == y.pubkey
    requires forall k :: from <= k <= |ops| ==> Cached(Run(verify, own, maxPeers, ops[..k]), x.pubkey)
    requires x in Run(verify, own, maxPeers, ops[..from]) && y in Run(verify, own, maxPeers, ops)
    ensures y == x || y.createdAt > x.createdAt
    decreases |ops|
  {
    RunBounded(verify, own, maxPeers, ops);
    assert ops[..|ops|] == ops;
    if from < |ops| {
      var front := ops[..|ops| - 1];
      assert forall k :: from <= k <= |front| ==> front[..k] == ops[..k];
      assert Cached(Run(verify, own, maxPeers, ops[..|ops| - 1]), x.pubkey);
      var z :| z in Run(verify, own, maxPeers, front) && z.pubkey == x.pubkey;
      RunTimeRises(verify, own, maxPeers, front, from, x, z);
      RunBounded(verify, own, maxPeers, front);
      StepTimeRises(verify, own, maxPeers, Run(verify, own, maxPeers, front), ops[|ops| - 1], z, y);
    }
  }

  lemma StepTimeRises(verify: Record -> bool, own: string, maxPeers: nat, cache: seq<Record>, op: Op, x: Record, y: Record)
    requires UniquePubkeys(cache) && x in cache && y in Step(verify, own, maxPeers, cache, op) && x.pubkey == y.pubkey
    ensures y == x || y.createdAt > x.createdAt
  {
    if op.Heard? && Accepted(verify, own, op.record, op.now) {
      TimeRises(cache, op.record, maxPeers, x, y);
    } else {
      StepMember(verify, own, maxPeers, cache, op, y);
    }
  }

  // ---------- least recently used ----------

  /// Every pubkey heard, with its latest record, least recently heard first.
  function Recency(run: seq<Record>): seq<Record> {
    if run == [] then []
    else
      var r := run[|run| - 1];
      Remove(Recency(run[..|run| - 1]), r.pubkey) + [r]
  }

  /// The last records of a list, at most n of them.
  function LastOf(s: seq<Record>, n: nat): seq<Record> {
    if |s| <= n then s else s[|s| - n..]
  }

  ghost predicate Rising(s: seq<Record>) {
    forall i, j :: 0 <= i < j < |s| ==> s[i].createdAt < s[j].createdAt
  }

  predicate IsLatest(run: seq<Record>, r: Record) {
    exists i :: 0 <= i < |run| && run[i] == r && forall j :: i < j < |run| ==> run[j].pubkey != r.pubkey
  }

  /// Recency lists exactly the latest record of every pubkey, once, in order of time.
  lemma {:induction false} RecencyIsLatest(run: seq<Record>, r: Record)
    requires Rising(run)
    ensures r in Recency(run) <==> IsLatest(run, r)
    ensures UniquePubkeys(Recency(run)) && Rising(Recency(run))
    ensures forall x :: x in Recency(run) ==> x in run
  {
    if run != [] {
      var front, last := run[..|run| - 1], run[|run| - 1];
      assert run == front + [last];
      RecencyIsLatest(front, r);
      FilterMember(Recency(front), NotPubkey(last.pubkey), r);
      RecencyStep(Recency(front), last);
      LatestStep(front, last, r);
      forall x | x in Recency(run) ensures x in run {
        FilterMember(Recency(front), NotPubkey(last.pubkey), x);
      }
    }
  }

  lemma LatestStep(front: seq<Record>, last: Record, r: Record)
    ensures IsLatest(front + [last], r) <==> r == last || (IsLatest(front, r) && r.pubkey != last.pubkey)
  {
    var run := front + [last];
    if IsLatest(run, r) {
      var i :| 0 <= i < |run| && run[i] == r && forall j :: i < j < |run| ==> run[j].pubkey != r.pubkey;
      if i < |front| {
        assert run[|front|].pubkey != r.pubkey;
        assert front[i] == r && forall j :: i < j < |front| ==> front[j] == run[j];
      }
    }
    if r == last {
      assert run[|front|] == r;
    }
    if IsLatest(front, r) && r.pubkey != last.pubkey {
      var i :| 0 <= i < |front| && front[i] == r && forall j :: i < j < |front| ==> front[j].pubkey != r.pubkey;
      assert run[i] == r && forall j :: i < j < |front| ==> run[j] == front[j];
    }
  }

  lemma {:induction false} RecencyStep(list: seq<Record>, r: Record)
    requires UniquePubkeys(list) && Rising(list) && forall x :: x in list ==> x.createdAt < r.createdAt
    ensures UniquePubkeys(Remove(list, r.pubkey) + [r]) && Rising(Remove(list, r.pubkey) + [r])
  {
    hide Remove;
    match Find(list, r.pubkey)
    case None => RemoveAbsent(list, r.pubkey);
    case Some(k) => RemovePosition(list, k);
  }

  lemma RemovePosition(list: seq<Record>, k: nat)
    requires UniquePubkeys(list) && k < |list|
    ensures Remove(list, list[k].pubkey) == list[..k] + list[k + 1..]
  {
    var key := list[k].pubkey;
    assert list == (list[..k] + [list[k]]) + list[k + 1..];
    FilterConcat(list[..k] + [list[k]], list[k + 1..], NotPubkey(key));
    FilterSnoc(list[..k], list[k], NotPubkey(key));
    RemoveAbsent(list[..k], key);
    RemoveAbsent(list[k + 1..], key);
  }

  ghost predicate SameRecords(a: seq<Record>, b: seq<Record>) {
    |a| == |b| && forall x :: x in a <==> x in b
  }

  /// One step of the cache against one step of the recency list.
  lemma AcceptIsLru(cache: seq<Record>, list: seq<Record>, r: Record, maxPeers: nat)
    requires maxPeers >= 1 && UniquePubkeys(cache) && UniquePubkeys(list) && Rising(list)
    requires r.pubkey != "" && forall x :: x in list ==> x.createdAt < r.createdAt && x.pubkey != ""
    requires SameRecords(cache, LastOf(list, maxPeers))
    ensures SameRecords(Accept(cache, r, maxPeers), LastOf(Remove(list, r.pubkey) + [r], maxPeers))
  {
    match Find(cache, r.pubkey)
    case Some(k) => CachedAgain(cache, list, r, maxPeers, k);
    case None =>
      assert forall x :: x in LastOf(list, maxPeers) ==> x in cache && x.pubkey != r.pubkey;
      NewlyCached(cache, list, r, maxPeers);
  }

  /// Putting r in the place of one shared record keeps two unrepeating lists equal as sets.
  lemma ReplaceSame(a: seq<Record>, b: seq<Record>, k: nat, i: nat, r: Record)
    requires UniquePubkeys(a) && UniquePubkeys(b) && SameRecords(a, b)
    requires k < |a| && i < |b| && a[k] == b[i]
    ensures SameRecords(a[k := r], b[..i] + b[i + 1..] + [r])
  {
    var after, rest := a[k := r], b[..i] + b[i + 1..];
    forall x | x in after && x != r ensures x in rest {
      var j :| 0 <= j < |a| && after[j] == x;
      assert a[j] == x && x in b;
      var h :| 0 <= h < |b| && b[h] == x;
      assert h != i;
    }
    forall x | x in rest ensures x in after {
      var h :| 0 <= h < |b| && b[h] == x && h != i;
      assert x in b && x in a;
      var j :| 0 <= j < |a| && a[j] == x;
      assert after[j] == x;
    }
    assert after[k] == r;
  }

  lemma LastOfUnique(list: seq<Record>, n: nat)
    requires UniquePubkeys(list)
    ensures UniquePubkeys(LastOf(list, n))
    ensures forall x :: x in LastOf(list, n) ==> x in list
    ensures list == list[..|list| - |LastOf(list, n)|] + LastOf(list, n)
  {
  }

  lemma CachedAgain(cache: seq<Record>, list: seq<Record>, r: Record, maxPeers: nat, k: nat)
    requires maxPeers >= 1 && UniquePubkeys(cache) && UniquePubkeys(list)
    requires forall x :: x in list ==> x.createdAt < r.createdAt
    requires SameRecords(cache, LastOf(list, maxPeers))
    requires Find(cache, r.pubkey) == Some(k)
    ensures SameRecords(Accept(cache, r, maxPeers), LastOf(Remove(list, r.pubkey) + [r], maxPeers))
  {
    hide Remove, UniquePubkeys, Find, LastOf, SameRecords;
    var kept := LastOf(list, maxPeers);
    LastOfUnique(list, maxPeers);
    var i := SharedRecord(cache, kept, k);
    var p := |list| - |kept| + i;
    assert list[p] == cache[k];
    RemovePosition(list, p);
    LastOfSplice(list, maxPeers, i, r);
    ReplaceSame(cache, kept, k, i, r);
    assert cache[k] in list;
  }

  lemma SharedRecord(a: seq<Record>, b: seq<Record>, k: nat) returns (i: nat)
    requires SameRecords(a, b) && k < |a|
    ensures i < |b| && b[i] == a[k]
  {
    assert a[k] in b;
    i :| 0 <= i < |b| && b[i] == a[k];
  }

  lemma LastOfSplice(list: seq<Record>, n: nat, i: nat, r: Record)
    requires n >= 1 && i < |LastOf(list, n)|
    ensures var kept, p := LastOf(list, n), |list| - |LastOf(list, n)| + i;
            LastOf(list[..p] + list[p + 1..] + [r], n) == kept[..i] + kept[i + 1..] + [r]
  {
  }

  lemma NewlyCached(cache: seq<Record>, list: seq<Record>, r: Record, maxPeers: nat)
    requires maxPeers >= 1 && UniquePubkeys(cache) && UniquePubkeys(list) && Rising(list)
    requires r.pubkey != "" && forall x :: x in list ==> x.pubkey != ""
    requires SameRecords(cache, LastOf(list, maxPeers))
    requires Find(cache, r.pubkey).None? && forall x :: x in LastOf(list, maxPeers) ==> x.pubkey != r.pubkey
    ensures SameRecords(Accept(cache, r, maxPeers), LastOf(Remove(list, r.pubkey) + [r], maxPeers))
  {
    hide Remove, Find, UniquePubkeys, Rising, Oldest;
    var kept, shorter := LastOf(list, maxPeers), Remove(list, r.pubkey);
    RemoveKeepsTail(list, r.pubkey, maxPeers);
    LastOfSnoc(shorter, maxPeers, r);
    if |cache| < maxPeers {
      RemoveAbsent(list, r.pubkey);
    } else {
      OldestIsFirst(cache, list, maxPeers);
      LastOfUnique(list, maxPeers);
      assert kept[0] in kept;
      RemoveSize(cache, Oldest(cache));
      hide LastOf, SameRecords;
      HeadGone(cache, kept, Remove(cache, cache[Oldest(cache)].pubkey), r);
    }
  }

  lemma HeadGone(cache: seq<Record>, kept: seq<Record>, rest: seq<Record>, r: Record)
    requires kept != [] && UniquePubkeys(kept) && SameRecords(cache, kept)
    requires |rest| == |cache| - 1 && forall x :: x in rest <==> x in cache && x != kept[0]
    ensures SameRecords(rest + [r], kept[1..] + [r])
  {
    assert kept == [kept[0]] + kept[1..];
  }

  lemma LastOfSnoc(list: seq<Record>, n: nat, r: Record)
    requires n >= 1
    ensures LastOf(list + [r], n) == if |list| < n then list + [r] else LastOf(list, n)[1..] + [r]
  {
  }

  /// Removing a pubkey that is not among the last n leaves the last n alone.
  lemma RemoveKeepsTail(list: seq<Record>, key: string, n: nat)
    requires forall x :: x in LastOf(list, n) ==> x.pubkey != key
    ensures LastOf(Remove(list, key), n) == LastOf(list, n)
    ensures |list| >= n ==> |Remove(list, key)| >= n
  {
    var tail := LastOf(list, n);
    var head := list[..|list| - |tail|];
    assert list == head + tail;
    FilterConcat(head, tail, NotPubkey(key));
    RemoveAbsent(tail, key);
  }

  /// The evicted record is the least recently heard one of the full cache.
  lemma OldestIsFirst(cache: seq<Record>, list: seq<Record>, maxPeers: nat)
    requires maxPeers >= 1 && |cache| >= maxPeers && Rising(list) && SameRecords(cache, LastOf(list, maxPeers))
    ensures cache[Oldest(cache)] == LastOf(list, maxPeers)[0]
  {
    var kept := LastOf(list, maxPeers);
    var oldest := cache[Oldest(cache)];
    assert oldest in cache && kept[0] in kept;
    var i :| 0 <= i < |kept| && kept[i] == oldest;
    var j :| 0 <= j < |cache| && cache[j] == kept[0];
    assert oldest.createdAt <= cache[j].createdAt;
  }

  ghost predicate AllAccepted(verify: Record -> bool, own: string, ops: seq<Op>) {
    forall i :: 0 <= i < |ops| ==> ops[i].Heard? && Accepted(verify, own, ops[i].record, ops[i].now)
  }

  function Records(ops: seq<Op>): seq<Record>
    requires forall i :: 0 <= i < |ops| ==> ops[i].Heard?
  {
    seq(|ops|, i requires 0 <= i < |ops| => ops[i].record)
  }

  /// On a run of accepted records with strictly increasing times, with no expiry and no disconnect, the
  /// cache is the least-recently-used cache: it holds exactly the latest records of the maxPeers
  /// pubkeys heard most recently.
  lemma {:induction false} RunIsLru(verify: Record -> bool, own: string, maxPeers: nat, ops: seq<Op>)
    requires maxPeers >= 1 && SignersNamed(verify) && AllAccepted(verify, own, ops) && Rising(Records(ops))
    ensures SameRecords(Run(verify, own, maxPeers, ops), LastOf(Recency(Records(ops)), maxPeers))
  {
    if ops != [] {
      var front, op := ops[..|ops| - 1], ops[|ops| - 1];
      assert forall i :: 0 <= i < |front| ==> Records(front)[i] == Records(ops)[i];
      RunIsLru(verify, own, maxPeers, front);
      RunBounded(verify, own, maxPeers, front);
      HeardBefore(verify, own, ops);
      hide Accept, LastOf, Remove, Recency;
      AcceptIsLru(Run(verify, own, maxPeers, front), Recency(Records(front)), op.record, maxPeers);
    }
  }

  lemma HeardBefore(verify: Record -> bool, own: string, ops: seq<Op>)
    requires SignersNamed(verify) && AllAccepted(verify, own, ops) && Rising(Records(ops)) && ops != []
    ensures var list, r := Recency(Records(ops[..|ops| - 1])), ops[|ops| - 1].record;
            && UniquePubkeys(list) && Rising(list) && (forall x :: x in list ==> x.createdAt < r.createdAt && x.pubkey != "")
            && Recency(Records(ops)) == Remove(list, r.pubkey) + [r]
  {
    var front, r := ops[..|ops| - 1], ops[|ops| - 1].record;
    assert Records(ops)[..|ops| - 1] == Records(front);
    assert Recency(Records(ops)) == Remove(Recency(Records(front)), r.pubkey) + [r];
    hide Recency, Remove, IsLatest, Expired;
    RecencyIsLatest(Records(front), r);
    forall x | x in Recency(Records(front)) ensures x.createdAt < r.createdAt && x.pubkey != "" {
      EarlierRecord(verify, own, ops, x);
    }
  }

  lemma EarlierRecord(verify: Record -> bool, own: string, ops: seq<Op>, x: Record)
    requires SignersNamed(verify) && AllAccepted(verify, own, ops) && Rising(Records(ops)) && ops != []
    requires x in Records(ops[..|ops| - 1])
    ensures x.createdAt < ops[|ops| - 1].record.createdAt && x.pubkey != ""
  {
    hide Expired;
    var i :| 0 <= i < |ops| - 1 && Records(ops[..|ops| - 1])[i] == x;
    assert Records(ops)[i] == x && Records(ops)[|ops| - 1] == ops[|ops| - 1].record;
    assert Accepted(verify, own, ops[i].record, ops[i].now);
  }
}

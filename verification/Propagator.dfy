/// The note table that decides which announcements a node forwards
/// (src/core/propagation/propagator.ts).
module Propagation {
  import opened Wrappers
  import Text

  datatype Note = Note(id: string, sourceId: string, sourceIndex: int, pubkey: string, bornRound: int)

  /// What stays fixed while a propagator lives. `prob` is the probability the source computes from
  /// graph amplitude, reputation and the exploration floor; here it is any function of
  /// (local index, source index, age, pubkey, gamma).
  datatype Policy = Policy(
    local: int,
    threshold: real,
    maxActive: int,
    maxAge: int,
    indexOf: string -> int,
    prob: (int, int, int, string, real) -> real)

  datatype State = State(notes: seq<Note>, fetched: map<string, int>)

  // ---------- the table as a value ----------

  ghost predicate DistinctIds(notes: seq<Note>) {
    forall i, j :: 0 <= i < j < |notes| ==> notes[i].id != notes[j].id
  }

  /// Ids are unique among active notes, and no active note was fetched before.
  ghost predicate Ok(s: State) {
    && DistinctIds(s.notes)
    && forall n :: n in s.notes ==> n.id !in s.fetched
  }

  /// Swap-with-last removal.
  function RemoveAt(notes: seq<Note>, i: nat): (r: seq<Note>)
    requires i < |notes|
    ensures |r| == |notes| - 1
  {
    notes[i := notes[|notes| - 1]][..|notes| - 1]
  }

  function Find(notes: seq<Note>, id: string): (r: Option<nat>)
    ensures r.Some? ==> r.value < |notes| && notes[r.value].id == id
    ensures r.None? ==> forall n :: n in notes ==> n.id != id
  {
    if notes == [] then None
    else if notes[|notes| - 1].id == id then Some(|notes| - 1)
    else Find(notes[..|notes| - 1], id)
  }

  function Add(p: Policy, s: State, id: string, sourceId: string, pubkey: string, born: int): State {
    if id in s.fetched then s
    else
      match Find(s.notes, id)
      case Some(i) =>
        s.(notes := s.notes[i := s.notes[i].(sourceId := sourceId, sourceIndex := p.indexOf(sourceId))])
      case None =>
        var notes := s.notes + [Note(id, sourceId, p.indexOf(sourceId), pubkey, born)];
        s.(notes := if |notes| > p.maxActive then RemoveAt(notes, 0) else notes)
  }

  /// One pass of a removal loop: the notes it keeps and, in the order met, the notes it removes.
  function Sweep(notes: seq<Note>, i: nat, hit: Note -> bool): (seq<Note>, seq<Note>)
    requires i <= |notes|
    decreases |notes| - i
  {
    if i == |notes| then (notes, [])
    else if hit(notes[i]) then
      var (kept, removed) := Sweep(RemoveAt(notes, i), i, hit);
      (kept, [notes[i]] + removed)
    else Sweep(notes, i + 1, hit)
  }

  lemma SweepStep(notes: seq<Note>, i: nat, hit: Note -> bool)
    requires i <= |notes|
    ensures Sweep(notes, i, hit) ==
              if i == |notes| then (notes, [])
              else if hit(notes[i]) then (Sweep(RemoveAt(notes, i), i, hit).0, [notes[i]] + Sweep(RemoveAt(notes, i), i, hit).1)
              else Sweep(notes, i + 1, hit)
  {
  }

  function Expired(p: Policy, round: int): Note -> bool {
    (n: Note) => p.maxAge > 0 && round - n.bornRound > p.maxAge
  }

  function Source(p: Policy, n: Note): int {
    if n.sourceIndex >= 0 then n.sourceIndex else p.local
  }

  function Probability(p: Policy, n: Note, round: int, gamma: real): real {
    p.prob(p.local, Source(p, n), if round > n.bornRound then round - n.bornRound else 0, n.pubkey, gamma)
  }

  function Ready(p: Policy, round: int, gamma: real): Note -> bool {
    (n: Note) => Probability(p, n, round, gamma) > p.threshold
  }

  function Mark(fetched: map<string, int>, hits: seq<Note>, round: int): map<string, int> {
    if hits == [] then fetched
    else Mark(fetched, hits[..|hits| - 1], round)[hits[|hits| - 1].id := round]
  }

  lemma MarkSnoc(fetched: map<string, int>, hits: seq<Note>, n: Note, round: int)
    ensures Mark(fetched, [], round) == fetched
    ensures Mark(fetched, hits + [n], round) == Mark(fetched, hits, round)[n.id := round]
  {
    assert (hits + [n])[..|hits|] == hits;
  }

  /// The table after a tick, and the notes fetched by it in order.
  function Tick(p: Policy, s: State, round: int, gamma: real): (State, seq<Note>) {
    var alive := Sweep(s.notes, 0, Expired(p, round)).0;
    var (kept, hits) := Sweep(alive, 0, Ready(p, round, gamma));
    (State(kept, Mark(s.fetched, hits, round)), hits)
  }

  // ---------- what a tick does ----------

  lemma RemoveAtMultiset(notes: seq<Note>, i: nat)
    requires i < |notes|
    ensures multiset(RemoveAt(notes, i)) + multiset{notes[i]} == multiset(notes)
  {
    var last := |notes| - 1;
    assert notes == notes[..last] + [notes[last]];
    if i < last {
      assert notes[..last] == notes[..i] + [notes[i]] + notes[i + 1..last];
      assert RemoveAt(notes, i) == notes[..i] + [notes[last]] + notes[i + 1..last];
    } else {
      assert RemoveAt(notes, i) == notes[..last];
    }
  }

  /// A removal loop meets every note exactly once although removal moves notes about: together the
  /// kept and the removed notes are the notes it started with, kept ones fail the test and removed
  /// ones pass it.
  lemma {:induction false} SweepPartitions(notes: seq<Note>, i: nat, hit: Note -> bool)
    requires i <= |notes|
    requires forall k :: 0 <= k < i ==> !hit(notes[k])
    ensures var (kept, removed) := Sweep(notes, i, hit);
            && multiset(kept) + multiset(removed) == multiset(notes)
            && (forall n :: n in kept ==> !hit(n))
            && (forall n :: n in removed ==> hit(n))
    decreases |notes| - i
  {
    if i == |notes| {
    } else if hit(notes[i]) {
      RemoveAtMultiset(notes, i);
      SweepPartitions(RemoveAt(notes, i), i, hit);
      var (kept, removed) := Sweep(RemoveAt(notes, i), i, hit);
      assert multiset([notes[i]] + removed) == multiset{notes[i]} + multiset(removed);
    } else {
      SweepPartitions(notes, i + 1, hit);
    }
  }

  /// The loop takes notes in the order it meets them: first the first one that passes the test, then
  /// those of the table with the last note in its place.
  lemma {:induction false} SweepOrder(notes: seq<Note>, i: nat, k: nat, hit: Note -> bool)
    requires i <= k < |notes| && hit(notes[k]) && forall j :: i <= j < k ==> !hit(notes[j])
    ensures Sweep(notes, i, hit).1 == [notes[k]] + Sweep(notes[k := notes[|notes| - 1]][..|notes| - 1], k, hit).1
    decreases k - i
  {
    if i < k {
      SweepOrder(notes, i + 1, k, hit);
    }
  }

  /// The loop refines a filter: multiplicities are those of the filtered input.
  lemma SweepIsFilter(notes: seq<Note>, hit: Note -> bool, x: Note)
    ensures var (kept, removed) := Sweep(notes, 0, hit);
            && multiset(kept)[x] == (if hit(x) then 0 else multiset(notes)[x])
            && multiset(removed)[x] == (if hit(x) then multiset(notes)[x] else 0)
            && (x in kept <==> x in notes && !hit(x))
            && (x in removed <==> x in notes && hit(x))
  {
    SweepPartitions(notes, 0, hit);
    var (kept, removed) := Sweep(notes, 0, hit);
    assert multiset(notes)[x] == multiset(kept)[x] + multiset(removed)[x];
  }

  lemma {:induction false} SweepDistinct(notes: seq<Note>, i: nat, hit: Note -> bool)
    requires i <= |notes| && DistinctIds(notes)
    ensures var (kept, removed) := Sweep(notes, i, hit);
            && DistinctIds(kept) && DistinctIds(removed)
            && (forall n :: n in kept || n in removed ==> n in notes)
            && (forall a, b :: a in kept && b in removed ==> a.id != b.id)
    decreases |notes| - i
  {
    if i == |notes| {
    } else if hit(notes[i]) {
      var rest := RemoveAt(notes, i);
      RemovedDistinct(notes, i);
      SweepDistinct(rest, i, hit);
      var (kept, removed) := Sweep(rest, i, hit);
      assert DistinctIds([notes[i]] + removed);
    } else {
      SweepDistinct(notes, i + 1, hit);
    }
  }

  lemma RemovedDistinct(notes: seq<Note>, i: nat)
    requires i < |notes| && DistinctIds(notes)
    ensures DistinctIds(RemoveAt(notes, i))
    ensures forall n :: n in RemoveAt(notes, i) ==> n in notes && n.id != notes[i].id
  {
  }

  lemma {:induction false} MarkDomain(fetched: map<string, int>, hits: seq<Note>, round: int)
    ensures Mark(fetched, hits, round).Keys == fetched.Keys + (set n | n in hits :: n.id)
    ensures forall id :: id in Mark(fetched, hits, round) ==>
      Mark(fetched, hits, round)[id] == if exists n :: n in hits && n.id == id then round else fetched[id]
  {
    if hits != [] {
      var front, n := hits[..|hits| - 1], hits[|hits| - 1];
      MarkDomain(fetched, front, round);
      assert hits == front + [n];
      forall id | id in Mark(fetched, hits, round)
        ensures Mark(fetched, hits, round)[id] == if exists m :: m in hits && m.id == id then round else fetched[id]
      {
        if exists m :: m in front && m.id == id {
          var m :| m in front && m.id == id;
          assert m in hits;
        }
      }
    }
  }

  /// A tick keeps exactly the notes that are not older than a positive age limit and whose probability,
  /// at their age from their source (or the node itself if that is unknown), is at most the threshold. It
  /// fetches exactly those of that age whose probability is above it, marks those and only those ids as
  /// fetched in this round, and leaves the table well formed.
  lemma TickExact(p: Policy, s: State, round: int, gamma: real)
    requires Ok(s)
    ensures var (t, hits) := Tick(p, s, round, gamma);
            && Ok(t) && DistinctIds(hits)
            && (forall n :: n in t.notes <==>
                 && n in s.notes && !(p.maxAge > 0 && round - n.bornRound > p.maxAge)
                 && p.prob(p.local, if n.sourceIndex >= 0 then n.sourceIndex else p.local,
                           if round > n.bornRound then round - n.bornRound else 0, n.pubkey, gamma) <= p.threshold)
            && (forall n :: n in hits <==>
                 && n in s.notes && !(p.maxAge > 0 && round - n.bornRound > p.maxAge)
                 && p.prob(p.local, if n.sourceIndex >= 0 then n.sourceIndex else p.local,
                           if round > n.bornRound then round - n.bornRound else 0, n.pubkey, gamma) > p.threshold)
            && t.fetched.Keys == s.fetched.Keys + (set n | n in hits :: n.id)
            && (forall id :: id in s.fetched ==> t.fetched[id] == s.fetched[id])
            && (forall n :: n in hits ==> n.id !in s.fetched && t.fetched[n.id] == round)
  {
    var alive := Sweep(s.notes, 0, Expired(p, round)).0;
    var (kept, hits) := Sweep(alive, 0, Ready(p, round, gamma));
    forall n ensures n in alive <==> n in s.notes && !Expired(p, round)(n) {
      SweepIsFilter(s.notes, Expired(p, round), n);
    }
    forall n ensures (n in kept <==> n in alive && !Ready(p, round, gamma)(n))
                  && (n in hits <==> n in alive && Ready(p, round, gamma)(n)) {
      SweepIsFilter(alive, Ready(p, round, gamma), n);
    }
    SweepDistinct(s.notes, 0, Expired(p, round));
    SweepDistinct(alive, 0, Ready(p, round, gamma));
    MarkDomain(s.fetched, hits, round);
  }

  /// Adding a note never revives a fetched id, never duplicates an id and never touches `fetched`. A known
  /// note changes its source and keeps its author and birth; a new one enters with the given author and
  /// birth; in a full table it takes the place of the head.
  lemma AddExact(p: Policy, s: State, id: string, sourceId: string, pubkey: string, born: int)
    requires Ok(s)
    ensures var t := Add(p, s, id, sourceId, pubkey, born);
            var added := Note(id, sourceId, p.indexOf(sourceId), pubkey, born);
            && Ok(t) && t.fetched == s.fetched
            && (id in s.fetched ==> t == s)
            && (forall m :: m in s.notes && m.id == id ==> forall n ::
                 n in t.notes <==> (n in s.notes && n.id != id) || n == Note(id, sourceId, p.indexOf(sourceId), m.pubkey, m.bornRound))
            && (id !in s.fetched && (forall m :: m in s.notes ==> m.id != id) && |s.notes| < p.maxActive ==>
                 t.notes == s.notes + [added])
            && (id !in s.fetched && (forall m :: m in s.notes ==> m.id != id) && |s.notes| >= p.maxActive ==>
                 t.notes == if s.notes == [] then [] else [added] + s.notes[1..])
            && (forall n :: n in t.notes ==> n.id == id || n in s.notes)
            && (|s.notes| <= p.maxActive ==> |t.notes| <= p.maxActive)
  {
    if id !in s.fetched {
      hide Ok, DistinctIds, RemoveAt;
      match Find(s.notes, id)
      case Some(i) => AddKnown(p, s, id, sourceId, pubkey, born, i);
      case None => AddNew(p, s, id, sourceId, pubkey, born);
    }
  }

  lemma AddKnown(p: Policy, s: State, id: string, sourceId: string, pubkey: string, born: int, i: nat)
    requires Ok(s) && id !in s.fetched && Find(s.notes, id) == Some(i)
    ensures var t := Add(p, s, id, sourceId, pubkey, born);
            && Ok(t) && t.fetched == s.fetched && |t.notes| == |s.notes|
            && (forall m :: m in s.notes && m.id == id ==> m == s.notes[i])
            && s.notes[i] in s.notes
            && (forall n :: n in t.notes <==>
                 (n in s.notes && n.id != id) || n == Note(id, sourceId, p.indexOf(sourceId), s.notes[i].pubkey, s.notes[i].bornRound))
  {
    var note := s.notes[i].(sourceId := sourceId, sourceIndex := p.indexOf(sourceId));
    Renamed(s.notes, i, note);
    var after := s.notes[i := note];
    forall n | n in after && n != note ensures n in s.notes && n.id != id {
      var k :| 0 <= k < |after| && after[k] == n;
      assert k != i;
    }
  }

  lemma AddNew(p: Policy, s: State, id: string, sourceId: string, pubkey: string, born: int)
    requires Ok(s) && id !in s.fetched && Find(s.notes, id).None?
    ensures var t := Add(p, s, id, sourceId, pubkey, born);
            var added := Note(id, sourceId, p.indexOf(sourceId), pubkey, born);
            && Ok(t) && t.fetched == s.fetched
            && t.notes == (if |s.notes| < p.maxActive then s.notes + [added] else if s.notes == [] then [] else [added] + s.notes[1..])
  {
    hide DistinctIds, RemoveAt, Find;
    var note := Note(id, sourceId, p.indexOf(sourceId), pubkey, born);
    Appended(s.notes, note);
    if |s.notes| + 1 > p.maxActive {
      RemovedDistinct(s.notes + [note], 0);
      HeadReplaced(s.notes, note);
    }
  }

  lemma HeadReplaced(notes: seq<Note>, note: Note)
    ensures RemoveAt(notes + [note], 0) == if notes == [] then [] else [note] + notes[1..]
  {
  }

  /// A new id that meets a full table takes the place of the head; the other notes stay where they are.
  lemma AddToFull(p: Policy, s: State, id: string, sourceId: string, pubkey: string, born: int)
    requires |s.notes| >= p.maxActive && s.notes != [] && id !in s.fetched && forall n :: n in s.notes ==> n.id != id
    ensures Add(p, s, id, sourceId, pubkey, born).notes == [Note(id, sourceId, p.indexOf(sourceId), pubkey, born)] + s.notes[1..]
  {
    assert Find(s.notes, id).None?;
  }

  lemma Renamed(notes: seq<Note>, i: nat, note: Note)
    requires i < |notes| && DistinctIds(notes) && note.id == notes[i].id
    ensures DistinctIds(notes[i := note])
    ensures forall n :: n in notes[i := note] ==> n == note || n in notes
    ensures forall n :: n in notes && n.id != note.id ==> n in notes[i := note]
    ensures note in notes[i := note]
  {
    var after := notes[i := note];
    assert after[i] == note;
    assert forall k :: 0 <= k < |notes| && k != i ==> after[k] == notes[k];
  }

  lemma Appended(notes: seq<Note>, note: Note)
    requires DistinctIds(notes) && forall n :: n in notes ==> n.id != note.id
    ensures DistinctIds(notes + [note])
    ensures note in notes + [note]
    ensures forall n :: n in notes ==> n in notes + [note]
  {
  }

  // ---------- the mutable table ----------

  class Propagator {
    const policy: Policy
    var notes: seq<Note>
    var positions: map<string, nat>
    var fetched: map<string, int>

    /// `positions` is the exact inverse of `notes`; active and fetched ids are disjoint.
    ghost predicate Valid()
      reads this
    {
      && (forall i :: 0 <= i < |notes| ==> notes[i].id in positions && positions[notes[i].id] == i)
      && (forall id :: id in positions ==> positions[id] < |notes| && notes[positions[id]].id == id)
      && (forall id :: id in positions ==> id !in fetched)
    }

    ghost function View(): State
      reads this
    {
      State(notes, fetched)
    }

    constructor (policy: Policy)
      ensures Valid() && View() == State([], map[]) && this.policy == policy
    {
      this.policy := policy;
      notes, positions, fetched := [], map[], map[];
    }

    method AddNote(id: string, sourceId: string, pubkey: string, bornRound: int)
      requires Valid()
      modifies this
      ensures Valid()
      ensures View() == Add(policy, old(View()), id, sourceId, pubkey, bornRound)
    {
      if id in fetched {
        return;
      }
      FindIsPosition(id);
      hide Find, RemoveAt;
      if id in positions {
        var existing := positions[id];
        notes := notes[existing := notes[existing].(sourceId := sourceId, sourceIndex := policy.indexOf(sourceId))];
        return;
      }
      Push(Note(id, sourceId, policy.indexOf(sourceId), pubkey, bornRound));
      if |notes| > policy.maxActive {
        RemoveNoteAt(0);
      }
    }

    lemma FindIsPosition(id: string)
      requires Valid()
      ensures Find(notes, id) == if id in positions then Some(positions[id]) else None
    {
      if id in positions {
        assert notes[positions[id]] in notes;
        assert Find(notes, id) == Some(positions[notes[Find(notes, id).value].id]);
      }
    }

    method Push(note: Note)
      requires Valid() && note.id !in positions && note.id !in fetched
      modifies this`notes, this`positions
      ensures Valid()
      ensures notes == old(notes) + [note]
    {
      positions := positions[note.id := |notes|];
      notes := notes + [note];
    }

    method RemoveNoteAt(index: nat)
      requires Valid() && index < |notes|
      modifies this`notes, this`positions
      ensures Valid()
      ensures notes == RemoveAt(old(notes), index)
      ensures positions.Keys == old(positions.Keys) - {old(notes)[index].id}
    {
      var last := |notes| - 1;
      var noteId := notes[index].id;
      assert positions[notes[last].id] == last;
      positions := positions - {noteId};
      if index != last {
        var moved := notes[last];
        notes := notes[index := moved];
        positions := positions[moved.id := index];
      }
      notes := notes[..last];
    }

    method PruneExpired(round: int)
      requires Valid()
      modifies this
      ensures Valid() && fetched == old(fetched)
      ensures notes == Sweep(old(notes), 0, Expired(policy, round)).0
      ensures forall n :: n in notes <==> n in old(notes) && !(policy.maxAge > 0 && round - n.bornRound > policy.maxAge)
    {
      PrunedExactly(notes, round);
      if policy.maxAge <= 0 {
        assert notes == Sweep(notes, 0, Expired(policy, round)).0 by { SweepNothing(notes, 0, Expired(policy, round)); }
        return;
      }
      var index := 0;
      while index < |notes|
        invariant index <= |notes|
        invariant Valid() && fetched == old(fetched)
        invariant Sweep(notes, index, Expired(policy, round)).0 == Sweep(old(notes), 0, Expired(policy, round)).0
        decreases |notes| - index
      {
        if round - notes[index].bornRound > policy.maxAge {
          RemoveNoteAt(index);
        } else {
          index := index + 1;
        }
      }
    }

    lemma PrunedExactly(notes: seq<Note>, round: int)
      ensures forall n :: n in Sweep(notes, 0, Expired(policy, round)).0 <==>
        n in notes && !(policy.maxAge > 0 && round - n.bornRound > policy.maxAge)
    {
      forall n ensures n in Sweep(notes, 0, Expired(policy, round)).0 <==> n in notes && !Expired(policy, round)(n) {
        SweepIsFilter(notes, Expired(policy, round), n);
      }
    }

    static lemma {:induction false} SweepNothing(notes: seq<Note>, i: nat, hit: Note -> bool)
      requires i <= |notes|
      requires forall n :: !hit(n)
      ensures Sweep(notes, i, hit) == (notes, [])
      decreases |notes| - i
    {
      if i < |notes| {
        SweepNothing(notes, i + 1, hit);
      }
    }

    /// One round of the table. The source calls its fetch handler for each fetched note as it goes;
    /// the handler never reads or writes this table, so the notes are returned in that order instead.
    method RunTick(round: int, gamma: real) returns (hits: seq<Note>)
      requires Valid()
      modifies this
      ensures Valid()
      ensures (View(), hits) == Tick(policy, old(View()), round, gamma)
      ensures forall n :: n in notes <==>
        && n in old(notes) && !(policy.maxAge > 0 && round - n.bornRound > policy.maxAge)
        && policy.prob(policy.local, if n.sourceIndex >= 0 then n.sourceIndex else policy.local,
                       if round > n.bornRound then round - n.bornRound else 0, n.pubkey, gamma) <= policy.threshold
      ensures forall n :: n in hits <==>
        && n in old(notes) && !(policy.maxAge > 0 && round - n.bornRound > policy.maxAge)
        && policy.prob(policy.local, if n.sourceIndex >= 0 then n.sourceIndex else policy.local,
                       if round > n.bornRound then round - n.bornRound else 0, n.pubkey, gamma) > policy.threshold
    {
      hide Sweep, Mark, Ready, Expired;
      ValidIsOk();
      TickExact(policy, View(), round, gamma);
      PruneExpired(round);
      hits := FetchReady(round, gamma);
    }

    lemma ValidIsOk()
      requires Valid()
      ensures Ok(View())
    {
      assert forall n :: n in notes ==> n.id in positions;
    }

    /// The second loop of the round.
    method FetchReady(round: int, gamma: real) returns (hits: seq<Note>)
      requires Valid()
      modifies this
      ensures Valid()
      ensures (notes, hits) == Sweep(old(notes), 0, Ready(policy, round, gamma))
      ensures fetched == Mark(old(fetched), hits, round)
      ensures Divided(old(notes), notes, hits, round, gamma)
    {
      hide Divided, Mark, Probability, Source, CacheKey, KeyText, Sweep, RemoveAt, CacheAgrees;
      ghost var ready := Ready(policy, round, gamma);
      ghost var goal := Sweep(notes, 0, ready);
      var cache: map<string, real> := map[];
      hits := [];
      var index := 0;
      NothingCached(notes, round, gamma);
      MarkSnoc(fetched, [], Note("", "", 0, "", 0), round);
      while index < |notes|
        invariant index <= |notes|
        invariant Valid()
        invariant fetched == Mark(old(fetched), hits, round)
        invariant Sweep(notes, index, ready).0 == goal.0 && hits + Sweep(notes, index, ready).1 == goal.1
        invariant CacheAgrees(notes, cache, round, gamma)
        decreases |notes| - index
      {
        var note := notes[index];
        SweepStep(notes, index, ready);
        var probability;
        probability, cache := Recall(note, cache, round, gamma);
        assert ready(note) == (probability > policy.threshold);
        if probability > policy.threshold {
          StillAgrees(notes, index, cache, round, gamma);
          ghost var more := Sweep(RemoveAt(notes, index), index, ready).1;
          assert hits + ([note] + more) == (hits + [note]) + more;
          TakeNoteAt(index, round);
          MarkSnoc(old(fetched), hits, note, round);
          hits := hits + [note];
        } else {
          index := index + 1;
        }
      }
      SweepStep(notes, index, ready);
      assert hits + [] == hits && (goal.0, goal.1) == goal;
      FetchedExactly(old(notes), round, gamma);
    }

    /// A note stays exactly if its probability is at most the threshold, and is taken exactly if it is above it.
    ghost predicate Divided(before: seq<Note>, after: seq<Note>, hits: seq<Note>, round: int, gamma: real) {
      && (forall n :: n in after <==>
           && n in before
           && policy.prob(policy.local, if n.sourceIndex >= 0 then n.sourceIndex else policy.local,
                          if round > n.bornRound then round - n.bornRound else 0, n.pubkey, gamma) <= policy.threshold)
      && (forall n :: n in hits <==>
           && n in before
           && policy.prob(policy.local, if n.sourceIndex >= 0 then n.sourceIndex else policy.local,
                          if round > n.bornRound then round - n.bornRound else 0, n.pubkey, gamma) > policy.threshold)
    }

    lemma FetchedExactly(notes: seq<Note>, round: int, gamma: real)
      ensures var (kept, hits) := Sweep(notes, 0, Ready(policy, round, gamma)); Divided(notes, kept, hits, round, gamma)
    {
      var (kept, hits) := Sweep(notes, 0, Ready(policy, round, gamma));
      forall n ensures (n in kept <==> n in notes && !Ready(policy, round, gamma)(n)) && (n in hits <==> n in notes && Ready(policy, round, gamma)(n)) {
        SweepIsFilter(notes, Ready(policy, round, gamma), n);
      }
    }

    lemma NothingCached(notes: seq<Note>, round: int, gamma: real)
      ensures CacheAgrees(notes, map[], round, gamma)
    {
    }

    lemma StillAgrees(notes: seq<Note>, index: nat, cache: map<string, real>, round: int, gamma: real)
      requires index < |notes| && CacheAgrees(notes, cache, round, gamma)
      ensures CacheAgrees(RemoveAt(notes, index), cache, round, gamma)
    {
    }

    method TakeNoteAt(index: nat, round: int)
      requires Valid() && index < |notes|
      modifies this
      ensures Valid()
      ensures notes == RemoveAt(old(notes), index)
      ensures fetched == old(fetched)[old(notes)[index].id := round]
    {
      var noteId := notes[index].id;
      RemoveNoteAt(index);
      fetched := fetched[noteId := round];
    }

    /// A cached probability is what recomputing it for an active note would give.
    ghost predicate CacheAgrees(notes: seq<Note>, cache: map<string, real>, round: int, gamma: real) {
      forall n :: n in notes && CacheKey(n) in cache ==> cache[CacheKey(n)] == Probability(policy, n, round, gamma)
    }

    static function KeyText(id: string, sourceIndex: int, bornRound: int): string {
      id + ":" + Text.Integer(sourceIndex) + ":" + Text.Integer(bornRound)
    }

    function CacheKey(n: Note): string {
      KeyText(n.id, Source(policy, n), n.bornRound)
    }

    /// The key separates its three parts, whatever the id contains: two notes share a key exactly if they agree
    /// on id, source and birth round.
    lemma CacheKeySeparates(a: Note, b: Note)
      ensures CacheKey(a) == CacheKey(b) <==> a.id == b.id && Source(policy, a) == Source(policy, b) && a.bornRound == b.bornRound
    {
      if CacheKey(a) == CacheKey(b) {
        var sa, sb := Text.Integer(Source(policy, a)), Text.Integer(Source(policy, b));
        Text.IntegerHasNoColon(a.bornRound);
        Text.IntegerHasNoColon(b.bornRound);
        Text.IntegerHasNoColon(Source(policy, a));
        Text.IntegerHasNoColon(Source(policy, b));
        Text.SplitAtLast(':', a.id + ":" + sa, Text.Integer(a.bornRound), b.id + ":" + sb, Text.Integer(b.bornRound));
        Text.SplitAtLast(':', a.id, sa, b.id, sb);
        Text.IntegerInjective(a.bornRound, b.bornRound);
        Text.IntegerInjective(Source(policy, a), Source(policy, b));
      }
    }

    method Recall(note: Note, cache: map<string, real>, round: int, gamma: real)
      returns (probability: real, cache': map<string, real>)
      requires Valid() && note in notes
      requires CacheAgrees(notes, cache, round, gamma)
      ensures probability == Probability(policy, note, round, gamma)
      ensures CacheAgrees(notes, cache', round, gamma)
    {
      hide KeyText;
      cache' := cache;
      var sourceIndex := if note.sourceIndex >= 0 then note.sourceIndex else policy.local;
      var cacheKey := KeyText(note.id, sourceIndex, note.bornRound);
      if cacheKey in cache {
        probability := cache[cacheKey];
      } else {
        var age := if round > note.bornRound then round - note.bornRound else 0;
        probability := policy.prob(policy.local, sourceIndex, age, note.pubkey, gamma);
        cache' := cache[cacheKey := probability];
        UniqueIds();
        forall n | n in notes && CacheKey(n) == cacheKey ensures n == note {
          CacheKeySeparates(n, note);
        }
      }
    }

    lemma UniqueIds()
      requires Valid()
      ensures forall a, b :: a in notes && b in notes && a.id == b.id ==> a == b
    {
    }

    method ActiveCount() returns (n: nat)
      requires Valid()
      ensures n == |notes| == |positions|
    {
      n := |notes|;
      CountPositions(notes, positions);
    }

    static lemma {:induction false} CountPositions(notes: seq<Note>, positions: map<string, nat>)
      requires forall i :: 0 <= i < |notes| ==> notes[i].id in positions && positions[notes[i].id] == i
      requires forall id :: id in positions ==> positions[id] < |notes| && notes[positions[id]].id == id
      ensures |notes| == |positions|
    {
      if notes == [] {
        assert positions == map[];
      } else {
        var last := |notes| - 1;
        var id := notes[last].id;
        var rest := positions - {id};
        assert rest.Keys == positions.Keys - {id};
        assert |rest| == |positions| - 1;
        forall k | k in rest ensures rest[k] < last && notes[..last][rest[k]].id == k {
          assert positions[k] != last;
        }
        CountPositions(notes[..last], rest);
      }
    }
  }
}

/// What delta exchanges achieve: completeness at the boundary, idempotence, agreement of two nodes,
/// and spreading along chains of exchanges in every run of a network.
module DeltaSync {
  import opened Wrappers
  import opened Events
  import opened Sorting
  import opened SyncLog

  // ---------- logs only grow ----------

  lemma {:induction false} RecordAllGrows(log: seq<Event>, events: seq<Event>)
    requires UniqueKeys(log)
    ensures log <= RecordAll(log, events) && UniqueKeys(RecordAll(log, events))
  {
    if events != [] {
      RecordAllGrows(log, events[..|events| - 1]);
    }
  }

  lemma {:induction false} RecordAllMember(log: seq<Event>, events: seq<Event>, e: Event)
    requires e in RecordAll(log, events)
    ensures e in log || e in events
  {
    if events != [] {
      var front, last := events[..|events| - 1], events[|events| - 1];
      if e in RecordAll(log, front) {
        RecordAllMember(log, front, e);
      } else {
        assert last in events;
      }
    }
  }

  lemma {:induction false} RecordAllHasKey(log: seq<Event>, events: seq<Event>, e: Event)
    requires UniqueKeys(log) && (e in events || HasKey(log, KeyOf(e)))
    ensures HasKey(RecordAll(log, events), KeyOf(e))
  {
    if HasKey(log, KeyOf(e)) {
      RecordAllGrows(log, events);
      var i :| 0 <= i < |log| && KeyOf(log[i]) == KeyOf(e);
      assert RecordAll(log, events)[i] == log[i];
    } else {
      var front, last := events[..|events| - 1], events[|events| - 1];
      assert events == front + [last];
      RecordAllGrows(log, front);
      if e == last {
        var before := RecordAll(log, front);
        if !HasKey(before, KeyOf(e)) {
          assert (before + [e])[|before|] == e;
        }
      } else {
        RecordAllHasKey(log, front, e);
        var i :| 0 <= i < |RecordAll(log, front)| && KeyOf(RecordAll(log, front)[i]) == KeyOf(e);
        assert RecordAll(log, events)[i] == RecordAll(log, front)[i];
      }
    }
  }

  lemma {:induction false} RecordAllNothingNew(log: seq<Event>, events: seq<Event>)
    requires forall e :: e in events ==> HasKey(log, KeyOf(e))
    ensures RecordAll(log, events) == log
  {
    if events != [] {
      assert events[|events| - 1] in events;
      RecordAllNothingNew(log, events[..|events| - 1]);
    }
  }

  /// Entries never change, move or vanish.
  lemma MergeGrows(log: seq<Event>, d: Delta, readable: string -> bool)
    requires UniqueKeys(log)
    ensures log <= Merge(log, d, readable) && UniqueKeys(Merge(log, d, readable))
  {
    RecordAllGrows(log, Incoming(d, readable));
  }

  /// Applying a response twice leaves the log as applying it once.
  lemma MergeIdempotent(log: seq<Event>, d: Delta, readable: string -> bool)
    requires UniqueKeys(log)
    ensures Merge(Merge(log, d, readable), d, readable) == Merge(log, d, readable)
  {
    forall e | e in Incoming(d, readable) ensures HasKey(Merge(log, d, readable), KeyOf(e)) {
      RecordAllHasKey(log, Incoming(d, readable), e);
    }
    RecordAllNothingNew(Merge(log, d, readable), Incoming(d, readable));
  }

  // ---------- what a response carries ----------

  /// Events a delta exchange can move: the four synced kinds, reputation deltas only if readable.
  predicate Movable(e: Event, readable: string -> bool) {
    || e.kind == 10800 || e.kind == 10801 || e.kind == 30801
    || (e.kind == 10802 && readable(e.content))
  }

  /// The response to `since` brings exactly the responder's movable events from then on, identified.
  lemma DeltaCarries(log: seq<Event>, since: Option<int>, readable: string -> bool, x: Event)
    ensures x in Incoming(DeltaOf(log, since), readable) <==>
      exists e :: e in log && Identified(e) == x && (since.None? || e.createdAt >= since.value)
                  && (e.kind == 10800 || e.kind == 10801 || e.kind == 30801 || (e.kind == 10802 && readable(e.content)))
  {
    var d := DeltaOf(log, since);
    var all := d.announcements + d.replicas + d.routes + Filter(d.reputationDeltas, Taken(readable));
    forall e ensures e in all <==> e in log && Movable(e, readable) && Recent(e, since) {
      FilterMember(log, OfKind(10800, since), e);
      FilterMember(log, OfKind(10801, since), e);
      FilterMember(log, OfKind(30801, since), e);
      FilterMember(log, OfKind(10802, since), e);
      FilterMember(d.reputationDeltas, Taken(readable), e);
    }
    if x in Incoming(d, readable) {
      var e :| e in all && Identified(e) == x;
      assert e in log && Movable(e, readable) && Recent(e, since);
    }
  }

  // ---------- ids determine events ----------

  /// `truth` gives the event of every id: what it means that ids determine events. Entries without
  /// an id are constrained only if they can be moved, by the id they are given then.
  ghost predicate Fits(truth: string -> Event, e: Event, readable: string -> bool) {
    e.id.Some? || Movable(e, readable) ==> truth(Identified(e).id.value) == Identified(e)
  }

  ghost predicate AllFit(truth: string -> Event, events: seq<Event>, readable: string -> bool) {
    forall e :: e in events ==> Fits(truth, e, readable)
  }

  /// The event is in the log, as it was or with its default id.
  predicate Holds(log: seq<Event>, e: Event) {
    e in log || Identified(e) in log
  }

  lemma IncomingFits(truth: string -> Event, log: seq<Event>, since: Option<int>, readable: string -> bool)
    requires AllFit(truth, log, readable)
    ensures AllFit(truth, Incoming(DeltaOf(log, since), readable), readable)
  {
    forall x | x in Incoming(DeltaOf(log, since), readable) ensures Fits(truth, x, readable) {
      DeltaCarries(log, since, readable, x);
      var e :| e in log && Movable(e, readable) && Recent(e, since) && Identified(e) == x;
      assert Fits(truth, e, readable);
    }
  }

  lemma MergeFits(truth: string -> Event, log: seq<Event>, d: Delta, readable: string -> bool)
    requires AllFit(truth, log, readable) && AllFit(truth, Incoming(d, readable), readable)
    ensures AllFit(truth, Merge(log, d, readable), readable)
  {
    forall e | e in Merge(log, d, readable) ensures Fits(truth, e, readable) {
      RecordAllMember(log, Incoming(d, readable), e);
    }
  }

  /// Whatever a response brings is in the log afterwards, under its id.
  lemma MergeTakes(truth: string -> Event, log: seq<Event>, d: Delta, readable: string -> bool, x: Event)
    requires UniqueKeys(log) && AllFit(truth, log, readable) && AllFit(truth, Incoming(d, readable), readable)
    requires x in Incoming(d, readable) && x.id.Some?
    ensures x in Merge(log, d, readable)
  {
    RecordAllHasKey(log, Incoming(d, readable), x);
    MergeFits(truth, log, d, readable);
    var m := Merge(log, d, readable);
    var i :| 0 <= i < |m| && KeyOf(m[i]) == KeyOf(x);
    assert m[i] in m && Fits(truth, m[i], readable) && Fits(truth, x, readable);
  }

  /// The boundary exactly: after an exchange the requester holds a movable event of the responder if
  /// and only if it held it before or the request reaches back to it.
  lemma ExchangeExact(truth: string -> Event, a: seq<Event>, b: seq<Event>, since: Option<int>, readable: string -> bool, e: Event)
    requires UniqueKeys(a) && AllFit(truth, a, readable) && AllFit(truth, b, readable)
    requires e in b && Movable(e, readable)
    ensures Holds(Merge(a, DeltaOf(b, since), readable), e) <==> Holds(a, e) || Recent(e, since)
  {
    var d := DeltaOf(b, since);
    MergeGrows(a, d, readable);
    if Recent(e, since) {
      DeltaCarries(b, since, readable, Identified(e));
      IncomingFits(truth, b, since, readable);
      MergeTakes(truth, a, d, readable, Identified(e));
    } else if x :| x in Merge(a, d, readable) && (x == e || x == Identified(e)) {
      RecordAllMember(a, Incoming(d, readable), x);
      DeltaCarries(b, since, readable, x);
    }
  }

  /// Completeness at the boundary: a requester that already holds the responder's movable events
  /// from before `since` holds all of them after one exchange.
  lemma ExchangeCompletes(truth: string -> Event, a: seq<Event>, b: seq<Event>, since: Option<int>, readable: string -> bool)
    requires UniqueKeys(a) && AllFit(truth, a, readable) && AllFit(truth, b, readable)
    ensures (forall e :: e in b && Movable(e, readable) ==> Holds(Merge(a, DeltaOf(b, since), readable), e))
       <==> (forall e :: e in b && Movable(e, readable) && !Recent(e, since) ==> Holds(a, e))
  {
    hide Holds, Merge, DeltaOf, Movable, Recent, AllFit;
    forall e | e in b && Movable(e, readable)
      ensures Holds(Merge(a, DeltaOf(b, since), readable), e) <==> Holds(a, e) || Recent(e, since)
    {
      ExchangeExact(truth, a, b, since, readable, e);
    }
  }

  /// A peer that reconnects is asked from time 0 (`OnPeerDisconnected`, `OnPeerConnected`): of its
  /// movable events all that are not of negative time arrive.
  lemma ReconnectReaches(truth: string -> Event, a: seq<Event>, b: seq<Event>, readable: string -> bool, e: Event)
    requires UniqueKeys(a) && AllFit(truth, a, readable) && AllFit(truth, b, readable)
    requires e in b && Movable(e, readable) && e.createdAt >= 0
    ensures Holds(Merge(a, DeltaOf(b, Some(0)), readable), e)
  {
    ExchangeExact(truth, a, b, Some(0), readable, e);
  }

  /// Asking from when the peer was last heard can miss something: here the peer was heard at 5, and
  /// has since taken in an event of time 3.
  lemma LastSeenMisses(readable: string -> bool)
    ensures var e := Event(Some("x"), 10800, "p", 3, [], "", "");
            Movable(e, readable) && !Holds(Merge([], DeltaOf([e], Some(5)), readable), e)
  {
    var e := Event(Some("x"), 10800, "p", 3, [], "", "");
    var d := DeltaOf([e], Some(5));
    forall x | x in Merge([], d, readable) ensures false {
      RecordAllMember([], Incoming(d, readable), x);
      DeltaCarries([e], Some(5), readable, x);
    }
  }

  // ---------- two nodes ----------

  ghost function MovableSet(log: seq<Event>, since: Option<int>, readable: string -> bool): set<Event> {
    set e | e in log && Movable(e, readable) && Recent(e, since)
  }

  ghost function Unidentified(log: seq<Event>, since: Option<int>, readable: string -> bool): set<Event> {
    set e | e in log && Movable(e, readable) && Recent(e, since) && e.id.None?
  }

  /// A merge adds the identified forms of what the response carries and no entry without an id.
  lemma MergedSet(truth: string -> Event, a: seq<Event>, b: seq<Event>, since: Option<int>, readable: string -> bool, e: Event)
    requires UniqueKeys(a) && AllFit(truth, a, readable) && AllFit(truth, b, readable)
    ensures var m := MovableSet(Merge(a, DeltaOf(b, since), readable), since, readable);
            e in m <==> e in MovableSet(a, since, readable) || exists x :: x in MovableSet(b, since, readable) && Identified(x) == e
  {
    var d := DeltaOf(b, since);
    DeltaCarries(b, since, readable, e);
    IncomingFits(truth, b, since, readable);
    MergeGrows(a, d, readable);
    if e in Merge(a, d, readable) {
      RecordAllMember(a, Incoming(d, readable), e);
      if e in Incoming(d, readable) {
        var x :| x in b && Movable(x, readable) && Recent(x, since) && Identified(x) == e;
        assert x in MovableSet(b, since, readable);
      }
    }
    forall x | x in MovableSet(b, since, readable) && Identified(x) == e ensures e in Merge(a, d, readable) {
      MergeTakes(truth, a, d, readable, e);
    }
  }

  /// A two-way exchange: first `a` asks `b`, then `b` asks `a`. Their movable events from `since` on
  /// are then the same exactly if their entries without an id were.
  lemma TwoWayAgreement(truth: string -> Event, a: seq<Event>, b: seq<Event>, since: Option<int>, readable: string -> bool)
    requires UniqueKeys(a) && UniqueKeys(b) && AllFit(truth, a, readable) && AllFit(truth, b, readable)
    ensures var a' := Merge(a, DeltaOf(b, since), readable);
            var b' := Merge(b, DeltaOf(a', since), readable);
            MovableSet(a', since, readable) == MovableSet(b', since, readable)
            <==> Unidentified(a, since, readable) == Unidentified(b, since, readable)
  {
    var a' := Merge(a, DeltaOf(b, since), readable);
    var b' := Merge(b, DeltaOf(a', since), readable);
    IncomingFits(truth, b, since, readable);
    MergeFits(truth, a, DeltaOf(b, since), readable);
    MergeGrows(a, DeltaOf(b, since), readable);
    var A, B := MovableSet(a, since, readable), MovableSet(b, since, readable);
    var A', B' := MovableSet(a', since, readable), MovableSet(b', since, readable);
    forall e ensures e in A' <==> e in A || exists x :: x in B && Identified(x) == e {
      MergedSet(truth, a, b, since, readable, e);
    }
    forall e ensures e in B' <==> e in B || exists x :: x in A' && Identified(x) == e {
      MergedSet(truth, b, a', since, readable, e);
    }
    // entries without an id never move
    forall e ensures e in A' && e.id.None? <==> e in Unidentified(a, since, readable) {
    }
    forall e ensures e in B' && e.id.None? <==> e in Unidentified(b, since, readable) {
    }
    if A' == B' {
      assert Unidentified(a, since, readable) == Unidentified(b, since, readable);
    }
    if Unidentified(a, since, readable) == Unidentified(b, since, readable) {
      forall e ensures e in A' <==> e in B' {
        if e in A' && e.id.Some? {
          assert Identified(e) == e;
        }
        if e in B' && e.id.Some? {
          if e in B {
            assert Identified(e) == e;
          } else {
            var x :| x in A' && Identified(x) == e;
            if x.id.None? {
              assert x in B;
            }
          }
        }
      }
    }
  }

  // ---------- logs as nodes write them ----------

  predicate Synced(kind: int) {
    kind == 10800 || kind == 10801 || kind == 30801 || kind == 10802
  }

  /// Events of the synced kinds are logged with an id, and reputation deltas only if readable.
  predicate Stamped(e: Event, readable: string -> bool) {
    Synced(e.kind) ==> e.id.Some? && Movable(e, readable)
  }

  ghost predicate AllStamped(events: seq<Event>, readable: string -> bool) {
    forall e :: e in events ==> Stamped(e, readable)
  }

  ghost function SyncedSet(log: seq<Event>, since: Option<int>): set<Event> {
    set e | e in log && Synced(e.kind) && Recent(e, since)
  }

  /// What a response brings is stamped, whatever log it comes from.
  lemma IncomingStamped(log: seq<Event>, since: Option<int>, readable: string -> bool)
    ensures AllStamped(Incoming(DeltaOf(log, since), readable), readable)
  {
    forall x | x in Incoming(DeltaOf(log, since), readable) ensures Stamped(x, readable) {
      DeltaCarries(log, since, readable, x);
    }
  }

  lemma MergeStamped(log: seq<Event>, d: Delta, readable: string -> bool)
    requires AllStamped(log, readable) && AllStamped(Incoming(d, readable), readable)
    ensures AllStamped(Merge(log, d, readable), readable)
  {
    forall e | e in Merge(log, d, readable) ensures Stamped(e, readable) {
      RecordAllMember(log, Incoming(d, readable), e);
    }
  }

  /// Between such logs an exchange is set union.
  lemma MergeIsUnion(truth: string -> Event, a: seq<Event>, b: seq<Event>, since: Option<int>, readable: string -> bool)
    requires UniqueKeys(a) && AllFit(truth, a, readable) && AllFit(truth, b, readable)
    requires AllStamped(a, readable) && AllStamped(b, readable)
    ensures SyncedSet(Merge(a, DeltaOf(b, since), readable), since) == SyncedSet(a, since) + SyncedSet(b, since)
  {
    var m := Merge(a, DeltaOf(b, since), readable);
    IncomingStamped(b, since, readable);
    MergeStamped(a, DeltaOf(b, since), readable);
    SyncedIsMovable(a, since, readable);
    SyncedIsMovable(b, since, readable);
    SyncedIsMovable(m, since, readable);
    forall e ensures e in SyncedSet(m, since) <==> e in SyncedSet(a, since) || e in SyncedSet(b, since) {
      MergedSet(truth, a, b, since, readable, e);
    }
  }

  lemma SyncedIsMovable(log: seq<Event>, since: Option<int>, readable: string -> bool)
    requires AllStamped(log, readable)
    ensures SyncedSet(log, since) == MovableSet(log, since, readable)
    ensures forall e :: e in SyncedSet(log, since) ==> Identified(e) == e
  {
  }

  /// A reputation delta with unreadable content is never taken over.
  lemma UnreadableStays(a: seq<Event>, b: seq<Event>, since: Option<int>, readable: string -> bool, e: Event)
    requires e.kind == 10802 && !readable(e.content) && e !in a
    ensures e !in Merge(a, DeltaOf(b, since), readable)
  {
    DeltaCarries(b, since, readable, e);
    if e in Merge(a, DeltaOf(b, since), readable) {
      RecordAllMember(a, Incoming(DeltaOf(b, since), readable), e);
    }
  }
}

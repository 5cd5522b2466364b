/// A node that starts again reads its event log from its event store (src/node/sync-manager.ts). What
/// the new log holds, for every sequence of recorded events, with either store.
module Restart {
  import opened Wrappers
  import opened Events
  import opened Sorting
  import opened SyncLog
  import opened SqliteStore
  import opened EventStores
  import DeltaSync

  // ---------- the log as a first-write-wins map ----------

  function WithKey(key: LogKey): Event -> bool {
    (e: Event) => KeyOf(e) == key
  }

  /// The first event with a log key.
  function FirstKeyed(events: seq<Event>, key: LogKey): Option<Event> {
    var f := Filter(events, WithKey(key));
    if f == [] then None else Some(f[0])
  }

  lemma {:induction false} LogIsFirst(events: seq<Event>, key: LogKey, x: Event)
    ensures HasKey(RecordAll([], events), key) <==> FirstKeyed(events, key).Some?
    ensures x in RecordAll([], events) <==> FirstKeyed(events, KeyOf(x)) == Some(x)
  {
    if events != [] {
      var front, last := events[..|events| - 1], events[|events| - 1];
      assert events == front + [last];
      var log := RecordAll([], front);
      LogIsFirst(front, key, x);
      LogIsFirst(front, KeyOf(last), x);
      FilterSnoc(front, last, WithKey(key));
      FilterSnoc(front, last, WithKey(KeyOf(x)));
      hide Filter;
      RecordHasKey(log, last, key);
    }
  }

  lemma RecordHasKey(log: seq<Event>, e: Event, key: LogKey)
    ensures HasKey(Record(log, e), key) <==> HasKey(log, key) || KeyOf(e) == key
    ensures forall x :: x in Record(log, e) <==> x in log || (x == e && !HasKey(log, KeyOf(e)))
  {
    if !HasKey(log, KeyOf(e)) {
      var log' := log + [e];
      assert log'[|log|] == e;
      if HasKey(log, key) {
        var i :| 0 <= i < |log| && KeyOf(log[i]) == key;
        assert log'[i] == log[i];
      }
    }
  }

  lemma {:induction false} RecordAllDistinct(events: seq<Event>)
    requires UniqueKeys(events)
    ensures RecordAll([], events) == events
  {
    if events != [] {
      RecordAllDistinct(events[..|events| - 1]);
    }
  }

  // ---------- with the relational store ----------

  /// The store's rows all have different ids, so hydration takes every one of them.
  lemma RebuiltIsLoaded(digest: Event -> string, events: seq<Event>)
    ensures RecordAll([], FromSqlite(digest, events)) == FromSqlite(digest, events)
  {
    hide FromSqlite, LastWith;
    var loaded := FromSqlite(digest, events);
    LoadAllAfterRun(digest, events, Event(None, 0, "", 0, [], "", ""));
    forall i | 0 <= i < |loaded| ensures loaded[i].id.Some? {
      LoadAllAfterRun(digest, events, loaded[i]);
    }
    forall i, j | 0 <= i < j < |loaded| ensures KeyOf(loaded[i]) != KeyOf(loaded[j]) {
      assert IdOf(loaded[i]) != IdOf(loaded[j]);
    }
    RecordAllDistinct(loaded);
  }

  predicate HasId(e: Event) {
    e.id.Some? && e.id.value != ""
  }

  /// Rendering changes nothing in an event that was loaded.
  lemma RenderedTwice(digest: Event -> string, e: Event)
    requires EventKey(digest, e) != ""
    ensures var x := Rendered(digest)(e);
            Rendered(digest)(x) == x && x.id == Some(EventKey(digest, e)) && x.kind == e.kind
  {
    forall tag | tag in Filter(e.tags, Named) ensures Named(tag) {
      FilterMember(e.tags, Named, tag);
    }
    FilterAll(Filter(e.tags, Named), Named);
  }

  /// The log of a node whose store had been given `earlier` when it started and that recorded `since`.
  function SqliteLog(digest: Event -> string, earlier: seq<Event>, since: seq<Event>): seq<Event> {
    RecordAll([], FromSqlite(digest, earlier) + since)
  }

  lemma SqliteLogMember(digest: Event -> string, earlier: seq<Event>, since: seq<Event>, l: Event)
    ensures l in SqliteLog(digest, earlier, since) ==> l in FromSqlite(digest, earlier) || l in since
    ensures l in FromSqlite(digest, earlier) ==> l in SqliteLog(digest, earlier, since)
  {
    hide FromSqlite;
    var loaded := FromSqlite(digest, earlier);
    if l in SqliteLog(digest, earlier, since) {
      DeltaSync.RecordAllMember([], loaded + since, l);
    }
    RecordAllConcat([], loaded, since);
    RebuiltIsLoaded(digest, earlier);
    RebuiltUnique(digest, earlier);
    DeltaSync.RecordAllGrows(loaded, since);
  }

  lemma RebuiltUnique(digest: Event -> string, events: seq<Event>)
    ensures UniqueKeys(FromSqlite(digest, events))
  {
    hide FromSqlite;
    RebuiltIsLoaded(digest, events);
    DeltaSync.RecordAllGrows([], FromSqlite(digest, events));
  }

  /// Every accepted entry of the log is found again, one without an id under its digest.
  lemma LogReturns(digest: Event -> string, earlier: seq<Event>, since: seq<Event>, l: Event)
    requires KeysDetermine(digest, earlier + since) && forall e :: digest(e) != ""
    requires l in SqliteLog(digest, earlier, since) && Known(l)
    ensures Rendered(digest)(l) in FromSqlite(digest, earlier + since)
  {
    hide FromSqlite, SqliteLog, Known, Rendered, KeysDetermine;
    SqliteLogMember(digest, earlier, since, l);
    SqliteLoads(digest, earlier + since, Rendered(digest)(l));
    if l in FromSqlite(digest, earlier) {
      EarlierDetermine(digest, earlier, since);
      SqliteLoads(digest, earlier, l);
      var e :| e in earlier && Known(e) && Rendered(digest)(e) == l;
      RenderedTwice(digest, e);
      assert e in earlier + since;
    } else {
      assert l in earlier + since;
    }
  }

  lemma EarlierDetermine(digest: Event -> string, earlier: seq<Event>, since: seq<Event>)
    requires KeysDetermine(digest, earlier + since)
    ensures KeysDetermine(digest, earlier)
  {
    assert forall e :: e in earlier ==> e in earlier + since;
  }

  /// An identified event recorded is in the log, up to nameless tags.
  lemma IdentifiedLogged(digest: Event -> string, earlier: seq<Event>, since: seq<Event>, e: Event)
    requires KeysDetermine(digest, earlier + since) && forall e :: digest(e) != ""
    requires e in since && HasId(e) && Known(e)
    ensures exists l :: l in SqliteLog(digest, earlier, since) && Known(l) && Rendered(digest)(l) == Rendered(digest)(e)
  {
    hide FromSqlite, KeysDetermine, Rendered, Known;
    KeyLogged(digest, earlier, since, e);
    var l :| l in SqliteLog(digest, earlier, since) && KeyOf(l) == KeyOf(e);
    SqliteLogMember(digest, earlier, since, l);
    if l in since {
      SameEvent(digest, earlier + since, l, e);
    } else {
      EarlierDetermine(digest, earlier, since);
      SqliteLoads(digest, earlier, l);
      var f :| f in earlier && Known(f) && Rendered(digest)(f) == l;
      RenderedTwice(digest, f);
      SameEvent(digest, earlier + since, f, e);
      SameKind(digest, l, f);
    }
  }

  lemma SameKind(digest: Event -> string, d: Event, e: Event)
    requires Rendered(digest)(d) == Rendered(digest)(e)
    ensures Known(d) == Known(e)
  {
    assert Rendered(digest)(d).kind == d.kind && Rendered(digest)(e).kind == e.kind;
  }

  lemma SameEvent(digest: Event -> string, events: seq<Event>, d: Event, e: Event)
    requires KeysDetermine(digest, events) && d in events && e in events && EventKey(digest, d) == EventKey(digest, e)
    ensures Rendered(digest)(d) == Rendered(digest)(e) && Known(d) == Known(e)
  {
    SameKind(digest, d, e);
  }

  /// Restart with the relational store: the rebuilt log holds every entry of the log, rendered, and
  /// besides exactly those events without an id whose log key was taken when they were recorded.
  lemma RestartFromSqlite(digest: Event -> string, earlier: seq<Event>, since: seq<Event>, x: Event)
    requires KeysDetermine(digest, earlier + since) && forall e :: digest(e) != ""
    ensures var log, rebuilt := SqliteLog(digest, earlier, since), RecordAll([], FromSqlite(digest, earlier + since));
            x in rebuilt <==>
              ((exists l :: l in log && Known(l) && Rendered(digest)(l) == x)
               || (exists e :: e in since && Known(e) && !HasId(e) && Rendered(digest)(e) == x))
  {
    hide FromSqlite, SqliteLog, Known, Rendered, KeysDetermine, EventKey;
    var log, loaded := SqliteLog(digest, earlier, since), FromSqlite(digest, earlier + since);
    RebuiltIsLoaded(digest, earlier + since);
    SqliteLoads(digest, earlier + since, x);
    forall l | l in log && Known(l) && Rendered(digest)(l) == x ensures x in loaded {
      LogReturns(digest, earlier, since, l);
    }
    forall e | e in since && Known(e) && Rendered(digest)(e) == x ensures x in loaded {
      assert e in earlier + since;
    }
    if x in loaded {
      var e :| e in earlier + since && Known(e) && Rendered(digest)(e) == x;
      if e in since {
        if HasId(e) {
          IdentifiedLogged(digest, earlier, since, e);
        }
      } else {
        EarlierReturns(digest, earlier, since, e);
      }
    }
  }

  lemma EarlierReturns(digest: Event -> string, earlier: seq<Event>, since: seq<Event>, e: Event)
    requires KeysDetermine(digest, earlier + since) && forall e :: digest(e) != ""
    requires e in earlier && Known(e)
    ensures var x := Rendered(digest)(e);
            x in SqliteLog(digest, earlier, since) && Known(x) && Rendered(digest)(x) == x
  {
    hide FromSqlite, SqliteLog, KeysDetermine;
    EarlierDetermine(digest, earlier, since);
    SqliteLoads(digest, earlier, Rendered(digest)(e));
    RenderedTwice(digest, e);
    SqliteLogMember(digest, earlier, since, Rendered(digest)(e));
  }

  /// So the events that delta exchanges move are the same before and after, up to nameless tags, as
  /// long as they were recorded with an id.
  lemma RestartKeepsSynced(digest: Event -> string, earlier: seq<Event>, since: seq<Event>, x: Event)
    requires KeysDetermine(digest, earlier + since) && forall e :: digest(e) != ""
    requires forall e :: e in since && DeltaSync.Synced(e.kind) ==> HasId(e)
    requires DeltaSync.Synced(x.kind)
    ensures var log, rebuilt := SqliteLog(digest, earlier, since), RecordAll([], FromSqlite(digest, earlier + since));
            x in rebuilt <==> exists l :: l in log && Rendered(digest)(l) == x
  {
    hide FromSqlite, SqliteLog, KeysDetermine, RecordAll, Rendered, HasId, Known, DeltaSync.Synced;
    RestartFromSqlite(digest, earlier, since, x);
    var log := SqliteLog(digest, earlier, since);
    forall l | l in log && Rendered(digest)(l) == x ensures Known(l) {
      RenderedKind(digest, l);
    }
    forall e | e in since && !HasId(e) ensures Rendered(digest)(e) != x {
      RenderedKind(digest, e);
    }
  }

  lemma RenderedKind(digest: Event -> string, e: Event)
    ensures Rendered(digest)(e).kind == e.kind
    ensures DeltaSync.Synced(e.kind) ==> Known(e)
  {
  }

  /// Accepted, identified, and without nameless tags: the store renders it as it is.
  predicate Durable(e: Event) {
    Known(e) && HasId(e) && forall k :: 0 <= k < |e.tags| ==> Named(e.tags[k])
  }

  lemma DurableIsRendered(digest: Event -> string, e: Event)
    requires Durable(e)
    ensures Rendered(digest)(e) == e
  {
    FilterAll(e.tags, Named);
  }

  lemma LoadedIsDurable(digest: Event -> string, events: seq<Event>, x: Event)
    requires KeysDetermine(digest, events) && (forall e :: digest(e) != "") && x in FromSqlite(digest, events)
    ensures Durable(x)
  {
    hide FromSqlite, KeysDetermine;
    SqliteLoads(digest, events, x);
    var e :| e in events && Known(e) && Rendered(digest)(e) == x;
    forall k | 0 <= k < |x.tags| ensures Named(x.tags[k]) {
      assert x.tags[k] in Filter(e.tags, Named);
      FilterMember(e.tags, Named, x.tags[k]);
    }
  }

  /// When a restart with the relational store keeps the log: exactly if every entry is durable.
  lemma RestartKeepsLog(digest: Event -> string, earlier: seq<Event>, since: seq<Event>)
    requires KeysDetermine(digest, earlier + since) && forall e :: digest(e) != ""
    ensures var log, rebuilt := SqliteLog(digest, earlier, since), RecordAll([], FromSqlite(digest, earlier + since));
            (forall x :: x in rebuilt <==> x in log) <==> (forall l :: l in log ==> Durable(l))
  {
    hide FromSqlite, SqliteLog, KeysDetermine, Durable, Rendered, RecordAll, Known;
    var log, rebuilt := SqliteLog(digest, earlier, since), RecordAll([], FromSqlite(digest, earlier + since));
    RebuiltIsLoaded(digest, earlier + since);
    forall x | x in rebuilt ensures Durable(x) {
      LoadedIsDurable(digest, earlier + since, x);
    }
    if forall l :: l in log ==> Durable(l) {
      forall x ensures x in rebuilt <==> x in log {
        DurableReturns(digest, earlier, since, x);
      }
    }
  }

  lemma DurableReturns(digest: Event -> string, earlier: seq<Event>, since: seq<Event>, x: Event)
    requires KeysDetermine(digest, earlier + since) && forall e :: digest(e) != ""
    requires forall l :: l in SqliteLog(digest, earlier, since) ==> Durable(l)
    ensures x in RecordAll([], FromSqlite(digest, earlier + since)) <==> x in SqliteLog(digest, earlier, since)
  {
    hide FromSqlite, SqliteLog, KeysDetermine, Durable, Rendered, RecordAll;
    var log := SqliteLog(digest, earlier, since);
    RestartFromSqlite(digest, earlier, since, x);
    forall l | l in log ensures Known(l) && Rendered(digest)(l) == l {
      DurableIsRendered(digest, l);
      DurableHas(l);
    }
    forall e | e in since ensures HasId(e) {
      KeyLogged(digest, earlier, since, e);
      var l :| l in log && KeyOf(l) == KeyOf(e);
      DurableHas(l);
    }
  }

  lemma DurableHas(e: Event)
    requires Durable(e)
    ensures Known(e) && HasId(e)
  {
  }

  lemma KeyLogged(digest: Event -> string, earlier: seq<Event>, since: seq<Event>, e: Event)
    requires e in since
    ensures exists l :: l in SqliteLog(digest, earlier, since) && KeyOf(l) == KeyOf(e)
  {
    hide FromSqlite;
    var given := FromSqlite(digest, earlier) + since;
    DeltaSync.RecordAllHasKey([], given, e);
    var log := SqliteLog(digest, earlier, since);
    var i :| 0 <= i < |log| && KeyOf(log[i]) == KeyOf(e);
    assert log[i] in log;
  }

  /// The log itself does not come back as it was: an accepted event without an id, as every delta
  /// request is, returns with one.
  lemma IdlessIsRenamed(digest: Event -> string, e: Event)
    requires Known(e) && e.id.None?
    ensures var rebuilt := RecordAll([], FromSqlite(digest, [e]));
            && e in SqliteLog(digest, [], [e])
            && e !in rebuilt && Rendered(digest)(e) in rebuilt
  {
    hide FromSqlite, Known, RecordAll, SqliteLog;
    RebuiltIsLoaded(digest, [e]);
    SqliteLoads(digest, [e], e);
    SqliteLoads(digest, [e], Rendered(digest)(e));
    assert e in [e];
    FirstLog(digest, e);
  }

  lemma FirstLog(digest: Event -> string, e: Event)
    ensures SqliteLog(digest, [], [e]) == [e]
  {
    hide RecordAll;
    assert FromSqlite(digest, []) == [];
    RecordAllSnoc([], [], e);
    RecordNone([]);
    assert [] + [e] == [e];
  }

  lemma RequestIsKnown(pubkey: string, asked: int, now: int)
    ensures Known(DeltaRequest(pubkey, asked, now)) && DeltaRequest(pubkey, asked, now).id.None?
  {
  }

  // ---------- with the in-memory repository ----------

  /// Events the repository takes for one are one for the log: JSON texts are no ids, and equal only
  /// for equal events.
  ghost predicate KeysRefine(json: Event -> string, events: seq<Event>) {
    forall d, e :: d in events && e in events && MemoryKey(json, d) == MemoryKey(json, e) ==> KeyOf(d) == KeyOf(e)
  }

  /// Keeping the first of every memory key keeps the first of every log key.
  lemma {:induction false} KeptFirst(json: Event -> string, events: seq<Event>, key: LogKey)
    requires KeysRefine(json, events)
    ensures FirstKeyed(Map(KeepAll(json, events), Second), key) == FirstKeyed(events, key)
  {
    hide Filter, MemoryKey, KeysRefine;
    if events == [] {
      assert Map(KeepAll(json, events), Second) == [];
    } else {
      var front, last := events[..|events| - 1], events[|events| - 1];
      assert events == front + [last];
      RefineFront(json, front, last);
      KeptFirst(json, front, key);
      var kept := Map(KeepAll(json, front), Second);
      FilterSnoc(front, last, WithKey(key));
      FilterSnoc(kept, last, WithKey(key));
      KeptSnoc(json, front, last);
      if Map(KeepAll(json, events), Second) == kept && KeyOf(last) == key {
        TakenKey(json, front, last);
      }
    }
  }

  lemma RefineFront(json: Event -> string, front: seq<Event>, last: Event)
    requires KeysRefine(json, front + [last])
    ensures KeysRefine(json, front)
  {
    assert forall e :: e in front ==> e in front + [last];
  }

  lemma KeptSnoc(json: Event -> string, front: seq<Event>, last: Event)
    ensures var kept, kept' := Map(KeepAll(json, front), Second), Map(KeepAll(json, front + [last]), Second);
            || kept' == kept + [last]
            || (kept' == kept && exists i :: 0 <= i < |KeepAll(json, front)| && KeepAll(json, front)[i].0 == MemoryKey(json, last))
  {
    assert (front + [last])[..|front + [last]| - 1] == front;
    var entries, entries' := KeepAll(json, front), KeepAll(json, front + [last]);
    if entries' != entries {
      assert Map(entries', Second) == Map(entries, Second) + [last];
    }
  }

  lemma TakenKey(json: Event -> string, front: seq<Event>, last: Event)
    requires KeysRefine(json, front + [last])
    requires exists i :: 0 <= i < |KeepAll(json, front)| && KeepAll(json, front)[i].0 == MemoryKey(json, last)
    ensures FirstKeyed(Map(KeepAll(json, front), Second), KeyOf(last)).Some?
  {
    hide KeepAll;
    var entries := KeepAll(json, front);
    var kept := Map(entries, Second);
    var i :| 0 <= i < |entries| && entries[i].0 == MemoryKey(json, last);
    assert entries[i] in entries;
    FirstWriteWins(json, front, entries[i]);
    FirstHasKey(json, front, entries[i].0);
    var d := entries[i].1;
    assert d in front + [last] && last in front + [last];
    assert kept[i] == d;
    FilterMember(kept, WithKey(KeyOf(last)), d);
  }

  /// Sorting by time keeps the first of every log key: entries with one composite key have one time,
  /// and only one entry has a given id.
  lemma LoadedFirst(json: Event -> string, events: seq<Event>, key: LogKey)
    requires KeysRefine(json, events)
    ensures FirstKeyed(FromMemory(json, events), key) == FirstKeyed(events, key)
  {
    hide KeepAll, Filter, Sort, KeysRefine;
    var kept := Map(KeepAll(json, events), Second);
    KeptFirst(json, events, key);
    FilterSort(kept, Created, WithKey(key));
    var group := Filter(kept, WithKey(key));
    KeptAreFirst(json, events, Event(None, 0, "", 0, [], "", ""));
    FilterDistinct(kept, WithKey(key), MemoryKeyOf(json));
    forall i | 0 <= i < |group| ensures KeyOf(group[i]) == key {
      assert group[i] in group;
      FilterMember(kept, WithKey(key), group[i]);
    }
    if key.ById? && |group| > 1 {
      TwoOfKey(group, MemoryKeyOf(json));
    }
    SortIdentity(group, Created);
  }

  lemma TwoOfKey<K>(s: seq<Event>, f: Event -> K)
    requires |s| > 1 && forall i, j :: 0 <= i < |s| && 0 <= j < |s| ==> f(s[i]) == f(s[j])
    ensures !Distinct(s, f)
  {
    assert f(s[0]) == f(s[1]);
  }

  /// Restart with the in-memory repository: the rebuilt log holds the same events.
  lemma RestartFromMemory(json: Event -> string, earlier: seq<Event>, since: seq<Event>, x: Event)
    requires KeysRefine(json, earlier + since)
    ensures x in RecordAll([], FromMemory(json, earlier + since)) <==> x in RecordAll([], FromMemory(json, earlier) + since)
  {
    hide FromMemory, RecordAll, Filter;
    var key := KeyOf(x);
    assert forall e :: e in earlier ==> e in earlier + since;
    LogIsFirst(FromMemory(json, earlier + since), key, x);
    LogIsFirst(FromMemory(json, earlier) + since, key, x);
    LoadedFirst(json, earlier + since, key);
    LoadedFirst(json, earlier, key);
    FilterConcat(earlier, since, WithKey(key));
    FilterConcat(FromMemory(json, earlier), since, WithKey(key));
  }

  // ---------- the objects ----------

  /// A node stops and starts again with its store.
  method StartAgain(before: SyncManager, store: NostrSqliteStore, ghost earlier: seq<Event>) returns (after: SyncManager)
    requires before.Valid() && store.Valid()
    requires store.received == earlier + before.stored && before.hydrated == FromSqlite(store.digest, earlier)
    ensures after.Valid() && fresh(after) && after.stored == []
    ensures after.Log() == after.hydrated == FromSqlite(store.digest, store.received)
    ensures KeysDetermine(store.digest, store.received) && (forall e :: store.digest(e) != "") ==>
              forall x :: x in after.Log() <==>
                ((exists l :: l in before.Log() && Known(l) && Rendered(store.digest)(l) == x)
                 || (exists e :: e in before.stored && Known(e) && !HasId(e) && Rendered(store.digest)(e) == x))
  {
    hide FromSqlite, RecordAll, KeysDetermine, Rendered, Known, HasId;
    var again := new NostrSqliteStore.Reopen(store);
    var loaded := again.LoadAll();
    after := new SyncManager(before.pubkey, before.readable, before.encode, loaded);
    RebuiltIsLoaded(store.digest, store.received);
    assert loaded + [] == loaded;
    if KeysDetermine(store.digest, store.received) && (forall e :: store.digest(e) != "") {
      forall x ensures x in after.Log() <==>
                ((exists l :: l in before.Log() && Known(l) && Rendered(store.digest)(l) == x)
                 || (exists e :: e in before.stored && Known(e) && !HasId(e) && Rendered(store.digest)(e) == x))
      {
        RestartFromSqlite(store.digest, earlier, before.stored, x);
      }
    }
  }
}

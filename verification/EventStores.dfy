/// Whole runs of the two event repositories behind one interface: the relational store of
/// SqliteStore and the in-memory one (src/core/storage/memory-node-storage.ts).
module EventStores {
  import opened Wrappers
  import opened Events
  import opened Sorting
  import opened SqliteStore

  // ---------- the in-memory repository ----------

  /// An absent id is replaced by the event's JSON text; an empty one is kept.
  function MemoryKey(json: Event -> string, e: Event): string {
    if e.id.Some? then e.id.value else json(e)
  }

  /// First write wins; a new key goes to the end, as in a JavaScript map.
  function Keep(contents: seq<(string, Event)>, key: string, e: Event): seq<(string, Event)> {
    if exists i :: 0 <= i < |contents| && contents[i].0 == key then contents else contents + [(key, e)]
  }

  /// The entries after a sequence of upserts.
  function KeepAll(json: Event -> string, events: seq<Event>): seq<(string, Event)> {
    if events == [] then []
    else
      var e := events[|events| - 1];
      Keep(KeepAll(json, events[..|events| - 1]), MemoryKey(json, e), e)
  }

  function Second(p: (string, Event)): Event {
    p.1
  }

  class MemoryEventRepository {
    var keys: seq<string>
    var events: map<string, Event>
    const json: Event -> string

    /// What the repository was given.
    ghost var received: seq<Event>

    ghost predicate Indexed()
      reads this
    {
      && (forall i, j :: 0 <= i < j < |keys| ==> keys[i] != keys[j])
      && (forall k :: k in keys <==> k in events)
    }

    /// The map's entries in insertion order.
    ghost function Entries(): seq<(string, Event)>
      requires Indexed()
      reads this
    {
      seq(|keys|, i requires 0 <= i < |keys| reads this requires Indexed() => assert keys[i] in keys; (keys[i], events[keys[i]]))
    }

    ghost predicate Valid()
      reads this
    {
      Indexed() && Entries() == KeepAll(json, received)
    }

    constructor (json: Event -> string)
      ensures Valid() && received == [] && this.json == json
    {
      this.json := json;
      keys, events, received := [], map[], [];
    }

    method Upsert(event: Event)
      requires Valid()
      modifies this
      ensures Valid() && received == old(received) + [event]
      ensures Entries() == Keep(old(Entries()), MemoryKey(json, event), event)
    {
      var key := MemoryKey(json, event);
      received := received + [event];
      assert received[..|received| - 1] == old(received);
      if key !in events {
        keys := keys + [key];
        events := events[key := event];
        assert Entries() == old(Entries()) + [(key, event)];
      } else {
        assert key in keys;
        var i :| 0 <= i < |keys| && keys[i] == key;
        assert Entries() == old(Entries()) && Entries()[i].0 == key;
      }
    }

    method LoadAll() returns (loaded: seq<Event>)
      requires Valid()
      ensures loaded == FromMemory(json, received)
      ensures ByFirstWrite(json, received, loaded)
    {
      KeptByTime(json, received);
      hide KeepAll, ByFirstWrite;
      var values := [];
      for i := 0 to |keys|
        invariant values == Map(Entries()[..i], Second)
      {
        assert keys[i] in keys;
        values := values + [events[keys[i]]];
      }
      assert Entries()[..|keys|] == Entries();
      loaded := Sort(values, Created);
    }

    method LoadSince(since: int) returns (loaded: seq<Event>)
      requires Valid()
      ensures loaded == Filter(FromMemory(json, received), Since(since))
      ensures forall e :: e in loaded <==> e in FromMemory(json, received) && e.createdAt >= since
    {
      forall e ensures e in Filter(FromMemory(json, received), Since(since)) <==> e in FromMemory(json, received) && e.createdAt >= since {
        FilterMember(FromMemory(json, received), Since(since), e);
      }
      loaded := LoadAll();
      loaded := Filter(loaded, Since(since));
    }
  }

  /// What `loadAll` gives after a sequence of upserts.
  function FromMemory(json: Event -> string, events: seq<Event>): seq<Event> {
    Sort(Map(KeepAll(json, events), Second), Created)
  }

  // ---------- the order of loading ----------

  /// The position of the first write of a key, or the length if there is none.
  function FirstIndex(json: Event -> string, events: seq<Event>, key: string): (i: nat)
    ensures i <= |events|
  {
    if events == [] then 0
    else
      var i := FirstIndex(json, events[..|events| - 1], key);
      if i < |events| - 1 || MemoryKey(json, events[|events| - 1]) == key then i else |events|
  }

  lemma {:induction false} FirstIndexIs(json: Event -> string, events: seq<Event>, key: string)
    ensures var i := FirstIndex(json, events, key);
            (i < |events| ==> MemoryKey(json, events[i]) == key) && forall j :: 0 <= j < i ==> MemoryKey(json, events[j]) != key
  {
    if events != [] {
      hide MemoryKey;
      FirstIndexIs(json, events[..|events| - 1], key);
    }
  }

  function InsertedAt(json: Event -> string, events: seq<Event>): Event -> int {
    (e: Event) => FirstIndex(json, events, MemoryKey(json, e))
  }

  /// The entries are in the order of their first writes, under their own keys, and every key written has one.
  ghost predicate InOrder(json: Event -> string, events: seq<Event>, entries: seq<(string, Event)>) {
    && (forall i :: 0 <= i < |entries| ==> entries[i].0 == MemoryKey(json, entries[i].1) && FirstIndex(json, events, entries[i].0) < |events|)
    && (forall i, j :: 0 <= i < j < |entries| ==> FirstIndex(json, events, entries[i].0) < FirstIndex(json, events, entries[j].0))
    && (forall key :: FirstIndex(json, events, key) < |events| ==> HasEntry(entries, key))
  }

  lemma {:induction false} KeptByWrite(json: Event -> string, events: seq<Event>)
    ensures InOrder(json, events, KeepAll(json, events))
  {
    if events != [] {
      var front, e := events[..|events| - 1], events[|events| - 1];
      assert events == front + [e];
      KeptByWrite(json, front);
      hide InOrder, Keep, FirstIndex, MemoryKey;
      KeptOne(json, front, e, KeepAll(json, front));
    }
  }

  lemma KeptOne(json: Event -> string, front: seq<Event>, e: Event, entries: seq<(string, Event)>)
    requires InOrder(json, front, entries)
    ensures InOrder(json, front + [e], Keep(entries, MemoryKey(json, e), e))
  {
    var key, events := MemoryKey(json, e), front + [e];
    var entries' := Keep(entries, key, e);
    forall k ensures FirstIndex(json, events, k) == if FirstIndex(json, front, k) < |front| || key == k then FirstIndex(json, front, k) else |front| + 1 {
      assert events[..|events| - 1] == front;
    }
    hide FirstIndex, MemoryKey;
    forall k | FirstIndex(json, events, k) < |events| ensures HasEntry(entries', k) {
      KeepFinds(entries, key, e, k);
    }
  }

  ghost predicate HasEntry(entries: seq<(string, Event)>, key: string) {
    exists i :: 0 <= i < |entries| && entries[i].0 == key
  }

  lemma KeepFinds(entries: seq<(string, Event)>, key: string, e: Event, k: string)
    requires k == key || HasEntry(entries, k)
    ensures HasEntry(Keep(entries, key, e), k)
  {
    var entries' := Keep(entries, key, e);
    if HasEntry(entries, k) {
      var i :| 0 <= i < |entries| && entries[i].0 == k;
      assert entries'[i].0 == k;
    } else {
      assert entries'[|entries|].0 == key;
    }
  }

  /// In order of time, and among events of one time in the order of their first writes.
  ghost predicate ByFirstWrite(json: Event -> string, events: seq<Event>, loaded: seq<Event>) {
    forall i, j :: 0 <= i < j < |loaded| ==>
      && loaded[i].createdAt <= loaded[j].createdAt
      && (loaded[i].createdAt == loaded[j].createdAt ==>
           FirstIndex(json, events, MemoryKey(json, loaded[i])) < FirstIndex(json, events, MemoryKey(json, loaded[j])))
  }

  lemma KeptByTime(json: Event -> string, events: seq<Event>)
    ensures ByFirstWrite(json, events, FromMemory(json, events))
  {
    var kept := Map(KeepAll(json, events), Second);
    KeptByWrite(json, events);
    hide KeepAll, FirstIndex, MemoryKey, Sort;
    forall i, j | 0 <= i < j < |kept| ensures InsertedAt(json, events)(kept[i]) < InsertedAt(json, events)(kept[j]) {
      assert FirstIndex(json, events, KeepAll(json, events)[i].0) < FirstIndex(json, events, KeepAll(json, events)[j].0);
    }
    SortRanked(kept, Created, InsertedAt(json, events));
    var loaded := FromMemory(json, events);
    forall i, j | 0 <= i < j < |loaded|
      ensures loaded[i].createdAt <= loaded[j].createdAt
      ensures loaded[i].createdAt == loaded[j].createdAt ==>
                FirstIndex(json, events, MemoryKey(json, loaded[i])) < FirstIndex(json, events, MemoryKey(json, loaded[j]))
    {
      assert Created(loaded[i]) <= Created(loaded[j]);
    }
  }

  // ---------- what the relational store holds ----------

  /// The last accepted write of a key.
  function LastWith(digest: Event -> string, events: seq<Event>, key: string): Option<Event> {
    if events == [] then None
    else
      var e := events[|events| - 1];
      if Known(e) && EventKey(digest, e) == key then Some(Keyed(digest, e))
      else LastWith(digest, events[..|events| - 1], key)
  }

  function IdOf(e: Event): Option<string> {
    e.id
  }

  lemma WriteDistinct(contents: seq<Event>, e: Event)
    requires Distinct(contents, IdOf)
    ensures Distinct(Write(contents, e), IdOf)
    ensures forall x :: x in Write(contents, e) <==> x == e || (x in contents && x.id != e.id)
  {
    var p := NotId(e.id);
    FilterDistinct(contents, p, IdOf);
    forall x ensures x in Filter(contents, p) <==> x in contents && p(x) {
      FilterMember(contents, p, x);
    }
    var kept := Filter(contents, p);
    forall i | 0 <= i < |kept| ensures kept[i].id != e.id {
      assert kept[i] in kept;
    }
  }

  /// The tables refine a last-write-wins map: an event is held exactly if it is the last accepted
  /// write of its key, and every key is held once.
  lemma {:induction false} LastWriteWins(digest: Event -> string, events: seq<Event>, x: Event)
    ensures Distinct(WriteAll(digest, events), IdOf)
    ensures x in WriteAll(digest, events) <==> x.id.Some? && LastWith(digest, events, x.id.value) == Some(x)
  {
    if events != [] {
      var front, last := events[..|events| - 1], events[|events| - 1];
      LastWriteWins(digest, front, x);
      if Known(last) {
        WriteDistinct(WriteAll(digest, front), Keyed(digest, last));
      }
    }
  }

  /// What `loadAll` gives after a run of upserts: for every key its last accepted event without
  /// nameless tags, in order of time, and nothing else.
  lemma LoadAllAfterRun(digest: Event -> string, events: seq<Event>, x: Event)
    ensures var loaded := FromSqlite(digest, events);
            && ByLastWrite(digest, events, loaded)
            && (forall i, j :: 0 <= i < j < |loaded| ==> loaded[i].id != loaded[j].id)
            && Distinct(loaded, IdOf)
            && (x in loaded <==> exists e: Event :: e.id.Some? && LastWith(digest, events, e.id.value) == Some(e) && Normalize(e) == x)
  {
    var held := WriteAll(digest, events);
    var sorted := Sort(held, Created);
    var loaded := Map(sorted, Normalize);
    LoadedByTime(digest, events);
    hide ByLastWrite;
    LastWriteWins(digest, events, x);
    SortDistinct(held, Created, IdOf);
    assert forall i, j :: 0 <= i < j < |loaded| ==> IdOf(sorted[i]) != IdOf(sorted[j]);
    SortMember(held, Created, x);
    if x in loaded {
      var i :| 0 <= i < |loaded| && loaded[i] == x;
      SortMember(held, Created, sorted[i]);
      LastWriteWins(digest, events, sorted[i]);
    }
    forall e: Event | e.id.Some? && LastWith(digest, events, e.id.value) == Some(e) && Normalize(e) == x ensures x in loaded {
      LastWriteWins(digest, events, e);
      SortMember(held, Created, e);
      var i :| 0 <= i < |sorted| && sorted[i] == e;
      assert loaded[i] == x;
    }
  }

  // ---------- what the in-memory repository holds ----------

  /// The first write of a key.
  function FirstWith(json: Event -> string, events: seq<Event>, key: string): Option<Event> {
    if events == [] then None
    else
      var before, e := FirstWith(json, events[..|events| - 1], key), events[|events| - 1];
      if before.Some? then before else if MemoryKey(json, e) == key then Some(e) else None
  }

  function First(p: (string, Event)): string {
    p.0
  }

  /// The map is a first-write-wins map: an entry is held exactly if it is the first write of its
  /// key, and every key is held once.
  lemma {:induction false} FirstWriteWins(json: Event -> string, events: seq<Event>, p: (string, Event))
    ensures Distinct(KeepAll(json, events), First)
    ensures p in KeepAll(json, events) <==> FirstWith(json, events, p.0) == Some(p.1)
    decreases events
  {
    if events != [] {
      var front, last := events[..|events| - 1], events[|events| - 1];
      var key := MemoryKey(json, last);
      var entries := KeepAll(json, front);
      FirstWriteWins(json, front, p);
      FirstHasKey(json, front, key);
      if FirstWith(json, front, key).Some? {
        FirstWriteWins(json, front, (key, FirstWith(json, front, key).value));
      } else {
        forall i | 0 <= i < |entries| ensures entries[i].0 != key {
          FirstWriteWins(json, front, entries[i]);
          assert entries[i] in entries;
        }
      }
    }
  }

  lemma {:induction false} FirstHasKey(json: Event -> string, events: seq<Event>, key: string)
    ensures FirstWith(json, events, key).Some? <==> exists e :: e in events && MemoryKey(json, e) == key
    ensures FirstWith(json, events, key).Some? ==> FirstWith(json, events, key).value in events && MemoryKey(json, FirstWith(json, events, key).value) == key
  {
    if events != [] {
      var front, last := events[..|events| - 1], events[|events| - 1];
      assert events == front + [last];
      FirstHasKey(json, front, key);
    }
  }

  /// Everything held is an event given, and every event given has one with its key held.
  lemma KeptAreFirst(json: Event -> string, events: seq<Event>, e: Event)
    ensures e in Map(KeepAll(json, events), Second) <==> FirstWith(json, events, MemoryKey(json, e)) == Some(e)
    ensures Distinct(Map(KeepAll(json, events), Second), MemoryKeyOf(json))
  {
    var entries := KeepAll(json, events);
    forall i | 0 <= i < |entries| ensures MemoryKey(json, entries[i].1) == entries[i].0 {
      assert entries[i] in entries;
      FirstWriteWins(json, events, entries[i]);
      FirstHasKey(json, events, entries[i].0);
    }
    FirstWriteWins(json, events, (MemoryKey(json, e), e));
    if (MemoryKey(json, e), e) in entries {
      var i :| 0 <= i < |entries| && entries[i] == (MemoryKey(json, e), e);
      assert Map(entries, Second)[i] == e;
    }
    if e in Map(entries, Second) {
      var i :| 0 <= i < |entries| && Map(entries, Second)[i] == e;
      assert entries[i] == (MemoryKey(json, e), e);
    }
  }

  function MemoryKeyOf(json: Event -> string): Event -> string {
    (e: Event) => MemoryKey(json, e)
  }

  // ---------- the two stores agree ----------

  /// An empty id counts as absent in the relational store, but as an id in memory: of an event without an id and
  /// the same one with an empty id the first loads one, under its digest, and the second both.
  lemma EmptyIdDiffers(digest: Event -> string, json: Event -> string, e: Event)
    requires Known(e) && e.id.None? && json(e) != ""
    ensures var both := [e, e.(id := Some(""))];
            && FromSqlite(digest, both) == [Normalize(e.(id := Some(digest(e))))]
            && FromMemory(json, both) == both
  {
    var f := e.(id := Some(""));
    var both := [e, f];
    assert both[..1] == [e] && [e][..0] == [];
    var held := Keyed(digest, e);
    assert held == Keyed(digest, f) == e.(id := Some(digest(e)));
    assert WriteAll(digest, [e]) == [held];
    assert [held][..0] == [] && Filter([held], NotId(held.id)) == [];
    assert WriteAll(digest, both) == [held];
    assert KeepAll(json, [e]) == [(json(e), e)];
    assert KeepAll(json, both) == [(json(e), e), ("", f)];
    assert Map(KeepAll(json, both), Second) == both;
    SortIdentity([held], Created);
    SortIdentity(both, Created);
  }

  /// What the relational store makes of an event.
  function Rendered(digest: Event -> string): Event -> Event {
    (e: Event) => Normalize(Keyed(digest, e))
  }

  /// Events with the same key are the same event, up to nameless tags.
  ghost predicate KeysDetermine(digest: Event -> string, events: seq<Event>) {
    forall d, e :: d in events && e in events && EventKey(digest, d) == EventKey(digest, e) ==> Rendered(digest)(d) == Rendered(digest)(e)
  }

  /// The two stores tell the same events apart.
  ghost predicate KeysMatch(digest: Event -> string, json: Event -> string, events: seq<Event>) {
    forall d, e :: d in events && e in events ==> (EventKey(digest, d) == EventKey(digest, e) <==> MemoryKey(json, d) == MemoryKey(json, e))
  }

  lemma {:induction false} LastIsGiven(digest: Event -> string, events: seq<Event>, key: string)
    ensures LastWith(digest, events, key).Some? <==> exists e :: e in events && Known(e) && EventKey(digest, e) == key
    ensures LastWith(digest, events, key).Some? ==>
              exists e :: e in events && Known(e) && EventKey(digest, e) == key && LastWith(digest, events, key) == Some(Keyed(digest, e))
  {
    if events != [] {
      var front, last := events[..|events| - 1], events[|events| - 1];
      assert events == front + [last];
      LastIsGiven(digest, front, key);
    }
  }

  /// If keys determine events, the relational store loads every accepted event given, rendered.
  lemma SqliteLoads(digest: Event -> string, events: seq<Event>, x: Event)
    requires KeysDetermine(digest, events)
    ensures x in FromSqlite(digest, events) <==> exists e :: e in events && Known(e) && Rendered(digest)(e) == x
  {
    hide FromSqlite, LastWith, EventKey, Normalize, Filter, IdOf;
    LoadAllAfterRun(digest, events, x);
    if x in FromSqlite(digest, events) {
      var e: Event :| e.id.Some? && LastWith(digest, events, e.id.value) == Some(e) && Normalize(e) == x;
      LastIsGiven(digest, events, e.id.value);
    }
    forall e | e in events && Known(e) && Rendered(digest)(e) == x ensures x in FromSqlite(digest, events) {
      LastIsGiven(digest, events, EventKey(digest, e));
      var d :| d in events && EventKey(digest, d) == EventKey(digest, e)
        && LastWith(digest, events, EventKey(digest, e)) == Some(Keyed(digest, d));
      assert Rendered(digest)(d) == Normalize(Keyed(digest, d));
    }
  }

  /// After the same upserts the relational store loads exactly the accepted ones of the events the
  /// in-memory one loads, rendered, with the same multiplicities: each once.
  lemma StoresMatch(digest: Event -> string, json: Event -> string, events: seq<Event>)
    requires KeysDetermine(digest, events) && KeysMatch(digest, json, events)
    ensures var sqlite, memory := FromSqlite(digest, events), FromMemory(json, events);
            && multiset(sqlite) == multiset(Map(Filter(memory, Known), Rendered(digest)))
            && NoRepeat(sqlite) && NoRepeat(memory)
            && ByLastWrite(digest, events, sqlite) && ByFirstWrite(json, events, memory)
  {
    var sqlite, memory := FromSqlite(digest, events), FromMemory(json, events);
    var known := Filter(memory, Known);
    hide FromMemory, FromSqlite, Filter, Known, Rendered, KeysDetermine, KeysMatch, MemoryKeyOf, IdOf, ByLastWrite, ByFirstWrite;
    MemoryDistinct(json, events);
    FilterDistinct(memory, Known, MemoryKeyOf(json));
    forall i | 0 <= i < |known| ensures known[i] in events {
      assert known[i] in known;
      MemoryLoads(json, events, known[i]);
      FilterMember(memory, Known, known[i]);
    }
    RenderedDistinct(digest, json, events, known);
    SqliteOrdered(digest, events);
    MemoryOrdered(json, events);
    forall x ensures x in sqlite <==> x in Map(known, Rendered(digest)) {
      SameLoads(digest, json, events, x);
    }
    SameMembers(sqlite, Map(known, Rendered(digest)));
  }

  lemma SqliteOrdered(digest: Event -> string, events: seq<Event>)
    ensures NoRepeat(FromSqlite(digest, events)) && ByLastWrite(digest, events, FromSqlite(digest, events))
  {
    hide FromSqlite;
    LoadAllAfterRun(digest, events, Event(None, 0, "", 0, [], "", ""));
  }

  lemma MemoryOrdered(json: Event -> string, events: seq<Event>)
    ensures NoRepeat(FromMemory(json, events)) && ByFirstWrite(json, events, FromMemory(json, events))
  {
    hide FromMemory;
    MemoryDistinct(json, events);
    KeptByTime(json, events);
  }

  lemma SameKeySame(digest: Event -> string, json: Event -> string, events: seq<Event>, d: Event, e: Event)
    requires KeysDetermine(digest, events) && KeysMatch(digest, json, events)
    requires d in events && e in events && MemoryKey(json, d) == MemoryKey(json, e)
    ensures Rendered(digest)(d) == Rendered(digest)(e) && Known(d) == Known(e)
  {
    hide EventKey, MemoryKey;
    assert EventKey(digest, d) == EventKey(digest, e);
    assert Rendered(digest)(d).kind == d.kind && Rendered(digest)(e).kind == e.kind;
  }

  lemma SameLoads(digest: Event -> string, json: Event -> string, events: seq<Event>, x: Event)
    requires KeysDetermine(digest, events) && KeysMatch(digest, json, events)
    ensures x in FromSqlite(digest, events) <==> x in Map(Filter(FromMemory(json, events), Known), Rendered(digest))
  {
    hide FromMemory, FromSqlite, Filter, MemoryKey, FirstWith, Known, Rendered, KeysDetermine, KeysMatch;
    var memory := FromMemory(json, events);
    var known := Filter(memory, Known);
    SqliteLoads(digest, events, x);
    if e :| e in events && Known(e) && Rendered(digest)(e) == x {
      FirstHasKey(json, events, MemoryKey(json, e));
      var d := FirstWith(json, events, MemoryKey(json, e)).value;
      SameKeySame(digest, json, events, d, e);
      MemoryLoads(json, events, d);
      FilterMember(memory, Known, d);
      var i :| 0 <= i < |known| && known[i] == d;
      assert Map(known, Rendered(digest))[i] == x;
    }
    if x in Map(known, Rendered(digest)) {
      var i :| 0 <= i < |known| && Rendered(digest)(known[i]) == x;
      assert known[i] in known;
      FilterMember(memory, Known, known[i]);
      MemoryLoads(json, events, known[i]);
    }
  }

  /// The in-memory repository loads exactly the first events of their keys, in order of time.
  lemma MemoryLoads(json: Event -> string, events: seq<Event>, e: Event)
    ensures e in FromMemory(json, events) <==> FirstWith(json, events, MemoryKey(json, e)) == Some(e)
    ensures e in FromMemory(json, events) ==> e in events
  {
    var kept := Map(KeepAll(json, events), Second);
    SortMember(kept, Created, e);
    KeptAreFirst(json, events, e);
    FirstHasKey(json, events, MemoryKey(json, e));
  }

  lemma MemoryDistinct(json: Event -> string, events: seq<Event>)
    ensures Distinct(FromMemory(json, events), MemoryKeyOf(json))
  {
    var kept := Map(KeepAll(json, events), Second);
    KeptAreFirst(json, events, Event(None, 0, "", 0, [], "", ""));
    SortDistinct(kept, Created, MemoryKeyOf(json));
  }

  lemma RenderedDistinct(digest: Event -> string, json: Event -> string, events: seq<Event>, known: seq<Event>)
    requires KeysMatch(digest, json, events) && Distinct(known, MemoryKeyOf(json))
    requires forall i :: 0 <= i < |known| ==> known[i] in events
    ensures NoRepeat(Map(known, Rendered(digest)))
  {
    forall i, j | 0 <= i < j < |known| ensures Rendered(digest)(known[i]) != Rendered(digest)(known[j]) {
      assert MemoryKeyOf(json)(known[i]) != MemoryKeyOf(json)(known[j]);
      assert EventKey(digest, known[i]) != EventKey(digest, known[j]);
    }
  }

  /// Events as signed events are: with a non-empty id, of a known kind, all tags named, and equal if
  /// their ids are.
  ghost predicate Consistent(events: seq<Event>) {
    && (forall e :: e in events ==> e.id.Some? && e.id.value != "" && Known(e) && forall k :: 0 <= k < |e.tags| ==> Named(e.tags[k]))
    && (forall d, e :: d in events && e in events && d.id == e.id ==> d == e)
  }

  /// After the same upserts of such events both repositories load exactly these events, each once,
  /// in order of time (events of equal time may differ in order where one was written again).
  lemma StoresAgree(digest: Event -> string, json: Event -> string, events: seq<Event>)
    requires Consistent(events)
    ensures var sqlite, memory := FromSqlite(digest, events), FromMemory(json, events);
            && multiset(sqlite) == multiset(memory) && NoRepeat(sqlite) && NoRepeat(memory)
            && (forall x :: x in memory <==> x in events)
            && ByLastWrite(digest, events, sqlite) && ByFirstWrite(json, events, memory)
  {
    hide FromMemory, FromSqlite, Filter, EventKey, FirstWith;
    var memory := FromMemory(json, events);
    SignedKeys(digest, json, events);
    StoresMatch(digest, json, events);
    forall x ensures x in memory <==> x in events {
      MemoryLoads(json, events, x);
      FirstHasKey(json, events, MemoryKey(json, x));
    }
    FilterAll(memory, Known);
    assert forall i :: 0 <= i < |memory| ==> memory[i] in memory;
    assert Map(memory, Rendered(digest)) == memory;
  }

  lemma SignedKeys(digest: Event -> string, json: Event -> string, events: seq<Event>)
    requires Consistent(events)
    ensures KeysDetermine(digest, events) && KeysMatch(digest, json, events)
    ensures forall e :: e in events ==> Rendered(digest)(e) == e
  {
    forall e | e in events ensures Rendered(digest)(e) == e {
      FilterAll(e.tags, Named);
    }
  }
}

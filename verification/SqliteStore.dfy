/// The relational event store (src/core/nostr/sqlite-store.ts). Tables are relations; each SQL
/// statement is a function on them; `Upsert` and `ReadRows` run the statements the source runs.
module SqliteStore {
  import opened Wrappers
  import opened Events
  import opened Sorting

  // ---------- tables ----------

  datatype EventRow = EventRow(key: string, identityId: nat, kind: int, createdAt: int, content: string, sig: string)

  datatype TagCell = TagCell(key: string, tagKeyId: nat, tagIndex: nat, valueIndex: nat)

  /// `identities` and `tagKeys` are looked up by their unique columns; the counters are their
  /// AUTOINCREMENT sequences. `events` is in rowid order: a replaced row gets a fresh, largest rowid.
  /// The last two tables are keyed by their primary keys.
  datatype Tables = Tables(
    identities: map<string, nat>,
    nextIdentity: nat,
    tagKeys: map<string, nat>,
    nextTagKey: nat,
    events: seq<EventRow>,
    eventTags: map<TagCell, string>,
    identityRefs: map<(string, string), nat>)

  /// The kinds table, filled once when the store is opened.
  const KINDS: set<int> := {10800, 10801, 10802, 10803, 10804, 10805, 20800, 20801, 30180, 30181, 30800, 30801}

  function Keys(rows: seq<EventRow>): set<string> {
    set r | r in rows :: r.key
  }

  ghost predicate Injective(m: map<string, nat>) {
    forall a, b :: a in m && b in m && m[a] == m[b] ==> a == b
  }

  ghost predicate UniqueRows(rows: seq<EventRow>) {
    forall i, j :: 0 <= i < j < |rows| ==> rows[i].key != rows[j].key
  }

  /// Primary keys, unique columns and foreign keys.
  ghost predicate Sound(t: Tables) {
    && Injective(t.identities) && (forall p :: p in t.identities ==> t.identities[p] < t.nextIdentity)
    && Injective(t.tagKeys) && (forall n :: n in t.tagKeys ==> t.tagKeys[n] < t.nextTagKey)
    && UniqueRows(t.events)
    && (forall r :: r in t.events ==> r.identityId in t.identities.Values && r.kind in KINDS)
    && (forall c :: c in t.eventTags ==> c.key in Keys(t.events) && c.tagKeyId in t.tagKeys.Values)
    && (forall k :: k in t.identityRefs ==> k.0 in Keys(t.events) && t.identityRefs[k] in t.identities.Values)
  }

  // ---------- statements ----------

  function EnsureIdentity(t: Tables, pubkey: string): Tables {
    if pubkey in t.identities then t
    else t.(identities := t.identities[pubkey := t.nextIdentity], nextIdentity := t.nextIdentity + 1)
  }

  function EnsureTagKey(t: Tables, name: string): Tables {
    if name in t.tagKeys then t
    else t.(tagKeys := t.tagKeys[name := t.nextTagKey], nextTagKey := t.nextTagKey + 1)
  }

  function NotKey(key: string): EventRow -> bool {
    (r: EventRow) => r.key != key
  }

  function Without(rows: seq<EventRow>, key: string): seq<EventRow> {
    Filter(rows, NotKey(key))
  }

  function DeleteTags(t: Tables, key: string): Tables {
    t.(eventTags := map c | c in t.eventTags && c.key != key :: t.eventTags[c])
  }

  function DeleteRefs(t: Tables, key: string): Tables {
    t.(identityRefs := map k | k in t.identityRefs && k.0 != key :: t.identityRefs[k])
  }

  /// INSERT OR REPLACE into events: the old row goes, with its tags and references by cascade.
  function ReplaceEvent(t: Tables, row: EventRow): Tables {
    DeleteRefs(DeleteTags(t, row.key), row.key).(events := Without(t.events, row.key) + [row])
  }

  function InsertRef(t: Tables, key: string, role: string, identityId: nat): Tables {
    t.(identityRefs := t.identityRefs[(key, role) := identityId])
  }

  function InsertTag(t: Tables, cell: TagCell, value: string): Tables {
    t.(eventTags := t.eventTags[cell := value])
  }

  /// JOIN identities: the pubkey of an identity id.
  function PubkeyOf(t: Tables, id: nat): (p: string)
    requires Injective(t.identities) && id in t.identities.Values
    ensures p in t.identities && t.identities[p] == id
  {
    var p :| p in t.identities && t.identities[p] == id;
    p
  }

  // ---------- what the tables represent ----------

  /// Tags without a name are not stored.
  predicate Named(tag: seq<string>) {
    tag != [] && tag[0] != ""
  }

  ghost predicate TagsAre(t: Tables, key: string, tags: seq<seq<string>>) {
    TagsUpTo(t, key, tags, |tags|, 0)
  }

  /// The stored cells of an event are those of its named tags before position (i, v).
  ghost predicate TagsUpTo(t: Tables, key: string, tags: seq<seq<string>>, i: nat, v: nat) {
    && (forall c :: c in t.eventTags && c.key == key ==> Holds(t, c, tags, i, v))
    && (forall a: nat, b: nat :: Stored(tags, i, v, a, b) ==>
          tags[a][0] in t.tagKeys && TagCell(key, t.tagKeys[tags[a][0]], a, b) in t.eventTags)
  }

  ghost predicate Stored(tags: seq<seq<string>>, i: nat, v: nat, a: nat, b: nat) {
    a < |tags| && (a < i || (a == i && b < v)) && Named(tags[a]) && b < |tags[a]|
  }

  ghost predicate Holds(t: Tables, c: TagCell, tags: seq<seq<string>>, i: nat, v: nat)
    requires c in t.eventTags
  {
    && Stored(tags, i, v, c.tagIndex, c.valueIndex)
    && t.eventTags[c] == tags[c.tagIndex][c.valueIndex]
    && tags[c.tagIndex][0] in t.tagKeys && t.tagKeys[tags[c.tagIndex][0]] == c.tagKeyId
  }

  ghost predicate RowIs(t: Tables, r: EventRow, e: Event) {
    && e.id == Some(r.key) && e.kind == r.kind && e.createdAt == r.createdAt && e.content == r.content && e.sig == r.sig
    && e.pubkey in t.identities && t.identities[e.pubkey] == r.identityId
    && TagsAre(t, r.key, e.tags)
  }

  ghost predicate Represents(t: Tables, contents: seq<Event>) {
    |contents| == |t.events| && forall i :: 0 <= i < |contents| ==> RowIs(t, t.events[i], contents[i])
  }

  /// What reading back gives: the event without its nameless tags.
  function Normalize(e: Event): Event {
    e.(tags := Filter(e.tags, Named))
  }

  /// The named tags stay, in their order; nothing else changes.
  lemma NormalizeExact(e: Event) returns (at: seq<nat>)
    ensures Normalize(e) == e.(tags := Normalize(e).tags)
    ensures Ascending(at) && |Normalize(e).tags| == |at| && forall k :: 0 <= k < |at| ==> at[k] < |e.tags| && Normalize(e).tags[k] == e.tags[at[k]]
    ensures forall i: nat :: i in at <==> i < |e.tags| && e.tags[i] != [] && e.tags[i][0] != ""
  {
    at := FilterPositions(e.tags, Named);
    hide Filter;
  }

  // ---------- the abstract store ----------

  function NotId(id: Option<string>): Event -> bool {
    (e: Event) => e.id != id
  }

  /// Last write wins; the written event moves to the end.
  function Write(contents: seq<Event>, e: Event): seq<Event> {
    Filter(contents, NotId(e.id)) + [e]
  }

  /// An absent or empty id is replaced by a digest of the other fields.
  function EventKey(digest: Event -> string, e: Event): string {
    if e.id.Some? && e.id.value != "" then e.id.value else digest(e.(id := None))
  }

  function Keyed(digest: Event -> string, e: Event): Event {
    e.(id := Some(EventKey(digest, e)))
  }

  predicate Known(e: Event) {
    e.kind in KINDS
  }

  /// The events held after a sequence of upserts.
  function WriteAll(digest: Event -> string, events: seq<Event>): seq<Event> {
    if events == [] then []
    else
      var before, e := WriteAll(digest, events[..|events| - 1]), events[|events| - 1];
      if Known(e) then Write(before, Keyed(digest, e)) else before
  }

  /// What loading gives after a sequence of upserts.
  function FromSqlite(digest: Event -> string, events: seq<Event>): seq<Event> {
    Map(Sort(WriteAll(digest, events), Created), Normalize)
  }

  lemma WriteAllSnoc(digest: Event -> string, events: seq<Event>, e: Event)
    ensures WriteAll(digest, events + [e])
         == if Known(e) then Write(WriteAll(digest, events), Keyed(digest, e)) else WriteAll(digest, events)
  {
    assert (events + [e])[..|events + [e]| - 1] == events;
  }

  // ---------- the order of loading ----------

  /// The position of the last accepted write of a key.
  function LastIndex(digest: Event -> string, events: seq<Event>, key: string): (i: int)
    ensures -1 <= i < |events|
  {
    if events == [] then -1
    else
      var e := events[|events| - 1];
      if Known(e) && EventKey(digest, e) == key then |events| - 1 else LastIndex(digest, events[..|events| - 1], key)
  }

  lemma {:induction false} LastIndexIs(digest: Event -> string, events: seq<Event>, key: string)
    ensures var i := LastIndex(digest, events, key);
            && (i >= 0 ==> Known(events[i]) && EventKey(digest, events[i]) == key)
            && forall j :: i < j < |events| && Known(events[j]) ==> EventKey(digest, events[j]) != key
  {
    if events != [] {
      hide EventKey, Known;
      LastIndexIs(digest, events[..|events| - 1], key);
    }
  }

  function WrittenAt(digest: Event -> string, events: seq<Event>): Event -> int {
    (e: Event) => if e.id.Some? then LastIndex(digest, events, e.id.value) else -1
  }

  ghost predicate Increasing(contents: seq<Event>, position: Event -> int) {
    forall i, j :: 0 <= i < j < |contents| ==> position(contents[i]) < position(contents[j])
  }

  lemma {:induction false} FilterIncreasing(contents: seq<Event>, p: Event -> bool, position: Event -> int)
    requires Increasing(contents, position)
    ensures Increasing(Filter(contents, p), position)
  {
    if contents != [] {
      var front, last := contents[..|contents| - 1], contents[|contents| - 1];
      FilterIncreasing(front, p, position);
      forall x | x in Filter(front, p) ensures position(x) < position(last) {
        FilterMember(front, p, x);
      }
    }
  }

  /// The events are held in the order of their last writes.
  lemma {:induction false} HeldByWrite(digest: Event -> string, events: seq<Event>)
    ensures Increasing(WriteAll(digest, events), WrittenAt(digest, events))
    ensures forall x :: x in WriteAll(digest, events) ==> x.id.Some?
  {
    if events != [] {
      var front, e := events[..|events| - 1], events[|events| - 1];
      HeldByWrite(digest, front);
      var before, after := WrittenAt(digest, front), WrittenAt(digest, events);
      if Known(e) {
        var held := WriteAll(digest, front);
        var kept := Filter(held, NotId(Keyed(digest, e).id));
        FilterIncreasing(held, NotId(Keyed(digest, e).id), before);
        forall i | 0 <= i < |kept| ensures kept[i].id.Some? && after(kept[i]) == before(kept[i]) < after(Keyed(digest, e)) {
          assert kept[i] in kept;
          FilterMember(held, NotId(Keyed(digest, e).id), kept[i]);
        }
      } else {
        forall x ensures after(x) == before(x) {
        }
      }
    }
  }

  /// In order of time, and among events of one time in the order of their last writes.
  ghost predicate ByLastWrite(digest: Event -> string, events: seq<Event>, loaded: seq<Event>) {
    forall i, j :: 0 <= i < j < |loaded| ==>
      && loaded[i].id.Some? && loaded[j].id.Some?
      && loaded[i].createdAt <= loaded[j].createdAt
      && (loaded[i].createdAt == loaded[j].createdAt ==>
           LastIndex(digest, events, loaded[i].id.value) < LastIndex(digest, events, loaded[j].id.value))
  }

  lemma LoadedByTime(digest: Event -> string, events: seq<Event>)
    ensures ByLastWrite(digest, events, FromSqlite(digest, events))
  {
    var held := WriteAll(digest, events);
    var sorted := Sort(held, Created);
    HeldByWrite(digest, events);
    SortRanked(held, Created, WrittenAt(digest, events));
    forall i | 0 <= i < |sorted| ensures sorted[i].id.Some? {
      SortMember(held, Created, sorted[i]);
    }
    hide Sort, WriteAll, Filter, LastIndex;
    var loaded := FromSqlite(digest, events);
    forall i, j | 0 <= i < j < |loaded|
      ensures loaded[i].createdAt <= loaded[j].createdAt
      ensures loaded[i].createdAt == loaded[j].createdAt ==>
                LastIndex(digest, events, loaded[i].id.value) < LastIndex(digest, events, loaded[j].id.value)
    {
      assert Created(sorted[i]) <= Created(sorted[j]);
    }
  }

  // ---------- identity references ----------

  /// The identities a JSON payload may name; `None` when the content does not parse.
  datatype Payload = Payload(subject: Option<string>, observer: Option<string>, identity: Option<string>, publisher: Option<string>)

  function Ref(role: string, pubkey: Option<string>): seq<(string, string)> {
    if pubkey.Some? then [(role, pubkey.value)] else []
  }

  /// The roles and pubkeys an event's content names, each role once.
  function IdentityRefs(parse: string -> Option<Payload>, e: Event): (refs: seq<(string, string)>)
    ensures forall i, j :: 0 <= i < j < |refs| ==> refs[i].0 != refs[j].0
  {
    var payload := parse(e.content);
    if payload.None? then []
    else if e.kind == 30800 then Ref("subject", payload.value.subject) + Ref("observer", payload.value.observer)
    else if e.kind == 30801 then Ref("route_identity", payload.value.identity)
    else if e.kind == 10804 then Ref("publisher", payload.value.publisher)
    else []
  }

  /// The stored references of a key are exactly the first n of `refs`.
  ghost predicate RefsUpTo(t: Tables, key: string, refs: seq<(string, string)>, n: nat)
    requires n <= |refs|
  {
    && (forall k :: k in t.identityRefs && k.0 == key ==> exists i :: 0 <= i < n && refs[i].0 == k.1)
    && (forall i :: 0 <= i < n ==> RefStored(t, key, refs[i]))
  }

  ghost predicate RefStored(t: Tables, key: string, ref: (string, string)) {
    && (key, ref.0) in t.identityRefs && ref.1 in t.identities
    && t.identityRefs[(key, ref.0)] == t.identities[ref.1]
  }

  ghost predicate RefsAre(t: Tables, parse: string -> Option<Payload>, e: Event) {
    e.id.Some? && RefsUpTo(t, e.id.value, IdentityRefs(parse, e), |IdentityRefs(parse, e)|)
  }

  /// Read back through the identities table, the references of an event are exactly those its content names: the
  /// subject and the observer of a reachability report, the identity of a route announcement, the publisher of
  /// an announcement.
  lemma RefsExact(t: Tables, parse: string -> Option<Payload>, e: Event, role: string, pubkey: string)
    requires Sound(t) && RefsAre(t, parse, e)
    ensures (pubkey in t.identities && (e.id.value, role) in t.identityRefs && t.identityRefs[(e.id.value, role)] == t.identities[pubkey])
       <==> parse(e.content).Some? &&
            ((e.kind == 30800 && role == "subject" && parse(e.content).value.subject == Some(pubkey))
             || (e.kind == 30800 && role == "observer" && parse(e.content).value.observer == Some(pubkey))
             || (e.kind == 30801 && role == "route_identity" && parse(e.content).value.identity == Some(pubkey))
             || (e.kind == 10804 && role == "publisher" && parse(e.content).value.publisher == Some(pubkey)))
  {
    var refs := IdentityRefs(parse, e);
    StoredRef(t, parse, e, role, pubkey);
    hide Sound, RefsAre;
    forall i | 0 <= i < |refs| && refs[i] == (role, pubkey) ensures (role, pubkey) in refs {
    }
  }

  lemma StoredRef(t: Tables, parse: string -> Option<Payload>, e: Event, role: string, pubkey: string)
    requires Sound(t) && RefsAre(t, parse, e)
    ensures (pubkey in t.identities && (e.id.value, role) in t.identityRefs && t.identityRefs[(e.id.value, role)] == t.identities[pubkey])
       <==> (role, pubkey) in IdentityRefs(parse, e)
  {
    hide IdentityRefs;
    var refs, key := IdentityRefs(parse, e), e.id.value;
    if (key, role) in t.identityRefs {
      var i :| 0 <= i < |refs| && refs[i].0 == role;
      assert RefStored(t, key, refs[i]);
    }
    if i :| 0 <= i < |refs| && refs[i] == (role, pubkey) {
      assert RefStored(t, key, refs[i]);
    }
  }

  /// The statements in between leave the references of other keys alone.
  ghost predicate OtherRefs(t: Tables, t': Tables, key: string) {
    forall k: (string, string) :: k.0 != key ==>
      (k in t.identityRefs <==> k in t'.identityRefs) && (k in t.identityRefs ==> t.identityRefs[k] == t'.identityRefs[k])
  }

  lemma RefsFrame(t: Tables, t': Tables, parse: string -> Option<Payload>, e: Event, key: string)
    requires RefsAre(t, parse, e) && Grown(t, t') && OtherRefs(t, t', key) && e.id != Some(key)
    ensures RefsAre(t', parse, e)
  {
    var refs := IdentityRefs(parse, e);
    forall i | 0 <= i < |refs| ensures RefStored(t', e.id.value, refs[i]) {
      assert RefStored(t, e.id.value, refs[i]);
    }
    forall k | k in t'.identityRefs && k.0 == e.id.value ensures exists i :: 0 <= i < |refs| && refs[i].0 == k.1 {
      assert k in t.identityRefs;
    }
  }

  lemma InsertRefWrites(t: Tables, key: string, refs: seq<(string, string)>, n: nat)
    requires n < |refs| && RefsUpTo(t, key, refs, n) && refs[n].1 in t.identities
    requires forall i, j :: 0 <= i < j < |refs| ==> refs[i].0 != refs[j].0
    ensures RefsUpTo(InsertRef(t, key, refs[n].0, t.identities[refs[n].1]), key, refs, n + 1)
  {
    var t' := InsertRef(t, key, refs[n].0, t.identities[refs[n].1]);
    forall i | 0 <= i < n + 1 ensures RefStored(t', key, refs[i]) {
      if i < n {
        assert RefStored(t, key, refs[i]);
      }
    }
    forall k | k in t'.identityRefs && k.0 == key ensures exists i :: 0 <= i < n + 1 && refs[i].0 == k.1 {
      if k.1 == refs[n].0 {
      } else {
        assert k in t.identityRefs;
      }
    }
  }

  // ---------- statements keep the tables sound ----------

  /// A table of unique names with one more row.
  lemma MoreValues(m: map<string, nat>, name: string, next: nat)
    requires name !in m && Injective(m) && forall n :: n in m ==> m[n] < next
    ensures var m' := m[name := next];
            Injective(m') && m.Values <= m'.Values && forall n :: n in m' ==> m'[n] < next + 1
  {
    var m' := m[name := next];
    forall id | id in m.Values ensures id in m'.Values {
      var n :| n in m && m[n] == id;
      assert m'[n] == id;
    }
  }

  lemma EnsureIdentitySound(t: Tables, pubkey: string)
    requires Sound(t)
    ensures var t' := EnsureIdentity(t, pubkey);
            Sound(t') && pubkey in t'.identities && Grown(t, t') && t' == t.(identities := t'.identities, nextIdentity := t'.nextIdentity)
  {
    hide Injective, UniqueRows;
    if pubkey !in t.identities {
      MoreValues(t.identities, pubkey, t.nextIdentity);
      assert Sound(EnsureIdentity(t, pubkey));
    }
  }

  lemma EnsureTagKeySound(t: Tables, name: string)
    requires Sound(t)
    ensures var t' := EnsureTagKey(t, name);
            Sound(t') && name in t'.tagKeys && Grown(t, t') && t' == t.(tagKeys := t'.tagKeys, nextTagKey := t'.nextTagKey)
  {
    hide Injective, UniqueRows;
    if name !in t.tagKeys {
      MoreValues(t.tagKeys, name, t.nextTagKey);
      assert Sound(EnsureTagKey(t, name));
    }
  }

  /// Identities and tag names are never dropped or renumbered.
  ghost predicate Grown(t: Tables, t': Tables) {
    && (forall p :: p in t.identities ==> p in t'.identities && t'.identities[p] == t.identities[p])
    && (forall n :: n in t.tagKeys ==> n in t'.tagKeys && t'.tagKeys[n] == t.tagKeys[n])
  }

  lemma WithoutRows(rows: seq<EventRow>, key: string)
    requires UniqueRows(rows)
    ensures var r := Without(rows, key);
            && UniqueRows(r) && key !in Keys(r)
            && (forall x :: x in r <==> x in rows && x.key != key)
            && Keys(r) == Keys(rows) - {key}
  {
    WithoutUnique(rows, key);
    forall x ensures x in Without(rows, key) <==> x in rows && x.key != key {
      FilterMember(rows, NotKey(key), x);
    }
  }

  lemma {:induction false} WithoutUnique(rows: seq<EventRow>, key: string)
    requires UniqueRows(rows)
    ensures UniqueRows(Without(rows, key))
  {
    if rows != [] {
      var front, last := rows[..|rows| - 1], rows[|rows| - 1];
      WithoutUnique(front, key);
      forall x | x in Without(front, key) ensures x.key != last.key {
        FilterMember(front, NotKey(key), x);
      }
    }
  }

  lemma ReplaceEventSound(t: Tables, row: EventRow)
    requires Sound(t) && row.identityId in t.identities.Values && row.kind in KINDS
    ensures Sound(ReplaceEvent(t, row))
  {
    WithoutRows(t.events, row.key);
    var t' := ReplaceEvent(t, row);
    assert Keys(t'.events) == Keys(Without(t.events, row.key)) + {row.key};
  }

  // ---------- statements and what the tables represent ----------

  /// The state of an upsert of `e` under way: the other rows are `others`, the tags of `e` are in up
  /// to position (i, v).
  ghost predicate Writing(t: Tables, others: seq<Event>, e: Event, i: nat, v: nat) {
    && |t.events| == |others| + 1
    && (forall k :: 0 <= k < |others| ==> RowIs(t, t.events[k], others[k]))
    && e.pubkey in t.identities
    && e.id.Some?
    && t.events[|others|] == EventRow(e.id.value, t.identities[e.pubkey], e.kind, e.createdAt, e.content, e.sig)
    && TagsUpTo(t, e.id.value, e.tags, i, v)
  }

  lemma WritingFrame(t: Tables, t': Tables, others: seq<Event>, e: Event, i: nat, v: nat)
    requires Writing(t, others, e, i, v) && Grown(t, t') && t'.events == t.events && t'.eventTags == t.eventTags
    ensures Writing(t', others, e, i, v)
  {
  }

  lemma WritingDone(t: Tables, others: seq<Event>, e: Event)
    requires Writing(t, others, e, |e.tags|, 0)
    ensures Represents(t, others + [e])
  {
  }

  /// Dropping a key's rows and its event go together.
  lemma {:induction false} WithoutRepresents(t: Tables, rows: seq<EventRow>, contents: seq<Event>, key: string)
    requires |contents| == |rows| && forall i :: 0 <= i < |rows| ==> RowIs(t, rows[i], contents[i])
    ensures var r, c := Without(rows, key), Filter(contents, NotId(Some(key)));
            |r| == |c| && forall i :: 0 <= i < |r| ==> RowIs(t, r[i], c[i]) && r[i].key != key
  {
    hide RowIs;
    if rows != [] {
      var front, last := rows[..|rows| - 1], rows[|rows| - 1];
      var cfront, clast := contents[..|rows| - 1], contents[|rows| - 1];
      assert rows == front + [last] && contents == cfront + [clast];
      WithoutRepresents(t, front, cfront, key);
      FilterSnoc(front, last, NotKey(key));
      FilterSnoc(cfront, clast, NotId(Some(key)));
      RowKey(t, last, clast);
    }
  }

  lemma RowKey(t: Tables, r: EventRow, e: Event)
    requires RowIs(t, r, e)
    ensures e.id == Some(r.key)
  {
  }

  lemma ReplaceStartsWriting(t: Tables, contents: seq<Event>, e: Event)
    requires Sound(t) && Represents(t, contents) && e.id.Some? && e.pubkey in t.identities
    ensures var row := EventRow(e.id.value, t.identities[e.pubkey], e.kind, e.createdAt, e.content, e.sig);
            Writing(ReplaceEvent(t, row), Filter(contents, NotId(e.id)), e, 0, 0)
  {
    var key := e.id.value;
    var row := EventRow(key, t.identities[e.pubkey], e.kind, e.createdAt, e.content, e.sig);
    var t' := ReplaceEvent(t, row);
    var others := Filter(contents, NotId(Some(key)));
    WithoutRepresents(t, t.events, contents, key);
    assert forall k :: 0 <= k < |others| ==> RowIs(t', t'.events[k], others[k]);
  }

  /// One more cell of the event being written.
  lemma InsertTagWrites(t: Tables, others: seq<Event>, e: Event, i: nat, v: nat)
    requires Sound(t) && Writing(t, others, e, i, v)
    requires i < |e.tags| && Named(e.tags[i]) && v < |e.tags[i]| && e.tags[i][0] in t.tagKeys
    ensures var t' := InsertTag(t, TagCell(e.id.value, t.tagKeys[e.tags[i][0]], i, v), e.tags[i][v]);
            Sound(t') && Writing(t', others, e, i, v + 1)
  {
    var key := e.id.value;
    var cell := TagCell(key, t.tagKeys[e.tags[i][0]], i, v);
    var t' := InsertTag(t, cell, e.tags[i][v]);
    assert t.events[|others|] in t.events;
    forall k | 0 <= k < |others| ensures RowIs(t', t'.events[k], others[k]) {
      assert t.events[k].key != t.events[|others|].key;
    }
    TagsGrow(t, key, e.tags, i, v);
  }

  lemma TagsGrow(t: Tables, key: string, tags: seq<seq<string>>, i: nat, v: nat)
    requires TagsUpTo(t, key, tags, i, v)
    requires i < |tags| && Named(tags[i]) && v < |tags[i]| && tags[i][0] in t.tagKeys
    ensures TagsUpTo(InsertTag(t, TagCell(key, t.tagKeys[tags[i][0]], i, v), tags[i][v]), key, tags, i, v + 1)
  {
    var cell := TagCell(key, t.tagKeys[tags[i][0]], i, v);
    var t' := InsertTag(t, cell, tags[i][v]);
    var w := v + 1;
    forall c | c in t'.eventTags && c.key == key ensures Holds(t', c, tags, i, w) {
      if c != cell {
        assert Holds(t, c, tags, i, v);
      }
    }
    forall a: nat, b: nat | Stored(tags, i, w, a, b)
      ensures tags[a][0] in t'.tagKeys && TagCell(key, t'.tagKeys[tags[a][0]], a, b) in t'.eventTags
    {
      if a != i || b != v {
        assert Stored(tags, i, v, a, b);
      }
    }
  }

  /// Moving on to the next tag: a nameless one stores nothing, a finished one is complete.
  lemma NextTag(t: Tables, key: string, tags: seq<seq<string>>, i: nat, v: nat)
    requires TagsUpTo(t, key, tags, i, v) && i < |tags|
    requires if Named(tags[i]) then v == |tags[i]| else v == 0
    ensures TagsUpTo(t, key, tags, i + 1, 0)
  {
    var next := i + 1;
    forall c | c in t.eventTags && c.key == key ensures Holds(t, c, tags, next, 0) {
      assert Holds(t, c, tags, i, v);
    }
    forall a: nat, b: nat | Stored(tags, next, 0, a, b)
      ensures tags[a][0] in t.tagKeys && TagCell(key, t.tagKeys[tags[a][0]], a, b) in t.eventTags
    {
      assert Stored(tags, i, v, a, b);
    }
  }

  // ---------- reading rows back ----------

  /// A JavaScript array filled by index: holes are indices below `length` without a cell.
  datatype Sparse<T> = Sparse(length: nat, cells: map<nat, T>) {
    function Put(i: nat, x: T): Sparse<T> {
      Sparse(if length > i then length else i + 1, cells[i := x])
    }
  }

  /// What `filter` visits: the cells in index order, holes skipped.
  function Collect<T>(cells: map<nat, T>, n: nat): seq<T> {
    if n == 0 then []
    else Collect(cells, n - 1) + if n - 1 in cells then [cells[n - 1]] else []
  }

  type TagGrid = Sparse<Sparse<string>>

  function GridOf(m: map<string, TagGrid>, key: string): TagGrid {
    if key in m then m[key] else Sparse(0, map[])
  }

  function RowOf(g: TagGrid, i: nat): Sparse<string> {
    if i in g.cells then g.cells[i] else Sparse(0, map[])
  }

  function ReadCell(m: map<string, TagGrid>, c: TagCell, value: string): map<string, TagGrid> {
    var g := GridOf(m, c.key);
    m[c.key := g.Put(c.tagIndex, RowOf(g, c.tagIndex).Put(c.valueIndex, value))]
  }

  function RowValues(row: Sparse<string>): seq<string> {
    Collect(row.cells, row.length)
  }

  function TagsOut(g: TagGrid): seq<seq<string>> {
    Map(Collect(g.cells, g.length), RowValues)
  }

  /// The grids hold exactly the cells of `done` that belong to wanted keys.
  ghost predicate HasRead(t: Tables, m: map<string, TagGrid>, done: set<TagCell>, wanted: set<string>) {
    && (forall c :: c in done && c.key in wanted ==> c in t.eventTags && At(m, c.key, c.tagIndex, c.valueIndex) == Some(t.eventTags[c]))
    && (forall k, i, v :: At(m, k, i, v).Some? ==>
          k in wanted && exists c :: c in done && c.key == k && c.tagIndex == i && c.valueIndex == v)
    && (forall k, i :: i in GridOf(m, k).cells ==>
          i < GridOf(m, k).length && exists v :: v in RowOf(GridOf(m, k), i).cells)
    && (forall k, i, v :: v in RowOf(GridOf(m, k), i).cells ==> v < RowOf(GridOf(m, k), i).length)
  }

  function At(m: map<string, TagGrid>, k: string, i: nat, v: nat): Option<string> {
    var row := RowOf(GridOf(m, k), i);
    if v in row.cells then Some(row.cells[v]) else None
  }

  /// A stored value has one cell: its tag index fixes the tag name.
  ghost predicate OneCell(t: Tables, key: string) {
    forall c, d :: c in t.eventTags && d in t.eventTags && SamePlace(key, c, d) ==> c == d
  }

  predicate SamePlace(key: string, c: TagCell, d: TagCell) {
    c.key == d.key == key && c.tagIndex == d.tagIndex && c.valueIndex == d.valueIndex
  }

  lemma ReadOne(t: Tables, m: map<string, TagGrid>, done: set<TagCell>, wanted: set<string>, c: TagCell)
    requires HasRead(t, m, done, wanted) && c in t.eventTags && c !in done
    requires forall k :: k in wanted ==> OneCell(t, k)
    ensures HasRead(t, if c.key in wanted then ReadCell(m, c, t.eventTags[c]) else m, done + {c}, wanted)
  {
    var m' := if c.key in wanted then ReadCell(m, c, t.eventTags[c]) else m;
    var done' := done + {c};
    forall k, i, v
      ensures At(m', k, i, v) == if c.key in wanted && k == c.key && i == c.tagIndex && v == c.valueIndex then Some(t.eventTags[c]) else At(m, k, i, v)
    {
    }
    forall d | d in done' && d.key in wanted
      ensures d in t.eventTags && At(m', d.key, d.tagIndex, d.valueIndex) == Some(t.eventTags[d])
    {
      if d != c {
        assert d in done;
        assert OneCell(t, d.key);
      }
    }
    forall k, i, v | At(m', k, i, v).Some?
      ensures k in wanted && exists d :: d in done' && d.key == k && d.tagIndex == i && d.valueIndex == v
    {
      if At(m, k, i, v).Some? {
        var d :| d in done && d.key == k && d.tagIndex == i && d.valueIndex == v;
        assert d in done';
      } else {
        assert c in done';
      }
    }
    GridsGrow(t, m, done, wanted, c);
  }

  lemma GridsGrow(t: Tables, m: map<string, TagGrid>, done: set<TagCell>, wanted: set<string>, c: TagCell)
    requires HasRead(t, m, done, wanted) && c in t.eventTags
    ensures var m' := ReadCell(m, c, t.eventTags[c]);
            && (forall k, i :: i in GridOf(m', k).cells ==>
                 i < GridOf(m', k).length && exists v :: v in RowOf(GridOf(m', k), i).cells)
            && (forall k, i, v :: v in RowOf(GridOf(m', k), i).cells ==> v < RowOf(GridOf(m', k), i).length)
  {
    var m' := ReadCell(m, c, t.eventTags[c]);
    forall k, i | i in GridOf(m', k).cells
      ensures i < GridOf(m', k).length && exists v :: v in RowOf(GridOf(m', k), i).cells
    {
      if k == c.key && i == c.tagIndex {
        assert c.valueIndex in RowOf(GridOf(m', k), i).cells;
      } else {
        assert i in GridOf(m, k).cells;
        var v :| v in RowOf(GridOf(m, k), i).cells;
        assert v in RowOf(GridOf(m', k), i).cells;
      }
    }
    forall k, i, v | v in RowOf(GridOf(m', k), i).cells ensures v < RowOf(GridOf(m', k), i).length {
      if !(k == c.key && i == c.tagIndex && v == c.valueIndex) {
        assert v in RowOf(GridOf(m, k), i).cells;
      }
    }
  }

  lemma {:induction false} CollectValues(cells: map<nat, string>, tag: seq<string>, n: nat)
    requires forall v: nat :: v in cells <==> v < |tag|
    requires forall v: nat :: v < |tag| ==> cells[v] == tag[v]
    ensures Collect(cells, n) == if n < |tag| then tag[..n] else tag
  {
    if n > 0 {
      CollectValues(cells, tag, n - 1);
    }
  }

  lemma {:induction false} CollectNamed(cells: map<nat, Sparse<string>>, tags: seq<seq<string>>, n: nat)
    requires forall i: nat :: i in cells <==> i < |tags| && Named(tags[i])
    requires forall i: nat :: i in cells ==> RowValues(cells[i]) == tags[i]
    ensures Map(Collect(cells, n), RowValues) == Filter(if n < |tags| then tags[..n] else tags, Named)
  {
    hide RowValues, Filter;
    if n > 0 {
      CollectNamed(cells, tags, n - 1);
      CollectStep(cells, n);
      if n <= |tags| {
        assert (if n < |tags| then tags[..n] else tags) == tags[..n - 1] + [tags[n - 1]];
        FilterSnoc(tags[..n - 1], tags[n - 1], Named);
      }
    } else {
      CollectStart(cells, tags);
    }
  }

  lemma CollectStart(cells: map<nat, Sparse<string>>, tags: seq<seq<string>>)
    ensures Map(Collect(cells, 0), RowValues) == [] == Filter(if 0 < |tags| then tags[..0] else tags, Named)
  {
  }

  lemma CollectStep(cells: map<nat, Sparse<string>>, n: nat)
    requires n > 0
    ensures Map(Collect(cells, n), RowValues)
         == Map(Collect(cells, n - 1), RowValues) + if n - 1 in cells then [RowValues(cells[n - 1])] else []
  {
    hide RowValues;
  }

  /// Once every cell is read, a wanted key's grid gives back its named tags in order.
  lemma ReadGivesTags(t: Tables, m: map<string, TagGrid>, wanted: set<string>, key: string, tags: seq<seq<string>>)
    requires HasRead(t, m, t.eventTags.Keys, wanted) && key in wanted && TagsAre(t, key, tags)
    ensures TagsOut(GridOf(m, key)) == Filter(tags, Named)
  {
    var g := GridOf(m, key);
    forall i: nat, v: nat
      ensures At(m, key, i, v) == if i < |tags| && Named(tags[i]) && v < |tags[i]| then Some(tags[i][v]) else None
    {
      ReadCellValue(t, m, wanted, key, tags, i, v);
    }
    forall i: nat ensures i in g.cells <==> i < |tags| && Named(tags[i]) {
      if i in g.cells {
        var v :| v in RowOf(g, i).cells;
        assert At(m, key, i, v).Some?;
      }
      if i < |tags| && Named(tags[i]) {
        assert At(m, key, i, 0).Some?;
      }
    }
    forall i: nat | i in g.cells ensures RowValues(g.cells[i]) == tags[i] {
      RowGivesTag(m, key, tags, i);
    }
    CollectNamed(g.cells, tags, g.length);
    ShortGrid(g.cells, tags, g.length);
  }

  lemma ReadCellValue(t: Tables, m: map<string, TagGrid>, wanted: set<string>, key: string, tags: seq<seq<string>>, i: nat, v: nat)
    requires HasRead(t, m, t.eventTags.Keys, wanted) && key in wanted && TagsAre(t, key, tags)
    ensures At(m, key, i, v) == if i < |tags| && Named(tags[i]) && v < |tags[i]| then Some(tags[i][v]) else None
  {
    assert forall c :: c in t.eventTags.Keys && c.key == key ==> Holds(t, c, tags, |tags|, 0);
    if Stored(tags, |tags|, 0, i, v) {
      assert TagCell(key, t.tagKeys[tags[i][0]], i, v) in t.eventTags.Keys;
    }
  }

  lemma RowGivesTag(m: map<string, TagGrid>, key: string, tags: seq<seq<string>>, i: nat)
    requires i in GridOf(m, key).cells && i < |tags|
    requires forall v: nat :: At(m, key, i, v) == if v < |tags[i]| then Some(tags[i][v]) else None
    requires forall v :: v in RowOf(GridOf(m, key), i).cells ==> v < RowOf(GridOf(m, key), i).length
    ensures RowValues(GridOf(m, key).cells[i]) == tags[i]
  {
    var row := RowOf(GridOf(m, key), i);
    forall v: nat ensures (v in row.cells <==> v < |tags[i]|) && (v < |tags[i]| ==> row.cells[v] == tags[i][v]) {
      assert At(m, key, i, v) == if v < |tags[i]| then Some(tags[i][v]) else None;
    }
    if |tags[i]| > 0 {
      assert |tags[i]| - 1 in row.cells;
    }
    CollectValues(row.cells, tags[i], row.length);
  }

  /// Tags past the grid's length are all nameless.
  lemma {:induction false} ShortGrid(cells: map<nat, Sparse<string>>, tags: seq<seq<string>>, n: nat)
    requires forall i: nat :: i in cells <==> i < |tags| && Named(tags[i])
    requires forall i: nat :: i in cells ==> i < n
    ensures Filter(if n < |tags| then tags[..n] else tags, Named) == Filter(tags, Named)
  {
    if n < |tags| {
      assert tags == tags[..n] + tags[n..];
      FilterConcat(tags[..n], tags[n..], Named);
      FilterNone(tags[n..], Named);
    }
  }

  // ---------- the store ----------

  class NostrSqliteStore {
    var db: Tables

    /// What the store was given, and what it holds: one event per key, in the order of last writes.
    ghost var received: seq<Event>
    ghost var contents: seq<Event>

    /// Digest of an event without an id, and the JSON reading of a content.
    const digest: Event -> string
    const parse: string -> Option<Payload>

    ghost predicate Valid()
      reads this
    {
      && Sound(db) && Represents(db, contents)
      && contents == WriteAll(digest, received)
      && forall e :: e in contents ==> RefsAre(db, parse, e)
    }

    constructor (digest: Event -> string, parse: string -> Option<Payload>)
      ensures Valid() && received == [] && this.digest == digest && this.parse == parse
    {
      this.digest, this.parse := digest, parse;
      db := Tables(map[], 0, map[], 0, [], map[], map[]);
      contents, received := [], [];
    }

    /// Opening the file another store has left: tables and kinds that exist stay as they are.
    constructor Reopen(left: NostrSqliteStore)
      requires left.Valid()
      ensures Valid() && received == left.received && contents == left.contents && db == left.db
      ensures digest == left.digest && parse == left.parse
    {
      digest, parse := left.digest, left.parse;
      db, received, contents := left.db, left.received, left.contents;
    }

    /// An event of an unknown kind violates the foreign key of `events`; the transaction is rolled
    /// back and the call fails. Otherwise the event replaces whatever its key held.
    method Upsert(event: Event) returns (ok: bool)
      requires Valid()
      modifies this
      ensures Valid() && received == old(received) + [event] && ok == Known(event)
      ensures ok <==> event.kind in {10800, 10801, 10802, 10803, 10804, 10805, 20800, 20801, 30180, 30181, 30800, 30801}
      ensures contents == if ok then Write(old(contents), Keyed(digest, event)) else old(contents)
      ensures !ok ==> db == old(db)
    {
      hide Sound, Represents, RefsAre, Writing, Grown, OtherRefs, Filter, WriteAll, ReplaceEvent, EnsureIdentity;
      var saved := db;
      WriteAllSnoc(digest, received, event);
      received := received + [event];
      EnsureIdentitySound(db, event.pubkey);
      db := EnsureIdentity(db, event.pubkey);
      var identityId := db.identities[event.pubkey];
      var key := EventKey(digest, event);
      if event.kind !in KINDS {
        db := saved;
        return false;
      }
      ghost var e := Keyed(digest, event);
      StartWriting(saved, db, contents, e, EventRow(key, identityId, event.kind, event.createdAt, event.content, event.sig));
      ok := true;
      WriteEvent(event, key, identityId, saved);
      contents := Filter(contents, NotId(e.id)) + [e];
    }

    /// The statements from the event's row on; `t` are the tables before the call.
    method WriteEvent(event: Event, key: string, identityId: nat, ghost t: Tables)
      requires key == EventKey(digest, event)
      requires forall x :: x in contents ==> RefsAre(t, parse, x)
      requires var r := ReplaceEvent(db, EventRow(key, identityId, event.kind, event.createdAt, event.content, event.sig));
               && Sound(r) && Writing(r, Filter(contents, NotId(Some(key))), Keyed(digest, event), 0, 0)
               && Grown(t, r) && OtherRefs(t, r, key) && (forall k :: k in r.identityRefs ==> k.0 != key)
      modifies this`db
      ensures var held := Filter(contents, NotId(Some(key))) + [Keyed(digest, event)];
              Sound(db) && Represents(db, held) && forall x :: x in held ==> RefsAre(db, parse, x)
    {
      hide Sound, Represents, RefsAre, Writing, Grown, OtherRefs, Filter, ReplaceEvent;
      var row := EventRow(key, identityId, event.kind, event.createdAt, event.content, event.sig);
      ghost var others := Filter(contents, NotId(Some(key)));
      AlreadyDeleted(db, row);
      db := ReplaceEvent(db, row);
      db := DeleteTags(db, key);
      db := DeleteRefs(db, key);
      ghost var started := db;
      WriteRefs(event, key, others);
      ghost var referred := db;
      WriteTags(event, key, others);
      WritingDone(db, others, Keyed(digest, event));
      RefsDone(t, started, referred, db, parse, contents, Keyed(digest, event));
    }

    /// The identity of the author and the new row leave the references of other keys alone.
    static lemma StartWriting(t: Tables, t': Tables, contents: seq<Event>, e: Event, row: EventRow)
      requires Sound(t) && Represents(t, contents) && t' == EnsureIdentity(t, e.pubkey) && Known(e) && e.id.Some?
      requires e.pubkey in t'.identities
      requires row == EventRow(e.id.value, t'.identities[e.pubkey], e.kind, e.createdAt, e.content, e.sig)
      ensures var r := ReplaceEvent(t', row);
              && Sound(r) && Writing(r, Filter(contents, NotId(e.id)), e, 0, 0)
              && Grown(t, r) && OtherRefs(t, r, row.key)
              && (forall k :: k in r.identityRefs ==> k.0 != row.key)
    {
      EnsureIdentitySound(t, e.pubkey);
      StillRepresents(t, t', contents);
      ReplaceEventSound(t', row);
      ReplaceStartsWriting(t', contents, e);
    }

    static lemma StillRepresents(t: Tables, t': Tables, contents: seq<Event>)
      requires Represents(t, contents) && Grown(t, t') && t'.events == t.events && t'.eventTags == t.eventTags
      ensures Represents(t', contents)
    {
      hide TagsUpTo;
      forall i | 0 <= i < |contents| ensures RowIs(t', t'.events[i], contents[i]) {
        assert RowIs(t, t.events[i], contents[i]);
        TagsFrame(t, t', t.events[i].key, contents[i].tags);
      }
    }

    static lemma TagsFrame(t: Tables, t': Tables, key: string, tags: seq<seq<string>>)
      requires TagsAre(t, key, tags) && Grown(t, t') && t'.eventTags == t.eventTags
      ensures TagsAre(t', key, tags)
    {
    }

    /// At the end every held event has its references and no others.
    static lemma RefsDone(t: Tables, started: Tables, referred: Tables, t': Tables, parse: string -> Option<Payload>, contents: seq<Event>, e: Event)
      requires e.id.Some? && forall x :: x in contents ==> RefsAre(t, parse, x)
      requires Grown(t, started) && OtherRefs(t, started, e.id.value)
      requires Grown(started, referred) && OtherRefs(started, referred, e.id.value)
      requires RefsAre(referred, parse, e)
      requires Grown(referred, t') && t'.identityRefs == referred.identityRefs
      ensures forall x :: x in Filter(contents, NotId(e.id)) + [e] ==> RefsAre(t', parse, x)
    {
      hide RefsAre;
      forall x | x in Filter(contents, NotId(e.id)) ensures RefsAre(t', parse, x) {
        FilterMember(contents, NotId(e.id), x);
        RefsFrame(t, t', parse, x, e.id.value);
      }
      SameRefs(referred, t', parse, e);
    }

    static lemma SameRefs(t: Tables, t': Tables, parse: string -> Option<Payload>, e: Event)
      requires RefsAre(t, parse, e) && Grown(t, t') && t'.identityRefs == t.identityRefs
      ensures RefsAre(t', parse, e)
    {
      var refs := IdentityRefs(parse, e);
      forall i | 0 <= i < |refs| ensures RefStored(t', e.id.value, refs[i]) {
        assert RefStored(t, e.id.value, refs[i]);
      }
    }

    /// The cascade leaves nothing for the explicit deletions to delete.
    static lemma AlreadyDeleted(t: Tables, row: EventRow)
      ensures var r := ReplaceEvent(t, row);
              DeleteTags(r, row.key) == r && DeleteRefs(r, row.key) == r
    {
    }

    method WriteRefs(event: Event, key: string, ghost others: seq<Event>)
      requires Sound(db) && key == EventKey(digest, event) && Writing(db, others, Keyed(digest, event), 0, 0)
      requires forall k :: k in db.identityRefs ==> k.0 != key
      modifies this`db
      ensures Sound(db) && Writing(db, others, Keyed(digest, event), 0, 0)
      ensures RefsAre(db, parse, Keyed(digest, event))
      ensures OtherRefs(old(db), db, key) && Grown(old(db), db)
    {
      hide Sound, Writing, RefsUpTo, OtherRefs, Grown;
      var refs := IdentityRefs(parse, event);
      NoRefs(db, key, refs);
      for i := 0 to |refs|
        invariant Sound(db) && Writing(db, others, Keyed(digest, event), 0, 0)
        invariant RefsUpTo(db, key, refs, i) && OtherRefs(old(db), db, key) && Grown(old(db), db)
      {
        RefStep(old(db), db, others, Keyed(digest, event), refs, i);
        db := EnsureIdentity(db, refs[i].1);
        db := InsertRef(db, key, refs[i].0, db.identities[refs[i].1]);
      }
    }

    static lemma NoRefs(t: Tables, key: string, refs: seq<(string, string)>)
      requires forall k :: k in t.identityRefs ==> k.0 != key
      ensures RefsUpTo(t, key, refs, 0) && OtherRefs(t, t, key) && Grown(t, t)
    {
    }

    /// One more reference of the event being written.
    static lemma RefStep(t0: Tables, t: Tables, others: seq<Event>, e: Event, refs: seq<(string, string)>, i: nat)
      requires Sound(t) && Writing(t, others, e, 0, 0) && e.id.Some? && i < |refs| && RefsUpTo(t, e.id.value, refs, i)
      requires forall j, k :: 0 <= j < k < |refs| ==> refs[j].0 != refs[k].0
      requires OtherRefs(t0, t, e.id.value) && Grown(t0, t)
      ensures var u := EnsureIdentity(t, refs[i].1);
              && refs[i].1 in u.identities
              && var t' := InsertRef(u, e.id.value, refs[i].0, u.identities[refs[i].1]);
                 && Sound(t') && Writing(t', others, e, 0, 0) && RefsUpTo(t', e.id.value, refs, i + 1)
                 && OtherRefs(t0, t', e.id.value) && Grown(t0, t')
    {
      hide Sound, Writing, RefsUpTo, OtherRefs, Grown, EnsureIdentity, InsertRef;
      EnsureIdentitySound(t, refs[i].1);
      RefsGrow(t0, t, EnsureIdentity(t, refs[i].1), e.id.value, refs, i);
      RefWriting(EnsureIdentity(t, refs[i].1), t, others, e, refs[i]);
      InsertRefWrites(EnsureIdentity(t, refs[i].1), e.id.value, refs, i);
      InsertRefKeeps(t0, EnsureIdentity(t, refs[i].1), e.id.value, refs[i]);
    }

    static lemma RefsGrow(t0: Tables, t: Tables, u: Tables, key: string, refs: seq<(string, string)>, n: nat)
      requires n <= |refs| && RefsUpTo(t, key, refs, n) && OtherRefs(t0, t, key) && Grown(t0, t)
      requires Grown(t, u) && u.identityRefs == t.identityRefs
      ensures RefsUpTo(u, key, refs, n) && OtherRefs(t0, u, key) && Grown(t0, u)
    {
      forall j | 0 <= j < n ensures RefStored(u, key, refs[j]) {
        assert RefStored(t, key, refs[j]);
      }
    }

    static lemma InsertRefKeeps(t0: Tables, u: Tables, key: string, ref: (string, string))
      requires OtherRefs(t0, u, key) && Grown(t0, u) && ref.1 in u.identities
      ensures var t' := InsertRef(u, key, ref.0, u.identities[ref.1]);
              OtherRefs(t0, t', key) && Grown(t0, t')
    {
    }

    static lemma RefWriting(u: Tables, t: Tables, others: seq<Event>, e: Event, ref: (string, string))
      requires Sound(u) && Writing(t, others, e, 0, 0) && Grown(t, u) && u.events == t.events && u.eventTags == t.eventTags
      requires ref.1 in u.identities && e.id.Some?
      ensures var t' := InsertRef(u, e.id.value, ref.0, u.identities[ref.1]);
              Sound(t') && Writing(t', others, e, 0, 0)
    {
      WritingFrame(t, u, others, e, 0, 0);
      WritingFrame(u, InsertRef(u, e.id.value, ref.0, u.identities[ref.1]), others, e, 0, 0);
      InsertRefSound(u, e.id.value, ref.0, u.identities[ref.1], |others|);
    }

    static lemma InsertRefSound(t: Tables, key: string, role: string, id: nat, k: nat)
      requires Sound(t) && k < |t.events| && t.events[k].key == key && id in t.identities.Values
      ensures Sound(InsertRef(t, key, role, id))
    {
    }

    static lemma WritingNext(t: Tables, others: seq<Event>, e: Event, i: nat, v: nat)
      requires Writing(t, others, e, i, v) && i < |e.tags|
      requires if Named(e.tags[i]) then v == |e.tags[i]| else v == 0
      ensures Writing(t, others, e, i + 1, 0)
    {
      NextTag(t, e.id.value, e.tags, i, v);
    }

    method WriteTags(event: Event, key: string, ghost others: seq<Event>)
      requires Sound(db) && key == EventKey(digest, event) && Writing(db, others, Keyed(digest, event), 0, 0)
      modifies this`db
      ensures Sound(db) && Writing(db, others, Keyed(digest, event), |event.tags|, 0)
      ensures Grown(old(db), db) && db.identityRefs == old(db.identityRefs)
    {
      hide Sound, Writing;
      for tagIndex := 0 to |event.tags|
        invariant Sound(db) && Writing(db, others, Keyed(digest, event), tagIndex, 0)
        invariant Grown(old(db), db) && db.identityRefs == old(db.identityRefs)
      {
        var tag := event.tags[tagIndex];
        if tag == [] || tag[0] == "" {
          WritingNext(db, others, Keyed(digest, event), tagIndex, 0);
          continue;
        }
        ghost var before := db;
        EnsureTagKeySound(db, tag[0]);
        db := EnsureTagKey(db, tag[0]);
        WritingFrame(before, db, others, Keyed(digest, event), tagIndex, 0);
        WriteValues(event, key, tagIndex, db.tagKeys[tag[0]], others);
        WritingNext(db, others, Keyed(digest, event), tagIndex, |tag|);
      }
    }

    method WriteValues(event: Event, key: string, tagIndex: nat, tagKeyId: nat, ghost others: seq<Event>)
      requires Sound(db) && key == EventKey(digest, event) && Writing(db, others, Keyed(digest, event), tagIndex, 0)
      requires tagIndex < |event.tags| && Named(event.tags[tagIndex])
      requires event.tags[tagIndex][0] in db.tagKeys && db.tagKeys[event.tags[tagIndex][0]] == tagKeyId
      modifies this`db
      ensures Sound(db) && Writing(db, others, Keyed(digest, event), tagIndex, |event.tags[tagIndex]|)
      ensures Grown(old(db), db) && db.identityRefs == old(db.identityRefs)
    {
      hide Sound, Writing;
      var tag := event.tags[tagIndex];
      for valueIndex := 0 to |tag|
        invariant Sound(db) && Writing(db, others, Keyed(digest, event), tagIndex, valueIndex)
        invariant tag[0] in db.tagKeys && db.tagKeys[tag[0]] == tagKeyId
        invariant Grown(old(db), db) && db.identityRefs == old(db.identityRefs)
      {
        InsertTagWrites(db, others, Keyed(digest, event), tagIndex, valueIndex);
        db := InsertTag(db, TagCell(key, tagKeyId, tagIndex, valueIndex), tag[valueIndex]);
      }
    }

    /// Reads every stored tag cell, in whatever order the database delivers them.
    method ReadTags(wanted: set<string>) returns (grids: map<string, TagGrid>)
      requires Valid() && forall k :: k in wanted ==> OneCell(db, k)
      ensures HasRead(db, grids, db.eventTags.Keys, wanted)
    {
      hide HasRead, OneCell;
      grids := map[];
      var rest := db.eventTags.Keys;
      ReadNone(db, wanted);
      assert db.eventTags.Keys - rest == {};
      while rest != {}
        invariant rest <= db.eventTags.Keys
        invariant HasRead(db, grids, db.eventTags.Keys - rest, wanted)
        decreases rest
      {
        var c :| c in rest;
        ReadOne(db, grids, db.eventTags.Keys - rest, wanted, c);
        assert db.eventTags.Keys - (rest - {c}) == (db.eventTags.Keys - rest) + {c};
        rest := rest - {c};
        if c.key in wanted {
          grids := ReadCell(grids, c, db.eventTags[c]);
        }
      }
      assert db.eventTags.Keys - rest == db.eventTags.Keys;
    }

    static lemma ReadNone(t: Tables, wanted: set<string>)
      ensures HasRead(t, map[], {}, wanted)
    {
    }

    /// Rebuilds the events of the given rows; `cs` are the events those rows represent.
    method ReadRows(rows: seq<EventRow>, ghost cs: seq<Event>) returns (events: seq<Event>)
      requires Valid() && |cs| == |rows|
      requires forall i :: 0 <= i < |rows| ==> rows[i] in db.events && RowIs(db, rows[i], cs[i])
      ensures events == Map(cs, Normalize)
    {
      var wanted := Keys(rows);
      var grids := ReadTags(wanted);
      events := [];
      for i := 0 to |rows|
        invariant |events| == i && forall j :: 0 <= j < i ==> events[j] == Normalize(cs[j])
      {
        hide HasRead, TagsAre, Sound, TagsOut, Normalize;
        var e := Rebuild(rows[i], grids, wanted, cs[i]);
        events := events + [e];
      }
    }

    method Rebuild(r: EventRow, grids: map<string, TagGrid>, ghost wanted: set<string>, ghost c: Event) returns (e: Event)
      requires Sound(db) && r in db.events && RowIs(db, r, c) && r.key in wanted
      requires HasRead(db, grids, db.eventTags.Keys, wanted)
      ensures e == Normalize(c)
    {
      hide HasRead, TagsAre, TagsOut;
      ReadGivesTags(db, grids, wanted, r.key, c.tags);
      e := Event(Some(r.key), r.kind, PubkeyOf(db, r.identityId), r.createdAt, TagsOut(GridOf(grids, r.key)), r.content, r.sig);
    }

    /// ORDER BY created_at, rowid.
    method LoadAll() returns (events: seq<Event>)
      requires Valid()
      ensures events == FromSqlite(digest, received)
      ensures ByLastWrite(digest, received, events)
    {
      LoadedByTime(digest, received);
      hide ByLastWrite, WriteAll;
      var rows := Sort(db.events, RowCreated);
      SortTogether(db, db.events, contents);
      forall i | 0 <= i < |rows| ensures rows[i] in db.events {
        SortMember(db.events, RowCreated, rows[i]);
      }
      events := ReadRows(rows, Sort(contents, Created));
    }

    /// WHERE created_at >= ? ORDER BY created_at, rowid.
    method LoadSince(since: int) returns (events: seq<Event>)
      requires Valid()
      ensures events == Filter(FromSqlite(digest, received), Since(since))
      ensures forall e :: e in events <==> e in FromSqlite(digest, received) && e.createdAt >= since
    {
      hide WriteAll;
      forall e ensures e in Filter(FromSqlite(digest, received), Since(since)) <==> e in FromSqlite(digest, received) && e.createdAt >= since {
        FilterMember(FromSqlite(digest, received), Since(since), e);
      }
      var rows := Sort(Filter(db.events, RowSince(since)), RowCreated);
      ghost var cs := Filter(contents, Since(since));
      FilterTogether(db, db.events, contents, since);
      SortTogether(db, Filter(db.events, RowSince(since)), cs);
      forall i | 0 <= i < |rows| ensures rows[i] in db.events {
        SortMember(Filter(db.events, RowSince(since)), RowCreated, rows[i]);
        FilterMember(db.events, RowSince(since), rows[i]);
      }
      events := ReadRows(rows, Sort(cs, Created));
      FilterSort(contents, Created, Since(since));
      NormalizeKeepsTime(Sort(contents, Created), since);
    }
  }

  function RowCreated(r: EventRow): real {
    r.createdAt as real
  }

  function RowSince(since: int): EventRow -> bool {
    (r: EventRow) => r.createdAt >= since
  }

  function Since(since: int): Event -> bool {
    (e: Event) => e.createdAt >= since
  }

  ghost predicate Paired(t: Tables, rows: seq<EventRow>, cs: seq<Event>) {
    |rows| == |cs| && forall i :: 0 <= i < |rows| ==> RowIs(t, rows[i], cs[i])
  }

  lemma {:induction false} InsertTogether(t: Tables, rows: seq<EventRow>, cs: seq<Event>, r: EventRow, c: Event)
    requires Paired(t, rows, cs) && RowIs(t, r, c)
    ensures Paired(t, Insert(rows, r, RowCreated), Insert(cs, c, Created))
  {
    if rows != [] {
      var n := |rows| - 1;
      hide RowIs;
      if RowCreated(rows[n]) > RowCreated(r) {
        InsertTogether(t, rows[..n], cs[..n], r, c);
      }
    }
  }

  /// Sorting rows and sorting the events they represent go together.
  lemma {:induction false} SortTogether(t: Tables, rows: seq<EventRow>, cs: seq<Event>)
    requires Paired(t, rows, cs)
    ensures Paired(t, Sort(rows, RowCreated), Sort(cs, Created))
  {
    hide RowIs;
    if rows != [] {
      var n := |rows| - 1;
      SortTogether(t, rows[..n], cs[..n]);
      InsertTogether(t, Sort(rows[..n], RowCreated), Sort(cs[..n], Created), rows[n], cs[n]);
    }
  }

  lemma {:induction false} FilterTogether(t: Tables, rows: seq<EventRow>, cs: seq<Event>, since: int)
    requires Paired(t, rows, cs)
    ensures Paired(t, Filter(rows, RowSince(since)), Filter(cs, Since(since)))
  {
    if rows != [] {
      var n := |rows| - 1;
      hide RowIs;
      FilterTogether(t, rows[..n], cs[..n], since);
    }
  }

  lemma {:induction false} NormalizeKeepsTime(cs: seq<Event>, since: int)
    ensures Filter(Map(cs, Normalize), Since(since)) == Map(Filter(cs, Since(since)), Normalize)
  {
    if cs != [] {
      var front, last := cs[..|cs| - 1], cs[|cs| - 1];
      NormalizeKeepsTime(front, since);
      assert Map(cs, Normalize) == Map(front, Normalize) + [Normalize(last)];
      FilterSnoc(Map(front, Normalize), Normalize(last), Since(since));
    }
  }
}

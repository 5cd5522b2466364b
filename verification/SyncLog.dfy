/// The event log of a live node and its delta exchange (src/node/sync-manager.ts).
module SyncLog {
  import opened Wrappers
  import opened Events
  import opened Sorting
  import opened Text

  /// The log key: an event's id, or kind, pubkey and time.
  datatype LogKey = ById(id: string) | Composite(kind: int, pubkey: string, createdAt: int)

  function KeyOf(e: Event): LogKey {
    if e.id.Some? then ById(e.id.value) else Composite(e.kind, e.pubkey, e.createdAt)
  }

  /// The key as the text it is in the source.
  function KeyText(key: LogKey): string {
    match key
    case ById(id) => id
    case Composite(kind, pubkey, createdAt) => Integer(kind) + "-" + (pubkey + "-" + Integer(createdAt))
  }

  /// Times and kinds are not negative, and an id holds at most one dash, as signed ids (none) and
  /// default ids of dash-free pubkeys (one) do.
  ghost predicate Plain(key: LogKey) {
    match key
    case ById(id) => forall i, j :: 0 <= i < j < |id| && id[i] == '-' ==> id[j] != '-'
    case Composite(kind, _, createdAt) => kind >= 0 && createdAt >= 0
  }

  /// The texts of such keys do not clash.
  lemma LogKeysSeparate(a: LogKey, b: LogKey)
    requires Plain(a) && Plain(b)
    ensures KeyText(a) == KeyText(b) <==> a == b
  {
    if KeyText(a) == KeyText(b) {
      match (a, b)
      case (ById(_), ById(_)) =>
      case (ById(id), Composite(k, p, t)) => TwoDashes(k, p, t);
      case (Composite(k, p, t), ById(id)) => TwoDashes(k, p, t);
      case (Composite(k, p, t), Composite(l, q, u)) =>
        DecimalIsDigits(k);
        DecimalIsDigits(l);
        DecimalIsDigits(t);
        DecimalIsDigits(u);
        assert KeyText(a) == Integer(k) + ['-'] + (p + ['-'] + Integer(t)) && KeyText(b) == Integer(l) + ['-'] + (q + ['-'] + Integer(u));
        SplitAtFirst('-', Integer(k), p + ['-'] + Integer(t), Integer(l), q + ['-'] + Integer(u));
        SplitAtLast('-', p, Integer(t), q, Integer(u));
        DecimalInjective(k, l);
        DecimalInjective(t, u);
    }
  }

  lemma TwoDashes(kind: int, pubkey: string, createdAt: int)
    ensures exists i, j :: 0 <= i < j < |KeyText(Composite(kind, pubkey, createdAt))|
              && KeyText(Composite(kind, pubkey, createdAt))[i] == '-' == KeyText(Composite(kind, pubkey, createdAt))[j]
  {
    var i := |Integer(kind)|;
    assert KeyText(Composite(kind, pubkey, createdAt))[i] == '-';
    assert KeyText(Composite(kind, pubkey, createdAt))[i + 1 + |pubkey|] == '-';
  }

  /// `{ ...event, id }` with the default id.
  function Identified(e: Event): Event {
    if e.id.Some? then e else e.(id := Some(e.pubkey + "-" + Integer(e.createdAt)))
  }

  /// Default ids name the publisher and the time, and tell apart what differs in either.
  lemma DefaultIds(e: Event, f: Event)
    requires e.id.None? && f.id.None? && e.createdAt >= 0 && f.createdAt >= 0
    ensures Identified(e) == e.(id := Identified(e).id) && Identified(e).id.Some?
    ensures var id, n := Identified(e).id.value, |e.pubkey|;
            |id| > n && id[..n] == e.pubkey && id[n] == '-' && Value(id[n + 1..]) == e.createdAt
    ensures Identified(e).id == Identified(f).id <==> e.pubkey == f.pubkey && e.createdAt == f.createdAt
  {
    var id := Identified(e).id.value;
    assert id[|e.pubkey| + 1..] == Decimal(e.createdAt);
    DecimalValue(e.createdAt);
    DecimalIsDigits(e.createdAt);
    DecimalIsDigits(f.createdAt);
    if Identified(e).id == Identified(f).id {
      SplitAtLast('-', e.pubkey, Decimal(e.createdAt), f.pubkey, Decimal(f.createdAt));
      DecimalInjective(e.createdAt, f.createdAt);
    }
  }

  /// A log is its entries in insertion order.
  ghost predicate UniqueKeys(log: seq<Event>) {
    forall i, j :: 0 <= i < j < |log| ==> KeyOf(log[i]) != KeyOf(log[j])
  }

  predicate HasKey(log: seq<Event>, key: LogKey) {
    exists i :: 0 <= i < |log| && KeyOf(log[i]) == key
  }

  lemma SameEntry(log: seq<Event>, e: Event)
    ensures HasKey(log, KeyOf(e)) <==> exists x :: x in log && (if e.id.Some? then x.id == e.id
                                                     else x.id.None? && x.kind == e.kind && x.pubkey == e.pubkey && x.createdAt == e.createdAt)
  {
    if HasKey(log, KeyOf(e)) {
      var i :| 0 <= i < |log| && KeyOf(log[i]) == KeyOf(e);
      assert log[i] in log;
    }
    forall x | x in log && (if e.id.Some? then x.id == e.id else x.id.None? && x.kind == e.kind && x.pubkey == e.pubkey && x.createdAt == e.createdAt)
      ensures HasKey(log, KeyOf(e))
    {
      var i :| 0 <= i < |log| && log[i] == x;
      assert KeyOf(log[i]) == KeyOf(e);
    }
  }

  /// First write wins.
  function Record(log: seq<Event>, e: Event): seq<Event> {
    if HasKey(log, KeyOf(e)) then log else log + [e]
  }

  function RecordAll(log: seq<Event>, events: seq<Event>): seq<Event> {
    if events == [] then log else Record(RecordAll(log, events[..|events| - 1]), events[|events| - 1])
  }

  // ---------- the exchange ----------

  /// The events a delta response carries, as JSON texts of events in the source.
  datatype Delta = Delta(announcements: seq<Event>, replicas: seq<Event>, routes: seq<Event>, reputationDeltas: seq<Event>)

  /// `since` is `None` when its tag is not a number: then no event compares smaller, and all pass.
  predicate Recent(e: Event, since: Option<int>) {
    since.None? || e.createdAt >= since.value
  }

  function OfKind(kind: int, since: Option<int>): Event -> bool {
    (e: Event) => Recent(e, since) && e.kind == kind
  }

  function DeltaOf(log: seq<Event>, since: Option<int>): Delta {
    Delta(Filter(log, OfKind(10800, since)), Filter(log, OfKind(10801, since)),
          Filter(log, OfKind(30801, since)), Filter(log, OfKind(10802, since)))
  }

  /// Reputation deltas whose content is not a JSON object are skipped by the receiver.
  function Taken(readable: string -> bool): Event -> bool {
    (e: Event) => readable(e.content)
  }

  function Incoming(d: Delta, readable: string -> bool): seq<Event> {
    Map(d.announcements + d.replicas + d.routes + Filter(d.reputationDeltas, Taken(readable)), Identified)
  }

  function Merge(log: seq<Event>, d: Delta, readable: string -> bool): seq<Event> {
    RecordAll(log, Incoming(d, readable))
  }

  /// Requests are recorded without an id.
  function DeltaRequest(pubkey: string, since: int, now: int): Event {
    Event(None, 20800, pubkey, now, [["since", Integer(since)], ["limit", "500"]], "", "")
  }

  // ---------- the log as a JavaScript map ----------

  class SyncManager {
    var keys: seq<LogKey>
    var eventLog: map<LogKey, Event>
    var peerLastSeen: map<string, int>

    /// What the event store held at the start, and every event handed to it since, in order.
    ghost var hydrated: seq<Event>
    var stored: seq<Event>

    const pubkey: string
    const readable: string -> bool
    const encode: Delta -> string

    ghost predicate Indexed()
      reads this
    {
      && (forall i, j :: 0 <= i < j < |keys| ==> keys[i] != keys[j])
      && (forall k :: k in keys <==> k in eventLog)
      && (forall k :: k in eventLog ==> KeyOf(eventLog[k]) == k)
    }

    /// The log is what recording the hydrated and then the stored events makes it.
    ghost predicate Valid()
      reads this
    {
      Indexed() && Log() == RecordAll([], hydrated + stored)
    }

    ghost function Log(): (r: seq<Event>)
      requires Indexed()
      reads this
      ensures |r| == |keys| && forall i :: 0 <= i < |r| ==> keys[i] in eventLog && r[i] == eventLog[keys[i]] && KeyOf(r[i]) == keys[i]
      ensures UniqueKeys(r)
    {
      assert forall i :: 0 <= i < |keys| ==> keys[i] in keys;
      seq(|keys|, i requires 0 <= i < |keys| && keys[i] in eventLog reads this => eventLog[keys[i]])
    }

    /// Starts with what the event store holds.
    constructor (pubkey: string, readable: string -> bool, encode: Delta -> string, loaded: seq<Event>)
      ensures Valid() && hydrated == loaded && stored == [] && peerLastSeen == map[]
      ensures this.pubkey == pubkey && this.readable == readable && this.encode == encode
    {
      this.pubkey, this.readable, this.encode := pubkey, readable, encode;
      keys, eventLog, peerLastSeen, stored, hydrated := [], map[], map[], [], loaded;
      new;
      HydrateEventStore(loaded);
      assert loaded + [] == loaded;
    }

    method RememberEvent(e: Event)
      requires Indexed()
      modifies this`keys, this`eventLog
      ensures Indexed() && Log() == Record(old(Log()), e)
      ensures Log() == if exists x :: x in old(Log()) && (if e.id.Some? then x.id == e.id
                                       else x.id.None? && x.kind == e.kind && x.pubkey == e.pubkey && x.createdAt == e.createdAt)
                       then old(Log()) else old(Log()) + [e]
    {
      SameEntry(Log(), e);
      var key := KeyOf(e);
      ghost var log := Log();
      assert HasKey(log, key) <==> key in eventLog by {
        if key in eventLog {
          assert key in keys;
          var i :| 0 <= i < |keys| && keys[i] == key;
          assert KeyOf(log[i]) == key;
        }
      }
      if key !in eventLog {
        keys := keys + [key];
        eventLog := eventLog[key := e];
        assert Log() == log + [e];
      }
    }

    method HydrateEventStore(loaded: seq<Event>)
      requires Indexed()
      modifies this`keys, this`eventLog
      ensures Indexed() && Log() == RecordAll(old(Log()), loaded)
    {
      for i := 0 to |loaded|
        invariant Indexed() && Log() == RecordAll(old(Log()), loaded[..i])
      {
        assert loaded[..i + 1][..i] == loaded[..i];
        RememberEvent(loaded[i]);
      }
      assert loaded[..|loaded|] == loaded;
    }

    method RecordEvent(e: Event)
      requires Valid()
      modifies this`keys, this`eventLog, this`stored
      ensures Valid() && Log() == Record(old(Log()), e) && stored == old(stored) + [e]
    {
      hide RecordAll, Record, Log;
      RememberEvent(e);
      RecordAllSnoc([], hydrated + stored, e);
      assert hydrated + (stored + [e]) == (hydrated + stored) + [e];
      stored := stored + [e];
    }

    /// When a peer was last heard, as far as remembered.
    function LastSeen(peer: string): int
      reads this
    {
      if peer in peerLastSeen then peerLastSeen[peer] else 0
    }

    /// Asks for what the peer logged since it was last heard, unless told otherwise.
    method SendDeltaRequest(peer: string, since: Option<int>, now: int) returns (asked: int)
      requires Valid()
      modifies this`keys, this`eventLog, this`stored
      ensures Valid() && asked == if since.Some? then since.value else if peer in peerLastSeen then peerLastSeen[peer] else 0
      ensures Log() == Record(old(Log()), DeltaRequest(pubkey, asked, now))
      ensures stored == old(stored) + [Event(None, 20800, pubkey, now, [["since", Integer(asked)], ["limit", "500"]], "", "")]
    {
      asked := since.GetOr(LastSeen(peer));
      RecordEvent(DeltaRequest(pubkey, asked, now));
    }

    method OnPeerConnected(peer: string, now: int) returns (asked: int)
      requires Valid()
      modifies this`keys, this`eventLog, this`stored
      ensures Valid() && asked == if peer in peerLastSeen then peerLastSeen[peer] else 0
      ensures Log() == Record(old(Log()), DeltaRequest(pubkey, asked, now))
      ensures stored == old(stored) + [Event(None, 20800, pubkey, now, [["since", Integer(asked)], ["limit", "500"]], "", "")]
    {
      asked := SendDeltaRequest(peer, Some(LastSeen(peer)), now);
    }

    /// A peer that leaves is forgotten: the next connection asks it from time 0.
    method OnPeerDisconnected(peer: string)
      modifies this`peerLastSeen
      ensures peerLastSeen == old(peerLastSeen) - {peer} && LastSeen(peer) == 0
    {
      peerLastSeen := peerLastSeen - {peer};
    }

    /// The last-seen time of a peer only grows.
    method NoteMessage(peer: string, createdAt: int)
      modifies this`peerLastSeen
      ensures peer in peerLastSeen
      ensures var before := if peer in old(peerLastSeen) then old(peerLastSeen)[peer] else 0;
              peerLastSeen == old(peerLastSeen)[peer := if createdAt > before then createdAt else before]
    {
      var before := if peer in peerLastSeen then peerLastSeen[peer] else 0;
      peerLastSeen := peerLastSeen[peer := if createdAt > before then createdAt else before];
    }

    method HandleDeltaRequest(since: Option<int>, tags: seq<seq<string>>, now: int) returns (response: Delta)
      requires Valid()
      modifies this`keys, this`eventLog, this`stored
      ensures Valid() && response == DeltaOf(old(Log()), since)
      ensures Log() == Record(old(Log()), Event(None, 20801, pubkey, now, tags, encode(response), ""))
      ensures stored == old(stored) + [Event(None, 20801, pubkey, now, tags, encode(response), "")]
    {
      response := BuildDelta(since);
      RecordEvent(Event(None, 20801, pubkey, now, tags, encode(response), ""));
    }

    method BuildDelta(since: Option<int>) returns (response: Delta)
      requires Indexed()
      ensures response == DeltaOf(Log(), since)
    {
      hide Log, DeltaOf;
      var announcements, replicas, routes, reputationDeltas := [], [], [], [];
      DeltaNone(since);
      ghost var log := Log();
      for i := 0 to |keys|
        invariant Delta(announcements, replicas, routes, reputationDeltas) == DeltaOf(log[..i], since)
      {
        assert log[i] == eventLog[keys[i]];
        var e := eventLog[keys[i]];
        DeltaSnoc(log[..i], e, since);
        assert log[..i + 1] == log[..i] + [e];
        if since.Some? && e.createdAt < since.value {
          continue;
        }
        if e.kind == 10800 {
          announcements := announcements + [e];
        } else if e.kind == 10801 {
          replicas := replicas + [e];
        } else if e.kind == 30801 {
          routes := routes + [e];
        } else if e.kind == 10802 {
          reputationDeltas := reputationDeltas + [e];
        }
      }
      assert log[..|keys|] == log;
      response := Delta(announcements, replicas, routes, reputationDeltas);
    }

    static lemma DeltaNone(since: Option<int>)
      ensures DeltaOf([], since) == Delta([], [], [], [])
    {
    }

    static lemma DeltaSnoc(log: seq<Event>, e: Event, since: Option<int>)
      ensures var d := DeltaOf(log, since);
              DeltaOf(log + [e], since) ==
                if !Recent(e, since) then d
                else if e.kind == 10800 then d.(announcements := d.announcements + [e])
                else if e.kind == 10801 then d.(replicas := d.replicas + [e])
                else if e.kind == 30801 then d.(routes := d.routes + [e])
                else if e.kind == 10802 then d.(reputationDeltas := d.reputationDeltas + [e])
                else d
    {
    }

    method RecordIdentified(events: seq<Event>)
      requires Valid()
      modifies this`keys, this`eventLog, this`stored
      ensures Valid() && Log() == RecordAll(old(Log()), Map(events, Identified))
      ensures stored == old(stored) + Map(events, Identified)
    {
      hide RecordAll, Record, Log;
      ghost var log := Log();
      RecordNone(log);
      for i := 0 to |events|
        invariant Valid() && Log() == RecordAll(log, Map(events[..i], Identified))
        invariant stored == old(stored) + Map(events[..i], Identified)
      {
        RecordAllSnoc(log, Map(events[..i], Identified), Identified(events[i]));
        assert Map(events[..i + 1], Identified) == Map(events[..i], Identified) + [Identified(events[i])];
        RecordEvent(Identified(events[i]));
      }
      assert events[..|events|] == events;
    }

    method HandleDeltaResponse(d: Delta)
      requires Valid()
      modifies this`keys, this`eventLog, this`stored
      ensures Valid() && Log() == Merge(old(Log()), d, readable)
      ensures stored == old(stored) + Incoming(d, readable)
    {
      hide RecordAll, Log, Incoming, Indexed, Merge, Filter, Identified, UniqueKeys, KeyOf;
      ghost var log := Log();
      RecordIdentified(d.announcements);
      RecordIdentified(d.replicas);
      RecordIdentified(d.routes);
      var taken := Filter(d.reputationDeltas, Taken(readable));
      RecordIdentified(taken);
      MergeInParts(log, d, readable);
    }

    static lemma MergeInParts(log: seq<Event>, d: Delta, readable: string -> bool)
      ensures var a, b, c := Map(d.announcements, Identified), Map(d.replicas, Identified), Map(d.routes, Identified);
              var r := Map(Filter(d.reputationDeltas, Taken(readable)), Identified);
              && Incoming(d, readable) == a + b + c + r
              && Merge(log, d, readable) == RecordAll(RecordAll(RecordAll(RecordAll(log, a), b), c), r)
    {
      hide RecordAll, Filter;
      var a, b, c := Map(d.announcements, Identified), Map(d.replicas, Identified), Map(d.routes, Identified);
      var r := Map(Filter(d.reputationDeltas, Taken(readable)), Identified);
      RecordAllConcat(log, a, b);
      RecordAllConcat(log, a + b, c);
      RecordAllConcat(log, a + b + c, r);
      assert Incoming(d, readable) == a + b + c + r;
    }
  }

  lemma RecordNone(log: seq<Event>)
    ensures RecordAll(log, []) == log
  {
  }

  lemma RecordAllSnoc(log: seq<Event>, events: seq<Event>, e: Event)
    ensures RecordAll(log, events + [e]) == Record(RecordAll(log, events), e)
  {
    assert (events + [e])[..|events + [e]| - 1] == events;
  }

  lemma {:induction false} RecordAllConcat(log: seq<Event>, a: seq<Event>, b: seq<Event>)
    ensures RecordAll(log, a + b) == RecordAll(RecordAll(log, a), b)
  {
    if b == [] {
      assert a + b == a;
    } else {
      assert (a + b)[..|a + b| - 1] == a + b[..|b| - 1];
      RecordAllConcat(log, a, b[..|b| - 1]);
    }
  }
}

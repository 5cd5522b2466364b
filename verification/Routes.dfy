/// Route announcements: built from observed addresses, parsed, and resolved (src/core/discovery/reachability.ts).
module Routes {
  import opened Wrappers
  import opened Sorting
  import Text

  const ROUTE_ANNOUNCEMENT := 30801

  datatype Transport = Quic | Udp | Tcp | Ws | Wss | Relay

  datatype Source = PeerObserved | DialbackConfirmed | Fallback

  datatype NatType = StablePublic | PortChanging | SymmetricNat | Cgnat | Unknown

  datatype Report = Report(subject: string, transport: Transport, ip: string, port: int, confidence: real, dialback: bool)

  datatype Endpoint = Endpoint(transport: Transport, address: string, port: Option<int>, source: Source, confidence: real)

  datatype Announcement = Announcement(identity: string, sequence: int, endpoints: seq<Endpoint>, natType: NatType, observedAt: int)

  /// A stored event: `content` is what its JSON describes, if it describes an announcement at all.
  datatype RouteEvent = RouteEvent(kind: int, verified: bool, content: Option<Announcement>)

  datatype Resolved = Resolved(identity: string, reachable: bool, bestEndpoint: Option<Endpoint>, fallback: Option<Endpoint>,
                               endpoints: seq<Endpoint>, natType: NatType, sequence: int, updatedAt: int)

  const RELAY: Endpoint := Endpoint(Relay, "wss://relay.example", None, Fallback, 1.0)

  /// Trimming and lower-casing an identity, whatever it does exactly; doing it twice changes nothing more.
  type Normalizer = string -> string

  ghost predicate Idempotent(normalize: Normalizer) {
    forall s :: normalize(normalize(s)) == normalize(s)
  }

  function Clamp01(x: real): (c: real)
    ensures 0.0 <= c <= 1.0 && (0.0 <= x <= 1.0 ==> c == x) && (x < c ==> c == 0.0) && (c < x ==> c == 1.0)
  {
    if x < 0.0 then 0.0 else if x > 1.0 then 1.0 else x
  }

  // ---------- aggregation ----------

  function TransportName(t: Transport): (s: string)
    ensures ':' !in s
  {
    match t
    case Quic => "quic"
    case Udp => "udp"
    case Tcp => "tcp"
    case Ws => "ws"
    case Wss => "wss"
    case Relay => "relay"
  }

  function KeyOf(r: Report): string {
    TransportName(r.transport) + ":" + r.ip + ":" + Text.Integer(r.port)
  }

  function Score(r: Report): real {
    r.confidence + if r.dialback then 0.35 else -0.15
  }

  /// The last position of a key in a list, among values that `keyOf` tells apart.
  function FindKey<T>(list: seq<T>, key: string, keyOf: T -> string): (k: Option<nat>)
    ensures k.Some? ==> k.value < |list| && keyOf(list[k.value]) == key
    ensures k.None? ==> forall i :: 0 <= i < |list| ==> keyOf(list[i]) != key
  {
    if list == [] then None
    else if keyOf(list[|list| - 1]) == key then Some(|list| - 1)
    else FindKey(list[..|list| - 1], key, keyOf)
  }

  /// A report for a known key replaces the kept one in its place, only with a higher score.
  function Merge(list: seq<Report>, r: Report): seq<Report> {
    match FindKey(list, KeyOf(r), KeyOf)
    case Some(k) => if Score(r) > Score(list[k]) then list[k := r] else list
    case None => list + [r]
  }

  predicate About(normalize: Normalizer, identity: string, r: Report) {
    normalize(r.subject) == identity
  }

  /// The kept reports, in the order in which their keys first appeared.
  function Aggregate(normalize: Normalizer, identity: string, reports: seq<Report>): seq<Report> {
    if reports == [] then []
    else
      var kept, r := Aggregate(normalize, identity, reports[..|reports| - 1]), reports[|reports| - 1];
      if About(normalize, identity, r) then Merge(kept, r) else kept
  }

  ghost predicate UniqueKeys(list: seq<Report>) {
    forall i, j :: 0 <= i < j < |list| ==> KeyOf(list[i]) != KeyOf(list[j])
  }

  /// Every kept report is one of the subject's; every report of the subject is represented by a kept one with its
  /// key and at least its score; each key is kept once.
  ghost predicate Represents(normalize: Normalizer, identity: string, reports: seq<Report>, kept: seq<Report>) {
    && UniqueKeys(kept)
    && (forall r :: r in kept ==> r in reports && About(normalize, identity, r))
    && (forall r :: r in reports && About(normalize, identity, r) ==> Beaten(kept, r))
  }

  ghost predicate Beaten(kept: seq<Report>, r: Report) {
    exists k :: 0 <= k < |kept| && KeyOf(kept[k]) == KeyOf(r) && Score(kept[k]) >= Score(r)
  }

  lemma {:induction false} AggregateRepresents(normalize: Normalizer, identity: string, reports: seq<Report>)
    ensures Represents(normalize, identity, reports, Aggregate(normalize, identity, reports))
  {
    if reports != [] {
      var front, r := reports[..|reports| - 1], reports[|reports| - 1];
      assert reports == front + [r];
      AggregateRepresents(normalize, identity, front);
      if About(normalize, identity, r) {
        MergeRepresents(Aggregate(normalize, identity, front), r);
      }
    }
  }

  /// Two reports of one place: the same transport, address and port.
  predicate SamePlace(q: Report, r: Report) {
    q.transport == r.transport && q.ip == r.ip && q.port == r.port
  }

  /// `r` scores at least as much as `q`: confidence, with 0.35 added for a successful dial-back and 0.15 taken
  /// away otherwise.
  predicate AtLeast(r: Report, q: Report) {
    r.confidence + (if r.dialback then 0.35 else -0.15) >= q.confidence + (if q.dialback then 0.35 else -0.15)
  }

  /// Report i is about the subject, scores most of those of its place, and is the first to do so.
  ghost predicate FirstBestOfPlace(normalize: Normalizer, identity: string, reports: seq<Report>, i: int) {
    && 0 <= i < |reports| && normalize(reports[i].subject) == identity
    && forall j :: 0 <= j < |reports| && normalize(reports[j].subject) == identity && SamePlace(reports[j], reports[i]) ==>
         AtLeast(reports[i], reports[j]) && (j < i ==> !AtLeast(reports[j], reports[i]))
  }

  ghost predicate IsFirstBest(normalize: Normalizer, identity: string, reports: seq<Report>, r: Report) {
    exists i :: FirstBestOfPlace(normalize, identity, reports, i) && reports[i] == r
  }

  /// The first position of a report about the subject of the same place.
  function FirstSeen(normalize: Normalizer, identity: string, reports: seq<Report>, r: Report): (i: nat)
    ensures i <= |reports|
  {
    if reports == [] then 0
    else
      var n := |reports| - 1;
      var i := FirstSeen(normalize, identity, reports[..n], r);
      if i < n || (normalize(reports[n].subject) == identity && SamePlace(reports[n], r)) then i else n + 1
  }

  ghost predicate KeptExactly(normalize: Normalizer, identity: string, reports: seq<Report>, kept: seq<Report>) {
    && (forall k :: 0 <= k < |kept| ==> IsFirstBest(normalize, identity, reports, kept[k]))
    && (forall k, l :: 0 <= k < l < |kept| ==>
          FirstSeen(normalize, identity, reports, kept[k]) < FirstSeen(normalize, identity, reports, kept[l]))
    && (forall r :: r in reports && normalize(r.subject) == identity ==> exists k :: 0 <= k < |kept| && SamePlace(kept[k], r))
  }

  /// Of the reports about the subject exactly the first best of every place are kept, in the order in which the
  /// places were first reported.
  lemma {:induction false} AggregateExact(normalize: Normalizer, identity: string, reports: seq<Report>)
    ensures KeptExactly(normalize, identity, reports, Aggregate(normalize, identity, reports))
  {
    if reports != [] {
      var front, r := reports[..|reports| - 1], reports[|reports| - 1];
      assert reports == front + [r];
      AggregateExact(normalize, identity, front);
      AggregateRepresents(normalize, identity, front);
      hide Aggregate, Represents;
      AggregateUnfolds(normalize, identity, front, r);
      var kept := Aggregate(normalize, identity, front);
      if About(normalize, identity, r) {
        KeyPlaces(kept, r);
        match FindKey(kept, KeyOf(r), KeyOf) {
          case None => NewPlace(normalize, identity, front, r, kept);
          case Some(k) => KnownPlace(normalize, identity, front, r, kept, k);
        }
      } else {
        NotAbout(normalize, identity, front, r, kept);
      }
    }
  }

  lemma AggregateUnfolds(normalize: Normalizer, identity: string, front: seq<Report>, r: Report)
    ensures Aggregate(normalize, identity, front + [r]) ==
              if About(normalize, identity, r) then Merge(Aggregate(normalize, identity, front), r) else Aggregate(normalize, identity, front)
    ensures UniqueKeys(Aggregate(normalize, identity, front))
  {
    assert (front + [r])[..|front + [r]| - 1] == front;
    AggregateRepresents(normalize, identity, front);
  }

  lemma KeyPlaces(kept: seq<Report>, r: Report)
    ensures forall k :: 0 <= k < |kept| ==> (KeyOf(kept[k]) == KeyOf(r) <==> SamePlace(kept[k], r))
    ensures forall k :: 0 <= k < |kept| ==> (Score(r) > Score(kept[k]) <==> !AtLeast(kept[k], r))
  {
    forall k | 0 <= k < |kept| ensures KeyOf(kept[k]) == KeyOf(r) <==> SamePlace(kept[k], r) {
      KeyInjective(kept[k], r);
    }
  }

  lemma SeenSnoc(normalize: Normalizer, identity: string, front: seq<Report>, r: Report, x: Report)
    ensures var i := FirstSeen(normalize, identity, front, x);
            FirstSeen(normalize, identity, front + [r], x) ==
              if i < |front| || (normalize(r.subject) == identity && SamePlace(r, x)) then i else |front| + 1
  {
    assert (front + [r])[..|front + [r]| - 1] == front;
  }

  lemma {:induction false} SeenKept(normalize: Normalizer, identity: string, reports: seq<Report>, i: nat)
    requires i < |reports| && normalize(reports[i].subject) == identity
    ensures FirstSeen(normalize, identity, reports, reports[i]) < |reports|
  {
    if i < |reports| - 1 {
      SeenKept(normalize, identity, reports[..|reports| - 1], i);
    }
  }

  lemma {:induction false} SeenSame(normalize: Normalizer, identity: string, reports: seq<Report>, q: Report, r: Report)
    requires SamePlace(q, r)
    ensures FirstSeen(normalize, identity, reports, q) == FirstSeen(normalize, identity, reports, r)
  {
    if reports != [] {
      SeenSame(normalize, identity, reports[..|reports| - 1], q, r);
    }
  }

  lemma {:induction false} SeenNever(normalize: Normalizer, identity: string, reports: seq<Report>, r: Report)
    requires forall j :: 0 <= j < |reports| && normalize(reports[j].subject) == identity ==> !SamePlace(reports[j], r)
    ensures FirstSeen(normalize, identity, reports, r) == |reports|
  {
    if reports != [] {
      SeenNever(normalize, identity, reports[..|reports| - 1], r);
    }
  }

  lemma NotAbout(normalize: Normalizer, identity: string, front: seq<Report>, r: Report, kept: seq<Report>)
    requires KeptExactly(normalize, identity, front, kept) && normalize(r.subject) != identity
    ensures KeptExactly(normalize, identity, front + [r], kept)
  {
    hide FirstSeen, IsFirstBest, SamePlace;
    forall k | 0 <= k < |kept|
      ensures IsFirstBest(normalize, identity, front + [r], kept[k])
      ensures FirstSeen(normalize, identity, front + [r], kept[k]) == FirstSeen(normalize, identity, front, kept[k])
    {
      OtherStays(normalize, identity, front, r, kept[k]);
      SeenStays(normalize, identity, front, r, kept[k]);
    }
  }

  lemma OtherStays(normalize: Normalizer, identity: string, front: seq<Report>, r: Report, x: Report)
    requires IsFirstBest(normalize, identity, front, x) && (normalize(r.subject) == identity ==> !SamePlace(r, x))
    ensures IsFirstBest(normalize, identity, front + [r], x)
  {
    var i :| FirstBestOfPlace(normalize, identity, front, i) && front[i] == x;
    var reports := front + [r];
    assert reports[i] == x && FirstBestOfPlace(normalize, identity, reports, i);
  }

  lemma SeenStays(normalize: Normalizer, identity: string, front: seq<Report>, r: Report, x: Report)
    requires IsFirstBest(normalize, identity, front, x)
    ensures FirstSeen(normalize, identity, front + [r], x) == FirstSeen(normalize, identity, front, x) < |front|
  {
    hide FirstSeen;
    var i :| FirstBestOfPlace(normalize, identity, front, i) && front[i] == x;
    SeenKept(normalize, identity, front, i);
    SeenSnoc(normalize, identity, front, r, x);
  }

  lemma NewPlace(normalize: Normalizer, identity: string, front: seq<Report>, r: Report, kept: seq<Report>)
    requires KeptExactly(normalize, identity, front, kept) && normalize(r.subject) == identity
    requires forall k :: 0 <= k < |kept| ==> !SamePlace(kept[k], r)
    ensures KeptExactly(normalize, identity, front + [r], kept + [r])
  {
    hide FirstSeen, IsFirstBest;
    var reports, after := front + [r], kept + [r];
    forall k | 0 <= k < |kept|
      ensures IsFirstBest(normalize, identity, reports, kept[k])
      ensures FirstSeen(normalize, identity, reports, kept[k]) == FirstSeen(normalize, identity, front, kept[k]) < |front|
    {
      OtherStays(normalize, identity, front, r, kept[k]);
      SeenStays(normalize, identity, front, r, kept[k]);
    }
    forall j | 0 <= j < |front| && normalize(front[j].subject) == identity ensures !SamePlace(front[j], r) {
      assert front[j] in front;
    }
    SeenNever(normalize, identity, front, r);
    SeenSnoc(normalize, identity, front, r, r);
    NewIsBest(normalize, identity, front, r);
    forall x | x in reports && normalize(x.subject) == identity ensures exists k :: 0 <= k < |after| && SamePlace(after[k], x) {
      if x in front {
        var k :| 0 <= k < |kept| && SamePlace(kept[k], x);
        assert after[k] == kept[k];
      } else {
        assert SamePlace(after[|kept|], x);
      }
    }
  }

  lemma NewIsBest(normalize: Normalizer, identity: string, front: seq<Report>, r: Report)
    requires normalize(r.subject) == identity
    requires forall j :: 0 <= j < |front| && normalize(front[j].subject) == identity ==> !SamePlace(front[j], r)
    ensures IsFirstBest(normalize, identity, front + [r], r)
  {
    var reports := front + [r];
    assert reports[|front|] == r && FirstBestOfPlace(normalize, identity, reports, |front|);
  }

  lemma KnownPlace(normalize: Normalizer, identity: string, front: seq<Report>, r: Report, kept: seq<Report>, k: nat)
    requires KeptExactly(normalize, identity, front, kept) && normalize(r.subject) == identity
    requires k < |kept| && SamePlace(kept[k], r) && UniqueKeys(kept)
    ensures KeptExactly(normalize, identity, front + [r], if AtLeast(kept[k], r) then kept else kept[k := r])
  {
    hide FirstSeen, SamePlace, AtLeast, IsFirstBest;
    var reports, after := front + [r], if AtLeast(kept[k], r) then kept else kept[k := r];
    OnePlace(kept, r, k);
    SameFirstSeen(normalize, identity, reports, kept[k], r);
    BestOfKnownPlace(normalize, identity, front, r, kept[k]);
    forall l | 0 <= l < |kept|
      ensures l != k ==> IsFirstBest(normalize, identity, reports, kept[l])
      ensures FirstSeen(normalize, identity, reports, kept[l]) == FirstSeen(normalize, identity, front, kept[l])
    {
      if l != k {
        OtherStays(normalize, identity, front, r, kept[l]);
      }
      SeenStays(normalize, identity, front, r, kept[l]);
    }
    forall x | x in reports && normalize(x.subject) == identity ensures exists l :: 0 <= l < |after| && SamePlace(after[l], x) {
      StillPlaced(front, r, kept, after, k, x);
    }
  }

  /// Only one kept report has the place of r.
  lemma OnePlace(kept: seq<Report>, r: Report, k: nat)
    requires k < |kept| && SamePlace(kept[k], r) && UniqueKeys(kept)
    ensures forall l :: 0 <= l < |kept| && SamePlace(r, kept[l]) ==> l == k
  {
    forall l | 0 <= l < |kept| && SamePlace(r, kept[l]) ensures l == k {
      KeyInjective(kept[l], kept[k]);
    }
  }

  lemma SameFirstSeen(normalize: Normalizer, identity: string, reports: seq<Report>, q: Report, r: Report)
    requires SamePlace(q, r)
    ensures FirstSeen(normalize, identity, reports, q) == FirstSeen(normalize, identity, reports, r)
  {
    SeenSame(normalize, identity, reports, q, r);
  }

  lemma BestOfKnownPlace(normalize: Normalizer, identity: string, front: seq<Report>, r: Report, best: Report)
    requires normalize(r.subject) == identity && SamePlace(best, r)
    requires IsFirstBest(normalize, identity, front, best)
    ensures IsFirstBest(normalize, identity, front + [r], if AtLeast(best, r) then best else r)
  {
    var reports := front + [r];
    var i :| FirstBestOfPlace(normalize, identity, front, i) && front[i] == best;
    if AtLeast(best, r) {
      assert FirstBestOfPlace(normalize, identity, reports, i) && reports[i] == best;
    } else {
      assert FirstBestOfPlace(normalize, identity, reports, |front|) && reports[|front|] == r;
    }
  }

  lemma StillPlaced(front: seq<Report>, r: Report, kept: seq<Report>, after: seq<Report>, k: nat, x: Report)
    requires k < |kept| && SamePlace(kept[k], r) && (after == kept || after == kept[k := r]) && x in front + [r]
    requires x in front ==> exists l :: 0 <= l < |kept| && SamePlace(kept[l], x)
    ensures exists l :: 0 <= l < |after| && SamePlace(after[l], x)
  {
    if x in front {
      var l :| 0 <= l < |kept| && SamePlace(kept[l], x);
      assert SamePlace(after[l], x);
    } else {
      assert SamePlace(after[k], x);
    }
  }

  lemma MergeRepresents(kept: seq<Report>, r: Report)
    requires UniqueKeys(kept)
    ensures UniqueKeys(Merge(kept, r))
    ensures forall x :: x in Merge(kept, r) ==> x in kept || x == r
    ensures Beaten(Merge(kept, r), r)
    ensures forall x :: Beaten(kept, x) ==> Beaten(Merge(kept, r), x)
  {
    hide KeyOf, Score;
    var after := Merge(kept, r);
    match FindKey(kept, KeyOf(r), KeyOf) {
      case None => assert after[|kept|] == r;
      case Some(k) => assert KeyOf(after[k]) == KeyOf(r) && Score(after[k]) >= Score(r);
    }
    forall x | Beaten(kept, x) ensures Beaten(after, x) {
      var k :| 0 <= k < |kept| && KeyOf(kept[k]) == KeyOf(x) && Score(kept[k]) >= Score(x);
      assert KeyOf(after[k]) == KeyOf(x) && Score(after[k]) >= Score(x);
    }
  }

  /// The loop over the reports, with the source's insertion-ordered map.
  method AggregateReports(normalize: Normalizer, identity: string, reports: seq<Report>) returns (values: seq<Report>)
    ensures values == Aggregate(normalize, identity, reports)
  {
    hide KeyOf, Score, FindKey, Merge;
    var keys: seq<string>, aggregated: map<string, Report> := [], map[];
    values := [];
    for n := 0 to |reports|
      invariant Keyed(keys, aggregated, Aggregate(normalize, identity, reports[..n]))
    {
      assert reports[..n + 1] == reports[..n] + [reports[n]];
      ghost var kept := Aggregate(normalize, identity, reports[..n]);
      var r := reports[n];
      if normalize(r.subject) == identity {
        var key := KeyOf(r);
        KeyedMerge(keys, aggregated, kept, r);
        if key !in aggregated {
          keys := keys + [key];
          aggregated := aggregated[key := r];
        } else if Score(r) > Score(aggregated[key]) {
          aggregated := aggregated[key := r];
        }
      }
    }
    assert reports[..|reports|] == reports;
    values := seq(|keys|, i requires 0 <= i < |keys| && keys[i] in aggregated => aggregated[keys[i]]);
  }

  /// An insertion-ordered map and the list of its values.
  ghost predicate Keyed(keys: seq<string>, m: map<string, Report>, list: seq<Report>) {
    && |keys| == |list|
    && (forall i :: 0 <= i < |list| ==> keys[i] == KeyOf(list[i]) && keys[i] in m && m[keys[i]] == list[i])
    && (forall key :: key in m ==> FindKey(list, key, KeyOf).Some?)
    && UniqueKeys(list)
  }

  lemma KeyedMerge(keys: seq<string>, m: map<string, Report>, list: seq<Report>, r: Report)
    requires Keyed(keys, m, list)
    ensures var key := KeyOf(r);
            Keyed(if key in m then keys else keys + [key], if key in m && Score(r) <= Score(m[key]) then m else m[key := r], Merge(list, r))
  {
    hide KeyOf, Score, FindKey, Keyed, UniqueKeys;
    assert Keyed(keys, m, list);
    KeyedFind(keys, m, list, KeyOf(r));
    match FindKey(list, KeyOf(r), KeyOf)
    case None => KeyedAppend(keys, m, list, r);
    case Some(k) =>
      if Score(r) > Score(list[k]) {
        KeyedReplace(keys, m, list, k, r);
      }
  }

  lemma KeyedFind(keys: seq<string>, m: map<string, Report>, list: seq<Report>, key: string)
    requires Keyed(keys, m, list)
    ensures var found := FindKey(list, key, KeyOf); (found.Some? <==> key in m) && (found.Some? ==> m[key] == list[found.value])
  {
  }

  lemma KeyedAppend(keys: seq<string>, m: map<string, Report>, list: seq<Report>, r: Report)
    requires Keyed(keys, m, list) && FindKey(list, KeyOf(r), KeyOf).None?
    ensures Keyed(keys + [KeyOf(r)], m[KeyOf(r) := r], list + [r])
  {
    hide KeyOf;
    var after := list + [r];
    forall k | k in m[KeyOf(r) := r] ensures FindKey(after, k, KeyOf).Some? {
      if k == KeyOf(r) {
        assert KeyOf(after[|list|]) == k;
      } else {
        assert KeyOf(after[FindKey(list, k, KeyOf).value]) == k;
      }
    }
  }

  lemma KeyedReplace(keys: seq<string>, m: map<string, Report>, list: seq<Report>, k: nat, r: Report)
    requires Keyed(keys, m, list) && k < |list| && KeyOf(list[k]) == KeyOf(r)
    ensures Keyed(keys, m[KeyOf(r) := r], list[k := r])
  {
    hide KeyOf;
    var after := list[k := r];
    forall key | key in m[KeyOf(r) := r] ensures FindKey(after, key, KeyOf).Some? {
      if key == KeyOf(r) {
        assert KeyOf(after[k]) == key;
      } else {
        assert KeyOf(after[FindKey(list, key, KeyOf).value]) == key;
      }
    }
  }

  // ---------- keys tell endpoints apart ----------

  /// Two reports share a key exactly when they name the same transport, address and port, even for addresses that
  /// contain colons.
  lemma KeyInjective(r: Report, q: Report)
    ensures KeyOf(r) == KeyOf(q) <==> r.transport == q.transport && r.ip == q.ip && r.port == q.port
  {
    if KeyOf(r) == KeyOf(q) {
      var (t, u) := (TransportName(r.transport), TransportName(q.transport));
      Text.IntegerHasNoColon(r.port);
      Text.IntegerHasNoColon(q.port);
      Text.SplitAtLast(':', t + ":" + r.ip, Text.Integer(r.port), u + ":" + q.ip, Text.Integer(q.port));
      Text.SplitAtFirst(':', t, r.ip, u, q.ip);
      Text.IntegerInjective(r.port, q.port);
    }
  }

  // ---------- building ----------

  function ByScore(): Report -> real {
    (r: Report) => -Score(r)
  }

  function ToEndpoint(): Report -> Endpoint {
    (r: Report) => Endpoint(r.transport, r.ip, Some(r.port), if r.dialback then DialbackConfirmed else PeerObserved, Clamp01(Score(r)))
  }

  function FirstTwo<T>(s: seq<T>): seq<T> {
    if |s| <= 2 then s else s[..2]
  }

  function BuiltEndpoints(normalize: Normalizer, identity: string, reports: seq<Report>): seq<Endpoint> {
    Map(FirstTwo(Sort(Aggregate(normalize, normalize(identity), reports), ByScore())), ToEndpoint()) + [RELAY]
  }

  /// The endpoint announced for a report: its place, how it was found, and its score clamped into [0, 1].
  ghost predicate EndpointOf(e: Endpoint, r: Report) {
    var raw := r.confidence + if r.dialback then 0.35 else -0.15;
    && e.transport == r.transport && e.address == r.ip && e.port == Some(r.port)
    && e.source == (if r.dialback then DialbackConfirmed else PeerObserved)
    && e.confidence == (if raw < 0.0 then 0.0 else if raw > 1.0 then 1.0 else raw)
  }

  /// At most two reports of different places about the subject, best first; a report about it whose place is not
  /// among them is outranked by two that are.
  ghost predicate TwoBest(normalize: Normalizer, identity: string, reports: seq<Report>, chosen: seq<Report>) {
    && |chosen| <= 2
    && (forall c :: c in chosen ==> c in reports && normalize(c.subject) == identity)
    && (|chosen| == 2 ==> AtLeast(chosen[0], chosen[1]) && !SamePlace(chosen[0], chosen[1]))
    && (forall q :: q in reports && normalize(q.subject) == identity ==>
          || (exists c :: c in chosen && SamePlace(c, q) && AtLeast(c, q))
          || (|chosen| == 2 && AtLeast(chosen[0], q) && AtLeast(chosen[1], q)))
  }

  ghost predicate Built(normalize: Normalizer, identity: string, reports: seq<Report>, endpoints: seq<Endpoint>) {
    exists chosen :: TwoBest(normalize, identity, reports, chosen) && Announced(chosen, endpoints)
  }

  ghost predicate Announced(chosen: seq<Report>, endpoints: seq<Endpoint>) {
    && |endpoints| == |chosen| + 1 && endpoints[|chosen|] == Endpoint(Relay, "wss://relay.example", None, Fallback, 1.0)
    && forall k :: 0 <= k < |chosen| ==> EndpointOf(endpoints[k], chosen[k])
  }

  /// What is announced, in terms of the reports alone.
  lemma BuiltIsTwoBest(normalize: Normalizer, identity: string, reports: seq<Report>)
    ensures Built(normalize, normalize(identity), reports, BuiltEndpoints(normalize, identity, reports))
  {
    var id := normalize(identity);
    var kept := Aggregate(normalize, id, reports);
    var chosen := FirstTwo(Sort(kept, ByScore()));
    AggregateRepresents(normalize, id, reports);
    hide Aggregate, Sort, KeyOf, Score, FirstTwo, TwoBest, Announced, ToEndpoint;
    SortRankedReports(kept);
    KeptTwoBest(normalize, id, reports, kept, chosen);
    AnnouncedAs(chosen);
    assert BuiltEndpoints(normalize, identity, reports) == Map(chosen, ToEndpoint()) + [RELAY];
  }

  lemma KeptTwoBest(normalize: Normalizer, identity: string, reports: seq<Report>, kept: seq<Report>, chosen: seq<Report>)
    requires Represents(normalize, identity, reports, kept) && |chosen| <= 2 && forall c :: c in chosen ==> c in kept
    requires |chosen| == 2 ==> Score(chosen[0]) >= Score(chosen[1]) && KeyOf(chosen[0]) != KeyOf(chosen[1])
    requires forall r :: r in kept ==> r in chosen || (|chosen| == 2 && Score(chosen[0]) >= Score(r) && Score(chosen[1]) >= Score(r))
    ensures TwoBest(normalize, identity, reports, chosen)
  {
    BestFirstOf(chosen);
    hide KeyOf, Score, Beaten, SamePlace, AtLeast;
    forall q | q in reports && normalize(q.subject) == identity
      ensures (exists c :: c in chosen && SamePlace(c, q) && AtLeast(c, q)) || (|chosen| == 2 && AtLeast(chosen[0], q) && AtLeast(chosen[1], q))
    {
      assert Beaten(kept, q);
      ChosenBeat(kept, chosen, q);
    }
  }

  lemma ChosenBeat(kept: seq<Report>, chosen: seq<Report>, q: Report)
    requires Beaten(kept, q)
    requires forall r :: r in kept ==> r in chosen || (|chosen| == 2 && Score(chosen[0]) >= Score(r) && Score(chosen[1]) >= Score(r))
    ensures (exists c :: c in chosen && SamePlace(c, q) && AtLeast(c, q)) || (|chosen| == 2 && AtLeast(chosen[0], q) && AtLeast(chosen[1], q))
  {
    var k :| 0 <= k < |kept| && KeyOf(kept[k]) == KeyOf(q) && Score(kept[k]) >= Score(q);
    KeyInjective(kept[k], q);
    assert kept[k] in kept;
  }

  lemma BestFirstOf(chosen: seq<Report>)
    requires |chosen| == 2 ==> Score(chosen[0]) >= Score(chosen[1]) && KeyOf(chosen[0]) != KeyOf(chosen[1])
    ensures |chosen| == 2 ==> AtLeast(chosen[0], chosen[1]) && !SamePlace(chosen[0], chosen[1])
  {
  }

  lemma AnnouncedAs(chosen: seq<Report>)
    ensures Announced(chosen, Map(chosen, ToEndpoint()) + [RELAY])
  {
  }

  /// The two announced reports are two different kept ones of the highest scores.
  lemma SortRankedReports(kept: seq<Report>)
    requires UniqueKeys(kept)
    ensures var chosen := FirstTwo(Sort(kept, ByScore()));
            && |chosen| <= 2
            && (forall c :: c in chosen ==> c in kept)
            && (|chosen| == 2 ==> Score(chosen[0]) >= Score(chosen[1]) && KeyOf(chosen[0]) != KeyOf(chosen[1]))
            && (forall r :: r in kept ==> r in chosen || (|chosen| == 2 && Score(chosen[0]) >= Score(r) && Score(chosen[1]) >= Score(r)))
  {
    var sorted := Sort(kept, ByScore());
    SortSorted(kept, ByScore());
    SortDistinct(kept, ByScore(), KeyOf);
    forall r ensures r in sorted <==> r in kept {
      SortMember(kept, ByScore(), r);
    }
    hide Sort, KeyOf, Score;
    forall r | r in kept
      ensures r in FirstTwo(sorted) || (|FirstTwo(sorted)| == 2 && Score(sorted[0]) >= Score(r) && Score(sorted[1]) >= Score(r))
    {
      var i :| 0 <= i < |sorted| && sorted[i] == r;
      if i < 2 {
        assert r == FirstTwo(sorted)[i];
      } else {
        assert ByScore()(sorted[0]) <= ByScore()(r) && ByScore()(sorted[1]) <= ByScore()(r);
      }
    }
    if |sorted| >= 2 {
      assert ByScore()(sorted[0]) <= ByScore()(sorted[1]);
    }
  }

  method BuildRouteAnnouncement(normalize: Normalizer, identity: string, reports: seq<Report>, sequence: int, now: int)
    returns (a: Announcement)
    ensures a.identity == normalize(identity) && a.sequence == sequence && a.observedAt == now
    ensures a.endpoints == BuiltEndpoints(normalize, identity, reports)
    ensures Built(normalize, normalize(identity), reports, a.endpoints)
    ensures a.natType == Estimate(reports)
  {
    BuiltIsTwoBest(normalize, identity, reports);
    var values := AggregateReports(normalize, normalize(identity), reports);
    var endpoints := Map(FirstTwo(Sort(values, ByScore())), ToEndpoint());
    endpoints := endpoints + [RELAY];
    var natType := EstimateNatType(reports);
    a := Announcement(normalize(identity), sequence, endpoints, natType, now);
  }

  // ---------- the kind of NAT ----------

  ghost predicate AnySuccess(reports: seq<Report>) {
    exists i :: 0 <= i < |reports| && reports[i].dialback
  }

  ghost predicate TwoSuccesses(reports: seq<Report>) {
    exists i, j :: 0 <= i < j < |reports| && reports[i].dialback && reports[j].dialback
  }

  ghost predicate TwoIps(reports: seq<Report>) {
    exists q, r :: q in reports && r in reports && q.ip != r.ip
  }

  ghost predicate TwoPorts(reports: seq<Report>) {
    exists q, r :: q in reports && r in reports && q.port != r.port
  }

  /// What each estimate means, in terms of all the reports.
  ghost predicate NatIs(natType: NatType, reports: seq<Report>) {
    match natType
    case SymmetricNat => reports != [] && !AnySuccess(reports)
    case Cgnat => TwoIps(reports) && TwoSuccesses(reports)
    case Unknown => reports == [] || (TwoIps(reports) && AnySuccess(reports) && !TwoSuccesses(reports))
    case PortChanging => AnySuccess(reports) && !TwoIps(reports) && TwoPorts(reports)
    case StablePublic => AnySuccess(reports) && !TwoIps(reports) && !TwoPorts(reports)
  }

  /// Exactly one estimate has its meaning fulfilled.
  ghost function Estimate(reports: seq<Report>): (n: NatType)
    ensures NatIs(n, reports)
  {
    if reports == [] then Unknown
    else if !AnySuccess(reports) then SymmetricNat
    else if TwoIps(reports) then (if TwoSuccesses(reports) then Cgnat else Unknown)
    else if TwoPorts(reports) then PortChanging
    else StablePublic
  }

  lemma EstimateUnique(natType: NatType, reports: seq<Report>)
    ensures NatIs(natType, reports) <==> natType == Estimate(reports)
  {
    if TwoSuccesses(reports) {
      assert AnySuccess(reports);
    }
    if TwoIps(reports) {
      assert reports != [];
    }
  }

  function Successes(reports: seq<Report>): nat {
    if reports == [] then 0 else Successes(reports[..|reports| - 1]) + if reports[|reports| - 1].dialback then 1 else 0
  }

  lemma {:induction false} SuccessesCount(reports: seq<Report>)
    ensures Successes(reports) >= 1 <==> AnySuccess(reports)
    ensures Successes(reports) >= 2 <==> TwoSuccesses(reports)
  {
    if reports != [] {
      var n := |reports| - 1;
      var front := reports[..n];
      SuccessesCount(front);
      assert forall i :: 0 <= i < n ==> front[i] == reports[i];
      if reports[n].dialback && Successes(front) >= 1 {
        var i :| 0 <= i < n && front[i].dialback;
        assert reports[i].dialback && reports[n].dialback && i < n;
      }
    }
  }

  /// The ports seen for each address.
  ghost predicate PortsOf(byIp: map<string, set<int>>, reports: seq<Report>) {
    && IpsAre(byIp.Keys, reports)
    && (forall ip :: ip in byIp ==> PortsAre(byIp[ip], ip, reports))
  }

  ghost predicate IpsAre(ips: set<string>, reports: seq<Report>) {
    && (forall r :: r in reports ==> r.ip in ips)
    && (forall ip :: ip in ips ==> exists r :: r in reports && r.ip == ip)
  }

  ghost predicate PortsAre(ports: set<int>, ip: string, reports: seq<Report>) {
    && (forall r :: r in reports && r.ip == ip ==> r.port in ports)
    && (forall port :: port in ports ==> exists r :: r in reports && r.ip == ip && r.port == port)
  }

  method EstimateNatType(reports: seq<Report>) returns (natType: NatType)
    ensures natType == Estimate(reports)
  {
    hide PortsOf, Estimate, NatIs;
    var byIp: map<string, set<int>>, successes := map[], 0;
    PortsStart();
    for n := 0 to |reports|
      invariant PortsOf(byIp, reports[..n]) && successes == Successes(reports[..n])
    {
      assert reports[..n + 1] == reports[..n] + [reports[n]];
      PortsStep(byIp, reports[..n], reports[n]);
      var report := reports[n];
      ghost var before := byIp;
      if report.ip !in byIp {
        byIp := byIp[report.ip := {}];
      }
      byIp := byIp[report.ip := byIp[report.ip] + {report.port}];
      assert byIp == before[report.ip := (if report.ip in before then before[report.ip] else {}) + {report.port}];
      if report.dialback {
        successes := successes + 1;
      }
    }
    assert reports[..|reports|] == reports;
    NatDecided(byIp, reports);
    if |reports| == 0 {
      return Unknown;
    }
    if successes == 0 {
      return SymmetricNat;
    }
    if |byIp| > 1 {
      return if successes >= 2 then Cgnat else Unknown;
    }
    var ports := byIp[reports[0].ip];
    if |ports| > 1 {
      return PortChanging;
    }
    return StablePublic;
  }

  /// The branches decide exactly what the estimates mean.
  lemma NatDecided(byIp: map<string, set<int>>, reports: seq<Report>)
    requires PortsOf(byIp, reports)
    ensures reports == [] ==> Estimate(reports) == Unknown
    ensures reports != [] && Successes(reports) == 0 ==> Estimate(reports) == SymmetricNat
    ensures Successes(reports) > 0 && |byIp| > 1 ==> Estimate(reports) == if Successes(reports) >= 2 then Cgnat else Unknown
    ensures reports != [] && Successes(reports) > 0 && |byIp| <= 1 ==>
              reports[0].ip in byIp && Estimate(reports) == if |byIp[reports[0].ip]| > 1 then PortChanging else StablePublic
  {
    SuccessesCount(reports);
    IpsCounted(byIp.Keys, reports);
    assert |byIp| == |byIp.Keys|;
    hide IpsAre, PortsAre, AnySuccess, TwoSuccesses, TwoIps, TwoPorts, Successes;
    if reports != [] && |byIp| <= 1 {
      PortsCounted(byIp[reports[0].ip], reports);
    }
  }

  lemma PortsStart()
    ensures PortsOf(map[], [])
  {
  }

  lemma PortsStep(byIp: map<string, set<int>>, reports: seq<Report>, r: Report)
    requires PortsOf(byIp, reports)
    ensures PortsOf(byIp[r.ip := (if r.ip in byIp then byIp[r.ip] else {}) + {r.port}], reports + [r])
  {
  }

  lemma TwoMembers<T>(s: set<T>) returns (x: T, y: T)
    requires |s| > 1
    ensures x in s && y in s && x != y
  {
    x :| x in s;
    assert |s - {x}| == |s| - 1;
    y :| y in s - {x};
  }

  lemma MoreThanOne<T>(s: set<T>, x: T, y: T)
    requires x in s && y in s && x != y
    ensures |s| > 1
  {
    assert |s - {x}| == |s| - 1 && y in s - {x};
  }

  lemma IpsCounted(ips: set<string>, reports: seq<Report>)
    requires IpsAre(ips, reports)
    ensures |ips| > 1 <==> TwoIps(reports)
  {
    if |ips| > 1 {
      var x, y := TwoMembers(ips);
      var q :| q in reports && q.ip == x;
      var r :| r in reports && r.ip == y;
    }
    if TwoIps(reports) {
      var q, r :| q in reports && r in reports && q.ip != r.ip;
      MoreThanOne(ips, q.ip, r.ip);
    }
  }

  lemma PortsCounted(ports: set<int>, reports: seq<Report>)
    requires reports != [] && !TwoIps(reports) && PortsAre(ports, reports[0].ip, reports)
    ensures |ports| > 1 <==> TwoPorts(reports)
  {
    assert reports[0] in reports;
    var ip := reports[0].ip;
    if |ports| > 1 {
      var x, y := TwoMembers(ports);
      var q :| q in reports && q.ip == ip && q.port == x;
      var r :| r in reports && r.ip == ip && r.port == y;
    }
    if TwoPorts(reports) {
      var q, r :| q in reports && r in reports && q.port != r.port;
      assert q.ip == ip && r.ip == ip;
      MoreThanOne(ports, q.port, r.port);
    }
  }

  // ---------- reports about others ----------

  function Subjects(normalize: Normalizer, identity: string): Report -> bool {
    (r: Report) => About(normalize, identity, r)
  }

  function Others(normalize: Normalizer, identity: string): Report -> bool {
    (r: Report) => !About(normalize, identity, r)
  }

  lemma {:induction false} SuccessesSplit(normalize: Normalizer, identity: string, reports: seq<Report>)
    ensures Successes(reports) == Successes(Filter(reports, Subjects(normalize, identity))) + Successes(Filter(reports, Others(normalize, identity)))
  {
    if reports != [] {
      SuccessesSplit(normalize, identity, reports[..|reports| - 1]);
    }
  }

  lemma ReportsSplit(normalize: Normalizer, identity: string, reports: seq<Report>)
    ensures var own, foreign := Filter(reports, Subjects(normalize, identity)), Filter(reports, Others(normalize, identity));
            forall r :: r in reports <==> r in own || r in foreign
  {
    forall r ensures r in reports <==> r in Filter(reports, Subjects(normalize, identity)) || r in Filter(reports, Others(normalize, identity)) {
      FilterMember(reports, Subjects(normalize, identity), r);
      FilterMember(reports, Others(normalize, identity), r);
    }
  }

  /// What reports about others must be like not to change the estimate from one's own reports.
  ghost predicate Harmless(own: seq<Report>, foreign: seq<Report>) {
    match Estimate(own)
    case Cgnat => true
    case SymmetricNat => !AnySuccess(foreign)
    case StablePublic => forall r :: r in foreign ==> r.ip == own[0].ip && r.port == own[0].port
    case PortChanging => forall r :: r in foreign ==> r.ip == own[0].ip
    case Unknown =>
      if own == [] then foreign == [] || (TwoIps(foreign) && AnySuccess(foreign) && !TwoSuccesses(foreign))
      else !AnySuccess(foreign)
  }

  /// The estimate is taken over all reports, not only over those about the subject as the endpoints
  /// are. It is the subject's own exactly if the others are harmless.
  lemma EstimateIsOwn(normalize: Normalizer, identity: string, reports: seq<Report>)
    ensures var own, foreign := Filter(reports, Subjects(normalize, identity)), Filter(reports, Others(normalize, identity));
            Estimate(reports) == Estimate(own) <==> Harmless(own, foreign)
  {
    hide Filter;
    var own, foreign := Filter(reports, Subjects(normalize, identity)), Filter(reports, Others(normalize, identity));
    SuccessesSplit(normalize, identity, reports);
    ReportsSplit(normalize, identity, reports);
    EstimateOfBoth(own, foreign, reports);
  }

  lemma EstimateOfBoth(own: seq<Report>, foreign: seq<Report>, all: seq<Report>)
    requires Successes(all) == Successes(own) + Successes(foreign)
    requires forall r :: r in all <==> r in own || r in foreign
    ensures Estimate(all) == Estimate(own) <==> Harmless(own, foreign)
  {
    SuccessesCount(own);
    SuccessesCount(foreign);
    SuccessesCount(all);
    if own == [] {
      SameReports(foreign, all);
    } else {
      IpsOfBoth(own, foreign, all);
      PortsOfBoth(own, foreign, all);
    }
    hide Successes, AnySuccess, TwoSuccesses, TwoIps, TwoPorts, NatIs;
  }

  lemma IpsOfBoth(own: seq<Report>, foreign: seq<Report>, all: seq<Report>)
    requires own != [] && forall r :: r in all <==> r in own || r in foreign
    ensures TwoIps(all) <==> TwoIps(own) || exists r :: r in foreign && r.ip != own[0].ip
    ensures all != []
  {
    assert own[0] in all;
    if r :| r in foreign && r.ip != own[0].ip {
      assert r in all;
    }
    if TwoIps(own) {
      var q, r :| q in own && r in own && q.ip != r.ip;
      assert q in all && r in all;
    }
  }

  lemma PortsOfBoth(own: seq<Report>, foreign: seq<Report>, all: seq<Report>)
    requires own != [] && forall r :: r in all <==> r in own || r in foreign
    ensures TwoPorts(all) <==> TwoPorts(own) || exists r :: r in foreign && r.port != own[0].port
  {
    assert own[0] in all;
    if r :| r in foreign && r.port != own[0].port {
      assert r in all;
    }
    if TwoPorts(own) {
      var q, r :| q in own && r in own && q.port != r.port;
      assert q in all && r in all;
    }
  }

  lemma SameReports(a: seq<Report>, b: seq<Report>)
    requires forall r :: r in a <==> r in b
    ensures TwoIps(a) == TwoIps(b) && TwoPorts(a) == TwoPorts(b) && (a == [] <==> b == [])
  {
    assert a != [] ==> a[0] in a;
    assert b != [] ==> b[0] in b;
  }

  /// One successful report about each of two subjects at two addresses: the estimate is carrier-grade
  /// NAT, though the first subject's only report says a stable public address.
  lemma OthersChangeEstimate(normalize: Normalizer, a: Report, b: Report)
    requires normalize(a.subject) != normalize(b.subject) && a.dialback && b.dialback && a.ip != b.ip
    ensures Estimate([a, b]) == Cgnat && Estimate(Filter([a, b], Subjects(normalize, normalize(a.subject)))) == StablePublic
  {
    var both := [a, b];
    assert both[0] == a && both[1] == b;
    assert both[..1] == [a] && [a][..0] == [];
    assert Filter([a], Subjects(normalize, normalize(a.subject))) == [a];
    assert Filter(both, Subjects(normalize, normalize(a.subject))) == [a];
    assert [a][0].dialback && a in [a];
  }

  // ---------- parsing and resolving ----------

  function ClampConfidence(): Endpoint -> Endpoint {
    (e: Endpoint) => e.(confidence := Clamp01(e.confidence))
  }

  function Parse(normalize: Normalizer, e: RouteEvent): Option<Announcement> {
    if e.kind != ROUTE_ANNOUNCEMENT || !e.verified || e.content.None? then None
    else
      var a := e.content.value;
      Some(a.(identity := normalize(a.identity), endpoints := Map(a.endpoints, ClampConfidence())))
  }

  /// The announcement of an event, if it is one for this identity.
  function For(normalize: Normalizer, identity: string, e: RouteEvent): Option<Announcement> {
    var route := Parse(normalize, e);
    if route.Some? && route.value.identity == identity then route else None
  }

  /// Strictly later: by sequence, then by time.
  predicate LaterThan(a: Announcement, b: Announcement) {
    a.sequence > b.sequence || (a.sequence == b.sequence && a.observedAt > b.observedAt)
  }

  /// The later of two, the first on a tie.
  function Later(a: Option<Announcement>, b: Option<Announcement>): Option<Announcement> {
    if a.None? then b else if b.Some? && LaterThan(b.value, a.value) then b else a
  }

  function Latest(normalize: Normalizer, identity: string, events: seq<RouteEvent>): Option<Announcement> {
    if events == [] then None
    else Later(Latest(normalize, identity, events[..|events| - 1]), For(normalize, identity, events[|events| - 1]))
  }

  function Dialable(): Endpoint -> bool {
    (e: Endpoint) => !e.transport.Relay?
  }

  function Relaying(): Endpoint -> bool {
    (e: Endpoint) => e.transport.Relay?
  }

  function ByConfidence(): Endpoint -> real {
    (e: Endpoint) => -e.confidence
  }

  function Head<T>(s: seq<T>): Option<T> {
    if s == [] then None else Some(s[0])
  }

  function Resolution(identity: string, latest: Announcement): Resolved {
    var best := Head(Sort(Filter(latest.endpoints, Dialable()), ByConfidence()));
    Resolved(identity, best.Some?, best, Head(Filter(latest.endpoints, Relaying())), latest.endpoints, latest.natType, latest.sequence, latest.observedAt)
  }

  /// A verified event of kind 30801 whose content announces routes for the identity.
  ghost predicate Announces(normalize: Normalizer, identity: string, e: RouteEvent) {
    e.kind == 30801 && e.verified && e.content.Some? && normalize(e.content.value.identity) == identity
  }

  /// Event k announces for the identity; no other that does has a higher sequence, or the same with a later
  /// time; and none before it has the same of both.
  ghost predicate Winner(normalize: Normalizer, identity: string, events: seq<RouteEvent>, k: int) {
    && 0 <= k < |events| && Announces(normalize, identity, events[k])
    && forall j :: 0 <= j < |events| && Announces(normalize, identity, events[j]) ==>
         var a, b := events[k].content.value, events[j].content.value;
         b.sequence < a.sequence || (b.sequence == a.sequence && (b.observedAt < a.observedAt || (b.observedAt == a.observedAt && k <= j)))
  }

  /// The first endpoint other than a relay of the highest confidence.
  ghost predicate BestDial(endpoints: seq<Endpoint>, best: Option<Endpoint>) {
    match best
    case None => forall e :: e in endpoints ==> e.transport == Relay
    case Some(b) => exists i :: 0 <= i < |endpoints| && endpoints[i] == b && IsBestDial(endpoints, i)
  }

  ghost predicate IsBestDial(endpoints: seq<Endpoint>, i: nat)
    requires i < |endpoints|
  {
    && endpoints[i].transport != Relay
    && forall j :: 0 <= j < |endpoints| && endpoints[j].transport != Relay ==>
         endpoints[j].confidence < endpoints[i].confidence || (endpoints[j].confidence == endpoints[i].confidence && i <= j)
  }

  ghost predicate FirstRelay(endpoints: seq<Endpoint>, relay: Option<Endpoint>) {
    match relay
    case None => forall e :: e in endpoints ==> e.transport != Relay
    case Some(r) => exists i :: 0 <= i < |endpoints| && endpoints[i] == r && IsFirstRelay(endpoints, i)
  }

  ghost predicate IsFirstRelay(endpoints: seq<Endpoint>, i: nat)
    requires i < |endpoints|
  {
    endpoints[i].transport == Relay && forall j :: 0 <= j < i ==> endpoints[j].transport != Relay
  }

  /// The announcement with every confidence clamped into [0, 1], its best endpoint and its first relay.
  ghost predicate ResolvesTo(identity: string, a: Announcement, r: Resolved) {
    && r.identity == identity && r.sequence == a.sequence && r.updatedAt == a.observedAt && r.natType == a.natType
    && |r.endpoints| == |a.endpoints|
    && (forall i :: 0 <= i < |a.endpoints| ==>
          var c := a.endpoints[i].confidence;
          r.endpoints[i] == a.endpoints[i].(confidence := if c < 0.0 then 0.0 else if c > 1.0 then 1.0 else c))
    && r.reachable == r.bestEndpoint.Some? && BestDial(r.endpoints, r.bestEndpoint) && FirstRelay(r.endpoints, r.fallback)
  }

  ghost predicate ResolvesWinner(normalize: Normalizer, identity: string, events: seq<RouteEvent>, r: Resolved) {
    exists k :: Winner(normalize, identity, events, k) && ResolvesTo(identity, events[k].content.value, r)
  }

  lemma ForIs(normalize: Normalizer, identity: string, e: RouteEvent)
    ensures ForAgrees(normalize, identity, e)
  {
  }

  /// What is resolved, in terms of the events alone.
  lemma ResolutionIs(normalize: Normalizer, identity: string, events: seq<RouteEvent>)
    ensures var latest := Latest(normalize, identity, events);
            && (latest.None? <==> forall e :: e in events ==> !Announces(normalize, identity, e))
            && (latest.Some? ==> ResolvesWinner(normalize, identity, events, Resolution(identity, latest.value)))
  {
    LatestIsMaximum(normalize, identity, events);
    hide Latest, Parse;
    forall e ensures For(normalize, identity, e).Some? <==> Announces(normalize, identity, e) {
      ForIs(normalize, identity, e);
    }
    var latest := Latest(normalize, identity, events);
    if latest.Some? {
      var k := FirstLatestWins(normalize, identity, events, latest.value);
      ResolvedIs(normalize, identity, events[k], latest.value);
    }
  }

  lemma FirstLatestWins(normalize: Normalizer, identity: string, events: seq<RouteEvent>, a: Announcement) returns (k: int)
    requires FirstLatest(normalize, identity, events, a)
    ensures Winner(normalize, identity, events, k) && For(normalize, identity, events[k]) == Some(a)
  {
    forall e ensures ForAgrees(normalize, identity, e) {
      ForIs(normalize, identity, e);
    }
    hide Parse, For;
    k :| 0 <= k < |events| && For(normalize, identity, events[k]) == Some(a)
      && (forall j :: 0 <= j < |events| && For(normalize, identity, events[j]).Some? ==> !LaterThan(For(normalize, identity, events[j]).value, a))
      && (forall j :: 0 <= j < k && For(normalize, identity, events[j]).Some? ==> LaterThan(a, For(normalize, identity, events[j]).value));
    assert ForAgrees(normalize, identity, events[k]);
    forall j | 0 <= j < |events| && Announces(normalize, identity, events[j])
      ensures var a, b := events[k].content.value, events[j].content.value;
              b.sequence < a.sequence || (b.sequence == a.sequence && (b.observedAt < a.observedAt || (b.observedAt == a.observedAt && k <= j)))
    {
      assert ForAgrees(normalize, identity, events[j]);
    }
  }

  ghost predicate ForAgrees(normalize: Normalizer, identity: string, e: RouteEvent) {
    && (For(normalize, identity, e).Some? <==> Announces(normalize, identity, e))
    && (For(normalize, identity, e).Some? ==>
          For(normalize, identity, e).value.sequence == e.content.value.sequence && For(normalize, identity, e).value.observedAt == e.content.value.observedAt)
  }

  lemma ResolvedIs(normalize: Normalizer, identity: string, e: RouteEvent, latest: Announcement)
    requires For(normalize, identity, e) == Some(latest)
    ensures e.content.Some? && ResolvesTo(identity, e.content.value, Resolution(identity, latest))
  {
    hide Sort, Filter;
    EndpointsResolve(latest.endpoints);
    hide BestDial, FirstRelay;
  }

  lemma EndpointsResolve(endpoints: seq<Endpoint>)
    ensures BestDial(endpoints, Head(Sort(Filter(endpoints, Dialable()), ByConfidence())))
    ensures FirstRelay(endpoints, Head(Filter(endpoints, Relaying())))
  {
    if exists e :: e in endpoints && Dialable()(e) {
      var k := FindFirstLeast(endpoints, Dialable(), ByConfidence());
      SortedHead(endpoints, Dialable(), ByConfidence(), k);
      BestDialAt(endpoints, k);
    } else {
      FilterNone(endpoints, Dialable());
    }
    if exists e :: e in endpoints && Relaying()(e) {
      var k := FilteredHead(endpoints, Relaying());
      forall j | 0 <= j < k ensures endpoints[j].transport != Relay {
        assert !Relaying()(endpoints[j]);
      }
      assert IsFirstRelay(endpoints, k);
    } else {
      FilterNone(endpoints, Relaying());
    }
  }

  lemma BestDialAt(endpoints: seq<Endpoint>, k: nat)
    requires FirstLeast(endpoints, Dialable(), ByConfidence(), k)
    ensures BestDial(endpoints, Some(endpoints[k]))
  {
    forall j | 0 <= j < |endpoints| && endpoints[j].transport != Relay
      ensures endpoints[j].confidence < endpoints[k].confidence || (endpoints[j].confidence == endpoints[k].confidence && k <= j)
    {
      assert Dialable()(endpoints[j]);
    }
  }

  method ResolveRouteAnnouncement(normalize: Normalizer, identity: string, events: seq<RouteEvent>) returns (r: Option<Resolved>)
    ensures r.None? <==> forall e :: e in events ==> !Announces(normalize, normalize(identity), e)
    ensures r.Some? ==> ResolvesWinner(normalize, normalize(identity), events, r.value)
    ensures r == match Latest(normalize, normalize(identity), events)
                 case Some(latest) => Some(Resolution(normalize(identity), latest))
                 case None => None
  {
    ResolutionIs(normalize, normalize(identity), events);
    hide Announces, ResolvesWinner;
    var normalized := normalize(identity);
    var latest: Option<Announcement> := None;
    for n := 0 to |events|
      invariant latest == Latest(normalize, normalized, events[..n])
    {
      assert events[..n + 1][..n] == events[..n];
      var route := Parse(normalize, events[n]);
      if route.Some? && route.value.identity == normalized {
        if latest.None? || LaterThan(route.value, latest.value) {
          latest := route;
        }
      }
    }
    assert events[..|events|] == events;
    if latest.None? {
      return None;
    }
    var dialable := Filter(latest.value.endpoints, Dialable());
    SortSize(dialable);
    var best := if |dialable| > 0 then Some(Sort(dialable, ByConfidence())[0]) else None;
    r := Some(Resolved(normalized, best.Some?, best, Head(Filter(latest.value.endpoints, Relaying())), latest.value.endpoints,
                       latest.value.natType, latest.value.sequence, latest.value.observedAt));
  }

  lemma SortSize(s: seq<Endpoint>)
    ensures |Sort(s, ByConfidence())| == |s|
  {
    if s != [] {
      SortMember(s, ByConfidence(), s[0]);
    }
  }

  /// The resolved announcement is one of those given, no other is later, and it is the first of the latest.
  lemma {:induction false} LatestIsMaximum(normalize: Normalizer, identity: string, events: seq<RouteEvent>)
    ensures Latest(normalize, identity, events).None? <==> forall e :: e in events ==> For(normalize, identity, e).None?
    ensures Latest(normalize, identity, events).Some? ==> FirstLatest(normalize, identity, events, Latest(normalize, identity, events).value)
  {
    if events != [] {
      var front, e := events[..|events| - 1], events[|events| - 1];
      assert events == front + [e];
      LatestIsMaximum(normalize, identity, front);
      hide For, Parse;
      LatestStep(normalize, identity, front, e);
    }
  }

  ghost predicate FirstLatest(normalize: Normalizer, identity: string, events: seq<RouteEvent>, a: Announcement) {
    exists k :: 0 <= k < |events| && For(normalize, identity, events[k]) == Some(a)
      && (forall j :: 0 <= j < |events| && For(normalize, identity, events[j]).Some? ==> !LaterThan(For(normalize, identity, events[j]).value, a))
      && (forall j :: 0 <= j < k && For(normalize, identity, events[j]).Some? ==> LaterThan(a, For(normalize, identity, events[j]).value))
  }

  lemma LatestStep(normalize: Normalizer, identity: string, front: seq<RouteEvent>, e: RouteEvent)
    requires var before := Latest(normalize, identity, front);
             && (before.None? <==> forall x :: x in front ==> For(normalize, identity, x).None?)
             && (before.Some? ==> FirstLatest(normalize, identity, front, before.value))
    ensures var after := Later(Latest(normalize, identity, front), For(normalize, identity, e));
            && (after.None? <==> forall x :: x in front + [e] ==> For(normalize, identity, x).None?)
            && (after.Some? ==> FirstLatest(normalize, identity, front + [e], after.value))
  {
    hide For, Parse, Latest;
    var before, route, events := Latest(normalize, identity, front), For(normalize, identity, e), front + [e];
    var after := Later(before, route);
    assert forall j :: 0 <= j < |front| ==> events[j] == front[j] && front[j] in front;
    assert e in events && events[|front|] == e;
    if before.Some? {
      var k :| 0 <= k < |front| && For(normalize, identity, front[k]) == before
        && (forall j :: 0 <= j < |front| && For(normalize, identity, front[j]).Some? ==> !LaterThan(For(normalize, identity, front[j]).value, before.value))
        && (forall j :: 0 <= j < k && For(normalize, identity, front[j]).Some? ==> LaterThan(before.value, For(normalize, identity, front[j]).value));
      assert front[k] in events;
      if after == before {
        assert For(normalize, identity, events[k]) == Some(after.value);
      } else {
        assert For(normalize, identity, events[|front|]) == Some(after.value);
      }
    } else if route.Some? {
      assert For(normalize, identity, events[|front|]) == Some(after.value);
    }
  }

  /// Resolving two lists one after the other is taking the later of the two results.
  lemma {:induction false} LatestConcat(normalize: Normalizer, identity: string, a: seq<RouteEvent>, b: seq<RouteEvent>)
    ensures Latest(normalize, identity, a + b) == Later(Latest(normalize, identity, a), Latest(normalize, identity, b))
  {
    if b == [] {
      assert a + b == a;
    } else {
      var front, e := b[..|b| - 1], b[|b| - 1];
      assert (a + b)[..|a + b| - 1] == a + front;
      LatestConcat(normalize, identity, a, front);
    }
  }

  /// No two announcements for the identity carry the same sequence and time, unless they are the same.
  ghost predicate NoTies(normalize: Normalizer, identity: string, events: seq<RouteEvent>) {
    forall e, f :: e in events && f in events && For(normalize, identity, e).Some? && For(normalize, identity, f).Some?
      ==> Ordered(For(normalize, identity, e).value, For(normalize, identity, f).value)
  }

  predicate Ordered(a: Announcement, b: Announcement) {
    a == b || LaterThan(a, b) || LaterThan(b, a)
  }

  /// Without ties, order and repetition do not matter.
  lemma OrderIrrelevant(normalize: Normalizer, identity: string, a: seq<RouteEvent>, b: seq<RouteEvent>)
    requires NoTies(normalize, identity, a) && forall e :: e in a <==> e in b
    ensures Latest(normalize, identity, a) == Latest(normalize, identity, b)
  {
    LatestIsMaximum(normalize, identity, a);
    LatestIsMaximum(normalize, identity, b);
    hide For, Latest;
    var x, y := Latest(normalize, identity, a), Latest(normalize, identity, b);
    if x.Some? && y.Some? {
      var i :| 0 <= i < |a| && For(normalize, identity, a[i]) == x;
      var j :| 0 <= j < |b| && For(normalize, identity, b[j]) == y;
      assert a[i] in a && b[j] in b;
      var p :| 0 <= p < |b| && b[p] == a[i];
      var q :| 0 <= q < |a| && a[q] == b[j];
      assert Ordered(x.value, y.value);
    }
  }

  /// A tie is decided by the order: of two different announcements with the same sequence and time, the first wins.
  lemma TiesAreOrdered(normalize: Normalizer, identity: string, e: RouteEvent, f: RouteEvent)
    requires For(normalize, identity, e).Some? && For(normalize, identity, f).Some?
    ensures Latest(normalize, identity, [e, f]) == Latest(normalize, identity, [f, e])
            <==> Ordered(For(normalize, identity, e).value, For(normalize, identity, f).value)
  {
    assert [e, f] == [e] + [f] && [f, e] == [f] + [e];
    LatestConcat(normalize, identity, [e], [f]);
    LatestConcat(normalize, identity, [f], [e]);
    assert Latest(normalize, identity, [e]) == For(normalize, identity, e) by { assert [e][..0] == []; }
    assert Latest(normalize, identity, [f]) == For(normalize, identity, f) by { assert [f][..0] == []; }
  }

  // ---------- from reports to the best endpoint ----------

  /// The announcement built from reports, published and resolved, gives as best endpoint that of a report of the
  /// subject with the highest raw score, and none exactly if no report is about the subject; the relay is the
  /// fallback. Clamping the scores into [0, 1] may make ties but does not change the choice.
  lemma BestEndpointIsBestReport(normalize: Normalizer, identity: string, reports: seq<Report>, a: Announcement)
    requires Idempotent(normalize)
    requires a.identity == normalize(identity) && a.endpoints == BuiltEndpoints(normalize, identity, reports)
    requires forall r :: r in reports ==> !r.transport.Relay?
    ensures var parsed := For(normalize, normalize(identity), RouteEvent(ROUTE_ANNOUNCEMENT, true, Some(a)));
            parsed.Some? && BestFor(normalize, identity, reports, Resolution(normalize(identity), parsed.value))
  {
    var id := normalize(identity);
    var kept := Aggregate(normalize, id, reports);
    var sorted := Sort(kept, ByScore());
    var chosen := FirstTwo(sorted);
    var endpoints := Map(a.endpoints, ClampConfidence());
    AggregateRepresents(normalize, id, reports);
    hide Aggregate, KeyOf, Sort, Filter;
    ChosenFacts(kept);
    assert endpoints == Map(chosen, ToEndpoint()) + [RELAY];
    forall r | r in chosen ensures !r.transport.Relay? {
      assert r in kept;
    }
    DialableFacts(chosen);
    if chosen != [] {
      assert chosen[0] in kept;
      forall r | r in reports && About(normalize, id, r) ensures Score(r) <= Score(chosen[0]) {
        assert Beaten(kept, r);
        var k :| 0 <= k < |kept| && KeyOf(kept[k]) == KeyOf(r) && Score(kept[k]) >= Score(r);
        assert kept[k] in kept;
      }
    }
  }

  ghost predicate BestFor(normalize: Normalizer, identity: string, reports: seq<Report>, route: Resolved) {
    && route.fallback == Some(Endpoint(Relay, "wss://relay.example", None, Fallback, 1.0))
    && route.reachable == route.bestEndpoint.Some?
    && (route.bestEndpoint.None? <==> forall r :: r in reports ==> normalize(r.subject) != normalize(identity))
    && (route.bestEndpoint.Some? ==>
        exists r :: r in reports && normalize(r.subject) == normalize(identity) && EndpointOf(route.bestEndpoint.value, r)
          && forall q :: q in reports && normalize(q.subject) == normalize(identity) ==> AtLeast(r, q))
  }

  /// The two reports that are announced: of the highest scores, best first.
  lemma ChosenFacts(kept: seq<Report>)
    ensures var chosen := FirstTwo(Sort(kept, ByScore()));
            && (chosen == [] <==> kept == [])
            && (forall r :: r in chosen ==> r in kept)
            && (forall i, j :: 0 <= i < j < |chosen| ==> Score(chosen[i]) >= Score(chosen[j]))
            && (forall r :: r in kept && chosen != [] ==> Score(r) <= Score(chosen[0]))
  {
    var sorted := Sort(kept, ByScore());
    SortSorted(kept, ByScore());
    if kept != [] {
      SortMember(kept, ByScore(), kept[0]);
    }
    forall r ensures r in sorted <==> r in kept {
      SortMember(kept, ByScore(), r);
    }
    hide Sort;
    forall r | r in kept && sorted != [] ensures Score(r) <= Score(sorted[0]) {
      assert r in sorted;
      var i :| 0 <= i < |sorted| && sorted[i] == r;
      assert ByScore()(sorted[0]) <= ByScore()(sorted[i]);
    }
    forall i, j | 0 <= i < j < |sorted| ensures Score(sorted[i]) >= Score(sorted[j]) {
      assert ByScore()(sorted[i]) <= ByScore()(sorted[j]);
    }
  }

  /// Of announced endpoints in falling order of score the first is resolved, whatever clamping did.
  lemma DialableFacts(chosen: seq<Report>)
    requires forall r :: r in chosen ==> !r.transport.Relay?
    requires forall i, j :: 0 <= i < j < |chosen| ==> Score(chosen[i]) >= Score(chosen[j])
    ensures var endpoints := Map(chosen, ToEndpoint()) + [RELAY];
            && Head(Sort(Filter(endpoints, Dialable()), ByConfidence())) == Head(Map(chosen, ToEndpoint()))
            && Head(Filter(endpoints, Relaying())) == Some(RELAY)
  {
    hide Score, Sort, Filter;
    var direct := Map(chosen, ToEndpoint());
    forall e | e in direct ensures Dialable()(e) && !Relaying()(e) {
      var i :| 0 <= i < |direct| && direct[i] == e;
      assert chosen[i] in chosen;
    }
    FilterAll(direct, Dialable());
    FilterNone(direct, Relaying());
    FilterSnoc(direct, RELAY, Dialable());
    FilterSnoc(direct, RELAY, Relaying());
    SortIdentity(direct, ByConfidence());
  }
}

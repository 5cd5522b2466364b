/// A network of nodes exchanging deltas, with any interleaving, delay, repetition or loss of
/// messages, and local events in between (src/node/sync-manager.ts).
module DeltaNetwork {
  import opened Wrappers
  import opened Events
  import opened Sorting
  import opened SyncLog
  import opened DeltaSync

  datatype Request = Request(from: nat, to: nat, since: Option<int>)
  datatype Response = Response(to: nat, delta: Delta)

  /// Messages stay available once sent: a run delivers each of them never, once or many times.
  datatype Net = Net(logs: seq<seq<Event>>, requests: seq<Request>, responses: seq<Response>)

  datatype Step =
    | Local(node: nat, event: Event)
    | Ask(request: Request, logged: Event)
    | Answer(index: nat, logged: Event)
    | Deliver(index: nat)

  function Logged(net: Net, node: nat, e: Event): Net {
    if node < |net.logs| then net.(logs := net.logs[node := Record(net.logs[node], e)]) else net
  }

  function Take(net: Net, step: Step, readable: string -> bool): Net {
    match step
    case Local(node, e) => Logged(net, node, e)
    case Ask(r, e) => Logged(net, r.from, e).(requests := net.requests + [r])
    case Answer(i, e) =>
      if i < |net.requests| && net.requests[i].to < |net.logs| then
        var r := net.requests[i];
        Logged(net, r.to, e).(responses := net.responses + [Response(r.from, DeltaOf(net.logs[r.to], r.since))])
      else net
    case Deliver(i) =>
      if i < |net.responses| && net.responses[i].to < |net.logs| then
        var r := net.responses[i];
        net.(logs := net.logs[r.to := Merge(net.logs[r.to], r.delta, readable)])
      else net
  }

  function Run(net: Net, steps: seq<Step>, readable: string -> bool): Net {
    if steps == [] then net else Take(Run(net, steps[..|steps| - 1], readable), steps[|steps| - 1], readable)
  }

  /// Nodes and answers on a time-ordered chain of exchanges that starts at some node, every request
  /// on it reaching back to `bound` or further.
  datatype Front = Front(nodes: set<nat>, responses: set<nat>)

  function Advance(net: Net, front: Front, step: Step, bound: int): Front {
    match step
    case Answer(i, _) =>
      if i < |net.requests| && net.requests[i].to < |net.logs| && net.requests[i].to in front.nodes
        && (net.requests[i].since.None? || net.requests[i].since.value <= bound)
      then front.(responses := front.responses + {|net.responses|})
      else front
    case Deliver(i) =>
      if i in front.responses && i < |net.responses| && net.responses[i].to < |net.logs|
      then front.(nodes := front.nodes + {net.responses[i].to})
      else front
    case Local(_, _) => front
    case Ask(_, _) => front
  }

  function FrontAfter(net: Net, start: nat, steps: seq<Step>, bound: int, readable: string -> bool): Front {
    if steps == [] then Front({start}, {})
    else
      var before := steps[..|steps| - 1];
      Advance(Run(net, before, readable), FrontAfter(net, start, before, bound, readable), steps[|steps| - 1], bound)
  }

  // ---------- honest runs ----------

  /// Local events fit their ids and are stamped, as every handler that records one of the synced kinds
  /// makes sure; requests and answers are logged without an id and do not move.
  ghost predicate Honest(truth: string -> Event, step: Step, readable: string -> bool) {
    match step
    case Local(_, e) => Fits(truth, e, readable) && Stamped(e, readable)
    case Ask(_, e) => e.id.None? && e.kind == 20800
    case Answer(_, e) => e.id.None? && e.kind == 20801
    case Deliver(_) => true
  }

  ghost predicate GoodLog(truth: string -> Event, log: seq<Event>, readable: string -> bool) {
    UniqueKeys(log) && AllFit(truth, log, readable) && AllStamped(log, readable)
  }

  ghost predicate Good(truth: string -> Event, net: Net, readable: string -> bool) {
    && (forall v :: 0 <= v < |net.logs| ==> GoodLog(truth, net.logs[v], readable))
    && (forall j :: 0 <= j < |net.responses| ==>
          AllFit(truth, Incoming(net.responses[j].delta, readable), readable) && AllStamped(Incoming(net.responses[j].delta, readable), readable))
  }

  lemma LoggedGood(truth: string -> Event, net: Net, node: nat, e: Event, readable: string -> bool)
    requires Good(truth, net, readable) && Fits(truth, e, readable) && Stamped(e, readable)
    ensures Good(truth, Logged(net, node, e), readable)
    ensures forall v :: 0 <= v < |net.logs| ==> net.logs[v] <= Logged(net, node, e).logs[v]
  {
  }

  /// A step keeps the network good, and every log only grows at its end.
  lemma StepGood(truth: string -> Event, net: Net, step: Step, readable: string -> bool)
    requires Good(truth, net, readable) && Honest(truth, step, readable)
    ensures Good(truth, Take(net, step, readable), readable)
    ensures |Take(net, step, readable).logs| == |net.logs|
    ensures forall v :: 0 <= v < |net.logs| ==> net.logs[v] <= Take(net, step, readable).logs[v]
  {
    match step
    case Local(node, e) => LoggedGood(truth, net, node, e, readable);
    case Ask(r, e) => LoggedGood(truth, net, r.from, e, readable);
    case Answer(i, e) =>
      if i < |net.requests| && net.requests[i].to < |net.logs| {
        LoggedGood(truth, net, net.requests[i].to, e, readable);
        IncomingFits(truth, net.logs[net.requests[i].to], net.requests[i].since, readable);
        IncomingStamped(net.logs[net.requests[i].to], net.requests[i].since, readable);
      }
    case Deliver(i) =>
      if i < |net.responses| && net.responses[i].to < |net.logs| {
        var r := net.responses[i];
        MergeGrows(net.logs[r.to], r.delta, readable);
        MergeFits(truth, net.logs[r.to], r.delta, readable);
        MergeStamped(net.logs[r.to], r.delta, readable);
      }
  }

  /// In every run log entries never change, move or vanish.
  lemma {:induction false} RunGood(truth: string -> Event, net: Net, steps: seq<Step>, readable: string -> bool)
    requires Good(truth, net, readable) && forall s :: s in steps ==> Honest(truth, s, readable)
    ensures Good(truth, Run(net, steps, readable), readable)
    ensures |Run(net, steps, readable).logs| == |net.logs|
    ensures forall v :: 0 <= v < |net.logs| ==> net.logs[v] <= Run(net, steps, readable).logs[v]
  {
    if steps != [] {
      var front, last := steps[..|steps| - 1], steps[|steps| - 1];
      assert steps == front + [last];
      RunGood(truth, net, front, readable);
      StepGood(truth, Run(net, front, readable), last, readable);
    }
  }

  // ---------- spreading ----------

  /// The event is at every node of the front and in every answer of the front.
  ghost predicate Spread(net: Net, front: Front, e: Event, readable: string -> bool) {
    && (forall v :: v in front.nodes ==> v < |net.logs| && Holds(net.logs[v], e))
    && (forall j :: j in front.responses ==> j < |net.responses| && Identified(e) in Incoming(net.responses[j].delta, readable))
  }

  lemma HeldIsCarried(log: seq<Event>, e: Event, since: Option<int>, readable: string -> bool)
    requires Holds(log, e) && Movable(e, readable) && Recent(e, since)
    ensures Identified(e) in Incoming(DeltaOf(log, since), readable)
  {
    DeltaCarries(log, since, readable, Identified(e));
    assert Identified(Identified(e)) == Identified(e) && Movable(Identified(e), readable);
  }

  lemma StepSpreads(truth: string -> Event, net: Net, front: Front, step: Step, bound: int, e: Event, readable: string -> bool)
    requires Good(truth, net, readable) && Honest(truth, step, readable)
    requires Spread(net, front, e, readable) && Movable(e, readable) && e.createdAt >= bound
    ensures Spread(Take(net, step, readable), Advance(net, front, step, bound), e, readable)
  {
    var net' := Take(net, step, readable);
    var front' := Advance(net, front, step, bound);
    StepGood(truth, net, step, readable);
    forall v | v in front.nodes ensures v < |net'.logs| && Holds(net'.logs[v], e) {
      assert net.logs[v] <= net'.logs[v];
    }
    if step.Answer? && front'.responses != front.responses {
      var r := net.requests[step.index];
      HeldIsCarried(net.logs[r.to], e, r.since, readable);
    }
    if step.Deliver? && front'.nodes != front.nodes {
      var r := net.responses[step.index];
      MergeTakes(truth, net.logs[r.to], r.delta, readable, Identified(e));
    }
  }

  /// Spreading: after any honest run, every node that a time-ordered chain of exchanges joins to
  /// `start` holds every movable event, not older than the requests of the chain reach back, that
  /// `start` logged before the run.
  lemma {:induction false} ChainsSpread(truth: string -> Event, net: Net, start: nat, steps: seq<Step>, bound: int, e: Event, readable: string -> bool)
    requires Good(truth, net, readable) && start < |net.logs|
    requires forall s :: s in steps ==> Honest(truth, s, readable)
    requires e in net.logs[start] && Movable(e, readable) && e.createdAt >= bound
    ensures Spread(Run(net, steps, readable), FrontAfter(net, start, steps, bound, readable), e, readable)
  {
    if steps != [] {
      var front, last := steps[..|steps| - 1], steps[|steps| - 1];
      assert steps == front + [last];
      ChainsSpread(truth, net, start, front, bound, e, readable);
      RunGood(truth, net, front, readable);
      StepSpreads(truth, Run(net, front, readable), FrontAfter(net, start, front, bound, readable), last, bound, e, readable);
    }
  }

  /// One full exchange without anything in between.
  function Exchange(net: Net, v: nat, u: nat, since: Option<int>, asked: Event, answered: Event): seq<Step> {
    [Ask(Request(v, u, since), asked), Answer(|net.requests|, answered), Deliver(|net.responses|)]
  }

  /// One full exchange, request first, puts the requester on the responder's front.
  lemma ExchangeReaches(net: Net, v: nat, u: nat, since: Option<int>, asked: Event, answered: Event, bound: int, readable: string -> bool)
    requires v < |net.logs| && u < |net.logs| && (since.None? || since.value <= bound)
    ensures v in FrontAfter(net, u, Exchange(net, v, u, since, asked, answered), bound, readable).nodes
  {
    var a, b, c := Ask(Request(v, u, since), asked), Answer(|net.requests|, answered), Deliver(|net.responses|);
    assert [a, b, c][..2] == [a, b] && [a, b][..1] == [a] && [a][..0] == [];
    var n1 := Take(net, a, readable);
    var n2 := Take(n1, b, readable);
    assert Run(net, [], readable) == net;
    assert Run(net, [a], readable) == n1;
    assert Run(net, [a, b], readable) == n2;
    assert FrontAfter(net, u, [], bound, readable) == Front({u}, {});
    assert FrontAfter(net, u, [a], bound, readable) == Front({u}, {});
    assert FrontAfter(net, u, [a, b], bound, readable) == Front({u}, {|net.responses|});
  }

  // ---------- agreement ----------

  lemma RunThree(net: Net, a: Step, b: Step, c: Step, readable: string -> bool)
    ensures Run(net, [a, b, c], readable) == Take(Take(Take(net, a, readable), b, readable), c, readable)
  {
    assert [a, b, c][..2] == [a, b] && [a, b][..1] == [a] && [a][..0] == [];
    assert Run(net, [], readable) == net;
    assert Run(net, [a], readable) == Take(net, a, readable);
    assert Run(net, [a, b], readable) == Take(Take(net, a, readable), b, readable);
  }

  lemma RecordUnsynced(log: seq<Event>, e: Event, since: Option<int>)
    requires !Synced(e.kind)
    ensures SyncedSet(Record(log, e), since) == SyncedSet(log, since)
  {
  }

  /// It makes the requester's synced events the union of both sides'.
  lemma ExchangeIsUnion(truth: string -> Event, net: Net, v: nat, u: nat, since: Option<int>, asked: Event, answered: Event, readable: string -> bool)
    requires Good(truth, net, readable) && v < |net.logs| && u < |net.logs| && v != u
    requires Honest(truth, Ask(Request(v, u, since), asked), readable) && Honest(truth, Answer(0, answered), readable)
    ensures var net' := Run(net, Exchange(net, v, u, since, asked, answered), readable);
            && Good(truth, net', readable) && |net'.logs| == |net.logs|
            && SyncedSet(net'.logs[v], since) == SyncedSet(net.logs[v], since) + SyncedSet(net.logs[u], since)
            && SyncedSet(net'.logs[u], since) == SyncedSet(net.logs[u], since)
  {
    hide Good, SyncedSet, DeltaOf, Record, GoodLog;
    var a, b, c := Ask(Request(v, u, since), asked), Answer(|net.requests|, answered), Deliver(|net.responses|);
    RunThree(net, a, b, c, readable);
    var n1 := Take(net, a, readable);
    var n2 := Take(n1, b, readable);
    StepGood(truth, net, a, readable);
    StepGood(truth, n1, b, readable);
    StepGood(truth, n2, c, readable);
    RecordUnsynced(net.logs[v], asked, since);
    RecordUnsynced(net.logs[u], answered, since);
    GoodHas(truth, n2, v, readable);
    GoodHas(truth, net, u, readable);
    MergeIsUnion(truth, n2.logs[v], net.logs[u], since, readable);
  }

  lemma GoodHas(truth: string -> Event, net: Net, v: nat, readable: string -> bool)
    requires Good(truth, net, readable) && v < |net.logs|
    ensures UniqueKeys(net.logs[v]) && AllFit(truth, net.logs[v], readable) && AllStamped(net.logs[v], readable)
  {
  }

  /// Agreement: after any honest run, an exchange in each direction leaves two nodes with the same
  /// announcements, replicas, routes and reputation deltas from `since` on.
  lemma TwoWayExchangeAgrees(truth: string -> Event, net: Net, steps: seq<Step>, v: nat, u: nat, since: Option<int>,
                             asked: Event, answered: Event, asked': Event, answered': Event, readable: string -> bool)
    requires Good(truth, net, readable) && forall s :: s in steps ==> Honest(truth, s, readable)
    requires v < |net.logs| && u < |net.logs| && v != u
    requires Honest(truth, Ask(Request(v, u, since), asked), readable) && Honest(truth, Answer(0, answered), readable)
    requires Honest(truth, Ask(Request(u, v, since), asked'), readable) && Honest(truth, Answer(0, answered'), readable)
    ensures var n0 := Run(net, steps, readable);
            var n1 := Run(n0, Exchange(n0, v, u, since, asked, answered), readable);
            var n2 := Run(n1, Exchange(n1, u, v, since, asked', answered'), readable);
            && |n2.logs| == |n0.logs| == |net.logs|
            && SyncedSet(n2.logs[v], since) == SyncedSet(n2.logs[u], since)
            && SyncedSet(n2.logs[u], since) == SyncedSet(n0.logs[v], since) + SyncedSet(n0.logs[u], since)
  {
    hide Good, SyncedSet, Run, Exchange;
    RunGood(truth, net, steps, readable);
    var n0 := Run(net, steps, readable);
    ExchangeIsUnion(truth, n0, v, u, since, asked, answered, readable);
    var n1 := Run(n0, Exchange(n0, v, u, since, asked, answered), readable);
    ExchangeIsUnion(truth, n1, u, v, since, asked', answered', readable);
  }
}

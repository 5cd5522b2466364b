/// What every run of the gossip simulation keeps: forward-once, the bandwidth bound, delivery
/// soundness, and catch-up of returning nodes.
module GossipLaws {
  import opened Wrappers
  import Propagation
  import Text
  import opened GossipModel

  // ---------- a run is a sequence of steps ----------

  ghost predicate Runs(w: World, s: SimState, ops: seq<Op>, t: SimState)
    decreases |ops|
  {
    if ops == [] then s == t
    else Enabled(w, s, ops[0]) && Runs(w, Apply(w, s, ops[0]), ops[1..], t)
  }

  lemma {:induction false} RunsConcat(w: World, s: SimState, a: seq<Op>, t: SimState, b: seq<Op>, u: SimState)
    requires Runs(w, s, a, t) && Runs(w, t, b, u)
    ensures Runs(w, s, a + b, u)
    decreases |a|
  {
    if a == [] {
      assert a + b == b;
    } else {
      RunsConcat(w, Apply(w, s, a[0]), a[1..], t, b, u);
      assert (a + b)[1..] == a[1..] + b;
    }
  }

  lemma RunsThen(w: World, s: SimState, a: seq<Op>, t: SimState, op: Op)
    requires Runs(w, s, a, t) && Enabled(w, t, op)
    ensures Runs(w, s, a + [op], Apply(w, t, op))
  {
    assert Runs(w, Apply(w, t, op), [op][1..], Apply(w, t, op));
    RunsConcat(w, s, a, t, [op], Apply(w, t, op));
  }

  predicate ActsOn(v: nat, op: Op) {
    op.node == v && !op.TakeOffline? && !op.BringOnline?
  }

  lemma {:induction false} ProcessAllOps(w: World, s: SimState, round: int) returns (ops: seq<Op>)
    requires s.actor < |s.nodes| == |w.ids|
    ensures Runs(w, s, ops, ProcessAll(w, s, round))
    ensures forall op :: op in ops ==> ActsOn(s.actor, op)
    decreases |s.batch|
  {
    ops := [];
    if s.batch != [] {
      var op := Process(s.actor, round);
      var rest := ProcessAllOps(w, Apply(w, s, op), round);
      ops := [op] + rest;
      assert ops[1..] == rest;
    }
  }

  lemma {:induction false} ForwardAllOps(w: World, s: SimState) returns (ops: seq<Op>)
    requires s.actor < |s.nodes| == |w.ids|
    ensures Runs(w, s, ops, ForwardAll(w, s))
    ensures forall op :: op in ops ==> ActsOn(s.actor, op)
    decreases |s.hits|
  {
    ops := [];
    if s.hits != [] {
      var op := ForwardHit(s.actor);
      var rest := ForwardAllOps(w, Apply(w, s, op));
      ops := [op] + rest;
      assert ops[1..] == rest;
    }
  }

  lemma StepNodeOps(w: World, s: SimState, v: nat, round: int) returns (ops: seq<Op>)
    requires v < |s.nodes| == |w.ids| && Idle(s)
    ensures Runs(w, s, ops, StepNode(w, s, v, round))
    ensures forall op :: op in ops ==> ActsOn(v, op)
  {
    ops := [];
    if s.nodes[v].online {
      RunsThen(w, s, [], s, Drain(v));
      var drained := Apply(w, s, Drain(v));
      var first := ProcessAllOps(w, drained, round);
      var done := ProcessAll(w, drained, round);
      RunsConcat(w, s, [] + [Drain(v)], drained, first, done);
      RunsThen(w, s, [] + [Drain(v)] + first, done, TickNode(v, round));
      var ticked := Apply(w, done, TickNode(v, round));
      var last := ForwardAllOps(w, ticked);
      ops := [] + [Drain(v)] + first + [TickNode(v, round)] + last;
      RunsConcat(w, s, [] + [Drain(v)] + first + [TickNode(v, round)], ticked, last, ForwardAll(w, ticked));
    }
  }

  lemma {:induction false} StepNodesOps(w: World, s: SimState, count: nat, round: int) returns (ops: seq<Op>)
    requires count <= |s.nodes| == |w.ids| && Idle(s)
    ensures Runs(w, s, ops, StepNodes(w, s, count, round))
    ensures forall op :: op in ops ==> op.node < count && ActsOn(op.node, op)
  {
    hide StepNode, Enabled;
    ops := [];
    if count > 0 {
      var mid := StepNodes(w, s, count - 1, round);
      var done := StepNode(w, mid, count - 1, round);
      assert StepNodes(w, s, count, round) == done;
      var front := StepNodesOps(w, s, count - 1, round);
      var more := StepNodeOps(w, mid, count - 1, round);
      RunsConcat(w, s, front, mid, more, done);
      ops := front + more;
    }
  }

  lemma {:induction false} OfflineOps(w: World, s: SimState, ids: seq<string>, round: int) returns (ops: seq<Op>)
    requires |s.nodes| == |w.ids|
    ensures Runs(w, s, ops, OfflineAll(w, s, ids, round))
    ensures forall op :: op in ops ==> op.TakeOffline?
  {
    ops := [];
    if ids != [] {
      var front, id := ids[..|ids| - 1], ids[|ids| - 1];
      ops := OfflineOps(w, s, front, round);
      match First(w.ids, id)
      case None =>
      case Some(v) =>
        RunsThen(w, s, ops, OfflineAll(w, s, front, round), TakeOffline(v, round));
        ops := ops + [TakeOffline(v, round)];
    }
  }

  lemma {:induction false} OnlineOps(w: World, s: SimState, ids: seq<string>, round: int) returns (ops: seq<Op>)
    requires |s.nodes| == |w.ids|
    ensures Runs(w, s, ops, OnlineAll(w, s, ids, round))
    ensures forall op :: op in ops ==> op.BringOnline? && op.node < |w.ids| && w.ids[op.node] in ids
  {
    ops := [];
    if ids != [] {
      var front, id := ids[..|ids| - 1], ids[|ids| - 1];
      ops := OnlineOps(w, s, front, round);
      assert forall x :: x in front ==> x in ids;
      match First(w.ids, id)
      case None =>
      case Some(v) =>
        RunsThen(w, s, ops, OnlineAll(w, s, front, round), BringOnline(v, round));
        ops := ops + [BringOnline(v, round)];
    }
  }

  lemma SwitchOps(w: World, s: SimState, round: int) returns (ops: seq<Op>)
    requires |s.nodes| == |w.ids|
    ensures Runs(w, s, ops, Switch(w, s, round))
  {
    var off := OfflineOps(w, s, Lookup(w.offline, round), round);
    var mid := OfflineAll(w, s, Lookup(w.offline, round), round);
    var on := OnlineOps(w, mid, Lookup(w.online, round), round);
    RunsConcat(w, s, off, mid, on, Switch(w, s, round));
    ops := off + on;
  }

  function Middle(w: World, s: SimState, round: int): SimState
    requires |s.nodes| == |w.ids| && Idle(s)
  {
    StepNodes(w, Switch(w, StartTick(s), round), |s.nodes|, round)
  }

  /// Between `startTick` and `endTick` a round is a sequence of steps.
  lemma RoundOps(w: World, s: SimState, round: int) returns (ops: seq<Op>)
    requires |s.nodes| == |w.ids| && Idle(s)
    ensures Runs(w, StartTick(s), ops, Middle(w, s, round))
    ensures Round(w, s, round) == EndTick(Middle(w, s, round), round)
  {
    var a := SwitchOps(w, StartTick(s), round);
    var b := StepNodesOps(w, Switch(w, StartTick(s), round), |s.nodes|, round);
    RunsConcat(w, StartTick(s), a, Switch(w, StartTick(s), round), b, Middle(w, s, round));
    ops := a + b;
  }

  // ---------- what enqueueing changes ----------

  /// `n'` is `n` with messages appended to its queue, each of them accepted by `ok`.
  ghost predicate Grew(n: NodeState, n': NodeState, ok: Raw -> bool) {
    && n' == n.(queue := n'.queue)
    && n.queue <= n'.queue
    && forall x :: x in n'.queue ==> x in n.queue || ok(x)
  }

  lemma {:induction false} SendAllGrows(nodes: seq<NodeState>, targets: seq<nat>, raw: Raw, j: nat)
    requires forall i :: 0 <= i < |targets| ==> targets[i] < |nodes|
    requires j < |nodes|
    ensures Grew(nodes[j], SendAll(nodes, targets, raw)[j], (x: Raw) => x == raw)
    ensures j !in targets ==> SendAll(nodes, targets, raw)[j] == nodes[j]
  {
    if targets != [] {
      var front := targets[..|targets| - 1];
      SendAllGrows(nodes, front, raw, j);
      assert targets == front + [targets[|targets| - 1]];
    }
  }

  lemma {:induction false} ReplayGrows(n: NodeState, history: seq<(string, Announcement)>)
    ensures Grew(n, Replay(n, history), (x: Raw) => exists h :: h in history && x == Envelope(h.1.pubkey, Announce(h.1)))
    ensures n.inboxOnline ==> forall h :: h in history ==> Envelope(h.1.pubkey, Announce(h.1)) in Replay(n, history).queue
  {
    if history != [] {
      var front, h := history[..|history| - 1], history[|history| - 1];
      ReplayGrows(n, front);
      assert history == front + [h];
      var r := Replay(n, history);
      forall x | x in r.queue && x !in n.queue
        ensures exists g :: g in history && x == Envelope(g.1.pubkey, Announce(g.1))
      {
        if x in Replay(n, front).queue {
          var g :| g in front && x == Envelope(g.1.pubkey, Announce(g.1));
          assert g in history;
        } else {
          assert h in history && x == Envelope(h.1.pubkey, Announce(h.1));
        }
      }
    }
  }

  // ---------- where announcements come from ----------

  /// Every node on the path but the last is trusted to forward: its reputation entry for the
  /// publisher is not below -0.5, and the next node is among its neighbours.
  ghost predicate TrustedPath(w: World, a: Announcement, path: seq<nat>) {
    && path != []
    && forall i :: 0 <= i < |path| - 1 ==> path[i + 1] in Neighbours(w, path[i]) && w.rep(path[i], a.pubkey) >= -0.5
  }

  ghost predicate Came(w: World, origin: iset<(nat, Announcement)>, a: Announcement, v: nat) {
    exists path :: TrustedPath(w, a, path) && path[|path| - 1] == v && (path[0], a) in origin
  }

  ghost predicate RawCame(w: World, origin: iset<(nat, Announcement)>, raw: Raw, v: nat) {
    raw.message.Announce? ==> Came(w, origin, raw.message.ann, v)
  }

  ghost predicate Earned(w: World, origin: iset<(nat, Announcement)>, qkey: string, id: string) {
    exists v: nat, a: Announcement :: v < |w.ids| && w.ids[v] == id && a.qkey == Some(qkey) && w.rep(v, a.pubkey) >= -0.5 && Came(w, origin, a, v)
  }

  ghost predicate GoodForward(w: World, origin: iset<(nat, Announcement)>, f: Forward) {
    && Complete(f.ann) && f.key == Key(f.ann) && w.rep(f.node, f.ann.pubkey) >= -0.5 && Came(w, origin, f.ann, f.node)
    && |f.targets| <= |Neighbours(w, f.node)|
    && forall j :: j in f.targets ==> j in Neighbours(w, f.node)
  }

  ghost predicate GoodNode(w: World, origin: iset<(nat, Announcement)>, n: NodeState, v: nat) {
    && (forall raw :: raw in n.queue ==> RawCame(w, origin, raw, v))
    && (forall k :: k in n.stored ==> Complete(n.stored[k]) && Key(n.stored[k]) == k && Came(w, origin, n.stored[k], v))
  }

  ghost predicate Provenance(w: World, origin: iset<(nat, Announcement)>, s: SimState) {
    && (forall v :: 0 <= v < |s.nodes| ==> GoodNode(w, origin, s.nodes[v], v))
    && (forall raw :: raw in s.batch ==> RawCame(w, origin, raw, s.actor))
    && (forall q, id :: q in s.delivered && id in s.delivered[q] ==> Earned(w, origin, q, id))
    && (forall f :: f in s.forwards ==> GoodForward(w, origin, f))
  }

  lemma CameFurther(w: World, origin: iset<(nat, Announcement)>, a: Announcement, v: nat, j: nat)
    requires Came(w, origin, a, v) && w.rep(v, a.pubkey) >= -0.5 && j in Neighbours(w, v)
    ensures Came(w, origin, a, j)
  {
    var path :| TrustedPath(w, a, path) && path[|path| - 1] == v && (path[0], a) in origin;
    assert TrustedPath(w, a, path + [j]);
  }

  /// What one forwarding does to every node: the others only gain the message, and only if they
  /// are targets.
  lemma ForwardFrame(w: World, s: SimState, v: nat, id: string, j: nat)
    requires v < |s.nodes| == |w.ids| && j < |s.nodes|
    requires id in s.nodes[v].stored && Complete(s.nodes[v].stored[id]) && w.rep(v, s.nodes[v].stored[id].pubkey) >= -0.5
    ensures var a := s.nodes[v].stored[id];
            var targets := Targets(w, s.nodes, v, Neighbours(w, v));
            var t := ForwardNote(w, s, v, id);
            && v !in targets
            && (j != v ==> Grew(s.nodes[j], t.nodes[j], (x: Raw) => x == Envelope(w.ids[v], Announce(a))))
            && (j != v && j !in targets ==> t.nodes[j] == s.nodes[j])
            && (j == v ==> t.nodes[j] == s.nodes[j].(sent := s.nodes[j].sent + |targets|, stored := s.nodes[j].stored - {id}))
  {
    var a := s.nodes[v].stored[id];
    var targets := Targets(w, s.nodes, v, Neighbours(w, v));
    SendAllGrows(s.nodes, targets, Envelope(w.ids[v], Announce(a)), j);
    SendAllGrows(s.nodes, targets, Envelope(w.ids[v], Announce(a)), v);
  }

  lemma ForwardKeepsProvenance(w: World, origin: iset<(nat, Announcement)>, s: SimState, v: nat, id: string)
    requires v < |s.nodes| == |w.ids| && Provenance(w, origin, s)
    ensures Provenance(w, origin, ForwardNote(w, s, v, id))
  {
    var t := ForwardNote(w, s, v, id);
    if id in s.nodes[v].stored && Complete(s.nodes[v].stored[id]) && Trusts(w, v, s.nodes[v].stored[id]) {
      var a := s.nodes[v].stored[id];
      var targets := Targets(w, s.nodes, v, Neighbours(w, v));
      forall j | 0 <= j < |t.nodes| ensures GoodNode(w, origin, t.nodes[j], j) {
        ForwardFrame(w, s, v, id, j);
        assert GoodNode(w, origin, s.nodes[j], j);
        if j != v && j in targets {
          CameFurther(w, origin, a, v, j);
        }
      }
      assert GoodForward(w, origin, Forward(v, id, a, targets));
    }
  }

  lemma ProcessKeepsProvenance(w: World, origin: iset<(nat, Announcement)>, s: SimState, v: nat, raw: Raw, round: int)
    requires v < |s.nodes| == |w.ids| && Provenance(w, origin, s) && RawCame(w, origin, raw, v)
    ensures Provenance(w, origin, ProcessMessage(w, s, v, raw, round))
  {
  }

  lemma StepKeepsProvenance(w: World, origin: iset<(nat, Announcement)>, s: SimState, op: Op)
    requires Enabled(w, s, op) && Provenance(w, origin, s)
    requires op.BringOnline? && s.nodes[op.node].offlineSince.Some? ==> forall h :: h in s.history ==> (op.node, h.1) in origin
    ensures Provenance(w, origin, Apply(w, s, op))
  {
    var v, t := op.node, Apply(w, s, op);
    match op
    case Process(_, round) =>
      assert s.batch[0] in s.batch;
      assert forall raw :: raw in s.batch[1..] ==> raw in s.batch;
      ProcessKeepsProvenance(w, origin, s.(batch := s.batch[1..]), v, s.batch[0], round);
    case ForwardHit(_) =>
      ForwardKeepsProvenance(w, origin, s.(hits := s.hits[1..]), v, s.hits[0].id);
    case BringOnline(_, round) =>
      ReplayGrows(SetOnline(s.nodes[v], true, round), s.history);
      assert GoodNode(w, origin, s.nodes[v], v);
      forall raw | raw in t.nodes[v].queue ensures RawCame(w, origin, raw, v) {
        if raw !in s.nodes[v].queue {
          var h :| h in s.history && raw == Envelope(h.1.pubkey, Announce(h.1));
          assert TrustedPath(w, h.1, [v]);
        }
      }
      KeepOthers(w, origin, s, t, v);
    case TakeOffline(_, _) => KeepOthers(w, origin, s, t, v);
    case Drain(_) =>
      assert GoodNode(w, origin, s.nodes[v], v);
      KeepOthers(w, origin, s, t, v);
    case TickNode(_, _) => KeepOthers(w, origin, s, t, v);
  }

  lemma KeepOthers(w: World, origin: iset<(nat, Announcement)>, s: SimState, t: SimState, v: nat)
    requires v < |s.nodes| == |t.nodes| && Provenance(w, origin, s)
    requires forall j :: 0 <= j < |s.nodes| && j != v ==> t.nodes[j] == s.nodes[j]
    requires t.nodes[v].stored == s.nodes[v].stored
    requires forall raw :: raw in t.nodes[v].queue ==> raw in s.nodes[v].queue || RawCame(w, origin, raw, v)
    requires t.delivered == s.delivered && t.forwards == s.forwards
    requires forall raw :: raw in t.batch ==> RawCame(w, origin, raw, t.actor)
    ensures Provenance(w, origin, t)
  {
  }

  lemma {:induction false} StepsKeepProvenance(w: World, origin: iset<(nat, Announcement)>, s: SimState, ops: seq<Op>, t: SimState)
    requires Runs(w, s, ops, t) && Provenance(w, origin, s)
    requires forall op :: op in ops ==> !op.BringOnline?
    ensures Provenance(w, origin, t) && t.history == s.history
    decreases |ops|
  {
    if ops != [] {
      assert ops[0] in ops;
      StepKeepsProvenance(w, origin, s, ops[0]);
      StepsKeepProvenance(w, origin, Apply(w, s, ops[0]), ops[1..], t);
    }
  }

  /// Bringing nodes online replays the history only to nodes that were down.
  lemma {:induction false} OnlineKeepsProvenance(w: World, origin: iset<(nat, Announcement)>, s: SimState, ids: seq<string>, round: int)
    requires |s.nodes| == |w.ids| && Provenance(w, origin, s)
    requires forall v: nat, h :: v < |s.nodes| && s.nodes[v].offlineSince.Some? && Named(w, ids, v) && h in s.history ==> (v, h.1) in origin
    ensures var t := OnlineAll(w, s, ids, round);
            && Provenance(w, origin, t) && t.history == s.history
            && forall v :: 0 <= v < |s.nodes| && t.nodes[v].offlineSince.Some? ==> s.nodes[v].offlineSince.Some?
  {
    if ids != [] {
      var front, id := ids[..|ids| - 1], ids[|ids| - 1];
      assert ids == front + [id];
      assert forall v: nat :: Named(w, front, v) ==> Named(w, ids, v);
      OnlineKeepsProvenance(w, origin, s, front, round);
      hide Provenance;
      match First(w.ids, id)
      case None =>
      case Some(v) =>
        assert Named(w, ids, v);
        StepKeepsProvenance(w, origin, OnlineAll(w, s, front, round), BringOnline(v, round));
    }
  }

  /// `v` is the node that one of the ids names.
  ghost predicate Named(w: World, ids: seq<string>, v: nat) {
    exists id :: id in ids && First(w.ids, id) == Some(v)
  }

  /// Who may have brought an announcement in during the first `rounds` rounds: a node that found it
  /// in its inbox at the start, or one that came back from an outage, which is sent the history.
  ghost function Origins(w: World, s: SimState, rounds: nat): iset<(nat, Announcement)>
    requires |s.nodes| == |w.ids| && Idle(s)
  {
    iset v: nat, a: Announcement |
      && v < |s.nodes|
      && ((exists raw :: raw in s.nodes[v].queue && raw.message == Announce(a))
          || (Returned(w, s, v, rounds) && exists h :: h in s.history && h.1 == a))
      :: (v, a)
  }

  ghost predicate Returned(w: World, s: SimState, v: nat, rounds: nat)
    requires v < |s.nodes| == |w.ids| && Idle(s)
  {
    exists r: nat :: r < rounds && ComesBack(w, Run(w, s, r), r + 1, v)
  }

  /// A freshly built simulation: only inboxes and history may hold anything.
  ghost predicate Fresh(w: World, s: SimState) {
    && |s.nodes| == |w.ids| && Idle(s)
    && s.delivered == map[] && s.current.None? && s.ticks == map[] && s.forwards == []
    && forall v :: 0 <= v < |s.nodes| ==>
         s.nodes[v] == NodeState(true, None, s.nodes[v].queue, true, map[], Propagation.State([], map[]), 0, 0)
  }

  lemma FreshHasProvenance(w: World, s: SimState, rounds: nat)
    requires Fresh(w, s)
    ensures Provenance(w, Origins(w, s, rounds), s)
  {
    var origin := Origins(w, s, rounds);
    forall v | 0 <= v < |s.nodes| ensures GoodNode(w, origin, s.nodes[v], v) {
      forall raw | raw in s.nodes[v].queue ensures RawCame(w, origin, raw, v) {
        if raw.message.Announce? {
          assert (v, raw.message.ann) in origin;
          assert TrustedPath(w, raw.message.ann, [v]);
        }
      }
    }
  }

  lemma TicksKeepProvenance(w: World, origin: iset<(nat, Announcement)>, s: SimState, mid: SimState, k: nat)
    ensures Provenance(w, origin, s) ==> Provenance(w, origin, StartTick(s))
    ensures Provenance(w, origin, mid) ==> Provenance(w, origin, EndTick(mid, k))
  {
    hide GoodNode, RawCame, Earned, GoodForward;
  }

  lemma RoundKeepsProvenance(w: World, origin: iset<(nat, Announcement)>, s: SimState, k: nat)
    requires |s.nodes| == |w.ids| && Idle(s) && Provenance(w, origin, s) && Ledger(s) && Linked(w, s)
    requires forall v: nat, h :: v < |w.ids| && ComesBack(w, s, k, v) && h in s.history ==> (v, h.1) in origin
    ensures Provenance(w, origin, Round(w, s, k)) && Round(w, s, k).history == s.history
  {
    TicksKeepProvenance(w, origin, s, Middle(w, s, k), k);
    hide Provenance, Ledger, OfflineAll, OnlineAll, StepNodes, LinkedNode;
    var down := DownInRound(w, s, k);
    var takeDown := OfflineOps(w, StartTick(s), Lookup(w.offline, k), k);
    StepsKeepProvenance(w, origin, StartTick(s), takeDown, down);
    forall v: nat, h | v < |down.nodes| && down.nodes[v].offlineSince.Some? && Named(w, Lookup(w.online, k), v) && h in down.history
      ensures (v, h.1) in origin
    {
      assert ComesBack(w, s, k, v);
    }
    OnlineKeepsProvenance(w, origin, down, Lookup(w.online, k), k);
    var up := Switch(w, StartTick(s), k);
    var steps := StepNodesOps(w, up, |s.nodes|, k);
    StepsKeepProvenance(w, origin, up, steps, Middle(w, s, k));
  }

  /// The state of round `k` once its nodes have gone offline: exactly the nodes with an outage time are down.
  lemma DownInRound(w: World, s: SimState, k: nat) returns (down: SimState)
    requires |s.nodes| == |w.ids| && Idle(s) && Ledger(s) && Linked(w, s)
    ensures down == OfflineAll(w, StartTick(s), Lookup(w.offline, k), k) && down.history == s.history
    ensures |down.nodes| == |s.nodes| && forall v :: 0 <= v < |down.nodes| ==> (down.nodes[v].offlineSince.Some? <==> !down.nodes[v].online)
  {
    hide Ledger, OfflineAll;
    down := OfflineAll(w, StartTick(s), Lookup(w.offline, k), k);
    var ops := OfflineOps(w, StartTick(s), Lookup(w.offline, k), k);
    TicksKeepLinks(w, s, k);
    StepsKeepLinks(w, StartTick(s), ops, down);
    HistoryFixed(w, StartTick(s), ops, down);
    assert forall v :: 0 <= v < |down.nodes| ==> LinkedNode(w, down.nodes[v], v);
  }

  lemma {:induction false} RunKeepsProvenance(w: World, s: SimState, rounds: nat, k: nat)
    requires Fresh(w, s) && k <= rounds
    ensures Provenance(w, Origins(w, s, rounds), Run(w, s, k)) && Run(w, s, k).history == s.history
    decreases k
  {
    hide Provenance, Round, Ledger, Linked, ComesBack;
    var origin := Origins(w, s, rounds);
    if k == 0 {
      FreshHasProvenance(w, s, rounds);
    } else {
      RunKeepsProvenance(w, s, rounds, k - 1);
      FreshIsLinked(w, s);
      RunKeepsLinks(w, s, k - 1);
      forall v: nat, h | v < |w.ids| && ComesBack(w, Run(w, s, k - 1), k, v) && h in s.history
        ensures (v, h.1) in origin
      {
        assert Returned(w, s, v, rounds);
      }
      RoundKeepsProvenance(w, origin, Run(w, s, k - 1), k);
    }
  }

  /// Delivery soundness: a node is recorded as delivered for a qkey only if an announcement with
  /// that qkey came to it, over a path of the graph whose nodes all tolerate the publisher, from a
  /// node that had it in its inbox at the start or was caught up on return from an outage; and every forwarding was
  /// made by such a node to its neighbours only.
  lemma DeliverySound(w: World, s: SimState, rounds: nat)
    requires Fresh(w, s)
    ensures var t := Run(w, s, rounds);
            && (forall q, id :: q in t.delivered && id in t.delivered[q] ==> Earned(w, Origins(w, s, rounds), q, id))
            && (forall f :: f in t.forwards ==> GoodForward(w, Origins(w, s, rounds), f))
  {
    RunKeepsProvenance(w, s, rounds, rounds);
  }

  // ---------- the ledger of forwardings ----------

  ghost function SentBy(forwards: seq<Forward>, v: nat): nat {
    if forwards == [] then 0
    else
      var f := forwards[|forwards| - 1];
      SentBy(forwards[..|forwards| - 1], v) + if f.node == v then |f.targets| else 0
  }

  ghost function SentTotal(forwards: seq<Forward>): nat {
    if forwards == [] then 0
    else SentTotal(forwards[..|forwards| - 1]) + |forwards[|forwards| - 1].targets|
  }

  ghost predicate OncePerKey(forwards: seq<Forward>) {
    forall i, j :: 0 <= i < j < |forwards| ==>
      !(forwards[i].node == forwards[j].node && forwards[i].key == forwards[j].key)
  }

  ghost predicate Unforwarded(forwards: seq<Forward>, v: nat, key: string) {
    forall f :: f in forwards ==> !(f.node == v && f.key == key)
  }

  /// A node forwards a key only after marking it fetched, and pending hits are fetched keys it has
  /// not forwarded yet; `sent` counters agree with the forwardings.
  ghost predicate Ledger(s: SimState) {
    && (forall v :: 0 <= v < |s.nodes| ==> Propagation.Ok(s.nodes[v].prop) && s.nodes[v].sent == SentBy(s.forwards, v))
    && OncePerKey(s.forwards)
    && (forall f :: f in s.forwards ==> f.node < |s.nodes| && f.key in s.nodes[f.node].prop.fetched)
    && (s.hits != [] ==> s.actor < |s.nodes| && Propagation.DistinctIds(s.hits))
    && (forall h :: h in s.hits && s.actor < |s.nodes| ==>
          h.id in s.nodes[s.actor].prop.fetched && Unforwarded(s.forwards, s.actor, h.id))
  }

  /// The ledger after one more forwarding, of a key fetched but not yet forwarded.
  lemma LedgerGrows(s: SimState, t: SimState, f: Forward)
    requires Ledger(s) && |t.nodes| == |s.nodes| && t.forwards == s.forwards + [f]
    requires f.node < |s.nodes| && f.key in s.nodes[f.node].prop.fetched && Unforwarded(s.forwards, f.node, f.key)
    requires forall j :: 0 <= j < |s.nodes| ==> t.nodes[j].prop == s.nodes[j].prop
    requires forall j :: 0 <= j < |s.nodes| ==> t.nodes[j].sent == s.nodes[j].sent + if j == f.node then |f.targets| else 0
    requires t.hits == s.hits && t.actor == s.actor == f.node
    requires forall h :: h in s.hits ==> h.id != f.key
    ensures Ledger(t)
  {
  }

  lemma ForwardKeepsLedger(w: World, s: SimState)
    requires s.hits != [] && s.actor < |s.nodes| == |w.ids| && Ledger(s)
    ensures Ledger(Apply(w, s, ForwardHit(s.actor)))
  {
    var v, id := s.actor, s.hits[0].id;
    var s0 := s.(hits := s.hits[1..]);
    assert s.hits[0] in s.hits;
    assert forall h :: h in s0.hits ==> h in s.hits && h.id != id;
    assert Ledger(s0) && Unforwarded(s0.forwards, v, id);
    hide Ledger, Complete, Targets, Neighbours, Spread, Unforwarded;
    if id in s.nodes[v].stored && Complete(s.nodes[v].stored[id]) && Trusts(w, v, s.nodes[v].stored[id]) {
      ForwardEntersLedger(w, s0, id);
    }
  }

  lemma ForwardEntersLedger(w: World, s: SimState, id: string)
    requires s.actor < |s.nodes| == |w.ids| && Ledger(s) && Unforwarded(s.forwards, s.actor, id)
    requires id in s.nodes[s.actor].prop.fetched && forall h :: h in s.hits ==> h.id != id
    requires id in s.nodes[s.actor].stored && Complete(s.nodes[s.actor].stored[id]) && w.rep(s.actor, s.nodes[s.actor].stored[id].pubkey) >= -0.5
    ensures Ledger(ForwardNote(w, s, s.actor, id))
  {
    hide Ledger, Complete, Targets, Neighbours, Spread, Unforwarded;
    var v, t := s.actor, ForwardNote(w, s, s.actor, id);
    forall j | 0 <= j < |t.nodes|
      ensures t.nodes[j].prop == s.nodes[j].prop
      ensures t.nodes[j].sent == s.nodes[j].sent + if j == v then |Targets(w, s.nodes, v, Neighbours(w, v))| else 0
    {
      ForwardFrame(w, s, v, id, j);
    }
    LedgerGrows(s, t, t.forwards[|s.forwards|]);
  }

  lemma TickKeepsLedger(w: World, s: SimState, round: int)
    requires Idle(s) && s.actor < |s.nodes| == |w.ids| && Ledger(s)
    ensures Ledger(Apply(w, s, TickNode(s.actor, round)))
  {
    var v := s.actor;
    Propagation.TickExact(w.policy(v), s.nodes[v].prop, round, w.gamma);
    var t := Apply(w, s, TickNode(v, round));
    forall h | h in t.hits ensures Unforwarded(s.forwards, v, h.id) && h.id in t.nodes[v].prop.fetched {
      assert h.id !in s.nodes[v].prop.fetched;
    }
  }

  lemma ProcessKeepsLedger(w: World, s: SimState, v: nat, raw: Raw, round: int)
    requires v < |s.nodes| == |w.ids| && Ledger(s)
    ensures Ledger(ProcessMessage(w, s, v, raw, round))
  {
    if raw.message.Announce? {
      var a := raw.message.ann;
      Propagation.AddExact(w.policy(v), s.nodes[v].prop, Key(a),
        if raw.Envelope? then raw.from else w.ids[v], a.pubkey, round);
    }
  }

  lemma SwitchFrame(n: NodeState, online: bool, round: int, history: seq<(string, Announcement)>)
    ensures var t := SetOnline(n, online, round); t.prop == n.prop && t.sent == n.sent && t.stored == n.stored && t.queue == n.queue
    ensures var t := CatchUp(n, history); t.prop == n.prop && t.sent == n.sent && t.stored == n.stored && t.online == n.online && t.inboxOnline == n.inboxOnline
  {
    ReplayGrows(n, history);
  }

  lemma StepKeepsLedger(w: World, s: SimState, op: Op)
    requires Enabled(w, s, op) && Ledger(s)
    ensures Ledger(Apply(w, s, op))
  {
    match op
    case ForwardHit(_) => ForwardKeepsLedger(w, s);
    case TickNode(_, round) => TickKeepsLedger(w, s, round);
    case Process(v, round) => ProcessKeepsLedger(w, s.(batch := s.batch[1..]), v, s.batch[0], round);
    case TakeOffline(v, round) => SwitchFrame(s.nodes[v], false, round, s.history);
    case BringOnline(v, round) =>
      SwitchFrame(s.nodes[v], true, round, s.history);
      SwitchFrame(SetOnline(s.nodes[v], true, round), true, round, s.history);
    case Drain(_) =>
  }

  /// While a tick is open its counter grows with the forwardings.
  lemma StepCounts(w: World, s: SimState, op: Op)
    requires Enabled(w, s, op) && s.current.Some?
    ensures var t := Apply(w, s, op);
            && t.current.Some?
            && t.current.value - s.current.value == SentTotal(t.forwards) - SentTotal(s.forwards)
            && s.forwards <= t.forwards
  {
  }

  lemma {:induction false} StepsKeepLedger(w: World, s: SimState, ops: seq<Op>, t: SimState)
    requires Runs(w, s, ops, t) && Ledger(s) && s.current.Some?
    ensures Ledger(t) && t.current.Some? && t.ticks == s.ticks
    ensures t.current.value - s.current.value == SentTotal(t.forwards) - SentTotal(s.forwards)
    decreases |ops|
  {
    if ops != [] {
      StepKeepsLedger(w, s, ops[0]);
      StepCounts(w, s, ops[0]);
      StepsKeepLedger(w, Apply(w, s, ops[0]), ops[1..], t);
    }
  }

  /// Total announcement bandwidth over the rounds 1..k.
  ghost function SumTicks(ticks: map<int, nat>, k: nat): nat {
    if k == 0 then 0 else SumTicks(ticks, k - 1) + if k in ticks then ticks[k] else 0
  }

  lemma {:induction false} SumTicksFrame(ticks: map<int, nat>, k: nat, r: int, n: nat)
    requires k < r
    ensures SumTicks(ticks[r := n], k) == SumTicks(ticks, k)
  {
    if k > 0 {
      SumTicksFrame(ticks, k - 1, r, n);
    }
  }

  lemma RoundKeepsLedger(w: World, s: SimState, k: nat)
    requires |s.nodes| == |w.ids| && Idle(s) && Ledger(s) && k > 0
    ensures var t := Round(w, s, k);
            && Ledger(t)
            && SumTicks(t.ticks, k) == SumTicks(s.ticks, k - 1) + SentTotal(t.forwards) - SentTotal(s.forwards)
  {
    hide Middle, Round, SentTotal, Runs;
    var ops := RoundOps(w, s, k);
    var mid := Middle(w, s, k);
    StepsKeepLedger(w, StartTick(s), ops, mid);
    SumTicksFrame(s.ticks, k - 1, k, mid.current.value);
  }

  lemma FreshLedger(w: World, s: SimState)
    requires Fresh(w, s)
    ensures |s.nodes| == |w.ids| && Idle(s) && Ledger(s) && SumTicks(s.ticks, 0) == SentTotal(s.forwards)
  {
  }

  lemma {:induction false} RunKeepsLedger(w: World, s: SimState, k: nat)
    requires Fresh(w, s)
    ensures var t := Run(w, s, k); Ledger(t) && SumTicks(t.ticks, k) == SentTotal(t.forwards)
  {
    hide Round, Ledger, Fresh, SumTicks, SentTotal, Idle;
    FreshLedger(w, s);
    if k > 0 {
      RunKeepsLedger(w, s, k - 1);
      RoundKeepsLedger(w, Run(w, s, k - 1), k);
    }
  }

  // ---------- the bandwidth bound ----------

  ghost function SumSent(nodes: seq<NodeState>): nat {
    if nodes == [] then 0 else SumSent(nodes[..|nodes| - 1]) + nodes[|nodes| - 1].sent
  }

  ghost function SumDegrees(w: World, n: nat): nat {
    if n == 0 then 0 else SumDegrees(w, n - 1) + |Neighbours(w, n - 1)|
  }

  /// The keys under which complete announcements of a set circulate.
  ghost function Keys(anns: set<Announcement>): set<string> {
    set a | a in anns && Complete(a) :: Key(a)
  }

  ghost function KeysBy(forwards: seq<Forward>, v: nat): set<string> {
    set f | f in forwards && f.node == v :: f.key
  }

  lemma MulMono(a: nat, b: nat, d: nat)
    requires a <= b
    ensures a * d <= b * d
    ensures (a + 1) * d == a * d + d
  {
  }

  lemma MulSplit(k: nat, a: nat, b: nat)
    ensures k * (a + b) == k * a + k * b
  {
  }

  lemma {:induction false} KeysByCount(forwards: seq<Forward>, v: nat)
    requires forwards != [] && OncePerKey(forwards)
    ensures |KeysBy(forwards, v)| == |KeysBy(forwards[..|forwards| - 1], v)| + if forwards[|forwards| - 1].node == v then 1 else 0
  {
    var front, f := forwards[..|forwards| - 1], forwards[|forwards| - 1];
    assert forwards == front + [f];
    if f.node == v {
      assert f.key !in KeysBy(front, v);
      assert KeysBy(forwards, v) == KeysBy(front, v) + {f.key};
    } else {
      assert KeysBy(forwards, v) == KeysBy(front, v);
    }
  }

  /// Forwardings of one node have distinct keys, so it sends at most one batch per key.
  lemma {:induction false} SentByBound(forwards: seq<Forward>, v: nat, degree: nat)
    requires OncePerKey(forwards)
    requires forall f :: f in forwards && f.node == v ==> |f.targets| <= degree
    ensures SentBy(forwards, v) <= |KeysBy(forwards, v)| * degree
  {
    if forwards != [] {
      var front, f := forwards[..|forwards| - 1], forwards[|forwards| - 1];
      assert f in forwards;
      SentByBound(front, v, degree);
      KeysByCount(forwards, v);
      MulMono(|KeysBy(front, v)|, |KeysBy(front, v)|, degree);
    }
  }

  lemma SubsetSize<T>(a: set<T>, b: set<T>)
    requires a <= b
    ensures |a| <= |b|
  {
    assert b == a + (b - a);
  }

  lemma {:induction false} SumSentBound(w: World, nodes: seq<NodeState>, forwards: seq<Forward>, keys: set<string>)
    requires OncePerKey(forwards)
    requires forall f :: f in forwards ==> |f.targets| <= |Neighbours(w, f.node)| && f.key in keys
    requires forall v :: 0 <= v < |nodes| ==> nodes[v].sent == SentBy(forwards, v)
    ensures SumSent(nodes) <= |keys| * SumDegrees(w, |nodes|)
  {
    if nodes != [] {
      var v := |nodes| - 1;
      var d := |Neighbours(w, v)|;
      SumSentBound(w, nodes[..v], forwards, keys);
      SentByBound(forwards, v, d);
      SubsetSize(KeysBy(forwards, v), keys);
      MulMono(|KeysBy(forwards, v)|, |keys|, d);
      MulSplit(|keys|, SumDegrees(w, v), d);
    }
  }

  lemma {:induction false} SumSentTotal(nodes: seq<NodeState>, forwards: seq<Forward>)
    requires forall v :: 0 <= v < |nodes| ==> nodes[v].sent == SentBy(forwards, v)
    requires forall f :: f in forwards ==> f.node < |nodes|
    ensures SumSent(nodes) == SentTotal(forwards)
    decreases |forwards|
  {
    if forwards == [] {
      SumSentZero(nodes);
    } else {
      var front, f := forwards[..|forwards| - 1], forwards[|forwards| - 1];
      assert forwards == front + [f] && f in forwards;
      var nodes' := nodes[f.node := nodes[f.node].(sent := SentBy(front, f.node))];
      SumSentTotal(nodes', front);
      SumSentUpdate(nodes, f.node, SentBy(front, f.node));
    }
  }

  lemma {:induction false} SumSentZero(nodes: seq<NodeState>)
    requires forall v :: 0 <= v < |nodes| ==> nodes[v].sent == 0
    ensures SumSent(nodes) == 0
  {
    if nodes != [] {
      SumSentZero(nodes[..|nodes| - 1]);
    }
  }

  lemma {:induction false} SumSentUpdate(nodes: seq<NodeState>, v: nat, sent: nat)
    requires v < |nodes|
    ensures SumSent(nodes[v := nodes[v].(sent := sent)]) + nodes[v].sent == SumSent(nodes) + sent
  {
    var last := |nodes| - 1;
    var nodes' := nodes[v := nodes[v].(sent := sent)];
    if v == last {
      assert nodes'[..last] == nodes[..last];
    } else {
      assert nodes'[..last] == nodes[..last][v := nodes[v].(sent := sent)];
      SumSentUpdate(nodes[..last], v, sent);
    }
  }

  /// Every announcement a run can meet is among the ones injected before it.
  ghost predicate Injected(w: World, s: SimState, anns: set<Announcement>) {
    && (forall v, raw :: 0 <= v < |s.nodes| && raw in s.nodes[v].queue && raw.message.Announce? ==> raw.message.ann in anns)
    && (forall h :: h in s.history ==> h.1 in anns)
  }

  /// Each (node, key) is forwarded at most once in a whole run; the announcement bandwidth summed
  /// over its rounds is the sum of the nodes' counters, and is at most the number of distinct
  /// injected keys times the sum of the degrees.
  lemma ForwardOnceAndBandwidth(w: World, s: SimState, rounds: nat, anns: set<Announcement>)
    requires Fresh(w, s) && Injected(w, s, anns)
    ensures var t := Run(w, s, rounds);
            && OncePerKey(t.forwards)
            && (forall v :: 0 <= v < |t.nodes| ==> t.nodes[v].sent == SentBy(t.forwards, v))
            && SumTicks(t.ticks, rounds) == SumSent(t.nodes)
            && SumSent(t.nodes) <= |Keys(anns)| * SumDegrees(w, |t.nodes|)
  {
    var t := Run(w, s, rounds);
    var origin := Origins(w, s, rounds);
    RunKeepsLedger(w, s, rounds);
    RunKeepsProvenance(w, s, rounds, rounds);
    forall f | f in t.forwards ensures f.key in Keys(anns) {
      assert GoodForward(w, origin, f);
      var path :| TrustedPath(w, f.ann, path) && path[|path| - 1] == f.node && (path[0], f.ann) in origin;
      assert f.ann in anns;
    }
    SumSentBound(w, t.nodes, t.forwards, Keys(anns));
    SumSentTotal(t.nodes, t.forwards);
  }

  // ---------- links between a node's parts ----------

  /// A node and its inbox agree on being online, exactly an offline node has a time since when, every active note
  /// has its announcement, and stored announcements are complete and tolerated.
  ghost predicate LinkedNode(w: World, n: NodeState, v: nat) {
    && n.online == n.inboxOnline
    && (!n.online <==> n.offlineSince.Some?)
    && (forall x :: x in n.prop.notes ==> x.id in n.stored)
    && (forall k :: k in n.stored ==> Complete(n.stored[k]) && w.rep(v, n.stored[k].pubkey) >= -0.5)
  }

  ghost predicate Pending(s: SimState, v: nat, key: string) {
    s.actor == v && exists h :: h in s.hits && h.id == key
  }

  /// Fetched keys are exactly the forwarded ones and the ones still to be forwarded in this round.
  ghost predicate Linked(w: World, s: SimState) {
    && (forall v :: 0 <= v < |s.nodes| ==> LinkedNode(w, s.nodes[v], v))
    && (forall h :: h in s.hits && s.actor < |s.nodes| ==> h.id in s.nodes[s.actor].stored)
    && (forall v, k :: 0 <= v < |s.nodes| && k in s.nodes[v].prop.fetched ==>
          k in KeysBy(s.forwards, v) || Pending(s, v, k))
  }

  /// Links after the head of the pending hits has been forwarded as `f`.
  lemma LinksAfter(w: World, s: SimState, t: SimState, f: Forward)
    requires s.hits != [] && s.actor < |s.nodes| && Linked(w, s) && Ledger(s)
    requires |t.nodes| == |s.nodes| && t.actor == s.actor && t.hits == s.hits[1..] && t.forwards == s.forwards + [f]
    requires f.node == s.actor && f.key == s.hits[0].id
    requires forall j :: 0 <= j < |s.nodes| ==> SameBut(s.nodes[j], t.nodes[j], if j == f.node then {f.key} else {})
    ensures Linked(w, t)
  {
    FirstHitApart(s);
    hide Ledger;
    forall j | 0 <= j < |t.nodes| ensures LinkedNode(w, t.nodes[j], j) {
      assert LinkedNode(w, s.nodes[j], j);
    }
    hide LinkedNode;
  }

  /// No active note and no other hit bears the id of the first hit.
  lemma FirstHitApart(s: SimState)
    requires s.hits != [] && s.actor < |s.nodes| && Ledger(s)
    ensures s.hits[0] in s.hits
    ensures forall x :: x in s.nodes[s.actor].prop.notes ==> x.id != s.hits[0].id
    ensures forall h :: h in s.hits[1..] ==> h in s.hits && h.id != s.hits[0].id
  {
  }

  /// Forwarding may grow queues and counters and drops the given keys from the stored announcements.
  ghost predicate SameBut(n: NodeState, n': NodeState, dropped: set<string>) {
    n' == n.(queue := n'.queue, sent := n'.sent, stored := n.stored - dropped)
  }

  /// A pending hit always finds an announcement it is willing to forward.
  lemma HitIsForwardable(w: World, s: SimState)
    requires s.hits != [] && s.actor < |s.nodes| == |w.ids| && Linked(w, s)
    ensures var n, id := s.nodes[s.actor], s.hits[0].id;
            id in n.stored && Complete(n.stored[id]) && w.rep(s.actor, n.stored[id].pubkey) >= -0.5
  {
  }

  lemma ForwardKeepsLinks(w: World, s: SimState)
    requires s.hits != [] && s.actor < |s.nodes| == |w.ids| && Ledger(s) && Linked(w, s)
    ensures Linked(w, Apply(w, s, ForwardHit(s.actor)))
  {
    hide Linked, Ledger, Complete;
    var v, id := s.actor, s.hits[0].id;
    var s0 := s.(hits := s.hits[1..]);
    var t := ForwardNote(w, s0, v, id);
    HitIsForwardable(w, s);
    forall j | 0 <= j < |t.nodes| ensures SameBut(s.nodes[j], t.nodes[j], if j == v then {id} else {}) {
      ForwardFrame(w, s0, v, id, j);
    }
    LinksAfter(w, s, t, t.forwards[|s.forwards|]);
  }

  lemma TickKeepsLinks(w: World, s: SimState, round: int)
    requires Idle(s) && s.actor < |s.nodes| == |w.ids| && Ledger(s) && Linked(w, s)
    ensures Linked(w, Apply(w, s, TickNode(s.actor, round)))
  {
    var v := s.actor;
    var t := Apply(w, s, TickNode(v, round));
    Propagation.TickExact(w.policy(v), s.nodes[v].prop, round, w.gamma);
    forall j | 0 <= j < |t.nodes| ensures LinkedNode(w, t.nodes[j], j) {
      assert LinkedNode(w, s.nodes[j], j);
    }
    forall j, k | 0 <= j < |t.nodes| && k in t.nodes[j].prop.fetched
      ensures k in KeysBy(t.forwards, j) || Pending(t, j, k)
    {
      if k !in s.nodes[j].prop.fetched {
        assert Pending(t, j, k);
      }
    }
  }

  lemma ReceiveKeepsLink(w: World, n: NodeState, v: nat, a: Announcement, from: string, round: int)
    requires LinkedNode(w, n, v) && Propagation.Ok(n.prop) && w.rep(v, a.pubkey) >= -0.5
    ensures var t := Receive(w.policy(v), n, a, from, round);
            LinkedNode(w, t, v) && t.prop.fetched == n.prop.fetched
  {
    Propagation.AddExact(w.policy(v), n.prop, Key(a), from, a.pubkey, round);
  }

  lemma ProcessKeepsLinks(w: World, s: SimState, v: nat, raw: Raw, round: int)
    requires v < |s.nodes| == |w.ids| && s.hits == [] && Ledger(s) && Linked(w, s)
    ensures Linked(w, ProcessMessage(w, s, v, raw, round))
  {
    hide KeysBy, Receive;
    var t := ProcessMessage(w, s, v, raw, round);
    if raw.message.Announce? && Trusts(w, v, raw.message.ann) {
      ReceiveKeepsLink(w, s.nodes[v], v, raw.message.ann, if raw.Envelope? then raw.from else w.ids[v], round);
      forall j | 0 <= j < |t.nodes| ensures LinkedNode(w, t.nodes[j], j) && t.nodes[j].prop.fetched == s.nodes[j].prop.fetched {
        assert LinkedNode(w, s.nodes[j], j);
      }
    }
  }

  lemma SwitchKeepsLinks(w: World, s: SimState, op: Op)
    requires Enabled(w, s, op) && Linked(w, s)
    requires op.TakeOffline? || op.BringOnline? || op.Drain?
    ensures Linked(w, Apply(w, s, op))
  {
    var t, v := Apply(w, s, op), op.node;
    match op {
      case TakeOffline(_, round) => SwitchFrame(s.nodes[v], false, round, s.history);
      case BringOnline(_, round) =>
        SwitchFrame(s.nodes[v], true, round, s.history);
        SwitchFrame(SetOnline(s.nodes[v], true, round), true, round, s.history);
      case Drain(_) =>
    }
    forall j | 0 <= j < |t.nodes| ensures LinkedNode(w, t.nodes[j], j) && t.nodes[j].prop == s.nodes[j].prop {
      assert LinkedNode(w, s.nodes[j], j);
    }
    forall j, k | 0 <= j < |t.nodes| && k in t.nodes[j].prop.fetched
      ensures k in KeysBy(t.forwards, j) || Pending(t, j, k)
    {
      assert k in KeysBy(s.forwards, j) || Pending(s, j, k);
    }
  }

  lemma StepKeepsLinks(w: World, s: SimState, op: Op)
    requires Enabled(w, s, op) && Ledger(s) && Linked(w, s)
    requires s.batch == [] || s.hits == []
    ensures var t := Apply(w, s, op); Linked(w, t) && (t.batch == [] || t.hits == [])
  {
    match op
    case ForwardHit(_) => ForwardKeepsLinks(w, s);
    case TickNode(_, round) => TickKeepsLinks(w, s, round);
    case Process(v, round) =>
      ProcessKeepsLinks(w, s.(batch := s.batch[1..]), v, s.batch[0], round);
    case TakeOffline(_, _) => SwitchKeepsLinks(w, s, op);
    case BringOnline(_, _) => SwitchKeepsLinks(w, s, op);
    case Drain(_) => SwitchKeepsLinks(w, s, op);
  }

  lemma {:induction false} StepsKeepLinks(w: World, s: SimState, ops: seq<Op>, t: SimState)
    requires Runs(w, s, ops, t) && Ledger(s) && Linked(w, s)
    requires s.batch == [] || s.hits == []
    ensures Ledger(t) && Linked(w, t)
    decreases |ops|
  {
    hide Ledger, Linked, Apply;
    if ops != [] {
      StepKeepsLedger(w, s, ops[0]);
      StepKeepsLinks(w, s, ops[0]);
      StepsKeepLinks(w, Apply(w, s, ops[0]), ops[1..], t);
    }
  }

  lemma FreshIsLinked(w: World, s: SimState)
    requires Fresh(w, s)
    ensures Ledger(s) && Linked(w, s)
  {
  }

  lemma {:induction false} RunKeepsLinks(w: World, s: SimState, k: nat)
    requires |s.nodes| == |w.ids| && Idle(s) && Ledger(s) && Linked(w, s)
    ensures Ledger(Run(w, s, k)) && Linked(w, Run(w, s, k))
  {
    hide Round, Ledger, Linked;
    if k > 0 {
      RunKeepsLinks(w, s, k - 1);
      RoundKeepsLinks(w, Run(w, s, k - 1), k);
    }
  }

  /// Opening and closing a tick touches only the counters of the collector.
  lemma TicksKeepLinks(w: World, s: SimState, round: int)
    ensures Ledger(s) ==> Ledger(StartTick(s)) && Ledger(EndTick(s, round))
    ensures Linked(w, s) ==> Linked(w, StartTick(s)) && Linked(w, EndTick(s, round))
  {
  }

  lemma RoundKeepsLinks(w: World, s: SimState, k: nat)
    requires |s.nodes| == |w.ids| && Idle(s) && Ledger(s) && Linked(w, s)
    ensures Ledger(Round(w, s, k)) && Linked(w, Round(w, s, k))
  {
    hide Middle, Round, Ledger, Linked;
    var ops := RoundOps(w, s, k);
    TicksKeepLinks(w, s, k);
    StepsKeepLinks(w, StartTick(s), ops, Middle(w, s, k));
    TicksKeepLinks(w, Middle(w, s, k), k);
  }

  /// Between rounds every key a node ever fetched has been forwarded by it exactly once, and no
  /// other key has been: a fetched note is never lost on the way to the neighbours.
  lemma FetchedIsForwarded(w: World, s: SimState, rounds: nat, v: nat)
    requires Fresh(w, s) && v < |s.nodes|
    ensures var t := Run(w, s, rounds);
            KeysBy(t.forwards, v) == t.nodes[v].prop.fetched.Keys && OncePerKey(t.forwards)
  {
    FreshIsLinked(w, s);
    RunKeepsLinks(w, s, rounds);
    var t := Run(w, s, rounds);
    forall k ensures k in KeysBy(t.forwards, v) <==> k in t.nodes[v].prop.fetched.Keys {
      if k in KeysBy(t.forwards, v) {
        var f :| f in t.forwards && f.node == v && f.key == k;
      }
    }
  }

  // ---------- catch-up after an outage ----------

  predicate IsDelivered(s: SimState, qkey: string, id: string) {
    qkey in s.delivered && id in s.delivered[qkey]
  }

  lemma {:induction false} StepsKeepDelivered(w: World, s: SimState, ops: seq<Op>, t: SimState, qkey: string, id: string)
    requires Runs(w, s, ops, t) && IsDelivered(s, qkey, id)
    ensures IsDelivered(t, qkey, id)
    decreases |ops|
  {
    if ops != [] {
      StepsKeepDelivered(w, Apply(w, s, ops[0]), ops[1..], t, qkey, id);
    }
  }

  lemma RoundKeepsDelivered(w: World, s: SimState, k: nat, qkey: string, id: string)
    requires |s.nodes| == |w.ids| && Idle(s) && IsDelivered(s, qkey, id)
    ensures IsDelivered(Round(w, s, k), qkey, id)
  {
    hide Middle, Round;
    var ops := RoundOps(w, s, k);
    StepsKeepDelivered(w, StartTick(s), ops, Middle(w, s, k), qkey, id);
  }

  /// Once delivered, always delivered.
  lemma {:induction false} DeliveredForever(w: World, s: SimState, k: nat, m: nat, qkey: string, id: string)
    requires |s.nodes| == |w.ids| && Idle(s) && k <= m && IsDelivered(Run(w, s, k), qkey, id)
    ensures IsDelivered(Run(w, s, m), qkey, id)
    decreases m
  {
    if k < m {
      hide Round, IsDelivered, Idle;
      DeliveredForever(w, s, k, m - 1, qkey, id);
      RoundKeepsDelivered(w, Run(w, s, m - 1), m, qkey, id);
    }
  }

  /// Steps of other nodes leave a node's status alone and only append to its inbox.
  lemma OtherStep(w: World, s: SimState, op: Op, v: nat)
    requires Enabled(w, s, op) && v < |s.nodes| && op.node != v
    ensures var t := Apply(w, s, op);
            t.nodes[v].online == s.nodes[v].online && s.nodes[v].queue <= t.nodes[v].queue
  {
    if op.ForwardHit? {
      var s0, id := s.(hits := s.hits[1..]), s.hits[0].id;
      if id in s.nodes[op.node].stored && Complete(s.nodes[op.node].stored[id]) && Trusts(w, op.node, s.nodes[op.node].stored[id]) {
        ForwardFrame(w, s0, op.node, id, v);
      }
    }
  }

  lemma {:induction false} OtherSteps(w: World, s: SimState, ops: seq<Op>, t: SimState, v: nat)
    requires Runs(w, s, ops, t) && v < |s.nodes|
    requires forall op :: op in ops ==> op.node != v
    ensures |t.nodes| == |s.nodes| && t.nodes[v].online == s.nodes[v].online && s.nodes[v].queue <= t.nodes[v].queue
    decreases |ops|
  {
    if ops != [] {
      assert ops[0] in ops;
      OtherStep(w, s, ops[0], v);
      OtherSteps(w, Apply(w, s, ops[0]), ops[1..], t, v);
    }
  }

  lemma {:induction false} ProcessDelivers(w: World, s: SimState, round: int, raw: Raw)
    requires s.actor < |s.nodes| == |w.ids| && raw in s.batch
    requires raw.message.Announce? && Has(raw.message.ann.qkey) && w.rep(s.actor, raw.message.ann.pubkey) >= -0.5
    ensures IsDelivered(ProcessAll(w, s, round), raw.message.ann.qkey.value, w.ids[s.actor])
    decreases |s.batch|
  {
    var t := Apply(w, s, Process(s.actor, round));
    if raw == s.batch[0] {
      var ops := ProcessAllOps(w, t, round);
      StepsKeepDelivered(w, t, ops, ProcessAll(w, t, round), raw.message.ann.qkey.value, w.ids[s.actor]);
    } else {
      ProcessDelivers(w, t, round, raw);
    }
  }

  lemma StepNodeDelivers(w: World, s: SimState, v: nat, round: int, raw: Raw)
    requires v < |s.nodes| == |w.ids| && Idle(s) && s.nodes[v].online && raw in s.nodes[v].queue
    requires raw.message.Announce? && Has(raw.message.ann.qkey) && w.rep(v, raw.message.ann.pubkey) >= -0.5
    ensures IsDelivered(StepNode(w, s, v, round), raw.message.ann.qkey.value, w.ids[v])
  {
    var drained := Apply(w, s, Drain(v));
    ProcessDelivers(w, drained, round, raw);
    var done := ProcessAll(w, drained, round);
    var ticked := Apply(w, done, TickNode(v, round));
    var ops := ForwardAllOps(w, ticked);
    StepsKeepDelivered(w, ticked, ops, ForwardAll(w, ticked), raw.message.ann.qkey.value, w.ids[v]);
  }

  lemma {:induction false} StepNodesDeliver(w: World, s: SimState, count: nat, round: int, v: nat, raw: Raw)
    requires v < count <= |s.nodes| == |w.ids| && Idle(s) && s.nodes[v].online && raw in s.nodes[v].queue
    requires raw.message.Announce? && Has(raw.message.ann.qkey) && w.rep(v, raw.message.ann.pubkey) >= -0.5
    ensures IsDelivered(StepNodes(w, s, count, round), raw.message.ann.qkey.value, w.ids[v])
  {
    hide StepNode, IsDelivered;
    var before := StepNodes(w, s, count - 1, round);
    if v == count - 1 {
      var ops := StepNodesOps(w, s, v, round);
      OtherSteps(w, s, ops, before, v);
      StepNodeDelivers(w, before, v, round, raw);
    } else {
      StepNodesDeliver(w, s, count - 1, round, v, raw);
      var ops := StepNodeOps(w, before, count - 1, round);
      StepsKeepDelivered(w, before, ops, StepNode(w, before, count - 1, round), raw.message.ann.qkey.value, w.ids[v]);
    }
  }

  /// A node that is offline when the round's returns are handled and is the first with a returning
  /// id ends up online with the whole history in its inbox; otherwise it is untouched.
  lemma {:induction false} ReturnFillsInbox(w: World, s: SimState, ids: seq<string>, round: int, v: nat)
    requires v < |s.nodes| == |w.ids| && !s.nodes[v].online && s.nodes[v].offlineSince.Some?
    ensures var t := OnlineAll(w, s, ids, round);
            && t.history == s.history
            && if Named(w, ids, v) then
                 t.nodes[v].online && forall h :: h in s.history ==> Envelope(h.1.pubkey, Announce(h.1)) in t.nodes[v].queue
               else t.nodes[v] == s.nodes[v]
  {
    if ids != [] {
      var front, id := ids[..|ids| - 1], ids[|ids| - 1];
      assert ids == front + [id];
      ReturnFillsInbox(w, s, front, round, v);
      var mid := OnlineAll(w, s, front, round);
      if First(w.ids, id) == Some(v) {
        var back := SetOnline(mid.nodes[v], true, round);
        ReplayGrows(back, s.history);
        assert Named(w, ids, v);
      } else {
        assert Named(w, ids, v) <==> Named(w, front, v);
      }
    }
  }

  /// Node `v` is down once round `r` has taken its nodes offline, and is the node that one of the
  /// ids coming online in that round names.
  ghost predicate ComesBack(w: World, s: SimState, r: nat, v: nat)
    requires v < |s.nodes| == |w.ids|
  {
    && !OfflineAll(w, StartTick(s), Lookup(w.offline, r), r).nodes[v].online
    && Named(w, Lookup(w.online, r), v)
  }

  lemma {:induction false} RunFixesHistory(w: World, s: SimState, k: nat)
    requires |s.nodes| == |w.ids| && Idle(s)
    ensures Run(w, s, k).history == s.history
  {
    hide Middle, Round, Runs, Idle;
    if k > 0 {
      RunFixesHistory(w, s, k - 1);
      var before := Run(w, s, k - 1);
      var ops := RoundOps(w, before, k);
      HistoryFixed(w, StartTick(before), ops, Middle(w, before, k));
    }
  }

  lemma RoundCatchesUp(w: World, s: SimState, r: nat, v: nat, h: (string, Announcement))
    requires |s.nodes| == |w.ids| && Idle(s) && Ledger(s) && Linked(w, s) && v < |s.nodes|
    requires ComesBack(w, s, r, v)
    requires h in s.history && Has(h.1.qkey) && w.rep(v, h.1.pubkey) >= -0.5
    ensures IsDelivered(Round(w, s, r), h.1.qkey.value, w.ids[v])
  {
    hide Ledger, StepNodes, OfflineAll, OnlineAll;
    var down := OfflineAll(w, StartTick(s), Lookup(w.offline, r), r);
    var ops := OfflineOps(w, StartTick(s), Lookup(w.offline, r), r);
    TicksKeepLinks(w, s, r);
    StepsKeepLinks(w, StartTick(s), ops, down);
    HistoryFixed(w, StartTick(s), ops, down);
    assert LinkedNode(w, down.nodes[v], v);
    ReturnFillsInbox(w, down, Lookup(w.online, r), r, v);
    StepNodesDeliver(w, Switch(w, StartTick(s), r), |s.nodes|, r, v, Envelope(h.1.pubkey, Announce(h.1)));
  }

  /// Catch-up: a node that an outage took down and that comes back in round `r` has every
  /// announcement of the history with a qkey, by a publisher it tolerates, recorded as delivered by
  /// the end of that same round, and for the rest of the run.
  lemma ReturnIsCaughtUp(w: World, s: SimState, r: nat, later: nat, v: nat, h: (string, Announcement))
    requires Fresh(w, s) && v < |s.nodes| && 1 <= r <= later
    requires ComesBack(w, Run(w, s, r - 1), r, v)
    requires h in s.history && Has(h.1.qkey) && w.rep(v, h.1.pubkey) >= -0.5
    ensures IsDelivered(Run(w, s, r), h.1.qkey.value, w.ids[v])
    ensures IsDelivered(Run(w, s, later), h.1.qkey.value, w.ids[v])
  {
    hide Round, ComesBack, Linked, Ledger, IsDelivered;
    FreshIsLinked(w, s);
    RunKeepsLinks(w, s, r - 1);
    RunFixesHistory(w, s, r - 1);
    RoundCatchesUp(w, Run(w, s, r - 1), r, v, h);
    DeliveredForever(w, s, r, later, h.1.qkey.value, w.ids[v]);
  }

  lemma {:induction false} HistoryFixed(w: World, s: SimState, ops: seq<Op>, t: SimState)
    requires Runs(w, s, ops, t)
    ensures t.history == s.history && |t.nodes| == |s.nodes|
    decreases |ops|
  {
    if ops != [] {
      HistoryFixed(w, Apply(w, s, ops[0]), ops[1..], t);
    }
  }

  // ---------- what the history holds ----------

  /// The last announcement published under a key.
  function LastUnder(published: seq<Announcement>, key: string): Option<Announcement> {
    if published == [] then None
    else if Key(published[|published| - 1]) == key then Some(published[|published| - 1])
    else LastUnder(published[..|published| - 1], key)
  }

  ghost predicate UniqueKeys(history: seq<(string, Announcement)>) {
    forall i, j :: 0 <= i < j < |history| ==> history[i].0 != history[j].0
  }

  lemma {:induction false} PublishSets(history: seq<(string, Announcement)>, a: Announcement)
    requires UniqueKeys(history)
    ensures UniqueKeys(Publish(history, a))
    ensures forall h :: h in Publish(history, a) <==> h == (Key(a), a) || (h in history && h.0 != Key(a))
  {
    if history != [] {
      var h0, rest := history[0], history[1..];
      assert history == [h0] + rest;
      if h0.0 == Key(a) {
        assert forall h :: h in rest ==> h.0 != Key(a);
      } else {
        PublishSets(rest, a);
        assert forall h :: h in Publish(rest, a) ==> h.0 != h0.0;
      }
    }
  }

  /// The history is the last-published announcement of every key.
  lemma {:induction false} HistoryIsLast(published: seq<Announcement>, key: string, a: Announcement)
    ensures UniqueKeys(PublishAll(published))
    ensures (key, a) in PublishAll(published) <==> LastUnder(published, key) == Some(a)
  {
    if published != [] {
      var front := published[..|published| - 1];
      HistoryIsLast(front, key, a);
      PublishSets(PublishAll(front), published[|published| - 1]);
    }
  }

  /// No two different announcements of a list share a key.
  ghost predicate KeysTell(published: seq<Announcement>) {
    forall a, b :: a in published && b in published && Key(a) == Key(b) ==> a == b
  }

  lemma {:induction false} LastUnderFound(published: seq<Announcement>, a: Announcement)
    requires a in published
    ensures LastUnder(published, Key(a)).Some?
    ensures LastUnder(published, Key(a)).value in published && Key(LastUnder(published, Key(a)).value) == Key(a)
  {
    var front, last := published[..|published| - 1], published[|published| - 1];
    assert published == front + [last];
    if Key(last) != Key(a) {
      LastUnderFound(front, a);
    }
  }

  /// Nothing published is forgotten if and only if no two different published announcements share a key.
  lemma HistoryCompleteIff(published: seq<Announcement>)
    ensures (forall a :: a in published ==> (Key(a), a) in PublishAll(published)) <==> KeysTell(published)
  {
    forall a | a in published
      ensures (Key(a), a) in PublishAll(published) <==> LastUnder(published, Key(a)) == Some(a)
      ensures LastUnder(published, Key(a)).Some?
      ensures LastUnder(published, Key(a)).value in published && Key(LastUnder(published, Key(a)).value) == Key(a)
    {
      HistoryIsLast(published, Key(a), a);
      LastUnderFound(published, a);
    }
  }

  /// A separator inside a publisher or qkey makes different announcements share a key, and then the
  /// history forgets the earlier one: catch-up never replays its qkey.
  lemma SeparatorHidesAnnouncement()
    ensures var a, b := Announcement("p", Some("q"), Some("h|x"), []), Announcement("p", Some("q|h"), Some("x"), []);
            a.qkey != b.qkey && Key(a) == Key(b) && !exists k :: (k, a) in PublishAll([a, b])
  {
    var a, b := Announcement("p", Some("q"), Some("h|x"), []), Announcement("p", Some("q|h"), Some("x"), []);
    assert Key(a) == "p|q|h|x" == Key(b);
    SecondHides(a, b);
  }

  /// So does publishing the same content again with another ttl, url or size.
  lemma RepublishingHidesAnnouncement(a: Announcement, details: seq<seq<string>>)
    requires details != a.details
    ensures var b := a.(details := details); !exists k :: (k, a) in PublishAll([a, b])
  {
    SecondHides(a, a.(details := details));
  }

  lemma SecondHides(a: Announcement, b: Announcement)
    requires a != b && Key(a) == Key(b)
    ensures !exists k :: (k, a) in PublishAll([a, b])
  {
    assert PublishAll([a]) == [(Key(a), a)] by { assert [a][..0] == []; }
    assert PublishAll([a, b]) == [(Key(b), b)] by { assert [a, b][..1] == [a]; }
  }

  predicate Plain(a: Announcement) {
    '|' !in a.pubkey && '|' !in a.qkey.GetOr("")
  }

  /// Without separators two announcements share a key exactly if they agree on publisher, qkey and hash (a missing
  /// tag counting as an empty one).
  lemma PlainKeysDiffer(a: Announcement, b: Announcement)
    requires Plain(a) && Plain(b)
    ensures Key(a) == Key(b) <==> a.pubkey == b.pubkey && a.qkey.GetOr("") == b.qkey.GetOr("") && a.hash.GetOr("") == b.hash.GetOr("")
  {
    var qa, qb, ha, hb := a.qkey.GetOr(""), b.qkey.GetOr(""), a.hash.GetOr(""), b.hash.GetOr("");
    if Key(a) == Key(b) {
      assert Key(a) == a.pubkey + "|" + (qa + "|" + ha) && Key(b) == b.pubkey + "|" + (qb + "|" + hb);
      Text.SplitAtFirst('|', a.pubkey, qa + "|" + ha, b.pubkey, qb + "|" + hb);
      Text.SplitAtFirst('|', qa, ha, qb, hb);
    }
  }

  // ---------- publishing, then running ----------

  function PublishSteps(w: World, s: SimState, published: seq<Announcement>): (t: SimState)
    requires |s.nodes| == |w.ids|
    ensures |t.nodes| == |s.nodes| && t.batch == s.batch && t.hits == s.hits
  {
    if published == [] then s
    else PublishStep(w, PublishSteps(w, s, published[..|published| - 1]), published[|published| - 1])
  }

  /// Publishing into a new simulation counts no bandwidth and fills the history.
  lemma {:induction false} PublishingKeepsFresh(w: World, s: SimState, published: seq<Announcement>)
    requires Fresh(w, s) && s.history == []
    ensures Fresh(w, PublishSteps(w, s, published))
    ensures PublishSteps(w, s, published).history == PublishAll(published)
  {
    if published != [] {
      PublishingKeepsFresh(w, s, published[..|published| - 1]);
    }
  }

  /// End to end: an announcement published before a run, and not republished under its key, reaches every
  /// node that returns from an outage and tolerates its publisher, in the round it returns.
  lemma PublishedIsCaughtUp(w: World, s: SimState, published: seq<Announcement>, r: nat, later: nat, v: nat, a: Announcement)
    requires Fresh(w, s) && s.history == [] && v < |s.nodes| && 1 <= r <= later
    requires LastUnder(published, Key(a)) == Some(a)
    requires Has(a.qkey) && w.rep(v, a.pubkey) >= -0.5
    requires ComesBack(w, Run(w, PublishSteps(w, s, published), r - 1), r, v)
    ensures IsDelivered(Run(w, PublishSteps(w, s, published), later), a.qkey.value, w.ids[v])
  {
    PublishingKeepsFresh(w, s, published);
    HistoryIsLast(published, Key(a), a);
    ReturnIsCaughtUp(w, PublishSteps(w, s, published), r, later, v, (Key(a), a));
  }
}

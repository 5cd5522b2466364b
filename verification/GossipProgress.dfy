/// That the gossip simulation gets on: what is due is forwarded in its round, to exactly the neighbours
/// then online; what was forwarded is delivered by the end of the next round; and so an announcement
/// floods along every path whose nodes are eager to pass it on (src/sim/runner/simulation.ts).
module GossipProgress {
  import opened Wrappers
  import Propagation
  import opened GossipModel
  import opened GossipLaws

  // ---------- what can be said of a turn ----------

  /// The state of round k after its switches, when the turn of node v comes, and once v has handled its inbox.
  function Begun(w: World, s: SimState, k: int): (t: SimState)
    requires |s.nodes| == |w.ids| && Idle(s)
    ensures |t.nodes| == |s.nodes| && Idle(t)
  {
    Switch(w, StartTick(s), k)
  }

  function BeforeTurn(w: World, s: SimState, k: int, v: nat): (t: SimState)
    requires v <= |s.nodes| == |w.ids| && Idle(s)
    ensures |t.nodes| == |s.nodes| && Idle(t)
  {
    StepNodes(w, Begun(w, s, k), v, k)
  }

  function Handled(w: World, s: SimState, v: nat, k: int): (t: SimState)
    requires v < |s.nodes| == |w.ids| && Idle(s)
    ensures |t.nodes| == |s.nodes| && Idle(t) && t.actor == v
  {
    ProcessAll(w, Apply(w, s, Drain(v)), k)
  }

  /// The table of node v in round k once its inbox has been handled.
  function Table(w: World, s: SimState, k: int, v: nat): seq<Propagation.Note>
    requires v < |s.nodes| == |w.ids| && Idle(s)
  {
    Handled(w, BeforeTurn(w, s, k, v), v, k).nodes[v].prop.notes
  }

  /// A note within a positive age limit, and its probability at its age from its source.
  predicate Unexpired(p: Propagation.Policy, n: Propagation.Note, k: int) {
    p.maxAge <= 0 || k - n.bornRound <= p.maxAge
  }

  function Chance(p: Propagation.Policy, n: Propagation.Note, k: int, gamma: real): real {
    p.prob(p.local, if n.sourceIndex >= 0 then n.sourceIndex else p.local,
           if k > n.bornRound then k - n.bornRound else 0, n.pubkey, gamma)
  }

  predicate Due(w: World, v: nat, n: Propagation.Note, k: int) {
    Unexpired(w.policy(v), n, k) && Chance(w.policy(v), n, k, w.gamma) > w.policy(v).threshold
  }

  /// The forwarding reaches exactly the neighbours that are online and bear another id.
  ghost predicate ReachesOnline(w: World, nodes: seq<NodeState>, f: Forward)
    requires |nodes| == |w.ids|
  {
    f.node < |nodes| && forall j :: j in f.targets <==>
      j in Neighbours(w, f.node) && j < |nodes| && nodes[j].online && w.ids[j] != w.ids[f.node]
  }

  /// Forwarding `f` of `key` by the acting node, from state `s`, has left its message in every target's inbox in `t`.
  ghost predicate Went(w: World, s: SimState, t: SimState, key: string, f: Forward)
    requires |s.nodes| == |t.nodes| == |w.ids| && s.actor < |s.nodes|
  {
    && f.node == s.actor && f.key == key && ReachesOnline(w, s.nodes, f)
    && key in s.nodes[s.actor].stored && f.ann == s.nodes[s.actor].stored[key] && Complete(f.ann)
    && forall j :: j in f.targets ==> Envelope(w.ids[s.actor], Announce(f.ann)) in t.nodes[j].queue
  }

  // ---------- forwarding the fetched notes ----------

  /// Steps of a node's turn never change who is online, and only append forwardings of nodes they act on.
  lemma StepActs(w: World, s: SimState, op: Op)
    requires Enabled(w, s, op) && ActsOn(op.node, op)
    ensures var t := Apply(w, s, op);
            && |t.nodes| == |s.nodes| && s.forwards <= t.forwards
            && (forall i :: |s.forwards| <= i < |t.forwards| ==> t.forwards[i].node == op.node)
            && (forall j :: 0 <= j < |s.nodes| ==> t.nodes[j].online == s.nodes[j].online)
            && (forall j :: 0 <= j < |s.nodes| && j != op.node ==> t.nodes[j].prop == s.nodes[j].prop)
  {
    var t := Apply(w, s, op);
    if op.ForwardHit? {
      var s0, v, id := s.(hits := s.hits[1..]), op.node, s.hits[0].id;
      if id in s.nodes[v].stored && Complete(s.nodes[v].stored[id]) && Trusts(w, v, s.nodes[v].stored[id]) {
        forall j | 0 <= j < |s.nodes| ensures t.nodes[j].online == s.nodes[j].online && t.nodes[j].prop == s.nodes[j].prop {
          ForwardFrame(w, s0, v, id, j);
        }
      }
    }
  }

  predicate ByOne(ops: seq<Op>, v: nat) {
    exists op :: op in ops && op.node == v
  }

  lemma {:induction false} StepsAct(w: World, s: SimState, ops: seq<Op>, t: SimState)
    requires Runs(w, s, ops, t) && forall op :: op in ops ==> ActsOn(op.node, op)
    ensures |t.nodes| == |s.nodes| && s.forwards <= t.forwards
    ensures forall i :: |s.forwards| <= i < |t.forwards| ==> ByOne(ops, t.forwards[i].node)
    ensures forall j :: 0 <= j < |s.nodes| ==> t.nodes[j].online == s.nodes[j].online
    ensures forall j :: 0 <= j < |s.nodes| && !ByOne(ops, j) ==> t.nodes[j].prop == s.nodes[j].prop
    decreases |ops|
  {
    hide Apply, Enabled;
    if ops != [] {
      assert ops[0] in ops && ops == [ops[0]] + ops[1..];
      StepActs(w, s, ops[0]);
      var u := Apply(w, s, ops[0]);
      StepsAct(w, u, ops[1..], t);
      assert forall v: nat :: ByOne(ops[1..], v) || v == ops[0].node <==> ByOne(ops, v);
      forall i | |s.forwards| <= i < |t.forwards| ensures ByOne(ops, t.forwards[i].node) {
        if i < |u.forwards| {
          assert t.forwards[i] == u.forwards[i];
        }
      }
    }
  }

  /// One pending hit is forwarded.
  lemma ForwardOne(w: World, s: SimState)
    requires s.hits != [] && s.actor < |s.nodes| == |w.ids| && Linked(w, s)
    ensures var v, t := s.actor, Apply(w, s, ForwardHit(s.actor));
            && |t.forwards| == |s.forwards| + 1 && s.forwards <= t.forwards
            && Went(w, s, t, s.hits[0].id, t.forwards[|s.forwards|])
            && t.nodes[v].stored == s.nodes[v].stored - {s.hits[0].id}
            && (forall j :: 0 <= j < |s.nodes| ==> t.nodes[j].online == s.nodes[j].online)
  {
    HitIsForwardable(w, s);
    hide Linked, Complete;
    var v, id := s.actor, s.hits[0].id;
    var s0, t := s.(hits := s.hits[1..]), Apply(w, s, ForwardHit(s.actor));
    var a := s.nodes[v].stored[id];
    var targets := Targets(w, s.nodes, v, Neighbours(w, v));
    forall j | 0 <= j < |s.nodes| ensures t.nodes[j].online == s.nodes[j].online {
      ForwardFrame(w, s0, v, id, j);
    }
    ForwardFrame(w, s0, v, id, v);
    forall j | j in targets ensures Envelope(w.ids[v], Announce(a)) in t.nodes[j].queue {
      assert LinkedNode(w, s.nodes[j], j) by { OneLinked(w, s, j); }
      EnqueuedAll(s.nodes, targets, Envelope(w.ids[v], Announce(a)), j);
      ForwardFrame(w, s0, v, id, j);
    }
  }

  lemma OneLinked(w: World, s: SimState, j: nat)
    requires Linked(w, s) && j < |s.nodes|
    ensures LinkedNode(w, s.nodes[j], j)
  {
  }

  lemma {:induction false} EnqueuedAll(nodes: seq<NodeState>, targets: seq<nat>, raw: Raw, j: nat)
    requires forall i :: 0 <= i < |targets| ==> targets[i] < |nodes|
    requires j in targets && nodes[j].inboxOnline
    ensures raw in SendAll(nodes, targets, raw)[j].queue
  {
    var front := targets[..|targets| - 1];
    assert targets == front + [targets[|targets| - 1]];
    SendAllGrows(nodes, front, raw, j);
    if j in front {
      EnqueuedAll(nodes, front, raw, j);
    }
  }

  /// Every note of a list has been forwarded since `lo`, and nothing else has.
  ghost predicate JustThese(w: World, s: SimState, t: SimState, lo: nat, hits: seq<Propagation.Note>)
    requires |s.nodes| == |t.nodes| == |w.ids| && s.actor < |s.nodes|
  {
    && (forall h :: h in hits ==> WentSince(w, s, t, lo, h.id))
    && (forall i :: lo <= i < |t.forwards| ==> WentFor(w, s, t, hits, t.forwards[i]))
  }

  ghost predicate WentSince(w: World, s: SimState, t: SimState, lo: nat, key: string)
    requires |s.nodes| == |t.nodes| == |w.ids| && s.actor < |s.nodes|
  {
    exists i :: lo <= i < |t.forwards| && Went(w, s, t, key, t.forwards[i])
  }

  ghost predicate WentFor(w: World, s: SimState, t: SimState, notes: seq<Propagation.Note>, f: Forward)
    requires |s.nodes| == |t.nodes| == |w.ids| && s.actor < |s.nodes|
  {
    exists n :: n in notes && Went(w, s, t, n.id, f)
  }

  /// Every pending hit is forwarded, and nothing else.
  lemma {:induction false} ForwardAllDoes(w: World, s: SimState)
    requires s.actor < |s.nodes| == |w.ids| && s.batch == [] && Ledger(s) && Linked(w, s)
    ensures var t := ForwardAll(w, s);
            && s.forwards <= t.forwards
            && JustThese(w, s, t, |s.forwards|, s.hits)
    decreases |s.hits|
  {
    if s.hits != [] {
      hide Ledger, Linked, Went, Apply, JustThese, ForwardAll;
      var u := Apply(w, s, ForwardHit(s.actor));
      ForwardOne(w, s);
      ForwardStep(w, s);
      ForwardAllDoes(w, u);
      FirstStillThere(w, s, u, s.hits[0].id, u.forwards[|s.forwards|]);
      OneMore(w, s, u, ForwardAll(w, u));
    }
  }

  lemma OneMore(w: World, s: SimState, u: SimState, t: SimState)
    requires s.hits != [] && s.actor == u.actor < |s.nodes| == |u.nodes| == |t.nodes| == |w.ids|
    requires |u.forwards| == |s.forwards| + 1 && u.forwards <= t.forwards
    requires u.hits == s.hits[1..] && JustThese(w, u, t, |u.forwards|, u.hits)
    requires Went(w, s, t, s.hits[0].id, u.forwards[|s.forwards|])
    requires forall j :: 0 <= j < |s.nodes| ==> u.nodes[j].online == s.nodes[j].online
    requires u.nodes[s.actor].stored == s.nodes[s.actor].stored - {s.hits[0].id}
    ensures JustThese(w, s, t, |s.forwards|, s.hits)
  {
    forall key, f | Went(w, u, t, key, f) ensures Went(w, s, t, key, f) {
      WentEarlier(w, s, u, t, key, f);
    }
    hide Went;
    assert t.forwards[|s.forwards|] == u.forwards[|s.forwards|];
    assert s.hits == [s.hits[0]] + u.hits;
    forall h | h in s.hits ensures WentSince(w, s, t, |s.forwards|, h.id) {
      if h in u.hits {
        assert WentSince(w, u, t, |u.forwards|, h.id);
      }
    }
    forall i | |s.forwards| <= i < |t.forwards| ensures WentFor(w, s, t, s.hits, t.forwards[i]) {
      if i == |s.forwards| {
        assert s.hits[0] in s.hits;
      } else {
        assert WentFor(w, u, t, u.hits, t.forwards[i]);
      }
    }
  }

  lemma ForwardStep(w: World, s: SimState)
    requires s.hits != [] && s.actor < |s.nodes| == |w.ids| && s.batch == [] && Ledger(s) && Linked(w, s)
    ensures var u := Apply(w, s, ForwardHit(s.actor));
            && Ledger(u) && Linked(w, u) && u.batch == [] && u.actor == s.actor && u.hits == s.hits[1..]
            && ForwardAll(w, s) == ForwardAll(w, u)
  {
    ForwardKeepsLedger(w, s);
    ForwardKeepsLinks(w, s);
  }

  lemma FirstStillThere(w: World, s: SimState, u: SimState, key: string, f: Forward)
    requires |s.nodes| == |u.nodes| == |w.ids| && u.actor == s.actor < |s.nodes|
    requires Went(w, s, u, key, f)
    ensures Went(w, s, ForwardAll(w, u), key, f)
  {
    var t := ForwardAll(w, u);
    var ops := ForwardAllOps(w, u);
    forall j | j in f.targets ensures Envelope(w.ids[s.actor], Announce(f.ann)) in t.nodes[j].queue {
      OtherSteps(w, u, ops, t, j);
    }
  }

  lemma WentEarlier(w: World, s: SimState, u: SimState, t: SimState, key: string, f: Forward)
    requires |s.nodes| == |u.nodes| == |t.nodes| == |w.ids| && u.actor == s.actor < |s.nodes|
    requires forall j :: 0 <= j < |s.nodes| ==> u.nodes[j].online == s.nodes[j].online
    requires exists id :: u.nodes[s.actor].stored == s.nodes[s.actor].stored - {id}
    requires Went(w, u, t, key, f)
    ensures Went(w, s, t, key, f)
  {
  }

  // ---------- one turn ----------

  /// Handling the inbox changes the acting node only, and neither its queue nor whether it is online.
  lemma {:induction false} ProcessFrame(w: World, s: SimState, k: int)
    requires s.actor < |s.nodes| == |w.ids|
    ensures var t := ProcessAll(w, s, k);
            && t.forwards == s.forwards && t.nodes[s.actor].online == s.nodes[s.actor].online
            && forall j :: 0 <= j < |s.nodes| && j != s.actor ==> t.nodes[j] == s.nodes[j]
    decreases |s.batch|
  {
    if s.batch != [] {
      ProcessFrame(w, Apply(w, s, Process(s.actor, k)), k);
    }
  }

  lemma HandledKeeps(w: World, s: SimState, v: nat, k: int)
    requires v < |s.nodes| == |w.ids| && Idle(s) && Ledger(s) && Linked(w, s)
    ensures var p := Handled(w, s, v, k);
            && Ledger(p) && Linked(w, p) && p.forwards == s.forwards
            && (forall j :: 0 <= j < |s.nodes| ==> p.nodes[j].online == s.nodes[j].online)
            && (forall j :: 0 <= j < |s.nodes| && j != v ==> p.nodes[j] == s.nodes[j])
  {
    var drained := Apply(w, s, Drain(v));
    ProcessFrame(w, drained, k);
    hide Ledger, Linked;
    RunsThen(w, s, [], s, Drain(v));
    var ops := ProcessAllOps(w, drained, k);
    RunsConcat(w, s, [] + [Drain(v)], drained, ops, Handled(w, s, v, k));
    StepsKeepLinks(w, s, [] + [Drain(v)] + ops, Handled(w, s, v, k));
  }

  /// The turn of an online node: of its table after handling its inbox, exactly the due notes are
  /// forwarded, and exactly the unexpired ones that are not due stay.
  lemma TurnForwards(w: World, s: SimState, v: nat, k: int)
    requires v < |s.nodes| == |w.ids| && Idle(s) && Ledger(s) && Linked(w, s) && s.nodes[v].online
    ensures var p, t := Handled(w, s, v, k), StepNode(w, s, v, k);
            && s.forwards <= t.forwards
            && (forall n :: n in p.nodes[v].prop.notes && Due(w, v, n, k) ==> WentSince(w, p, t, |s.forwards|, n.id))
            && (forall i :: |s.forwards| <= i < |t.forwards| ==> WentDue(w, p, t, v, k, t.forwards[i]))
            && (forall n :: n in t.nodes[v].prop.notes <==>
                 n in p.nodes[v].prop.notes && Unexpired(w.policy(v), n, k) && !Due(w, v, n, k))
  {
    var p, t := Handled(w, s, v, k), StepNode(w, s, v, k);
    HandledKeeps(w, s, v, k);
    var u := Apply(w, p, TickNode(v, k));
    assert t == ForwardAll(w, u);
    hide Ledger, Linked, Went, Due, Unexpired, Handled, StepNode, ForwardAll, Apply, JustThese;
    TickDoes(w, p, k);
    TickSound(w, p, k);
    ForwardAllDoes(w, u);
    ForwardsKeepTable(w, u);
    TickedGo(w, p, u, t, k);
  }

  ghost predicate WentDue(w: World, p: SimState, t: SimState, v: nat, k: int, f: Forward)
    requires |p.nodes| == |t.nodes| == |w.ids| && p.actor == v < |p.nodes|
  {
    exists n :: n in p.nodes[v].prop.notes && Due(w, v, n, k) && Went(w, p, t, n.id, f)
  }

  lemma TickSound(w: World, p: SimState, k: int)
    requires p.actor < |p.nodes| == |w.ids| && Idle(p) && Ledger(p) && Linked(w, p)
    ensures var u := Apply(w, p, TickNode(p.actor, k)); Ledger(u) && Linked(w, u)
  {
    StepKeepsLedger(w, p, TickNode(p.actor, k));
    StepKeepsLinks(w, p, TickNode(p.actor, k));
  }

  lemma TickedGo(w: World, p: SimState, u: SimState, t: SimState, k: int)
    requires p.actor < |p.nodes| == |t.nodes| == |w.ids| && Idle(p) && u == Apply(w, p, TickNode(p.actor, k))
    requires forall n :: n in u.hits <==> n in p.nodes[p.actor].prop.notes && Due(w, p.actor, n, k)
    requires JustThese(w, u, t, |p.forwards|, u.hits)
    ensures forall n :: n in p.nodes[p.actor].prop.notes && Due(w, p.actor, n, k) ==> WentSince(w, p, t, |p.forwards|, n.id)
    ensures forall i :: |p.forwards| <= i < |t.forwards| ==> WentDue(w, p, t, p.actor, k, t.forwards[i])
  {
    hide Due;
    forall key, f | Went(w, u, t, key, f) ensures Went(w, p, t, key, f) {
      WentUnticked(w, p, k, t, key, f);
    }
    hide Went, Apply;
    forall n | n in u.hits ensures WentSince(w, p, t, |p.forwards|, n.id) {
      assert WentSince(w, u, t, |p.forwards|, n.id);
    }
    forall i | |p.forwards| <= i < |t.forwards| ensures WentDue(w, p, t, p.actor, k, t.forwards[i]) {
      assert WentFor(w, u, t, u.hits, t.forwards[i]);
    }
  }

  lemma TickDoes(w: World, p: SimState, k: int)
    requires p.actor < |p.nodes| == |w.ids| && Idle(p) && Ledger(p)
    ensures var v, u := p.actor, Apply(w, p, TickNode(p.actor, k));
            && u.forwards == p.forwards && u.batch == [] && u.actor == v && |u.nodes| == |p.nodes|
            && (forall n :: n in u.hits <==> n in p.nodes[v].prop.notes && Due(w, v, n, k))
            && (forall n :: n in u.nodes[v].prop.notes <==>
                 n in p.nodes[v].prop.notes && Unexpired(w.policy(v), n, k) && !Due(w, v, n, k))
  {
    Propagation.TickExact(w.policy(p.actor), p.nodes[p.actor].prop, k, w.gamma);
  }

  lemma WentUnticked(w: World, p: SimState, k: int, t: SimState, key: string, f: Forward)
    requires p.actor < |p.nodes| == |t.nodes| == |w.ids| && Idle(p)
    requires Went(w, Apply(w, p, TickNode(p.actor, k)), t, key, f)
    ensures Went(w, p, t, key, f)
  {
  }

  lemma ForwardsKeepTable(w: World, u: SimState)
    requires u.actor < |u.nodes| == |w.ids| && u.batch == [] && Linked(w, u) && Ledger(u)
    ensures ForwardAll(w, u).nodes[u.actor].prop == u.nodes[u.actor].prop
    decreases |u.hits|
  {
    if u.hits != [] {
      hide Ledger, Linked;
      var id := u.hits[0].id;
      HitIsForwardable(w, u);
      ForwardFrame(w, u.(hits := u.hits[1..]), u.actor, id, u.actor);
      ForwardStep(w, u);
      ForwardsKeepTable(w, Apply(w, u, ForwardHit(u.actor)));
    }
  }

  // ---------- one round ----------

  lemma {:induction false} LaterOps(w: World, s: SimState, lo: nat, count: nat, k: int) returns (ops: seq<Op>)
    requires lo <= count <= |s.nodes| == |w.ids| && Idle(s)
    ensures Runs(w, StepNodes(w, s, lo, k), ops, StepNodes(w, s, count, k))
    ensures forall op :: op in ops ==> lo <= op.node < count && ActsOn(op.node, op)
  {
    hide StepNode, Enabled, Runs;
    ops := [];
    NoSteps(w, StepNodes(w, s, lo, k));
    if lo < count {
      var mid := StepNodes(w, s, count - 1, k);
      var front := LaterOps(w, s, lo, count - 1, k);
      var more := StepNodeOps(w, mid, count - 1, k);
      assert StepNodes(w, s, count, k) == StepNode(w, mid, count - 1, k);
      RunsConcat(w, StepNodes(w, s, lo, k), front, mid, more, StepNodes(w, s, count, k));
      ops := front + more;
    }
  }

  lemma NoSteps(w: World, s: SimState)
    ensures Runs(w, s, [], s)
  {
  }

  /// Switching nodes on and off forwards and delivers nothing and only appends to inboxes.
  ghost predicate Quiet(s: SimState, t: SimState) {
    && |t.nodes| == |s.nodes| && t.forwards == s.forwards && t.delivered == s.delivered && t.history == s.history
    && forall j :: 0 <= j < |s.nodes| ==>
         s.nodes[j].queue <= t.nodes[j].queue && t.nodes[j].prop == s.nodes[j].prop && t.nodes[j].stored == s.nodes[j].stored
  }

  lemma {:induction false} OfflineQuiet(w: World, s: SimState, ids: seq<string>, k: int)
    requires |s.nodes| == |w.ids|
    ensures Quiet(s, OfflineAll(w, s, ids, k))
  {
    if ids != [] {
      OfflineQuiet(w, s, ids[..|ids| - 1], k);
    }
  }

  lemma {:induction false} OnlineQuiet(w: World, s: SimState, ids: seq<string>, k: int)
    requires |s.nodes| == |w.ids|
    ensures Quiet(s, OnlineAll(w, s, ids, k))
  {
    if ids != [] {
      var before := OnlineAll(w, s, ids[..|ids| - 1], k);
      OnlineQuiet(w, s, ids[..|ids| - 1], k);
      match First(w.ids, ids[|ids| - 1])
      case None =>
      case Some(v) => ReplayGrows(SetOnline(before.nodes[v], true, k), before.history);
    }
  }

  lemma BegunQuiet(w: World, s: SimState, k: int)
    requires |s.nodes| == |w.ids| && Idle(s)
    ensures Quiet(s, Begun(w, s, k))
  {
    hide OfflineAll, OnlineAll;
    OfflineQuiet(w, StartTick(s), Lookup(w.offline, k), k);
    OnlineQuiet(w, OfflineAll(w, StartTick(s), Lookup(w.offline, k), k), Lookup(w.online, k), k);
  }

  lemma BegunSound(w: World, s: SimState, k: int)
    requires |s.nodes| == |w.ids| && Idle(s) && Ledger(s) && Linked(w, s)
    ensures Ledger(Begun(w, s, k)) && Linked(w, Begun(w, s, k))
  {
    hide Ledger, Linked, Switch;
    var ops := SwitchOps(w, StartTick(s), k);
    TicksKeepLinks(w, s, k);
    StepsKeepLinks(w, StartTick(s), ops, Begun(w, s, k));
  }

  /// When the turn of v comes, earlier nodes have acted and v has not: it is online as it began the
  /// round, with its table, and with at least its inbox.
  lemma TurnComes(w: World, s: SimState, k: int, v: nat)
    requires v <= |s.nodes| == |w.ids| && Idle(s) && Ledger(s) && Linked(w, s)
    ensures var up, b := Begun(w, s, k), BeforeTurn(w, s, k, v);
            && Ledger(b) && Linked(w, b) && up.forwards <= b.forwards
            && (forall i :: |up.forwards| <= i < |b.forwards| ==> b.forwards[i].node < v)
            && (forall j :: 0 <= j < |s.nodes| ==> b.nodes[j].online == up.nodes[j].online)
            && (forall j :: v <= j < |s.nodes| ==> b.nodes[j].prop == up.nodes[j].prop && up.nodes[j].queue <= b.nodes[j].queue)
  {
    hide Ledger, Linked, StepNodes, Apply;
    var up, b := Begun(w, s, k), BeforeTurn(w, s, k, v);
    BegunSound(w, s, k);
    var ops := StepNodesOps(w, up, v, k);
    StepsKeepLinks(w, up, ops, b);
    StepsAct(w, up, ops, b);
    forall j | v <= j < |s.nodes| ensures b.nodes[j].prop == up.nodes[j].prop && up.nodes[j].queue <= b.nodes[j].queue {
      OtherSteps(w, up, ops, b, j);
    }
  }

  /// After the turn of v other nodes act.
  lemma TurnPasses(w: World, s: SimState, k: int, v: nat)
    requires v < |s.nodes| == |w.ids| && Idle(s)
    ensures var a, t := StepNode(w, BeforeTurn(w, s, k, v), v, k), Round(w, s, k);
            && a.forwards <= t.forwards
            && (forall i :: |a.forwards| <= i < |t.forwards| ==> t.forwards[i].node > v)
            && t.nodes[v].prop == a.nodes[v].prop
  {
    hide Apply, StepNode;
    var a, mid := StepNode(w, BeforeTurn(w, s, k, v), v, k), Middle(w, s, k);
    assert a == StepNodes(w, Begun(w, s, k), v + 1, k);
    var ops := LaterOps(w, Begun(w, s, k), v + 1, |s.nodes|, k);
    StepsAct(w, a, ops, mid);
    assert Round(w, s, k) == EndTick(mid, k);
  }

  ghost predicate ForwardOf(w: World, nodes: seq<NodeState>, f: Forward, v: nat, key: string)
    requires |nodes| == |w.ids|
  {
    f.node == v && f.key == key && ReachesOnline(w, nodes, f)
  }

  ghost predicate ForwardedSince(w: World, nodes: seq<NodeState>, forwards: seq<Forward>, lo: nat, v: nat, key: string)
    requires |nodes| == |w.ids|
  {
    exists i :: lo <= i < |forwards| && ForwardOf(w, nodes, forwards[i], v, key)
  }

  /// Progress of a round. Of the table of an online node, once it has handled its inbox, every note
  /// within the age limit whose probability is above the threshold is forwarded in this round, to exactly the
  /// neighbours then online with another id; nothing else is forwarded by it; and exactly the notes within
  /// the limit that are not above the threshold are in its table at the end.
  lemma RoundForwards(w: World, s: SimState, k: int, v: nat)
    requires v < |s.nodes| == |w.ids| && Idle(s) && Ledger(s) && Linked(w, s)
    ensures var up, t, table, p := Begun(w, s, k), Round(w, s, k), Table(w, s, k, v), w.policy(v);
            && s.forwards <= t.forwards
            && (up.nodes[v].online ==> forall n :: n in table && Unexpired(p, n, k) && Chance(p, n, k, w.gamma) > p.threshold ==>
                 ForwardedSince(w, up.nodes, t.forwards, |s.forwards|, v, n.id))
            && (up.nodes[v].online ==> forall n :: n in t.nodes[v].prop.notes <==>
                 n in table && Unexpired(p, n, k) && Chance(p, n, k, w.gamma) <= p.threshold)
            && (forall i :: |s.forwards| <= i < |t.forwards| && t.forwards[i].node == v ==>
                 up.nodes[v].online && DueForward(w, up.nodes, table, v, k, t.forwards[i]))
  {
    hide Ledger, Linked, Round, Begun, BeforeTurn, StepNode, Handled, Idle;
    var up, b, t := Begun(w, s, k), BeforeTurn(w, s, k, v), Round(w, s, k);
    var a := StepNode(w, b, v, k);
    BegunQuiet(w, s, k);
    TurnComes(w, s, k, v);
    TurnPasses(w, s, k, v);
    if up.nodes[v].online {
      HandledKeeps(w, b, v, k);
      TurnForwards(w, b, v, k);
      TurnToRound(w, up.nodes, Handled(w, b, v, k), a, t.forwards, |s.forwards|, |b.forwards|, v, k);
    } else {
      assert a == b by { OfflineTurn(w, b, v, k); }
    }
  }

  lemma OfflineTurn(w: World, b: SimState, v: nat, k: int)
    requires v < |b.nodes| == |w.ids| && Idle(b) && !b.nodes[v].online
    ensures StepNode(w, b, v, k) == b
  {
  }

  ghost predicate DueForward(w: World, nodes: seq<NodeState>, table: seq<Propagation.Note>, v: nat, k: int, f: Forward)
    requires |nodes| == |w.ids|
  {
    exists n :: n in table && Due(w, v, n, k) && ForwardOf(w, nodes, f, v, n.id)
  }

  lemma TurnToRound(w: World, nodes: seq<NodeState>, p: SimState, a: SimState, forwards: seq<Forward>, lo: nat, mid: nat, v: nat, k: int)
    requires |nodes| == |p.nodes| == |a.nodes| == |w.ids| && p.actor == v < |p.nodes| && lo <= mid <= |a.forwards|
    requires forall j :: 0 <= j < |nodes| ==> p.nodes[j].online == nodes[j].online
    requires forall n :: n in p.nodes[v].prop.notes && Due(w, v, n, k) ==> WentSince(w, p, a, mid, n.id)
    requires forall i :: mid <= i < |a.forwards| ==> WentDue(w, p, a, v, k, a.forwards[i])
    requires a.forwards <= forwards
    requires forall i :: lo <= i < mid ==> forwards[i].node < v
    requires forall i :: |a.forwards| <= i < |forwards| ==> forwards[i].node > v
    ensures forall n :: n in p.nodes[v].prop.notes && Due(w, v, n, k) ==> ForwardedSince(w, nodes, forwards, lo, v, n.id)
    ensures forall i :: lo <= i < |forwards| && forwards[i].node == v ==>
              DueForward(w, nodes, p.nodes[v].prop.notes, v, k, forwards[i])
  {
    hide Due;
    forall key, f | Went(w, p, a, key, f) ensures ForwardOf(w, nodes, f, v, key) {
    }
    hide Went, ForwardOf;
    forall n | n in p.nodes[v].prop.notes && Due(w, v, n, k) ensures ForwardedSince(w, nodes, forwards, lo, v, n.id) {
      assert WentSince(w, p, a, mid, n.id);
      var i :| mid <= i < |a.forwards| && Went(w, p, a, n.id, a.forwards[i]);
      assert forwards[i] == a.forwards[i];
    }
    forall i | lo <= i < |forwards| && forwards[i].node == v
      ensures DueForward(w, nodes, p.nodes[v].prop.notes, v, k, forwards[i])
    {
      assert mid <= i < |a.forwards| && forwards[i] == a.forwards[i];
      assert WentDue(w, p, a, v, k, a.forwards[i]);
    }
  }

  // ---------- forwarded announcements arrive ----------

  ghost predicate Told(s: SimState, j: nat, a: Announcement)
    requires j < |s.nodes|
  {
    exists raw :: raw in s.nodes[j].queue && raw.message == Announce(a)
  }

  /// The announcement waits in the inbox of j, or has been delivered there.
  ghost predicate Informed(w: World, s: SimState, j: nat, a: Announcement)
    requires j < |s.nodes| == |w.ids| && Complete(a)
  {
    Told(s, j, a) || IsDelivered(s, a.qkey.value, w.ids[j])
  }

  /// Every target of every forwarding that tolerates the publisher is informed.
  ghost predicate Heard(w: World, s: SimState)
    requires |s.nodes| == |w.ids|
  {
    forall f :: f in s.forwards ==> Complete(f.ann) && HeardOf(w, s, f)
  }

  ghost predicate HeardOf(w: World, s: SimState, f: Forward)
    requires |s.nodes| == |w.ids| && Complete(f.ann)
  {
    forall j :: j in f.targets ==> j < |s.nodes| && (w.rep(j, f.ann.pubkey) >= -0.5 ==> Informed(w, s, j, f.ann))
  }

  lemma InformedOn(w: World, s: SimState, v: nat, k: int, j: nat, a: Announcement)
    requires v < |s.nodes| == |w.ids| && Idle(s) && j < |s.nodes| && Complete(a)
    requires Informed(w, s, j, a) && w.rep(j, a.pubkey) >= -0.5
    ensures Informed(w, StepNode(w, s, v, k), j, a)
  {
    hide StepNode, IsDelivered;
    var ops := StepNodeOps(w, s, v, k);
    if IsDelivered(s, a.qkey.value, w.ids[j]) {
      StepsKeepDelivered(w, s, ops, StepNode(w, s, v, k), a.qkey.value, w.ids[j]);
    } else if v != j {
      OtherSteps(w, s, ops, StepNode(w, s, v, k), j);
    } else if s.nodes[v].online {
      var raw :| raw in s.nodes[j].queue && raw.message == Announce(a);
      StepNodeDelivers(w, s, v, k, raw);
    } else {
      OfflineTurn(w, s, v, k);
    }
  }

  lemma TurnKeepsHeard(w: World, s: SimState, v: nat, k: int)
    requires v < |s.nodes| == |w.ids| && Idle(s) && Ledger(s) && Linked(w, s) && Heard(w, s)
    ensures Heard(w, StepNode(w, s, v, k))
  {
    hide Ledger, Linked, StepNode, Handled, Informed, Complete, Due, Unexpired;
    var t := StepNode(w, s, v, k);
    if s.nodes[v].online {
      TurnForwards(w, s, v, k);
      HandledKeeps(w, s, v, k);
      forall f | f in t.forwards ensures Complete(f.ann) && HeardOf(w, t, f) {
        var i :| 0 <= i < |t.forwards| && t.forwards[i] == f;
        if i < |s.forwards| {
          assert f == s.forwards[i] && HeardOf(w, s, f);
          forall j | j in f.targets && w.rep(j, f.ann.pubkey) >= -0.5 ensures Informed(w, t, j, f.ann) {
            InformedOn(w, s, v, k, j, f.ann);
          }
        } else {
          assert WentDue(w, Handled(w, s, v, k), t, v, k, f);
          WentInforms(w, Handled(w, s, v, k), t, v, k, f);
        }
      }
    } else {
      OfflineTurn(w, s, v, k);
    }
  }

  lemma WentInforms(w: World, p: SimState, t: SimState, v: nat, k: int, f: Forward)
    requires |p.nodes| == |t.nodes| == |w.ids| && p.actor == v < |p.nodes| && WentDue(w, p, t, v, k, f)
    ensures Complete(f.ann) && HeardOf(w, t, f)
  {
    hide Due, IsDelivered;
    forall j | j in f.targets ensures j < |t.nodes| && Informed(w, t, j, f.ann) {
      assert Envelope(w.ids[v], Announce(f.ann)) in t.nodes[j].queue;
    }
  }

  lemma {:induction false} TurnsKeepHeard(w: World, s: SimState, k: int, v: nat)
    requires v <= |s.nodes| == |w.ids| && Idle(s) && Ledger(s) && Linked(w, s) && Heard(w, Begun(w, s, k))
    ensures Heard(w, BeforeTurn(w, s, k, v))
  {
    hide Ledger, Linked, Heard, StepNode, Begun;
    if v > 0 {
      TurnsKeepHeard(w, s, k, v - 1);
      TurnComes(w, s, k, v - 1);
      TurnKeepsHeard(w, BeforeTurn(w, s, k, v - 1), v - 1, k);
      assert BeforeTurn(w, s, k, v) == StepNode(w, BeforeTurn(w, s, k, v - 1), v - 1, k);
    }
  }

  lemma QuietHeard(w: World, s: SimState, t: SimState)
    requires |s.nodes| == |t.nodes| == |w.ids| && Quiet(s, t) && Heard(w, s)
    ensures Heard(w, t)
  {
    hide Complete;
    forall f, j | f in t.forwards && j in f.targets && w.rep(j, f.ann.pubkey) >= -0.5 ensures Complete(f.ann) && j < |t.nodes| && Informed(w, t, j, f.ann) {
      assert HeardOf(w, s, f);
    }
    forall f | f in t.forwards ensures Complete(f.ann) && HeardOf(w, t, f) {
      assert HeardOf(w, s, f);
    }
  }

  lemma RoundKeepsHeard(w: World, s: SimState, k: int)
    requires |s.nodes| == |w.ids| && Idle(s) && Ledger(s) && Linked(w, s) && Heard(w, s)
    ensures Heard(w, Round(w, s, k))
  {
    hide Ledger, Linked, Heard, Begun, StepNodes;
    BegunQuiet(w, s, k);
    QuietHeard(w, s, Begun(w, s, k));
    TurnsKeepHeard(w, s, k, |s.nodes|);
    var mid := BeforeTurn(w, s, k, |s.nodes|);
    assert Round(w, s, k) == EndTick(mid, k) by { RoundIsTurns(w, s, k); }
    QuietHeard(w, mid, EndTick(mid, k));
  }

  lemma RoundIsTurns(w: World, s: SimState, k: int)
    requires |s.nodes| == |w.ids| && Idle(s)
    ensures Round(w, s, k) == EndTick(BeforeTurn(w, s, k, |s.nodes|), k)
  {
  }

  lemma {:induction false} RunKeepsHeard(w: World, s: SimState, k: nat)
    requires Fresh(w, s)
    ensures Ledger(Run(w, s, k)) && Linked(w, Run(w, s, k)) && Heard(w, Run(w, s, k))
  {
    hide Round, Ledger, Linked, Heard;
    FreshIsLinked(w, s);
    RunKeepsLinks(w, s, k);
    if k == 0 {
      FreshHeard(w, s);
    } else {
      RunKeepsHeard(w, s, k - 1);
      RoundKeepsHeard(w, Run(w, s, k - 1), k);
    }
  }

  lemma FreshHeard(w: World, s: SimState)
    requires Fresh(w, s)
    ensures Heard(w, s)
  {
  }

  /// A node that is online in a round takes in what waits in its inbox.
  lemma RoundDelivers(w: World, s: SimState, k: nat, j: nat, a: Announcement)
    requires j < |s.nodes| == |w.ids| && Idle(s) && Begun(w, s, k).nodes[j].online
    requires Complete(a) && w.rep(j, a.pubkey) >= -0.5 && Informed(w, s, j, a)
    ensures IsDelivered(Round(w, s, k), a.qkey.value, w.ids[j])
  {
    hide IsDelivered, StepNodes, Begun;
    if Told(s, j, a) {
      BegunQuiet(w, s, k);
      var raw :| raw in s.nodes[j].queue && raw.message == Announce(a);
      StepNodesDeliver(w, Begun(w, s, k), |s.nodes|, k, j, raw);
      DeliveredAtEnd(w, s, k, a.qkey.value, w.ids[j]);
    } else {
      RoundKeepsDelivered(w, s, k, a.qkey.value, w.ids[j]);
    }
  }

  lemma DeliveredAtEnd(w: World, s: SimState, k: int, qkey: string, id: string)
    requires |s.nodes| == |w.ids| && Idle(s) && IsDelivered(BeforeTurn(w, s, k, |s.nodes|), qkey, id)
    ensures IsDelivered(Round(w, s, k), qkey, id)
  {
  }

  /// A forwarding is delivered by the end of the next round: to every target that is online then and
  /// tolerates the publisher, in every run.
  lemma TargetsHear(w: World, s: SimState, k: nat, f: Forward, j: nat)
    requires Fresh(w, s) && f in Run(w, s, k).forwards && j in f.targets && j < |w.ids|
    requires w.rep(j, f.ann.pubkey) >= -0.5 && Begun(w, Run(w, s, k), k + 1).nodes[j].online
    ensures f.ann.qkey.Some? && IsDelivered(Run(w, s, k + 1), f.ann.qkey.value, w.ids[j])
  {
    hide Ledger, Linked, Begun, Round, IsDelivered;
    RunKeepsHeard(w, s, k);
    assert HeardOf(w, Run(w, s, k), f);
    RoundDelivers(w, Run(w, s, k), k + 1, j, f.ann);
  }

  // ---------- flooding ----------

  /// The node tolerates the publisher, and the chance of an announcement of its is above the threshold at
  /// age 0, whatever node it comes from.
  ghost predicate Eager(w: World, v: nat, a: Announcement) {
    w.rep(v, a.pubkey) >= -0.5 && forall source: int ::
      w.policy(v).prob(w.policy(v).local, source, 0, a.pubkey, w.gamma) > w.policy(v).threshold
  }

  /// Its table has room for every announcement there is, and no other announcement has this one's key.
  ghost predicate Roomy(w: World, v: nat, anns: set<Announcement>, a: Announcement) {
    && |Keys(anns)| <= w.policy(v).maxActive
    && a in anns && Complete(a) && forall b :: b in anns && Key(b) == Key(a) ==> b == a
  }

  /// Every node may have brought in every announcement.
  ghost function Anywhere(anns: set<Announcement>): iset<(nat, Announcement)> {
    iset v: nat, a: Announcement | a in anns :: (v, a)
  }

  ghost predicate Sound(w: World, s: SimState, anns: set<Announcement>) {
    && |s.nodes| == |w.ids| && Idle(s) && Ledger(s) && Linked(w, s) && Provenance(w, Anywhere(anns), s)
    && forall h :: h in s.history ==> h.1 in anns
  }

  /// No note of the announcement waits in the table; whoever was sent it has it waiting or has forwarded it.
  ghost predicate Flowing(w: World, s: SimState, anns: set<Announcement>, a: Announcement)
    requires |s.nodes| == |w.ids|
  {
    forall j :: 0 <= j < |s.nodes| && Eager(w, j, a) && Roomy(w, j, anns, a) ==>
      && Cleared(s, j, Key(a))
      && forall f :: f in s.forwards && f.key == Key(a) && j in f.targets ==> Told(s, j, a) || Passed(s, j, Key(a))
  }

  ghost predicate Cleared(s: SimState, j: nat, key: string)
    requires j < |s.nodes|
  {
    forall n :: n in s.nodes[j].prop.notes ==> n.id != key
  }

  ghost predicate Passed(s: SimState, j: nat, key: string) {
    exists f :: f in s.forwards && f.node == j && f.key == key
  }

  lemma CameFrom(w: World, anns: set<Announcement>, a: Announcement, v: nat)
    requires Came(w, Anywhere(anns), a, v)
    ensures a in anns
  {
  }

  /// Notes of the key of `a` were born in this round by its publisher.
  ghost predicate Young(notes: seq<Propagation.Note>, a: Announcement, k: int) {
    forall n :: n in notes && n.id == Key(a) ==> n.pubkey == a.pubkey && n.bornRound == k
  }

  ghost predicate Noted(t: Propagation.State, key: string) {
    key in t.fetched || exists n :: n in t.notes && n.id == key
  }

  ghost function NoteIds(notes: seq<Propagation.Note>): set<string> {
    set n | n in notes :: n.id
  }

  lemma {:induction false} CountIds(notes: seq<Propagation.Note>)
    requires Propagation.DistinctIds(notes)
    ensures |NoteIds(notes)| == |notes|
  {
    if notes != [] {
      var front, last := notes[..|notes| - 1], notes[|notes| - 1];
      assert notes == front + [last];
      CountIds(front);
      assert NoteIds(notes) == NoteIds(front) + {last.id};
    }
  }

  /// Room for one more key.
  lemma HasRoom(w: World, s: SimState, v: nat, anns: set<Announcement>, key: string)
    requires v < |s.nodes| && Ledger(s) && Linked(w, s) && Provenance(w, Anywhere(anns), s)
    requires key in Keys(anns) && forall n :: n in s.nodes[v].prop.notes ==> n.id != key
    ensures |s.nodes[v].prop.notes| < |Keys(anns)|
  {
    var notes := s.nodes[v].prop.notes;
    assert LinkedNode(w, s.nodes[v], v) && GoodNode(w, Anywhere(anns), s.nodes[v], v);
    forall id | id in NoteIds(notes) ensures id in Keys(anns) {
      CameFrom(w, anns, s.nodes[v].stored[id], v);
    }
    CountIds(notes);
    SubsetSize(NoteIds(notes) + {key}, Keys(anns));
    assert |NoteIds(notes) + {key}| == |notes| + 1;
  }

  /// With room in the table an added id is noted, and noted ids stay noted.
  lemma AddNotes(p: Propagation.Policy, s: Propagation.State, b: Announcement, from: string, k: int, a: Announcement)
    requires Propagation.Ok(s) && ((forall m :: m in s.notes ==> m.id != Key(b)) ==> |s.notes| < p.maxActive)
    requires Young(s.notes, a, k) && (Key(b) == Key(a) ==> b == a)
    ensures var t := Propagation.Add(p, s, Key(b), from, b.pubkey, k);
            Young(t.notes, a, k) && (Noted(s, Key(a)) || b == a ==> Noted(t, Key(a)))
  {
    hide Propagation.Add, Propagation.Ok, Propagation.DistinctIds, Key;
    Propagation.AddExact(p, s, Key(b), from, b.pubkey, k);
    var t := Propagation.Add(p, s, Key(b), from, b.pubkey, k);
    var added := Propagation.Note(Key(b), from, p.indexOf(from), b.pubkey, k);
    if Key(b) !in s.fetched {
      if m :| m in s.notes && m.id == Key(b) {
        var changed := Propagation.Note(Key(b), from, p.indexOf(from), m.pubkey, m.bornRound);
        assert changed in t.notes && changed.id == Key(b);
        forall n | n in s.notes && n.id == Key(a) ensures Noted(t, Key(a)) {
          if Key(a) != Key(b) {
            assert n in t.notes;
          }
        }
      } else {
        assert t.notes == s.notes + [added];
        assert added in t.notes && added.id == Key(b) && forall n :: n in s.notes ==> n in t.notes;
      }
    }
  }

  /// Taking in one announcement.
  lemma ReceiveNotes(w: World, s: SimState, v: nat, anns: set<Announcement>, a: Announcement, b: Announcement, from: string, k: int)
    requires v < |s.nodes| && Ledger(s) && Linked(w, s) && Provenance(w, Anywhere(anns), s)
    requires Roomy(w, v, anns, a) && b in anns && Young(s.nodes[v].prop.notes, a, k)
    ensures var t := Receive(w.policy(v), s.nodes[v], b, from, k).prop;
            Young(t.notes, a, k) && (Noted(s.nodes[v].prop, Key(a)) || b == a ==> Noted(t, Key(a)))
  {
    var n := s.nodes[v];
    if Complete(b) {
      assert Key(b) in Keys(anns);
      if forall m :: m in n.prop.notes ==> m.id != Key(b) {
        HasRoom(w, s, v, anns, Key(b));
      }
      assert Propagation.Ok(n.prop);
      hide Ledger, Linked, Provenance, Keys, Key, Young, Noted, Propagation.Add, Propagation.Ok;
      AddNotes(w.policy(v), n.prop, b, from, k, a);
    }
  }

  /// The announcement is noted after a batch that contains it.
  lemma {:induction false} BatchNotes(w: World, s: SimState, anns: set<Announcement>, a: Announcement, k: int)
    requires s.actor < |s.nodes| == |w.ids| && s.hits == [] && Ledger(s) && Linked(w, s) && Provenance(w, Anywhere(anns), s)
    requires Roomy(w, s.actor, anns, a) && w.rep(s.actor, a.pubkey) >= -0.5 && Young(s.nodes[s.actor].prop.notes, a, k)
    ensures var t := ProcessAll(w, s, k).nodes[s.actor].prop;
            && Young(t.notes, a, k)
            && (Noted(s.nodes[s.actor].prop, Key(a)) || InBatch(s, a) ==> Noted(t, Key(a)))
    decreases |s.batch|
  {
    hide Ledger, Linked, Provenance, Roomy, Young, Noted, Apply, ProcessAll;
    ProcessUnfolds(w, s, k);
    if s.batch != [] {
      var u := Apply(w, s, Process(s.actor, k));
      ProcessSound(w, s, anns, k);
      ProcessOne(w, s, anns, a, k);
      BatchNotes(w, u, anns, a, k);
      assert InBatch(s, a) ==> s.batch[0].message == Announce(a) || InBatch(u, a) by {
        assert s.batch == [s.batch[0]] + s.batch[1..];
      }
    }
  }

  lemma ProcessUnfolds(w: World, s: SimState, k: int)
    requires s.actor < |s.nodes| == |w.ids|
    ensures ProcessAll(w, s, k) == if s.batch == [] then s else ProcessAll(w, Apply(w, s, Process(s.actor, k)), k)
  {
  }

  ghost predicate InBatch(s: SimState, a: Announcement) {
    exists raw :: raw in s.batch && raw.message == Announce(a)
  }

  lemma ProcessSound(w: World, s: SimState, anns: set<Announcement>, k: int)
    requires s.actor < |s.nodes| == |w.ids| && s.hits == [] && s.batch != []
    requires Ledger(s) && Linked(w, s) && Provenance(w, Anywhere(anns), s)
    ensures var u := Apply(w, s, Process(s.actor, k));
            && Ledger(u) && Linked(w, u) && Provenance(w, Anywhere(anns), u) && u.hits == [] && u.batch == s.batch[1..] && u.actor == s.actor
  {
    var op := Process(s.actor, k);
    StepKeepsLedger(w, s, op);
    StepKeepsLinks(w, s, op);
    StepKeepsProvenance(w, Anywhere(anns), s, op);
  }

  lemma ProcessOne(w: World, s: SimState, anns: set<Announcement>, a: Announcement, k: int)
    requires s.actor < |s.nodes| == |w.ids| && s.hits == [] && s.batch != []
    requires Ledger(s) && Linked(w, s) && Provenance(w, Anywhere(anns), s)
    requires Roomy(w, s.actor, anns, a) && w.rep(s.actor, a.pubkey) >= -0.5 && Young(s.nodes[s.actor].prop.notes, a, k)
    ensures var u := Apply(w, s, Process(s.actor, k)).nodes[s.actor].prop;
            && Young(u.notes, a, k)
            && (Noted(s.nodes[s.actor].prop, Key(a)) || s.batch[0].message == Announce(a) ==> Noted(u, Key(a)))
  {
    var raw, v := s.batch[0], s.actor;
    assert raw in s.batch;
    if raw.message.Announce? {
      CameFrom(w, anns, raw.message.ann, v);
      hide Ledger, Linked, Provenance, Young, Noted, Receive;
      ReceiveNotes(w, s, v, anns, a, raw.message.ann, if raw.Envelope? then raw.from else w.ids[v], k);
    }
  }

  // ---------- an eager node passes on what it is told ----------

  lemma HandledSound(w: World, s: SimState, anns: set<Announcement>, v: nat, k: int)
    requires v < |s.nodes| && Sound(w, s, anns)
    ensures var d, p := Apply(w, s, Drain(v)), Handled(w, s, v, k);
            && Ledger(d) && Linked(w, d) && Provenance(w, Anywhere(anns), d)
            && Ledger(p) && Linked(w, p)
  {
    StepKeepsLedger(w, s, Drain(v));
    StepKeepsLinks(w, s, Drain(v));
    StepKeepsProvenance(w, Anywhere(anns), s, Drain(v));
    HandledKeeps(w, s, v, k);
  }

  lemma EagerTrusts(w: World, v: nat, a: Announcement)
    requires Eager(w, v, a)
    ensures w.rep(v, a.pubkey) >= -0.5
  {
  }

  /// In its turn an online eager node with room forwards an announcement it is told of, unless it has
  /// forwarded it before, and keeps no note of it.
  lemma EagerTurn(w: World, s: SimState, anns: set<Announcement>, a: Announcement, v: nat, k: int)
    requires v < |s.nodes| && Sound(w, s, anns) && s.nodes[v].online
    requires Eager(w, v, a) && Roomy(w, v, anns, a) && Cleared(s, v, Key(a))
    ensures var t := StepNode(w, s, v, k);
            Cleared(t, v, Key(a)) && (Told(s, v, a) ==> Passed(t, v, Key(a)))
  {
    var p, t := Handled(w, s, v, k), StepNode(w, s, v, k);
    hide Provenance, Ledger, Linked, Handled, StepNode, Due, Unexpired, Roomy, Noted, Young, Eager;
    EagerTrusts(w, v, a);
    HandledNotes(w, s, anns, a, v, k);
    HandledSound(w, s, anns, v, k);
    HandledKeeps(w, s, v, k);
    TurnForwards(w, s, v, k);
    forall n | n in p.nodes[v].prop.notes && n.id == Key(a) ensures Due(w, v, n, k) {
      YoungIsDue(w, v, a, p.nodes[v].prop.notes, n, k);
    }
    if Told(s, v, a) {
      NotedPasses(w, s, p, t, v, k, Key(a));
    }
  }

  lemma HandledNotes(w: World, s: SimState, anns: set<Announcement>, a: Announcement, v: nat, k: int)
    requires v < |s.nodes| && Sound(w, s, anns)
    requires w.rep(v, a.pubkey) >= -0.5 && Roomy(w, v, anns, a) && Cleared(s, v, Key(a))
    ensures var p := Handled(w, s, v, k).nodes[v].prop;
            Young(p.notes, a, k) && (Told(s, v, a) ==> Noted(p, Key(a)))
  {
    var d := Apply(w, s, Drain(v));
    assert InBatch(d, a) == Told(s, v, a);
    hide Provenance, Ledger, Linked, Handled, Roomy, Noted, ProcessAll;
    HandledSound(w, s, anns, v, k);
    BatchNotes(w, d, anns, a, k);
    HandledIs(w, s, v, k);
  }

  lemma HandledIs(w: World, s: SimState, v: nat, k: int)
    requires v < |s.nodes| == |w.ids| && Idle(s)
    ensures Handled(w, s, v, k) == ProcessAll(w, Apply(w, s, Drain(v)), k)
  {
  }

  lemma YoungIsDue(w: World, v: nat, a: Announcement, notes: seq<Propagation.Note>, n: Propagation.Note, k: int)
    requires Eager(w, v, a) && Young(notes, a, k) && n in notes && n.id == Key(a)
    ensures Due(w, v, n, k)
  {
  }

  lemma NotedPasses(w: World, s: SimState, p: SimState, t: SimState, v: nat, k: int, key: string)
    requires |s.nodes| == |p.nodes| == |t.nodes| == |w.ids| && v < |s.nodes| && p.actor == v && Idle(p) && Linked(w, p)
    requires p.forwards == s.forwards <= t.forwards
    requires Noted(p.nodes[v].prop, key)
    requires forall n :: n in p.nodes[v].prop.notes && n.id == key ==> Due(w, v, n, k)
    requires forall n :: n in p.nodes[v].prop.notes && Due(w, v, n, k) ==> WentSince(w, p, t, |s.forwards|, n.id)
    ensures Passed(t, v, key)
  {
    hide Due;
    if key in p.nodes[v].prop.fetched {
      assert key in KeysBy(p.forwards, v);
      var f :| f in p.forwards && f.node == v && f.key == key;
      assert f in t.forwards;
    } else {
      var n :| n in p.nodes[v].prop.notes && n.id == key;
      assert WentSince(w, p, t, |s.forwards|, key);
      var i :| |s.forwards| <= i < |t.forwards| && Went(w, p, t, key, t.forwards[i]);
      assert t.forwards[i] in t.forwards;
    }
  }

  // ---------- rounds and runs keep announcements flowing ----------

  lemma TurnKeepsSound(w: World, s: SimState, anns: set<Announcement>, v: nat, k: int)
    requires v < |s.nodes| && Sound(w, s, anns)
    ensures Sound(w, StepNode(w, s, v, k), anns)
  {
    hide Ledger, Linked, Provenance, StepNode;
    var t := StepNode(w, s, v, k);
    var ops := StepNodeOps(w, s, v, k);
    StepsKeepLinks(w, s, ops, t);
    StepsKeepProvenance(w, Anywhere(anns), s, ops, t);
  }

  lemma BegunKeepsSound(w: World, s: SimState, anns: set<Announcement>, k: int)
    requires Sound(w, s, anns)
    ensures Sound(w, Begun(w, s, k), anns)
  {
    BegunSound(w, s, k);
    BegunQuiet(w, s, k);
    var down := OfflineAll(w, StartTick(s), Lookup(w.offline, k), k);
    assert Provenance(w, Anywhere(anns), StartTick(s));
    hide Ledger, Linked, Provenance, OfflineAll, OnlineAll;
    var ops := OfflineOps(w, StartTick(s), Lookup(w.offline, k), k);
    StepsKeepProvenance(w, Anywhere(anns), StartTick(s), ops, down);
    OnlineKeepsProvenance(w, Anywhere(anns), down, Lookup(w.online, k), k);
  }

  /// A forwarding of the key of `a` carries `a`.
  lemma CarriesIt(w: World, s: SimState, anns: set<Announcement>, a: Announcement, v: nat, f: Forward)
    requires Provenance(w, Anywhere(anns), s) && Roomy(w, v, anns, a) && f in s.forwards && f.key == Key(a)
    ensures f.ann == a
  {
    assert GoodForward(w, Anywhere(anns), f);
    CameFrom(w, anns, f.ann, f.node);
  }

  lemma TurnKeepsFlowing(w: World, s: SimState, anns: set<Announcement>, a: Announcement, v: nat, k: int)
    requires v < |s.nodes| && Sound(w, s, anns) && Flowing(w, s, anns, a)
    ensures Flowing(w, StepNode(w, s, v, k), anns, a)
  {
    hide Ledger, Linked, Provenance, StepNode, Eager, Roomy;
    var t := StepNode(w, s, v, k);
    if s.nodes[v].online {
      forall j | 0 <= j < |t.nodes| && Eager(w, j, a) && Roomy(w, j, anns, a)
        ensures Cleared(t, j, Key(a))
        ensures forall f :: f in t.forwards && f.key == Key(a) && j in f.targets ==> Told(t, j, a) || Passed(t, j, Key(a))
      {
        if j == v {
          EagerTurn(w, s, anns, a, v, k);
        }
        TurnFlows(w, s, anns, a, v, k, j);
      }
    } else {
      OfflineTurn(w, s, v, k);
    }
  }

  lemma TurnFlows(w: World, s: SimState, anns: set<Announcement>, a: Announcement, v: nat, k: int, j: nat)
    requires v < |s.nodes| && Sound(w, s, anns) && s.nodes[v].online && j < |s.nodes| && Roomy(w, j, anns, a)
    requires Cleared(s, j, Key(a))
    requires forall f :: f in s.forwards && f.key == Key(a) && j in f.targets ==> Told(s, j, a) || Passed(s, j, Key(a))
    requires var t := StepNode(w, s, v, k); j == v ==> Cleared(t, v, Key(a)) && (Told(s, v, a) ==> Passed(t, v, Key(a)))
    ensures var t := StepNode(w, s, v, k);
            && Cleared(t, j, Key(a))
            && forall f :: f in t.forwards && f.key == Key(a) && j in f.targets ==> Told(t, j, a) || Passed(t, j, Key(a))
  {
    hide Ledger, Linked, Provenance, StepNode, Roomy, Due, Unexpired, Handled, Complete;
    var t := StepNode(w, s, v, k);
    var ops := StepNodeOps(w, s, v, k);
    StepsAct(w, s, ops, t);
    if j != v {
      OtherSteps(w, s, ops, t, j);
    }
    TurnKeepsSound(w, s, anns, v, k);
    TurnForwards(w, s, v, k);
    forall f | f in t.forwards && f.key == Key(a) && j in f.targets ensures Told(t, j, a) || Passed(t, j, Key(a)) {
      var i :| 0 <= i < |t.forwards| && t.forwards[i] == f;
      if i < |s.forwards| {
        assert f == s.forwards[i];
      } else {
        CarriesIt(w, t, anns, a, j, f);
        assert WentDue(w, Handled(w, s, v, k), t, v, k, f);
        assert Envelope(w.ids[v], Announce(f.ann)) in t.nodes[j].queue;
      }
    }
  }

  lemma {:induction false} TurnsKeepFlowing(w: World, s: SimState, anns: set<Announcement>, a: Announcement, k: int, v: nat)
    requires v <= |s.nodes| && Sound(w, s, anns) && Flowing(w, s, anns, a)
    ensures var b := BeforeTurn(w, s, k, v); Sound(w, b, anns) && Flowing(w, b, anns, a)
  {
    hide Sound, Flowing, StepNode, Begun;
    BeforeUnfolds(w, s, anns, k, v);
    if v == 0 {
      BegunKeepsSound(w, s, anns, k);
      BegunKeepsFlowing(w, s, anns, a, k);
    } else {
      TurnsKeepFlowing(w, s, anns, a, k, v - 1);
      TurnKeepsSound(w, BeforeTurn(w, s, k, v - 1), anns, v - 1, k);
      TurnKeepsFlowing(w, BeforeTurn(w, s, k, v - 1), anns, a, v - 1, k);
    }
  }

  lemma BeforeUnfolds(w: World, s: SimState, anns: set<Announcement>, k: int, v: nat)
    requires v <= |s.nodes| && Sound(w, s, anns)
    ensures |s.nodes| == |w.ids| && Idle(s)
    ensures BeforeTurn(w, s, k, v) == if v == 0 then Begun(w, s, k) else StepNode(w, BeforeTurn(w, s, k, v - 1), v - 1, k)
  {
  }

  lemma BegunKeepsFlowing(w: World, s: SimState, anns: set<Announcement>, a: Announcement, k: int)
    requires Sound(w, s, anns) && Flowing(w, s, anns, a)
    ensures Flowing(w, Begun(w, s, k), anns, a)
  {
    BegunQuiet(w, s, k);
    QuietFlowing(w, s, Begun(w, s, k), anns, a);
  }

  lemma QuietFlowing(w: World, s: SimState, t: SimState, anns: set<Announcement>, a: Announcement)
    requires |s.nodes| == |t.nodes| == |w.ids| && Quiet(s, t) && Flowing(w, s, anns, a)
    ensures Flowing(w, t, anns, a)
  {
    hide Eager, Roomy;
    forall j | 0 <= j < |t.nodes| && Eager(w, j, a) && Roomy(w, j, anns, a)
      ensures Cleared(t, j, Key(a))
      ensures forall f :: f in t.forwards && f.key == Key(a) && j in f.targets ==> Told(t, j, a) || Passed(t, j, Key(a))
    {
      assert Passed(s, j, Key(a)) ==> Passed(t, j, Key(a));
      assert Told(s, j, a) ==> Told(t, j, a);
    }
  }

  lemma RoundKeepsFlowing(w: World, s: SimState, anns: set<Announcement>, a: Announcement, k: nat)
    requires Sound(w, s, anns) && Flowing(w, s, anns, a)
    ensures Sound(w, Round(w, s, k), anns) && Flowing(w, Round(w, s, k), anns, a)
  {
    hide Flowing, Ledger, Linked, Provenance, BeforeTurn, Round;
    TurnsKeepFlowing(w, s, anns, a, k, |s.nodes|);
    var mid := BeforeTurn(w, s, k, |s.nodes|);
    RoundIsTurns(w, s, k);
    EndKeepsSound(w, mid, anns, k);
    QuietFlowing(w, mid, EndTick(mid, k), anns, a);
  }

  lemma EndKeepsSound(w: World, s: SimState, anns: set<Announcement>, k: int)
    requires Sound(w, s, anns)
    ensures Sound(w, EndTick(s, k), anns)
  {
    TicksKeepLinks(w, s, k);
  }

  lemma {:induction false} RunKeepsFlowing(w: World, s: SimState, anns: set<Announcement>, a: Announcement, k: nat)
    requires Fresh(w, s) && Injected(w, s, anns)
    ensures Sound(w, Run(w, s, k), anns) && Flowing(w, Run(w, s, k), anns, a)
  {
    hide Round, Sound, Flowing, Injected, Fresh;
    FreshSizes(w, s);
    if k == 0 {
      FreshFlows(w, s, anns, a);
    } else {
      RunKeepsFlowing(w, s, anns, a, k - 1);
      RoundKeepsFlowing(w, Run(w, s, k - 1), anns, a, k);
    }
  }

  lemma FreshSizes(w: World, s: SimState)
    requires Fresh(w, s)
    ensures |s.nodes| == |w.ids| && Idle(s)
  {
  }

  lemma FreshFlows(w: World, s: SimState, anns: set<Announcement>, a: Announcement)
    requires Fresh(w, s) && Injected(w, s, anns)
    ensures Sound(w, s, anns) && Flowing(w, s, anns, a)
  {
    FreshIsLinked(w, s);
    forall v | 0 <= v < |s.nodes| ensures GoodNode(w, Anywhere(anns), s.nodes[v], v) {
      forall raw | raw in s.nodes[v].queue ensures RawCame(w, Anywhere(anns), raw, v) {
        if raw.message.Announce? {
          assert TrustedPath(w, raw.message.ann, [v]);
        }
      }
    }
  }

  /// In a round in which it is online, an eager node with room passes on what it was told before.
  lemma EagerRound(w: World, s: SimState, anns: set<Announcement>, a: Announcement, v: nat, k: nat)
    requires v < |s.nodes| && Sound(w, s, anns) && Flowing(w, s, anns, a) && Begun(w, s, k).nodes[v].online
    requires Eager(w, v, a) && Roomy(w, v, anns, a)
    requires Told(s, v, a) || Passed(s, v, Key(a))
    ensures Passed(Round(w, s, k), v, Key(a))
  {
    var b, t := BeforeTurn(w, s, k, v), Round(w, s, k);
    hide Ledger, Linked, Provenance, BeforeTurn, Round, Begun, StepNode, Eager, Roomy;
    RoundForwards(w, s, k, v);
    if Told(s, v, a) {
      BegunQuiet(w, s, k);
      TurnComes(w, s, k, v);
      assert Told(b, v, a);
      TurnsKeepFlowing(w, s, anns, a, k, v);
      EagerTurn(w, b, anns, a, v, k);
      TurnPasses(w, s, k, v);
    }
  }

  /// Every forwarding of a run went to exactly the neighbours that were online in its round.
  lemma {:induction false} RunReaches(w: World, s: SimState, m: nat, f: Forward)
    requires Fresh(w, s) && f in Run(w, s, m).forwards
    ensures exists r: nat :: r < m && ReachesOnline(w, Begun(w, Run(w, s, r), r + 1).nodes, f)
  {
    hide Round, Ledger, Linked, Begun, ReachesOnline;
    if m > 0 {
      var before := Run(w, s, m - 1);
      if f in before.forwards {
        RunReaches(w, s, m - 1, f);
      } else {
        var i :| 0 <= i < |Run(w, s, m).forwards| && Run(w, s, m).forwards[i] == f;
        RunKeepsHeard(w, s, m - 1);
        ForwarderExists(w, s, m, f);
        RoundForwards(w, before, m, f.node);
        assert forall j :: 0 <= j < |before.forwards| ==> Run(w, s, m).forwards[j] == before.forwards[j];
        assert DueForward(w, Begun(w, before, m).nodes, Table(w, before, m, f.node), f.node, m, f);
        assert ReachesOnline(w, Begun(w, Run(w, s, m - 1), (m - 1) + 1).nodes, f);
      }
    }
  }

  lemma ForwarderExists(w: World, s: SimState, m: nat, f: Forward)
    requires Fresh(w, s) && f in Run(w, s, m).forwards
    ensures f.node < |w.ids|
  {
    FreshIsLinked(w, s);
    RunKeepsLinks(w, s, m);
  }

  // ---------- the flood ----------

  ghost predicate OnlineIn(w: World, s: SimState, r: nat, v: nat)
    requires v < |s.nodes| == |w.ids| && Idle(s) && r >= 1
  {
    Begun(w, Run(w, s, r - 1), r).nodes[v].online
  }

  /// A path of neighbours with changing ids, all of which tolerate the publisher, and all but the last of
  /// which are eager and have room.
  ghost predicate Conducts(w: World, anns: set<Announcement>, a: Announcement, path: seq<nat>) {
    && path != []
    && (forall i :: 0 <= i < |path| ==> path[i] < |w.ids| && w.rep(path[i], a.pubkey) >= -0.5)
    && (forall i :: 0 <= i < |path| - 1 ==>
          && path[i + 1] in Neighbours(w, path[i]) && w.ids[path[i + 1]] != w.ids[path[i]]
          && Eager(w, path[i], a) && Roomy(w, path[i], anns, a))
  }

  /// Flooding: what the first node of a conducting path has in its inbox is delivered to the d-th node of
  /// the path by the end of round d, if the nodes of the path are online till then.
  lemma {:induction false} Floods(w: World, s: SimState, anns: set<Announcement>, a: Announcement, path: seq<nat>)
    requires Fresh(w, s) && Injected(w, s, anns) && Complete(a) && Conducts(w, anns, a, path)
    requires Told(s, path[0], a)
    requires forall r, i :: 1 <= r <= |path| && 0 <= i < |path| ==> OnlineIn(w, s, r, path[i])
    ensures var t, v := Run(w, s, |path|), path[|path| - 1];
            && IsDelivered(t, a.qkey.value, w.ids[v])
            && (Eager(w, v, a) && Roomy(w, v, anns, a) ==> Passed(t, v, Key(a)))
    decreases |path|
  {
    hide Round, Begun, Sound, Flowing, Heard, Eager, Roomy, Ledger, Linked, IsDelivered;
    var n := |path| - 1;
    var v, before := path[n], Run(w, s, n);
    assert OnlineIn(w, s, n + 1, v);
    RunKeepsFlowing(w, s, anns, a, n);
    RunKeepsHeard(w, s, n);
    if n > 0 {
      var front := path[..n];
      Floods(w, s, anns, a, front);
      var u := path[n - 1];
      assert front[|front| - 1] == u && Passed(before, u, Key(a));
      var f :| f in before.forwards && f.node == u && f.key == Key(a);
      RunReaches(w, s, n, f);
      var r: nat :| r < n && ReachesOnline(w, Begun(w, Run(w, s, r), r + 1).nodes, f);
      assert OnlineIn(w, s, r + 1, v);
      assert v in f.targets;
      FlowsTo(w, before, anns, a, u, v, f);
    }
    RoundDelivers(w, before, n + 1, v, a);
    if Eager(w, v, a) && Roomy(w, v, anns, a) {
      EagerRound(w, before, anns, a, v, n + 1);
    }
  }

  lemma FlowsTo(w: World, s: SimState, anns: set<Announcement>, a: Announcement, u: nat, v: nat, f: Forward)
    requires v < |s.nodes| && Sound(w, s, anns) && Flowing(w, s, anns, a) && Heard(w, s)
    requires Roomy(w, u, anns, a) && Complete(a) && w.rep(v, a.pubkey) >= -0.5 && f in s.forwards && f.key == Key(a) && v in f.targets
    ensures Informed(w, s, v, a)
    ensures Eager(w, v, a) && Roomy(w, v, anns, a) ==> Told(s, v, a) || Passed(s, v, Key(a))
  {
    hide Ledger, Linked, Eager;
    CarriesIt(w, s, anns, a, u, f);
    assert HeardOf(w, s, f);
  }

  // ---------- published announcements flood ----------

  /// A new simulation nothing was published in yet.
  ghost predicate Blank(w: World, s: SimState) {
    Fresh(w, s) && s.history == [] && forall v :: 0 <= v < |s.nodes| ==> s.nodes[v].queue == []
  }

  ghost function SetOf(published: seq<Announcement>): set<Announcement> {
    set a | a in published
  }

  lemma {:induction false} PublishingInjects(w: World, s: SimState, published: seq<Announcement>, a: Announcement)
    requires Blank(w, s) && s.nodes != []
    ensures Injected(w, PublishSteps(w, s, published), SetOf(published))
    ensures a in published ==> First(w.ids, a.pubkey).GetOr(0) < |w.ids| && Told(PublishSteps(w, s, published), First(w.ids, a.pubkey).GetOr(0), a)
  {
    if published != [] {
      var front, last := published[..|published| - 1], published[|published| - 1];
      assert published == front + [last];
      PublishingInjects(w, s, front, a);
      PublishingKeepsFresh(w, s, front);
      var u, t := PublishSteps(w, s, front), PublishSteps(w, s, published);
      PublishingKeepsFresh(w, s, published);
      forall h | h in t.history ensures h.1 in SetOf(published) {
        FromPublished(published, h);
      }
      var v := First(w.ids, last.pubkey).GetOr(0);
      assert forall j :: 0 <= j < |t.nodes| ==> u.nodes[j].queue <= t.nodes[j].queue;
      assert Envelope(w.ids[v], Announce(last)) in t.nodes[v].queue;
    }
  }

  lemma {:induction false} FromPublished(published: seq<Announcement>, h: (string, Announcement))
    requires h in PublishAll(published)
    ensures h.1 in published
  {
    var front, last := published[..|published| - 1], published[|published| - 1];
    HistoryIsLast(front, h.0, h.1);
    PublishSets(PublishAll(front), last);
    assert published == front + [last];
    if h in PublishAll(front) {
      FromPublished(front, h);
    }
  }

  /// End to end: an announcement published before a run reaches the d-th node of every conducting path
  /// from its publisher's node (or the first one) by the end of round d.
  lemma PublishedFloods(w: World, s: SimState, published: seq<Announcement>, a: Announcement, path: seq<nat>)
    requires Blank(w, s) && s.nodes != [] && a in published && Complete(a)
    requires Conducts(w, SetOf(published), a, path) && path[0] == First(w.ids, a.pubkey).GetOr(0)
    requires forall r, i :: 1 <= r <= |path| && 0 <= i < |path| ==> OnlineIn(w, PublishSteps(w, s, published), r, path[i])
    ensures IsDelivered(Run(w, PublishSteps(w, s, published), |path|), a.qkey.value, w.ids[path[|path| - 1]])
  {
    PublishingKeepsFresh(w, s, published);
    PublishingInjects(w, s, published, a);
    Floods(w, PublishSteps(w, s, published), SetOf(published), a, path);
  }
}

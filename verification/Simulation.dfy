/// The simulation objects (src/sim/runner/simulation.ts, churn.ts, metrics.ts and
/// src/sim/node/sim-node.ts, inbox.ts), proved to take the steps of GossipModel.
module Simulation {
  import opened Wrappers
  import Propagation
  import opened GossipModel

  class Inbox {
    var queue: seq<Raw>
    var online: bool

    constructor ()
      ensures queue == [] && online
    {
      queue, online := [], true;
    }

    method SetOnline(online: bool)
      modifies this
      ensures this.online == online && queue == old(queue)
    {
      this.online := online;
    }

    method Put(raw: Raw)
      modifies this
      ensures online == old(online) && queue == if online then old(queue) + [raw] else old(queue)
    {
      if !online {
        return;
      }
      queue := queue + [raw];
    }

    method Drain() returns (messages: seq<Raw>)
      modifies this
      ensures online == old(online) && queue == [] && messages == old(queue)
    {
      messages := queue;
      queue := [];
    }
  }

  class ChurnSchedule {
    var offlineIndex: map<int, seq<string>>
    var onlineIndex: map<int, seq<string>>

    constructor ()
      ensures offlineIndex == map[] && onlineIndex == map[]
    {
      offlineIndex, onlineIndex := map[], map[];
    }

    method Schedule(nodeId: string, offlineAt: int, onlineAt: int)
      modifies this
      ensures forall r :: Lookup(offlineIndex, r) == Lookup(old(offlineIndex), r) + if r == offlineAt then [nodeId] else []
      ensures forall r :: Lookup(onlineIndex, r) == Lookup(old(onlineIndex), r) + if r == onlineAt then [nodeId] else []
    {
      offlineIndex := offlineIndex[offlineAt := Lookup(offlineIndex, offlineAt) + [nodeId]];
      onlineIndex := onlineIndex[onlineAt := Lookup(onlineIndex, onlineAt) + [nodeId]];
    }
  }

  class MetricsCollector {
    var ticks: map<int, nat>
    var current: Option<nat>
    var delivered: map<string, set<string>>

    constructor ()
      ensures ticks == map[] && current.None? && delivered == map[]
    {
      ticks, current, delivered := map[], None, map[];
    }

    method StartTick(round: int)
      modifies this`current
      ensures current == Some(0)
    {
      current := Some(0);
    }

    method EndTick(round: int)
      modifies this`ticks, this`current
      ensures current == None
      ensures ticks == if old(current).Some? then old(ticks)[round := old(current).value] else old(ticks)
    {
      if current.Some? {
        ticks := ticks[round := current.value];
      }
      current := None;
    }

    method RecordAnnouncementSent()
      modifies this`current
      ensures current == Bump(old(current), 1)
    {
      if current.Some? {
        current := Some(current.value + 1);
      }
    }

    method RecordDelivered(key: string, nodeId: string)
      modifies this`delivered
      ensures delivered == Record(old(delivered), key, nodeId)
    {
      if key !in delivered {
        delivered := delivered[key := {}];
      }
      delivered := delivered[key := delivered[key] + {nodeId}];
    }
  }

  class SimNode {
    const world: World
    const graphIndex: nat
    const propagator: Propagation.Propagator
    const inbox: Inbox
    var online: bool
    var offlineSince: Option<int>
    var announcements: map<string, Announcement>
    var announcementsSent: nat
    var announcementsReceived: nat

    ghost predicate Valid()
      reads this, propagator
    {
      propagator.Valid() && propagator.policy == world.policy(graphIndex)
    }

    ghost function View(): NodeState
      reads this, propagator, inbox
    {
      NodeState(online, offlineSince, inbox.queue, inbox.online, announcements, propagator.View(),
                announcementsSent, announcementsReceived)
    }

    constructor (world: World, graphIndex: nat)
      ensures Valid() && this.world == world && this.graphIndex == graphIndex
      ensures fresh(propagator) && fresh(inbox)
      ensures View() == Blank()
    {
      this.world, this.graphIndex := world, graphIndex;
      propagator := new Propagation.Propagator(world.policy(graphIndex));
      inbox := new Inbox();
      online, offlineSince, announcements := true, None, map[];
      announcementsSent, announcementsReceived := 0, 0;
    }

    method SetOnline(online: bool, round: int)
      requires Valid()
      modifies this, inbox
      ensures Valid() && View() == GossipModel.SetOnline(old(View()), online, round)
    {
      if this.online == online {
        return;
      }
      if !online {
        offlineSince := Some(round);
      }
      this.online := online;
      inbox.SetOnline(online);
    }

    method ReceiveAnnouncement(a: Announcement, from: string, round: int) returns (accepted: bool)
      requires Valid()
      modifies this, propagator
      ensures Valid() && View() == Receive(world.policy(graphIndex), old(View()), a, from, round)
      ensures accepted <==> Complete(a)
    {
      if !Has(a.qkey) || !Has(a.hash) {
        return false;
      }
      var key := Key(a);
      announcementsReceived := announcementsReceived + 1;
      announcements := announcements[key := a];
      propagator.AddNote(key, from, a.pubkey, round);
      return true;
    }

    method CatchUp(history: seq<(string, Announcement)>)
      requires Valid()
      modifies this, inbox
      ensures Valid() && View() == GossipModel.CatchUp(old(View()), history)
    {
      if offlineSince == None {
        return;
      }
      for i := 0 to |history|
        invariant Valid() && View() == Replay(old(View()), history[..i])
      {
        assert history[..i + 1][..i] == history[..i];
        inbox.Put(Envelope(history[i].1.pubkey, Announce(history[i].1)));
      }
      assert history[..|history|] == history;
      offlineSince := None;
    }

    method CountSent()
      requires Valid()
      modifies this`announcementsSent
      ensures Valid() && View() == old(View()).(sent := old(View()).sent + 1)
    {
      announcementsSent := announcementsSent + 1;
    }

    method RemoveAnnouncement(key: string)
      requires Valid()
      modifies this`announcements
      ensures Valid() && View() == old(View()).(stored := old(View()).stored - {key})
    {
      announcements := announcements - {key};
    }

    method Tick(round: int) returns (hits: seq<Propagation.Note>)
      requires Valid()
      modifies propagator
      ensures Valid()
      ensures var (prop, h) := Propagation.Tick(world.policy(graphIndex), old(View()).prop, round, world.gamma);
              View() == old(View()).(prop := prop) && hits == h
    {
      hits := propagator.RunTick(round, world.gamma);
    }
  }

  method BuildNodes(world: World) returns (built: seq<SimNode>, ghost repr: set<object>)
    ensures |built| == |world.ids| && fresh(repr)
    ensures forall i :: 0 <= i < |built| ==> Built(built[i], world, i, repr)
    ensures forall i, j :: 0 <= i < j < |built| ==>
      built[i] != built[j] && built[i].propagator != built[j].propagator && built[i].inbox != built[j].inbox
  {
    built, repr := [], {};
    while |built| < |world.ids|
      invariant |built| <= |world.ids| && fresh(repr)
      invariant forall i :: 0 <= i < |built| ==> Built(built[i], world, i, repr)
      invariant forall i, j :: 0 <= i < j < |built| ==>
        built[i] != built[j] && built[i].propagator != built[j].propagator && built[i].inbox != built[j].inbox
    {
      var node := new SimNode(world, |built|);
      repr := repr + {node, node.propagator, node.inbox};
      built := built + [node];
    }
  }

  /// A node as its constructor leaves it.
  function Blank(): NodeState {
    NodeState(true, None, [], true, map[], Propagation.State([], map[]), 0, 0)
  }

  ghost predicate Built(n: SimNode, world: World, i: nat, repr: set<object>)
    reads n, n.propagator, n.inbox
  {
    && n.Valid() && n.world == world && n.graphIndex == i && n.View() == Blank()
    && n in repr && n.propagator in repr && n.inbox in repr
  }

  class Simulation {
    const world: World
    const nodes: seq<SimNode>
    const metrics: MetricsCollector
    const churn: ChurnSchedule
    var history: seq<(string, Announcement)>

    // what the model records beside the source's fields: forwardings done, and the messages and
    // fetched notes the round is still working through
    ghost var views: seq<NodeState>
    ghost var forwards: seq<Forward>
    ghost var actor: nat
    ghost var batch: seq<Raw>
    ghost var hits: seq<Propagation.Note>

    /// The nodes' objects: distinct for distinct nodes, and apart from the simulation's own.
    ghost const repr: set<object>

    ghost predicate Apart() {
      && (forall i, j :: 0 <= i < j < |nodes| ==>
           nodes[i] != nodes[j] && nodes[i].propagator != nodes[j].propagator && nodes[i].inbox != nodes[j].inbox)
      && (forall i :: 0 <= i < |nodes| ==> nodes[i].graphIndex == i && nodes[i].world == world)
      && |nodes| == |world.ids|
      && (forall i :: 0 <= i < |nodes| ==> nodes[i] in repr && nodes[i].propagator in repr && nodes[i].inbox in repr)
      && this !in repr && metrics !in repr && churn !in repr
    }

    /// `views` holds what the nodes are as values.
    ghost predicate Valid()
      reads this, repr
    {
      && Apart()
      && |views| == |nodes|
      && forall i :: 0 <= i < |nodes| ==> nodes[i].Valid() && views[i] == nodes[i].View()
    }

    ghost function View(): SimState
      reads this, metrics
    {
      SimState(views, history, metrics.delivered, metrics.current, metrics.ticks, forwards, actor, batch, hits)
    }

    /// The world with the churn schedule as it stands.
    ghost function W(): World
      reads churn
    {
      world.(offline := churn.offlineIndex, online := churn.onlineIndex)
    }

    constructor (world: World)
      ensures Valid() && fresh(repr) && fresh(metrics) && fresh(churn)
      ensures this.world == world && W() == world.(offline := map[], online := map[])
      ensures View() == SimState(seq(|world.ids|, i => Blank()), [], map[], None, map[], [], 0, [], [])
    {
      this.world := world;
      var built;
      ghost var objects;
      built, objects := BuildNodes(world);
      nodes, repr := built, objects;
      metrics := new MetricsCollector();
      churn := new ChurnSchedule();
      history := [];
      views := seq(|world.ids|, i => Blank());
      forwards, actor, batch, hits := [], 0, [], [];
    }

    method FindNode(id: string) returns (v: Option<nat>)
      requires Valid()
      ensures v == First(world.ids, id)
    {
      for i := 0 to |nodes|
        invariant First(world.ids[..i], id).None?
      {
        assert world.ids[..i + 1][..i] == world.ids[..i];
        if world.ids[i] == id {
          return Some(i);
        }
      }
      assert world.ids[..|nodes|] == world.ids;
      return None;
    }

    method PublishAnnouncement(a: Announcement) returns (key: string)
      requires Valid()
      modifies this`views, this`history, metrics`current, repr
      ensures Valid() && View() == PublishStep(W(), old(View()), a)
      ensures key == Key(a) && (key, a) in history
    {
      hide SimNode.Valid, SimNode.View, Publish, First, Enqueue;
      key := Key(a);
      PublishedLast(history, a);
      history := Publish(history, a);
      var found := FindNode(a.pubkey);
      if |nodes| == 0 {
        return;
      }
      var v := found.GetOr(0);
      PutAt(v, Envelope(world.ids[v], Announce(a)));
      metrics.RecordAnnouncementSent();
    }

    /// `inbox.enqueueFrom` on one node.
    method PutAt(v: nat, raw: Raw)
      requires Valid() && v < |nodes|
      modifies this`views, nodes[v].inbox
      ensures Valid() && views == old(views)[v := Enqueue(old(views)[v], raw)]
    {
      nodes[v].inbox.Put(raw);
      views := views[v := nodes[v].View()];
    }

    method ReceiveAt(v: nat, a: Announcement, from: string, round: int)
      requires Valid() && v < |nodes|
      modifies this`views, nodes[v], nodes[v].propagator
      ensures Valid()
      ensures views == old(views)[v := Receive(world.policy(v), old(views)[v], a, from, round)]
    {
      var _ := nodes[v].ReceiveAnnouncement(a, from, round);
      views := views[v := nodes[v].View()];
    }

    method TakeNodeOffline(v: nat, round: int)
      requires Valid() && v < |nodes|
      modifies this`views, nodes[v], nodes[v].inbox
      ensures Valid() && View() == Apply(W(), old(View()), TakeOffline(v, round))
    {
      nodes[v].SetOnline(false, round);
      views := views[v := nodes[v].View()];
    }

    method BringNodeOnline(v: nat, round: int)
      requires Valid() && v < |nodes|
      modifies this`views, nodes[v], nodes[v].inbox
      ensures Valid() && View() == Apply(W(), old(View()), BringOnline(v, round))
    {
      nodes[v].SetOnline(true, round);
      nodes[v].CatchUp(history);
      views := views[v := nodes[v].View()];
    }

    method DrainNode(v: nat) returns (messages: seq<Raw>)
      requires Valid() && v < |nodes| && batch == [] && hits == []
      modifies this`views, this`batch, this`actor, nodes[v].inbox
      ensures Valid() && View() == Apply(W(), old(View()), Drain(v))
      ensures messages == batch && actor == v
    {
      messages := nodes[v].inbox.Drain();
      batch, actor := messages, v;
      views := views[v := nodes[v].View()];
    }

    method ProcessNext(v: nat, raw: Raw, round: int)
      requires Valid() && v < |nodes| && batch != [] && batch[0] == raw && actor == v
      modifies this`views, this`batch, metrics`delivered, nodes[v], nodes[v].propagator
      ensures Valid() && View() == Apply(W(), old(View()), Process(v, round))
      ensures batch == old(batch)[1..] && actor == v
    {
      hide SimNode.Valid, SimNode.View, Receive, Record;
      batch := batch[1..];
      var from := if raw.Envelope? then raw.from else world.ids[v];
      if raw.message.Other? {
        return;
      }
      var a := raw.message.ann;
      if !Has(a.qkey) {
        return;
      }
      if world.rep(v, a.pubkey) < -0.5 {
        return;
      }
      ReceiveAt(v, a, from, round);
      metrics.RecordDelivered(a.qkey.value, world.ids[v]);
    }

    method TickOne(v: nat, round: int) returns (found: seq<Propagation.Note>)
      requires Valid() && v < |nodes| && batch == [] && hits == [] && actor == v
      modifies this`views, this`hits, nodes[v].propagator
      ensures Valid() && View() == Apply(W(), old(View()), TickNode(v, round))
      ensures found == hits && actor == v
    {
      found := nodes[v].Tick(round);
      hits := found;
      views := views[v := nodes[v].View()];
    }

    static lemma {:induction false} SendKeepsOnline(nodes: seq<NodeState>, targets: seq<nat>, raw: Raw, j: nat)
      requires j < |nodes| && forall i :: 0 <= i < |targets| ==> targets[i] < |nodes|
      ensures SendAll(nodes, targets, raw)[j].online == nodes[j].online
    {
      if targets != [] {
        SendKeepsOnline(nodes, targets[..|targets| - 1], raw, j);
      }
    }

    static lemma SpreadKeepsOnline(nodes: seq<NodeState>, targets: seq<nat>, raw: Raw, v: nat, j: nat)
      requires v < |nodes| && j < |nodes| && forall i :: 0 <= i < |targets| ==> targets[i] < |nodes|
      ensures Spread(nodes, targets, raw, v)[j].online == nodes[j].online
    {
      SendKeepsOnline(nodes, targets, raw, j);
    }

    /// One more target: one more enqueue there, one more on the sender's counter.
    static lemma SpreadMore(nodes: seq<NodeState>, targets: seq<nat>, j: nat, raw: Raw, v: nat)
      requires v < |nodes| && j < |nodes| && j != v
      requires forall i :: 0 <= i < |targets| ==> targets[i] < |nodes|
      ensures var r := Spread(nodes, targets, raw, v);
              var sent := r[j := Enqueue(r[j], raw)];
              Spread(nodes, targets + [j], raw, v) == sent[v := sent[v].(sent := sent[v].sent + 1)]
    {
    }

    static lemma SpreadNone(nodes: seq<NodeState>, raw: Raw, v: nat)
      requires v < |nodes|
      ensures Spread(nodes, [], raw, v) == nodes
    {
    }

    static lemma TargetsMore(w: World, nodes: seq<NodeState>, v: nat, nbrs: seq<nat>, k: nat)
      requires v < |nodes| == |w.ids| && k < |nbrs|
      ensures var before := Targets(w, nodes, v, nbrs[..k]);
              Targets(w, nodes, v, nbrs[..k + 1]) == if Sends(w, nodes, v, nbrs[k]) then before + [nbrs[k]] else before
    {
      assert nbrs[..k + 1][..k] == nbrs[..k];
    }

    /// One send of the neighbour loop.
    method SendTo(v: nat, j: nat, raw: Raw)
      requires Valid() && v < |nodes| && j < |nodes| && j != v
      modifies this`views, metrics`current, nodes[j].inbox, nodes[v]
      ensures Valid() && metrics.current == Bump(old(metrics.current), 1)
      ensures var sent := old(views)[j := Enqueue(old(views)[j], raw)];
              views == sent[v := sent[v].(sent := sent[v].sent + 1)]
    {
      hide SimNode.Valid, SimNode.View, Enqueue;
      PutAt(j, raw);
      nodes[v].CountSent();
      views := views[v := nodes[v].View()];
      metrics.RecordAnnouncementSent();
    }

    /// One turn of the neighbour loop: an unknown, offline or same-named target is skipped.
    method Consider(v: nat, j: nat, raw: Raw) returns (sent: bool)
      requires Valid() && v < |nodes|
      modifies this`views, metrics`current, repr
      ensures Valid() && sent == Sends(W(), old(views), v, j)
      ensures sent ==> j < |nodes| && j != v && metrics.current == Bump(old(metrics.current), 1)
      ensures sent ==> (var spread := old(views)[j := Enqueue(old(views)[j], raw)];
                        views == spread[v := spread[v].(sent := spread[v].sent + 1)])
      ensures !sent ==> views == old(views) && metrics.current == old(metrics.current)
    {
      if j >= |nodes| || !nodes[j].online || world.ids[j] == world.ids[v] {
        return false;
      }
      SendTo(v, j, raw);
      return true;
    }

    method SendToNeighbours(v: nat, raw: Raw) returns (ghost targets: seq<nat>)
      requires Valid() && v < |nodes|
      modifies this`views, metrics`current, repr
      ensures Valid() && targets == Targets(W(), old(views), v, Neighbours(world, v))
      ensures views == Spread(old(views), targets, raw, v) && metrics.current == Bump(old(metrics.current), |targets|)
    {
      hide Targets, Spread, Enqueue, SimNode.Valid, SimNode.View;
      var neighbours := Neighbours(world, v);
      ghost var w, before := W(), views;
      targets := [];
      SpreadNone(before, raw, v);
      for k := 0 to |neighbours|
        invariant Valid()
        invariant targets == Targets(w, before, v, neighbours[..k])
        invariant views == Spread(before, targets, raw, v) && metrics.current == Bump(old(metrics.current), |targets|)
      {
        var j := neighbours[k];
        TargetsMore(w, before, v, neighbours, k);
        if j < |nodes| {
          SpreadKeepsOnline(before, targets, raw, v, j);
        }
        var sent := Consider(v, j, raw);
        if sent {
          SpreadMore(before, targets, j, raw, v);
          targets := targets + [j];
        }
      }
      assert neighbours[..|neighbours|] == neighbours;
    }

    method ForwardStored(v: nat, noteId: string, a: Announcement)
      requires Valid() && v < |nodes| && noteId in views[v].stored && a == views[v].stored[noteId]
      requires Complete(a) && Trusts(world, v, a)
      modifies this`views, this`forwards, metrics`current, repr
      ensures Valid() && View() == ForwardNote(W(), old(View()), v, noteId)
    {
      hide Targets, Spread, Key, Complete, SimNode.Valid, SimNode.View;
      ghost var targets := SendToNeighbours(v, Envelope(world.ids[v], Announce(a)));
      nodes[v].RemoveAnnouncement(noteId);
      views := views[v := nodes[v].View()];
      forwards := forwards + [Forward(v, noteId, a, targets)];
    }

    method ForwardFetched(v: nat, noteId: string)
      requires Valid() && v < |nodes| && hits != [] && hits[0].id == noteId && actor == v
      modifies this`views, this`hits, this`forwards, metrics`current, repr
      ensures Valid() && View() == Apply(W(), old(View()), ForwardHit(v))
      ensures hits == old(hits)[1..] && actor == v
    {
      hide Targets, Spread, Key, SimNode.Valid;
      hits := hits[1..];
      if noteId !in nodes[v].announcements {
        return;
      }
      var a := nodes[v].announcements[noteId];
      if !Has(a.qkey) || !Has(a.hash) {
        return;
      }
      if world.rep(v, a.pubkey) < -0.5 {
        return;
      }
      ForwardStored(v, noteId, a);
    }

    method StepOneNode(v: nat, round: int)
      requires Valid() && v < |nodes| && Idle(View())
      modifies this, metrics, repr
      ensures Valid() && View() == StepNode(W(), old(View()), v, round)
      ensures history == old(history)
    {
      hide Apply, ProcessAll, ForwardAll;
      if !nodes[v].online {
        return;
      }
      var messages := DrainNode(v);
      ProcessMessages(v, messages, round);
      var found := TickOne(v, round);
      ForwardNotes(v, found);
    }

    method ProcessMessages(v: nat, messages: seq<Raw>, round: int)
      requires Valid() && v < |nodes| && actor == v && batch == messages && hits == []
      modifies this`views, this`batch, metrics`delivered, repr
      ensures Valid() && View() == ProcessAll(W(), old(View()), round)
    {
      hide Apply;
      ghost var goal := ProcessAll(W(), View(), round);
      for i := 0 to |messages|
        invariant Valid() && actor == v && batch == messages[i..] && hits == []
        invariant ProcessAll(W(), View(), round) == goal
      {
        ProcessNext(v, messages[i], round);
      }
    }

    method ForwardNotes(v: nat, found: seq<Propagation.Note>)
      requires Valid() && v < |nodes| && actor == v && batch == [] && hits == found
      modifies this`views, this`hits, this`forwards, metrics`current, repr
      ensures Valid() && View() == ForwardAll(W(), old(View()))
    {
      hide Apply;
      ghost var goal := ForwardAll(W(), View());
      for i := 0 to |found|
        invariant Valid() && actor == v && batch == [] && hits == found[i..]
        invariant ForwardAll(W(), View()) == goal
      {
        ForwardFetched(v, found[i].id);
      }
    }

    method SwitchOff(ids: seq<string>, round: int)
      requires Valid()
      modifies this`views, repr
      ensures Valid() && View() == OfflineAll(W(), old(View()), ids, round)
    {
      for i := 0 to |ids|
        invariant Valid() && View() == OfflineAll(W(), old(View()), ids[..i], round)
      {
        assert ids[..i + 1][..i] == ids[..i];
        var found := FindNode(ids[i]);
        if found != None {
          TakeNodeOffline(found.value, round);
        }
      }
      assert ids[..|ids|] == ids;
    }

    method SwitchOn(ids: seq<string>, round: int)
      requires Valid()
      modifies this`views, repr
      ensures Valid() && View() == OnlineAll(W(), old(View()), ids, round)
    {
      for i := 0 to |ids|
        invariant Valid() && View() == OnlineAll(W(), old(View()), ids[..i], round)
      {
        assert ids[..i + 1][..i] == ids[..i];
        var found := FindNode(ids[i]);
        if found != None {
          BringNodeOnline(found.value, round);
        }
      }
      assert ids[..|ids|] == ids;
    }

    method RunRound(round: int)
      requires Valid() && Idle(View())
      modifies this, metrics, repr
      ensures Valid() && Idle(View()) && View() == Round(W(), old(View()), round)
    {
      metrics.StartTick(round);
      SwitchOff(Lookup(churn.offlineIndex, round), round);
      SwitchOn(Lookup(churn.onlineIndex, round), round);
      ghost var s := View();
      for v := 0 to |nodes|
        invariant Valid() && Idle(View()) && View() == StepNodes(W(), s, v, round)
      {
        StepOneNode(v, round);
      }
      metrics.EndTick(round);
    }

    /// The whole simulation is the model's run.
    method Run(tickCount: nat)
      requires Valid() && Idle(View())
      modifies this, metrics, repr
      ensures Valid() && View() == GossipModel.Run(W(), old(View()), tickCount)
    {
      for round := 1 to tickCount + 1
        invariant Valid() && Idle(View()) && View() == GossipModel.Run(W(), old(View()), round - 1)
      {
        RunRound(round);
      }
    }
  }
}

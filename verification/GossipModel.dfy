/// The gossip simulation as a state machine on values
/// (src/sim/runner/simulation.ts, src/sim/node/sim-node.ts, src/sim/node/inbox.ts).
/// The classes in Simulation.dfy are proved equal to these functions.
module GossipModel {
  import opened Wrappers
  import Propagation

  /// An announcement: its publisher, the two tags the simulation reads, and everything else (size, pieces, ttl,
  /// url, name, content, time), which travels along unread.
  datatype Announcement = Announcement(pubkey: string, qkey: Option<string>, hash: Option<string>, details: seq<seq<string>>)

  /// `Other` stands for every value that is not an object of kind 10800.
  datatype Message = Announce(ann: Announcement) | Other

  /// What an inbox holds: `enqueueFrom` wraps the message, `enqueue` does not.
  datatype Raw = Envelope(from: string, message: Message) | Bare(message: Message)

  datatype NodeState = NodeState(
    online: bool,
    offlineSince: Option<int>,
    queue: seq<Raw>,
    inboxOnline: bool,
    stored: map<string, Announcement>,
    prop: Propagation.State,
    sent: nat,
    received: nat)

  /// One completed forwarding of an announcement to the neighbours that were online.
  datatype Forward = Forward(node: nat, key: string, ann: Announcement, targets: seq<nat>)

  /// What does not change during a run.
  datatype World = World(
    ids: seq<string>,
    nbrs: seq<seq<nat>>,
    rep: (nat, string) -> real,
    policy: nat -> Propagation.Policy,
    gamma: real,
    offline: map<int, seq<string>>,
    online: map<int, seq<string>>)

  /// `batch` and `hits` are the drained messages and fetched notes of node `actor` that the round
  /// still has to handle; `forwards` is the ledger of forwardings done.
  datatype SimState = SimState(
    nodes: seq<NodeState>,
    history: seq<(string, Announcement)>,
    delivered: map<string, set<string>>,
    current: Option<nat>,
    ticks: map<int, nat>,
    forwards: seq<Forward>,
    actor: nat,
    batch: seq<Raw>,
    hits: seq<Propagation.Note>)

  predicate Has(tag: Option<string>) {
    tag.Some? && tag.value != ""
  }

  predicate Complete(a: Announcement) {
    Has(a.qkey) && Has(a.hash)
  }

  function Key(a: Announcement): string {
    a.pubkey + "|" + a.qkey.GetOr("") + "|" + a.hash.GetOr("")
  }

  predicate Trusts(w: World, v: nat, a: Announcement) {
    !(w.rep(v, a.pubkey) < -0.5)
  }

  /// `nodes.find` by id.
  function First(ids: seq<string>, id: string): (r: Option<nat>)
    ensures r.Some? ==> r.value < |ids| && ids[r.value] == id
    ensures r.Some? ==> forall j :: 0 <= j < r.value ==> ids[j] != id
    ensures r.None? ==> id !in ids
  {
    if ids == [] then None
    else
      match First(ids[..|ids| - 1], id)
      case Some(i) => Some(i)
      case None => if ids[|ids| - 1] == id then Some(|ids| - 1) else None
  }

  function Lookup(m: map<int, seq<string>>, round: int): seq<string> {
    if round in m then m[round] else []
  }

  function Neighbours(w: World, v: nat): seq<nat> {
    if v < |w.nbrs| then w.nbrs[v] else []
  }

  // ---------- one node ----------

  function Enqueue(n: NodeState, raw: Raw): NodeState {
    if n.inboxOnline then n.(queue := n.queue + [raw]) else n
  }

  function SetOnline(n: NodeState, online: bool, round: int): NodeState {
    if n.online == online then n
    else n.(online := online, inboxOnline := online,
            offlineSince := if online then n.offlineSince else Some(round))
  }

  function Replay(n: NodeState, history: seq<(string, Announcement)>): NodeState {
    if history == [] then n
    else
      var a := history[|history| - 1].1;
      Enqueue(Replay(n, history[..|history| - 1]), Envelope(a.pubkey, Announce(a)))
  }

  function CatchUp(n: NodeState, history: seq<(string, Announcement)>): NodeState {
    if n.offlineSince.None? then n else Replay(n, history).(offlineSince := None)
  }

  function Receive(p: Propagation.Policy, n: NodeState, a: Announcement, from: string, round: int): NodeState {
    if !Complete(a) then n
    else
      n.(received := n.received + 1,
         stored := n.stored[Key(a) := a],
         prop := Propagation.Add(p, n.prop, Key(a), from, a.pubkey, round))
  }

  // ---------- the steps of a round ----------

  datatype Op =
    | TakeOffline(node: nat, round: int)
    | BringOnline(node: nat, round: int)
    | Drain(node: nat)
    | Process(node: nat, round: int)
    | TickNode(node: nat, round: int)
    | ForwardHit(node: nat)

  function Record(delivered: map<string, set<string>>, qkey: string, id: string): map<string, set<string>> {
    delivered[qkey := (if qkey in delivered then delivered[qkey] else {}) + {id}]
  }

  function Bump(current: Option<nat>, n: nat): Option<nat> {
    if current.Some? then Some(current.value + n) else None
  }

  function ProcessMessage(w: World, s: SimState, v: nat, raw: Raw, round: int): SimState
    requires v < |s.nodes| == |w.ids|
  {
    var from := if raw.Envelope? then raw.from else w.ids[v];
    if raw.message.Other? then s
    else
      var a := raw.message.ann;
      if !Has(a.qkey) || !Trusts(w, v, a) then s
      else
        s.(nodes := s.nodes[v := Receive(w.policy(v), s.nodes[v], a, from, round)],
           delivered := Record(s.delivered, a.qkey.value, w.ids[v]))
  }

  predicate Sends(w: World, nodes: seq<NodeState>, v: nat, j: nat)
    requires v < |nodes| == |w.ids|
  {
    j < |nodes| && nodes[j].online && w.ids[j] != w.ids[v]
  }

  function Targets(w: World, nodes: seq<NodeState>, v: nat, nbrs: seq<nat>): (r: seq<nat>)
    requires v < |nodes| == |w.ids|
    ensures |r| <= |nbrs|
    ensures forall j :: j in r <==> j in nbrs && Sends(w, nodes, v, j)
    ensures forall i :: 0 <= i < |r| ==> r[i] < |nodes|
  {
    if nbrs == [] then []
    else
      var j := nbrs[|nbrs| - 1];
      Targets(w, nodes, v, nbrs[..|nbrs| - 1]) + if Sends(w, nodes, v, j) then [j] else []
  }

  function SendAll(nodes: seq<NodeState>, targets: seq<nat>, raw: Raw): (r: seq<NodeState>)
    requires forall i :: 0 <= i < |targets| ==> targets[i] < |nodes|
    ensures |r| == |nodes|
  {
    if targets == [] then nodes
    else
      var last := |targets| - 1;
      var r := SendAll(nodes, targets[..last], raw);
      r[targets[last] := Enqueue(r[targets[last]], raw)]
  }

  /// `SendAll` with the sender's counter.
  function Spread(nodes: seq<NodeState>, targets: seq<nat>, raw: Raw, v: nat): (r: seq<NodeState>)
    requires v < |nodes| && forall i :: 0 <= i < |targets| ==> targets[i] < |nodes|
    ensures |r| == |nodes|
  {
    var r := SendAll(nodes, targets, raw);
    r[v := r[v].(sent := r[v].sent + |targets|)]
  }

  function ForwardNote(w: World, s: SimState, v: nat, id: string): SimState
    requires v < |s.nodes| == |w.ids|
  {
    if id !in s.nodes[v].stored then s
    else
      var a := s.nodes[v].stored[id];
      if !Complete(a) || !Trusts(w, v, a) then s
      else
        var targets := Targets(w, s.nodes, v, Neighbours(w, v));
        var nodes := Spread(s.nodes, targets, Envelope(w.ids[v], Announce(a)), v);
        s.(nodes := nodes[v := nodes[v].(stored := nodes[v].stored - {id})],
           current := Bump(s.current, |targets|),
           forwards := s.forwards + [Forward(v, id, a, targets)])
  }

  predicate Enabled(w: World, s: SimState, op: Op) {
    && op.node < |s.nodes| == |w.ids|
    && (op.Process? ==> s.batch != [] && op.node == s.actor)
    && (op.Drain? ==> s.batch == [] && s.hits == [])
    && (op.TickNode? ==> s.batch == [] && s.hits == [] && op.node == s.actor)
    && (op.ForwardHit? ==> s.hits != [] && op.node == s.actor)
  }

  function Apply(w: World, s: SimState, op: Op): (t: SimState)
    requires Enabled(w, s, op)
    ensures |t.nodes| == |s.nodes| && t.history == s.history && t.ticks == s.ticks
  {
    var v := op.node;
    var n := s.nodes[v];
    match op
    case TakeOffline(_, round) => s.(nodes := s.nodes[v := SetOnline(n, false, round)])
    case BringOnline(_, round) => s.(nodes := s.nodes[v := CatchUp(SetOnline(n, true, round), s.history)])
    case Drain(_) => s.(nodes := s.nodes[v := n.(queue := [])], batch := n.queue, actor := v)
    case Process(_, round) => ProcessMessage(w, s.(batch := s.batch[1..]), v, s.batch[0], round)
    case TickNode(_, round) =>
      var (prop, hits) := Propagation.Tick(w.policy(v), n.prop, round, w.gamma);
      s.(nodes := s.nodes[v := n.(prop := prop)], hits := hits)
    case ForwardHit(_) => ForwardNote(w, s.(hits := s.hits[1..]), v, s.hits[0].id)
  }

  // ---------- a round and a run ----------

  function OfflineAll(w: World, s: SimState, ids: seq<string>, round: int): (t: SimState)
    requires |s.nodes| == |w.ids|
    ensures |t.nodes| == |s.nodes| && t.batch == s.batch && t.hits == s.hits
  {
    if ids == [] then s
    else
      var s' := OfflineAll(w, s, ids[..|ids| - 1], round);
      match First(w.ids, ids[|ids| - 1])
      case None => s'
      case Some(v) => Apply(w, s', TakeOffline(v, round))
  }

  function OnlineAll(w: World, s: SimState, ids: seq<string>, round: int): (t: SimState)
    requires |s.nodes| == |w.ids|
    ensures |t.nodes| == |s.nodes| && t.batch == s.batch && t.hits == s.hits
  {
    if ids == [] then s
    else
      var s' := OnlineAll(w, s, ids[..|ids| - 1], round);
      match First(w.ids, ids[|ids| - 1])
      case None => s'
      case Some(v) => Apply(w, s', BringOnline(v, round))
  }

  function ProcessAll(w: World, s: SimState, round: int): (t: SimState)
    requires s.actor < |s.nodes| == |w.ids|
    ensures |t.nodes| == |s.nodes| && t.actor == s.actor && t.batch == [] && t.hits == s.hits
    decreases |s.batch|
  {
    if s.batch == [] then s else ProcessAll(w, Apply(w, s, Process(s.actor, round)), round)
  }

  function ForwardAll(w: World, s: SimState): (t: SimState)
    requires s.actor < |s.nodes| == |w.ids|
    ensures |t.nodes| == |s.nodes| && t.actor == s.actor && t.batch == s.batch && t.hits == []
    decreases |s.hits|
  {
    if s.hits == [] then s else ForwardAll(w, Apply(w, s, ForwardHit(s.actor)))
  }

  predicate Idle(s: SimState) {
    s.batch == [] && s.hits == []
  }

  function StepNode(w: World, s: SimState, v: nat, round: int): (t: SimState)
    requires v < |s.nodes| == |w.ids| && Idle(s)
    ensures |t.nodes| == |s.nodes| && Idle(t)
  {
    if !s.nodes[v].online then s
    else
      var drained := Apply(w, s, Drain(v));
      ForwardAll(w, Apply(w, ProcessAll(w, drained, round), TickNode(v, round)))
  }

  function StepNodes(w: World, s: SimState, count: nat, round: int): (t: SimState)
    requires count <= |s.nodes| == |w.ids| && Idle(s)
    ensures |t.nodes| == |s.nodes| && Idle(t)
  {
    if count == 0 then s else StepNode(w, StepNodes(w, s, count - 1, round), count - 1, round)
  }

  function StartTick(s: SimState): SimState {
    s.(current := Some(0))
  }

  function EndTick(s: SimState, round: int): SimState {
    s.(ticks := if s.current.Some? then s.ticks[round := s.current.value] else s.ticks, current := None)
  }

  function Switch(w: World, s: SimState, round: int): (t: SimState)
    requires |s.nodes| == |w.ids|
    ensures |t.nodes| == |s.nodes| && t.batch == s.batch && t.hits == s.hits
  {
    OnlineAll(w, OfflineAll(w, s, Lookup(w.offline, round), round), Lookup(w.online, round), round)
  }

  function Round(w: World, s: SimState, round: int): (t: SimState)
    requires |s.nodes| == |w.ids| && Idle(s)
    ensures |t.nodes| == |s.nodes| && Idle(t)
  {
    EndTick(StepNodes(w, Switch(w, StartTick(s), round), |s.nodes|, round), round)
  }

  function Run(w: World, s: SimState, rounds: nat): (t: SimState)
    requires |s.nodes| == |w.ids| && Idle(s)
    ensures |t.nodes| == |s.nodes| && Idle(t)
  {
    if rounds == 0 then s else Round(w, Run(w, s, rounds - 1), rounds)
  }

  // ---------- publishing before a run ----------

  /// `Map.set` on the history: an existing key keeps its place and takes the new announcement.
  function Publish(history: seq<(string, Announcement)>, a: Announcement): seq<(string, Announcement)> {
    if history == [] then [(Key(a), a)]
    else if history[0].0 == Key(a) then [(Key(a), a)] + history[1..]
    else [history[0]] + Publish(history[1..], a)
  }

  lemma {:induction false} PublishedLast(history: seq<(string, Announcement)>, a: Announcement)
    ensures (Key(a), a) in Publish(history, a)
  {
    if history != [] && history[0].0 != Key(a) {
      PublishedLast(history[1..], a);
      assert Publish(history, a)[1..] == Publish(history[1..], a);
    }
  }

  function PublishAll(published: seq<Announcement>): seq<(string, Announcement)> {
    if published == [] then []
    else Publish(PublishAll(published[..|published| - 1]), published[|published| - 1])
  }

  /// `publishAnnouncement`: the announcement enters the history and the inbox of the node named after
  /// its publisher, or of the first node.
  function PublishStep(w: World, s: SimState, a: Announcement): SimState
    requires |s.nodes| == |w.ids|
  {
    var published := s.(history := Publish(s.history, a));
    if s.nodes == [] then published
    else
      var v := First(w.ids, a.pubkey).GetOr(0);
      published.(nodes := s.nodes[v := Enqueue(s.nodes[v], Envelope(w.ids[v], Announce(a)))], current := Bump(s.current, 1))
  }
}

/// What the steps of a round do to the state, written out: who is online after the churn of a round, what a returning
/// node finds in its inbox, what handling a message and forwarding a fetched note change, and what a round counts.
module GossipSteps {
  import opened Wrappers
  import Propagation
  import opened GossipModel
  import opened GossipLaws

  // ---------- churn ----------

  /// The schedule names node v in this round: it holds v's id, and v is the first node with it.
  ghost predicate Scheduled(w: World, schedule: map<int, seq<string>>, round: int, v: nat)
    requires v < |w.ids|
  {
    round in schedule && w.ids[v] in schedule[round] && forall u :: 0 <= u < v ==> w.ids[u] != w.ids[v]
  }

  lemma ScheduledIsNamed(w: World, schedule: map<int, seq<string>>, round: int, v: nat)
    requires v < |w.ids|
    ensures Scheduled(w, schedule, round, v) <==> Named(w, Lookup(schedule, round), v)
  {
    if Scheduled(w, schedule, round, v) {
      assert First(w.ids, w.ids[v]) == Some(v);
    }
  }

  lemma {:induction false} OfflineExact(w: World, s: SimState, ids: seq<string>, round: int, v: nat)
    requires v < |s.nodes| == |w.ids|
    ensures OfflineAll(w, s, ids, round).nodes[v].online == (s.nodes[v].online && !Named(w, ids, v))
  {
    if ids != [] {
      var front, id := ids[..|ids| - 1], ids[|ids| - 1];
      assert ids == front + [id];
      OfflineExact(w, s, front, round, v);
      NamedSnoc(w, front, id, v);
      hide Named;
    }
  }

  lemma {:induction false} OnlineExact(w: World, s: SimState, ids: seq<string>, round: int, v: nat)
    requires v < |s.nodes| == |w.ids|
    ensures OnlineAll(w, s, ids, round).nodes[v].online == (s.nodes[v].online || Named(w, ids, v))
  {
    if ids != [] {
      var front, id := ids[..|ids| - 1], ids[|ids| - 1];
      assert ids == front + [id];
      OnlineExact(w, s, front, round, v);
      NamedSnoc(w, front, id, v);
      hide Named, Replay;
      if First(w.ids, id) == Some(v) {
        var mid := OnlineAll(w, s, front, round);
        SwitchFrame(SetOnline(mid.nodes[v], true, round), true, round, mid.history);
      }
    }
  }

  lemma NamedSnoc(w: World, ids: seq<string>, id: string, v: nat)
    ensures Named(w, ids + [id], v) <==> Named(w, ids, v) || First(w.ids, id) == Some(v)
  {
    var all := ids + [id];
    assert forall x :: x in all <==> x in ids || x == id;
  }

  /// After the churn of a round a node is online exactly if it is to come online, or was online and is not to go
  /// offline.
  lemma SwitchExact(w: World, s: SimState, round: int, v: nat)
    requires v < |s.nodes| == |w.ids|
    ensures Switch(w, s, round).nodes[v].online
       <==> Scheduled(w, w.online, round, v) || (s.nodes[v].online && !Scheduled(w, w.offline, round, v))
  {
    ScheduledIsNamed(w, w.online, round, v);
    ScheduledIsNamed(w, w.offline, round, v);
    hide Named, Scheduled;
    OfflineExact(w, s, Lookup(w.offline, round), round, v);
    OnlineExact(w, OfflineAll(w, s, Lookup(w.offline, round), round), Lookup(w.online, round), round, v);
  }

  /// A node comes back in a round exactly if it was offline or goes offline in it, and is to come online in it.
  lemma ComesBackExact(w: World, s: SimState, r: nat, v: nat)
    requires v < |s.nodes| == |w.ids|
    ensures ComesBack(w, s, r, v) <==> Scheduled(w, w.online, r, v) && (!s.nodes[v].online || Scheduled(w, w.offline, r, v))
  {
    ScheduledIsNamed(w, w.online, r, v);
    ScheduledIsNamed(w, w.offline, r, v);
    hide Named, Scheduled;
    OfflineExact(w, StartTick(s), Lookup(w.offline, r), r, v);
  }

  lemma {:induction false} ReplayExact(n: NodeState, history: seq<(string, Announcement)>)
    requires n.inboxOnline
    ensures var t := Replay(n, history);
            && t == n.(queue := t.queue) && |t.queue| == |n.queue| + |history| && n.queue <= t.queue
            && forall i :: 0 <= i < |history| ==> t.queue[|n.queue| + i] == Envelope(history[i].1.pubkey, Announce(history[i].1))
  {
    if history != [] {
      ReplayExact(n, history[..|history| - 1]);
    }
  }

  /// A node that comes online finds the history behind what it had, each announcement as sent by its publisher, once
  /// and in order; a node that was online already finds nothing more.
  lemma CatchUpExact(n: NodeState, history: seq<(string, Announcement)>, round: int)
    requires n.online == n.inboxOnline && (!n.online <==> n.offlineSince.Some?)
    ensures var t := CatchUp(SetOnline(n, true, round), history);
            && t == n.(online := true, inboxOnline := true, offlineSince := None, queue := t.queue)
            && n.queue <= t.queue && |t.queue| == |n.queue| + (if n.online then 0 else |history|)
            && (!n.online ==> forall i :: 0 <= i < |history| ==>
                  t.queue[|n.queue| + i] == Envelope(history[i].1.pubkey, Announce(history[i].1)))
  {
    if !n.online {
      ReplayExact(SetOnline(n, true, round), history);
    }
  }

  // ---------- handling a message ----------

  /// A message counts for a node exactly if it is an announcement with a qkey by a publisher it tolerates.
  ghost predicate Counts(w: World, v: nat, raw: Raw) {
    && raw.message.Announce? && raw.message.ann.qkey.Some? && raw.message.ann.qkey.value != ""
    && w.rep(v, raw.message.ann.pubkey) >= -0.5
  }

  /// What handling a message does. One that does not count changes nothing. One that counts is recorded as delivered
  /// to this node under its qkey. If it has a hash too the node counts it and stores it under the text of publisher,
  /// qkey and hash, and a key that is not yet known and finds room enters its table as a note of this round: by its
  /// publisher, from the sender, or from the node itself if the message came without one.
  lemma ProcessExact(w: World, s: SimState, v: nat, raw: Raw, round: int)
    requires v < |s.nodes| == |w.ids| && Propagation.Ok(s.nodes[v].prop)
    ensures var t := ProcessMessage(w, s, v, raw, round);
            && t == s.(nodes := t.nodes, delivered := t.delivered) && |t.nodes| == |s.nodes|
            && (forall j :: 0 <= j < |s.nodes| && j != v ==> t.nodes[j] == s.nodes[j])
            && (!Counts(w, v, raw) ==> t == s)
            && (Counts(w, v, raw) ==> forall q, id :: IsDelivered(t, q, id) <==> IsDelivered(s, q, id) || (Some(q) == raw.message.ann.qkey && id == w.ids[v]))
    ensures Counts(w, v, raw) ==> Taken(w.policy(v), s.nodes[v], ProcessMessage(w, s, v, raw, round).nodes[v], raw.message.ann,
                                        if raw.Envelope? then raw.from else w.ids[v], round)
  {
    if Counts(w, v, raw) {
      var a, from := raw.message.ann, if raw.Envelope? then raw.from else w.ids[v];
      var t := ProcessMessage(w, s, v, raw, round);
      assert t.nodes[v] == Receive(w.policy(v), s.nodes[v], a, from, round);
      ReceiveExact(w.policy(v), s.nodes[v], a, from, round);
      hide Receive, Propagation.Ok, Taken;
    }
  }

  ghost predicate Taken(p: Propagation.Policy, n: NodeState, t: NodeState, a: Announcement, from: string, round: int)
    requires a.qkey.Some?
  {
    if a.hash == None || a.hash == Some("") then t == n
    else
      var key := a.pubkey + "|" + a.qkey.value + "|" + a.hash.value;
      && t == n.(received := n.received + 1, stored := n.stored[key := a], prop := t.prop)
      && t.prop.fetched == n.prop.fetched
      && (key in n.prop.fetched ==> t.prop == n.prop)
      && (key !in n.prop.fetched && (forall m :: m in n.prop.notes ==> m.id != key) && |n.prop.notes| < p.maxActive ==>
            t.prop.notes == n.prop.notes + [Propagation.Note(key, from, p.indexOf(from), a.pubkey, round)])
  }

  lemma ReceiveExact(p: Propagation.Policy, n: NodeState, a: Announcement, from: string, round: int)
    requires Propagation.Ok(n.prop) && a.qkey.Some? && a.qkey.value != ""
    ensures Taken(p, n, Receive(p, n, a, from, round), a, from, round)
  {
    Propagation.AddExact(p, n.prop, Key(a), from, a.pubkey, round);
    hide Propagation.Add, Propagation.Ok;
  }

  // ---------- forwarding ----------

  /// What forwarding a fetched note does, where no neighbour is listed twice: if its announcement is stored, complete
  /// and by a publisher the node tolerates, each neighbour that is online and bears another id gets it once, at the
  /// end of its inbox and from this node; the node counts one sending each and drops the announcement. Otherwise
  /// nothing happens.
  lemma ForwardExact(w: World, s: SimState, v: nat, id: string)
    requires v < |s.nodes| == |w.ids| && NoRepeat(Neighbours(w, v))
    requires forall j :: 0 <= j < |s.nodes| ==> s.nodes[j].online == s.nodes[j].inboxOnline
    ensures var t := ForwardNote(w, s, v, id);
            if id in s.nodes[v].stored && Sendable(w, v, s.nodes[v].stored[id])
            then Forwarded(w, s, t, v, id, s.nodes[v].stored[id]) else t == s
  {
    if id in s.nodes[v].stored && Sendable(w, v, s.nodes[v].stored[id]) {
      var a, targets := s.nodes[v].stored[id], Targets(w, s.nodes, v, Neighbours(w, v));
      TargetsNoRepeat(w, s.nodes, v, Neighbours(w, v));
      assert Sent(s.nodes, ForwardNote(w, s, v, id).nodes, v, targets, Envelope(w.ids[v], Announce(a)), id) by {
        hide Targets, Neighbours, Sent, NoRepeat;
        SpreadExact(s.nodes, v, targets, Envelope(w.ids[v], Announce(a)), id);
      }
      hide Neighbours, NoRepeat, Spread;
      assert ForwardNote(w, s, v, id).forwards == s.forwards + [Forward(v, id, a, targets)];
    }
  }

  /// The nodes after forwarding key `id` to the targets.
  ghost predicate Sent(nodes: seq<NodeState>, nodes': seq<NodeState>, v: nat, targets: seq<nat>, raw: Raw, id: string) {
    && |nodes'| == |nodes|
    && forall j :: 0 <= j < |nodes| ==>
         nodes'[j] == nodes[j].(queue := nodes[j].queue + if j in targets then [raw] else [],
                                sent := nodes[j].sent + if j == v then |targets| else 0,
                                stored := if j == v then nodes[j].stored - {id} else nodes[j].stored)
  }

  lemma SpreadExact(nodes: seq<NodeState>, v: nat, targets: seq<nat>, raw: Raw, id: string)
    requires v < |nodes| && NoRepeat(targets)
    requires forall i :: 0 <= i < |targets| ==> targets[i] < |nodes|
    requires forall j :: j in targets ==> nodes[j].inboxOnline
    ensures var spread := Spread(nodes, targets, raw, v);
            Sent(nodes, spread[v := spread[v].(stored := spread[v].stored - {id})], v, targets, raw, id)
  {
    assert forall i :: 0 <= i < |targets| ==> targets[i] in targets;
    forall j | 0 <= j < |nodes|
      ensures SendAll(nodes, targets, raw)[j] == nodes[j].(queue := nodes[j].queue + if j in targets then [raw] else [])
    {
      SendAllExact(nodes, targets, raw, j);
    }
    hide SendAll, NoRepeat;
  }

  ghost predicate Sendable(w: World, v: nat, a: Announcement) {
    a.qkey.Some? && a.qkey.value != "" && a.hash.Some? && a.hash.value != "" && w.rep(v, a.pubkey) >= -0.5
  }

  ghost predicate NoRepeat(s: seq<nat>) {
    forall i, j :: 0 <= i < j < |s| ==> s[i] != s[j]
  }

  ghost predicate Forwarded(w: World, s: SimState, t: SimState, v: nat, id: string, a: Announcement)
    requires v < |s.nodes| == |w.ids|
  {
    && |t.forwards| == |s.forwards| + 1 && s.forwards <= t.forwards
    && var f := t.forwards[|s.forwards|];
    && f == Forward(v, id, a, f.targets) && NoRepeat(f.targets)
    && (forall j :: j in f.targets <==> j in Neighbours(w, v) && j < |s.nodes| && s.nodes[j].online && w.ids[j] != w.ids[v])
    && t == s.(nodes := t.nodes, forwards := t.forwards, current := if s.current.Some? then Some(s.current.value + |f.targets|) else None)
    && Sent(s.nodes, t.nodes, v, f.targets, Envelope(w.ids[v], Announce(a)), id)
  }

  lemma {:induction false} TargetsNoRepeat(w: World, nodes: seq<NodeState>, v: nat, nbrs: seq<nat>)
    requires v < |nodes| == |w.ids| && NoRepeat(nbrs)
    ensures NoRepeat(Targets(w, nodes, v, nbrs))
  {
    if nbrs != [] {
      var front, j := nbrs[..|nbrs| - 1], nbrs[|nbrs| - 1];
      TargetsNoRepeat(w, nodes, v, front);
      var before := Targets(w, nodes, v, front);
      assert j !in front;
      assert forall i :: 0 <= i < |before| ==> before[i] in before;
    }
  }

  lemma {:induction false} SendAllExact(nodes: seq<NodeState>, targets: seq<nat>, raw: Raw, j: nat)
    requires j < |nodes| && NoRepeat(targets)
    requires forall i :: 0 <= i < |targets| ==> targets[i] < |nodes| && nodes[targets[i]].inboxOnline
    ensures SendAll(nodes, targets, raw)[j] == nodes[j].(queue := nodes[j].queue + if j in targets then [raw] else [])
  {
    if targets != [] {
      var front, last := targets[..|targets| - 1], targets[|targets| - 1];
      LastApart(targets, j);
      SendAllExact(nodes, front, raw, j);
      SendAllExact(nodes, front, raw, last);
      hide NoRepeat;
    }
  }

  lemma LastApart(targets: seq<nat>, j: nat)
    requires targets != [] && NoRepeat(targets)
    ensures var front, last := targets[..|targets| - 1], targets[|targets| - 1];
            NoRepeat(front) && last !in front && (j in targets <==> j in front || j == last)
  {
    assert targets == targets[..|targets| - 1] + [targets[|targets| - 1]];
  }

  // ---------- publishing ----------

  /// The node a publication goes to: the first that bears the publisher's id, or the first of all if none does.
  ghost predicate Entry(w: World, pubkey: string, v: nat) {
    && v < |w.ids|
    && (if exists u :: 0 <= u < |w.ids| && w.ids[u] == pubkey then w.ids[v] == pubkey && forall u :: 0 <= u < v ==> w.ids[u] != pubkey else v == 0)
  }

  /// Publishing puts the announcement into the inbox of that node, as coming from the node itself, if the inbox is
  /// open, and leaves every other node alone.
  lemma PublishExact(w: World, s: SimState, a: Announcement) returns (v: nat)
    requires |s.nodes| == |w.ids| && s.nodes != []
    ensures Entry(w, a.pubkey, v)
    ensures var t := PublishStep(w, s, a);
            && |t.nodes| == |s.nodes|
            && (forall j :: 0 <= j < |s.nodes| ==>
                  t.nodes[j] == if j == v && s.nodes[j].inboxOnline then s.nodes[j].(queue := s.nodes[j].queue + [Envelope(w.ids[v], Announce(a))])
                                else s.nodes[j])
            && t == s.(nodes := t.nodes, history := t.history, current := if s.current.Some? then Some(s.current.value + 1) else None)
  {
    v := First(w.ids, a.pubkey).GetOr(0);
    hide Publish;
  }

  /// The history takes an announcement with a new key at its end, and one with a known key in the place of the old.
  lemma {:induction false} HistoryExact(history: seq<(string, Announcement)>, a: Announcement)
    requires UniqueKeys(history)
    ensures var after := Publish(history, a);
            if exists i :: 0 <= i < |history| && history[i].0 == Key(a)
            then |after| == |history| && forall i :: 0 <= i < |history| ==> after[i] == if history[i].0 == Key(a) then (Key(a), a) else history[i]
            else after == history + [(Key(a), a)]
  {
    if history != [] && history[0].0 != Key(a) {
      HistoryExact(history[1..], a);
      if exists i :: 0 <= i < |history| && history[i].0 == Key(a) {
        var i :| 0 <= i < |history| && history[i].0 == Key(a);
        assert history[1..][i - 1].0 == Key(a);
      }
    }
  }

  // ---------- what a round counts ----------

  /// A round is recorded under its number with the announcements sent in it; the other rounds stay.
  lemma RoundBandwidth(w: World, s: SimState, k: nat)
    requires |s.nodes| == |w.ids| && Idle(s) && Ledger(s)
    ensures var t := Round(w, s, k);
            && SentTotal(t.forwards) >= SentTotal(s.forwards)
            && t.ticks == s.ticks[k := SentTotal(t.forwards) - SentTotal(s.forwards)]
  {
    hide Runs, SentTotal;
    var ops := RoundOps(w, s, k);
    StepsKeepLedger(w, StartTick(s), ops, Middle(w, s, k));
    hide Ledger, StepNodes, Switch;
  }
}

/** The disruption-triggered checkpointing of a CheckpointSchedule: polls of the cluster, with a memory
    of the pods and draining nodes that were already captured. */
module EventTrigger {
  import opened Common
  import PodSelector

  datatype PodCondition = PodCondition(kind: string, reason: string, status: string)

  /** A matching pod; key is namespace/name, uid is never looked at. */
  datatype PodView = PodView(key: string, uid: string, node: string, deleting: bool, conditions: seq<PodCondition>, containers: seq<string>)

  datatype Node = Node(name: string, unschedulable: bool)

  datatype Reason = NodeDrain | Eviction | Preemption

  datatype Config = Config(drain: bool, eviction: bool, preemption: bool, containerNames: seq<string>)

  /** What a poll meets: the two listings, None when one fails, and which checkpoints succeed. */
  datatype Poll = Poll(pods: Option<seq<PodView>>, nodes: Option<seq<Node>>, creates: (string, Reason, string) -> bool)

  /** One call that captures a pod's containers. */
  datatype Attempt = Attempt(key: string, reason: Reason, ok: bool)

  datatype Seen = Seen(pods: set<string>, nodes: set<string>)

  // ---------- one poll on values ----------

  const DISRUPTION_TARGET := "DisruptionTarget"
  const PREEMPTING_EVICTOR := "PreemptingEvictor"

  predicate MarksPreemption(c: PodCondition) {
    c.kind == DISRUPTION_TARGET && c.reason == PREEMPTING_EVICTOR && c.status == "True"
  }

  predicate Preempted(pod: PodView) { exists c :: c in pod.conditions && MarksPreemption(c) }

  /** Whether every selected container of the pod is captured; vacuous when none is selected. */
  predicate Captures(cfg: Config, poll: Poll, pod: PodView, reason: Reason) {
    forall c :: c in PodSelector.Selected(pod.containers, cfg.containerNames) ==> poll.creates(pod.key, reason, c)
  }

  /** The memory after some turns, and the attempts they made. */
  datatype Trace = Trace(seen: set<string>, attempts: seq<Attempt>)

  function Once(cfg: Config, poll: Poll, seen: set<string>, pod: PodView, reason: Reason): Trace {
    if pod.key in seen then Trace(seen, [])
    else
      var ok := Captures(cfg, poll, pod, reason);
      Trace(if ok then seen + {pod.key} else seen, [Attempt(pod.key, reason, ok)])
  }

  function OnceIf(cond: bool, cfg: Config, poll: Poll, seen: set<string>, pod: PodView, reason: Reason): Trace {
    if cond then Once(cfg, poll, seen, pod, reason) else Trace(seen, [])
  }

  function PodTurn(cfg: Config, poll: Poll, seen: set<string>, pod: PodView): Trace {
    var t := OnceIf(cfg.eviction && pod.deleting, cfg, poll, seen, pod, Eviction);
    var u := OnceIf(cfg.preemption && Preempted(pod), cfg, poll, t.seen, pod, Preemption);
    Trace(u.seen, t.attempts + u.attempts)
  }

  function PodTurns(cfg: Config, poll: Poll, seen: set<string>, pods: seq<PodView>): Trace {
    if pods == [] then Trace(seen, [])
    else
      var n := |pods| - 1;
      var t := PodTurns(cfg, poll, seen, pods[..n]);
      var u := PodTurn(cfg, poll, t.seen, pods[n]);
      Trace(u.seen, t.attempts + u.attempts)
  }

  function Keys(pods: seq<PodView>): set<string> { set p | p in pods :: p.key }

  function Hosts(pods: seq<PodView>): set<string> { set p | p in pods && p.node != "" :: p.node }

  function Draining(pods: seq<PodView>, nodes: seq<Node>): set<string> {
    set n | n in nodes && n.unschedulable && n.name in Hosts(pods) :: n.name
  }

  /** The captures of one draining node, in pod order. */
  function NodeTurn(cfg: Config, poll: Poll, pods: seq<PodView>, node: string): seq<Attempt> {
    if pods == [] then []
    else
      var n := |pods| - 1;
      NodeTurn(cfg, poll, pods[..n], node) +
      if pods[n].node == node then [Attempt(pods[n].key, NodeDrain, Captures(cfg, poll, pods[n], NodeDrain))] else []
  }

  predicate Hosted(pods: seq<PodView>, node: string) { exists p :: p in pods && p.node == node }

  predicate NodeCaptured(cfg: Config, poll: Poll, pods: seq<PodView>, node: string) {
    forall p :: p in pods && p.node == node ==> Captures(cfg, poll, p, NodeDrain)
  }

  function NodeOnce(cfg: Config, poll: Poll, pods: seq<PodView>, seen: set<string>, node: string): Trace {
    if node in seen then Trace(seen, [])
    else Trace(if Hosted(pods, node) && NodeCaptured(cfg, poll, pods, node) then seen + {node} else seen,
               NodeTurn(cfg, poll, pods, node))
  }

  /** The draining nodes are visited in no particular order. */
  function NodeTurns(cfg: Config, poll: Poll, pods: seq<PodView>, seen: set<string>, order: seq<string>): Trace {
    if order == [] then Trace(seen, [])
    else
      var n := |order| - 1;
      var t := NodeTurns(cfg, poll, pods, seen, order[..n]);
      var u := NodeOnce(cfg, poll, pods, t.seen, order[n]);
      Trace(u.seen, t.attempts + u.attempts)
  }

  /** Nodes remembered after a poll: still draining ones, and the newly captured ones. */
  function NodesAfter(cfg: Config, poll: Poll, seen: set<string>, pods: seq<PodView>, nodes: seq<Node>): set<string> {
    var draining := Draining(pods, nodes);
    set n | n in draining && (n in seen || NodeCaptured(cfg, poll, pods, n))
  }

  predicate Drained(cfg: Config, poll: Poll) { cfg.drain && poll.pods.Some? && poll.nodes.Some? }

  /** The captures of disrupted pods in a poll. */
  function PodAttempts(cfg: Config, s: Seen, poll: Poll): seq<Attempt> {
    if poll.pods.None? then [] else PodTurns(cfg, poll, s.pods * Keys(poll.pods.value), poll.pods.value).attempts
  }

  /** The draining nodes a poll looks at. */
  function DrainingIn(cfg: Config, poll: Poll): set<string> {
    if Drained(cfg, poll) then Draining(poll.pods.value, poll.nodes.value) else {}
  }

  function Next(cfg: Config, s: Seen, poll: Poll): Seen {
    if poll.pods.None? then s
    else Seen(
      PodTurns(cfg, poll, s.pods * Keys(poll.pods.value), poll.pods.value).seen,
      if Drained(cfg, poll) then NodesAfter(cfg, poll, s.nodes, poll.pods.value, poll.nodes.value) else s.nodes)
  }

  ghost predicate Enumerates(order: seq<string>, s: set<string>) {
    (forall x :: x in order <==> x in s) && NoDuplicates(order)
  }

  lemma EnumeratesMore(order: seq<string>, s: set<string>, x: string)
    requires Enumerates(order, s) && x !in s
    ensures Enumerates(order + [x], s + {x})
  {
  }

  /** The attempts of a poll that visits the draining nodes in that order. */
  function Attempts(cfg: Config, s: Seen, poll: Poll, order: seq<string>): seq<Attempt> {
    if poll.pods.None? then []
    else NodeTurns(cfg, poll, poll.pods.value, s.nodes * DrainingIn(cfg, poll), order).attempts + PodAttempts(cfg, s, poll)
  }

  lemma {:induction false} NodeTurnsSeen(cfg: Config, poll: Poll, pods: seq<PodView>, seen: set<string>, order: seq<string>, node: string)
    ensures node in NodeTurns(cfg, poll, pods, seen, order).seen <==>
            node in seen || (node in order && Hosted(pods, node) && NodeCaptured(cfg, poll, pods, node))
  {
    if order != [] {
      var n := |order| - 1;
      NodeTurnsSeen(cfg, poll, pods, seen, order[..n], node);
      assert order == order[..n] + [order[n]];
    }
  }

  lemma NodeTurnsAreNodesAfter(cfg: Config, poll: Poll, pods: seq<PodView>, seen: set<string>, nodes: seq<Node>, order: seq<string>)
    requires Enumerates(order, Draining(pods, nodes))
    ensures NodeTurns(cfg, poll, pods, seen * Draining(pods, nodes), order).seen == NodesAfter(cfg, poll, seen, pods, nodes)
  {
    var draining := Draining(pods, nodes);
    var t := NodeTurns(cfg, poll, pods, seen * draining, order);
    forall n ensures n in t.seen <==> n in NodesAfter(cfg, poll, seen, pods, nodes) {
      NodeTurnsSeen(cfg, poll, pods, seen * draining, order, n);
      assert n in order <==> n in draining;
    }
  }

  // ---------- the trigger ----------

  class Trigger {
    const cfg: Config
    var seenPods: set<string>
    var seenNodes: set<string>
    var attempts: seq<Attempt>

    constructor (cfg: Config)
      ensures this.cfg == cfg && State() == Seen({}, {}) && attempts == []
    {
      this.cfg := cfg;
      seenPods, seenNodes, attempts := {}, {}, [];
    }

    function State(): Seen
      reads this
    {
      Seen(seenPods, seenNodes)
    }

    method PodIsPreempted(pod: PodView) returns (r: bool)
      ensures r == Preempted(pod)
    {
      for i := 0 to |pod.conditions|
        invariant forall k :: 0 <= k < i ==> !MarksPreemption(pod.conditions[k])
      {
        var c := pod.conditions[i];
        if c.kind == DISRUPTION_TARGET && c.reason == PREEMPTING_EVICTOR && c.status == "True" {
          assert MarksPreemption(c);
          return true;
        }
      }
      r := false;
    }

    method CheckpointPodContainers(poll: Poll, pod: PodView, reason: Reason) returns (ok: bool)
      modifies this`attempts
      ensures ok == Captures(cfg, poll, pod, reason)
      ensures attempts == old(attempts) + [Attempt(pod.key, reason, ok)]
    {
      var containers := PodSelector.FilterContainers(pod.containers, cfg.containerNames);
      ok := true;
      for i := 0 to |containers|
        invariant ok == forall k :: 0 <= k < i ==> poll.creates(pod.key, reason, containers[k])
      {
        if !poll.creates(pod.key, reason, containers[i]) { ok := false; }
      }
      attempts := attempts + [Attempt(pod.key, reason, ok)];
    }

    method CheckpointOnce(poll: Poll, pod: PodView, reason: Reason)
      modifies this`seenPods, this`attempts
      ensures var t := Once(cfg, poll, old(seenPods), pod, reason);
              seenPods == t.seen && attempts == old(attempts) + t.attempts
    {
      if pod.key in seenPods { return; }
      var ok := CheckpointPodContainers(poll, pod, reason);
      if ok { seenPods := seenPods + {pod.key}; }
    }

    method CheckpointPod(poll: Poll, pod: PodView)
      modifies this`seenPods, this`attempts
      ensures var t := PodTurn(cfg, poll, old(seenPods), pod);
              seenPods == t.seen && attempts == old(attempts) + t.attempts
    {
      if cfg.eviction && pod.deleting { CheckpointOnce(poll, pod, Eviction); }
      var preempted := PodIsPreempted(pod);
      if cfg.preemption && preempted { CheckpointOnce(poll, pod, Preemption); }
    }

    method CaptureNode(poll: Poll, pods: seq<PodView>, node: string) returns (fired: bool, allOk: bool)
      modifies this`attempts
      ensures attempts == old(attempts) + NodeTurn(cfg, poll, pods, node)
      ensures fired == Hosted(pods, node)
      ensures allOk == NodeCaptured(cfg, poll, pods, node)
    {
      fired, allOk := false, true;
      for i := 0 to |pods|
        invariant attempts == old(attempts) + NodeTurn(cfg, poll, pods[..i], node)
        invariant fired == exists k :: 0 <= k < i && pods[k].node == node
        invariant allOk == forall k :: 0 <= k < i && pods[k].node == node ==> Captures(cfg, poll, pods[k], NodeDrain)
      {
        assert pods[..i + 1][..i] == pods[..i];
        if pods[i].node != node { continue; }
        var ok := CheckpointPodContainers(poll, pods[i], NodeDrain);
        if !ok { allOk := false; }
        fired := true;
      }
      assert pods[..|pods|] == pods;
    }

    method DrainNode(poll: Poll, pods: seq<PodView>, node: string)
      modifies this`seenNodes, this`attempts
      ensures var t := NodeOnce(cfg, poll, pods, old(seenNodes), node);
              seenNodes == t.seen && attempts == old(attempts) + t.attempts
    {
      if node in seenNodes { return; }
      var fired, allOk := CaptureNode(poll, pods, node);
      if fired && allOk { seenNodes := seenNodes + {node}; }
    }

    method HandleNodeDrain(poll: Poll, pods: seq<PodView>) returns (order: seq<string>)
      requires poll.pods == Some(pods) && cfg.drain
      modifies this`seenNodes, this`attempts
      ensures Enumerates(order, DrainingIn(cfg, poll))
      ensures var t := NodeTurns(cfg, poll, pods, old(seenNodes) * DrainingIn(cfg, poll), order);
              && attempts == old(attempts) + t.attempts
              && seenNodes == if poll.nodes.Some? then t.seen else old(seenNodes)
    {
      order := [];
      if poll.nodes.None? { return; }
      var draining := FindDraining(pods, poll.nodes.value);
      seenNodes := Retain(seenNodes, draining);
      order := Enumerate(draining);
      DrainNodes(poll, pods, order);
    }

    method DrainNodes(poll: Poll, pods: seq<PodView>, order: seq<string>)
      modifies this`seenNodes, this`attempts
      ensures var t := NodeTurns(cfg, poll, pods, old(seenNodes), order);
              seenNodes == t.seen && attempts == old(attempts) + t.attempts
    {
      for i := 0 to |order|
        invariant var t := NodeTurns(cfg, poll, pods, old(seenNodes), order[..i]);
                  seenNodes == t.seen && attempts == old(attempts) + t.attempts
      {
        assert order[..i + 1][..i] == order[..i];
        DrainNode(poll, pods, order[i]);
      }
      assert order[..|order|] == order;
    }

    method CheckpointPods(poll: Poll, pods: seq<PodView>)
      modifies this`seenPods, this`attempts
      ensures var t := PodTurns(cfg, poll, old(seenPods), pods);
              seenPods == t.seen && attempts == old(attempts) + t.attempts
    {
      for i := 0 to |pods|
        invariant var t := PodTurns(cfg, poll, old(seenPods), pods[..i]);
                  seenPods == t.seen && attempts == old(attempts) + t.attempts
      {
        assert pods[..i + 1][..i] == pods[..i];
        CheckpointPod(poll, pods[i]);
      }
      assert pods[..|pods|] == pods;
    }

    method Run(poll: Poll) returns (order: seq<string>)
      modifies this
      ensures State() == Next(cfg, old(State()), poll)
      ensures Enumerates(order, DrainingIn(cfg, poll))
      ensures attempts == old(attempts) + Attempts(cfg, old(State()), poll, order)
    {
      order := [];
      if poll.pods.None? { return; }
      var pods := poll.pods.value;
      var live := FindKeys(pods);
      seenPods := Retain(seenPods, live);
      if cfg.drain {
        order := HandleNodeDrain(poll, pods);
        if poll.nodes.Some? { NodeTurnsAreNodesAfter(cfg, poll, pods, old(seenNodes), poll.nodes.value, order); }
      }
      CheckpointPods(poll, pods);
    }
  }

  method Enumerate(s: set<string>) returns (order: seq<string>)
    ensures Enumerates(order, s)
  {
    order := [];
    var todo := s;
    while todo != {}
      invariant todo <= s && Enumerates(order, s - todo)
      decreases |todo|
    {
      var x :| x in todo;
      assert s - (todo - {x}) == (s - todo) + {x};
      EnumeratesMore(order, s - todo, x);
      todo := todo - {x};
      order := order + [x];
    }
    assert s - {} == s;
  }

  /** Deletes from a memory what is not in keep. */
  method Retain(s: set<string>, keep: set<string>) returns (r: set<string>)
    ensures r == s * keep
  {
    r := s;
    var todo := s;
    while todo != {}
      invariant todo <= s && r == s * keep + todo
      decreases |todo|
    {
      var x :| x in todo;
      todo := todo - {x};
      if x !in keep { r := r - {x}; }
    }
  }

  method FindKeys(pods: seq<PodView>) returns (keys: set<string>)
    ensures keys == Keys(pods)
  {
    keys := {};
    for i := 0 to |pods|
      invariant keys == Keys(pods[..i])
    {
      assert pods[..i + 1] == pods[..i] + [pods[i]];
      keys := keys + {pods[i].key};
    }
    assert pods[..|pods|] == pods;
  }

  method FindDraining(pods: seq<PodView>, nodes: seq<Node>) returns (draining: set<string>)
    ensures draining == Draining(pods, nodes)
  {
    var hosts: set<string> := {};
    for i := 0 to |pods|
      invariant hosts == Hosts(pods[..i])
    {
      assert pods[..i + 1] == pods[..i] + [pods[i]];
      if pods[i].node != "" { hosts := hosts + {pods[i].node}; }
    }
    assert pods[..|pods|] == pods;
    draining := {};
    for i := 0 to |nodes|
      invariant draining == Draining(pods, nodes[..i])
    {
      assert nodes[..i + 1] == nodes[..i] + [nodes[i]];
      if nodes[i].unschedulable && nodes[i].name in hosts { draining := draining + {nodes[i].name}; }
    }
    assert nodes[..|nodes|] == nodes;
  }
}

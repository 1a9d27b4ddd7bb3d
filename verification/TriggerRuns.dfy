/** Once per disruption: which captures a sequence of polls attempts, stated on the polls alone. */
module TriggerRuns {
  import opened Common
  import PodSelector
  import opened EventTrigger

  /** The memory after some polls. */
  function After(cfg: Config, polls: seq<Poll>): Seen {
    if polls == [] then Seen({}, {})
    else
      var n := |polls| - 1;
      Next(cfg, After(cfg, polls[..n]), polls[n])
  }

  /** The attempts on one pod, in order. */
  function Of(attempts: seq<Attempt>, key: string): seq<Attempt> {
    if attempts == [] then []
    else
      var n := |attempts| - 1;
      Of(attempts[..n], key) + if attempts[n].key == key then [attempts[n]] else []
  }

  lemma {:induction false} OfConcat(a: seq<Attempt>, b: seq<Attempt>, key: string)
    ensures Of(a + b, key) == Of(a, key) + Of(b, key)
    decreases |b|
  {
    if b == [] {
      assert a + b == a;
    } else {
      var n := |b| - 1;
      assert (a + b)[..|a| + n] == a + b[..n];
      OfConcat(a, b[..n], key);
    }
  }

  predicate Unique(pods: seq<PodView>) { forall i, j :: 0 <= i < j < |pods| ==> pods[i].key != pods[j].key }

  /** A capture of the pod succeeded. */
  predicate Ok(attempts: seq<Attempt>, key: string) { exists a :: a in attempts && a.key == key && a.ok }

  // ---------- what a poll shows ----------

  /** Every container of the pod that the schedule asks for, all of them if it names none, can be
      checkpointed. */
  predicate CanCapture(cfg: Config, poll: Poll, pod: PodView, reason: Reason) {
    forall c :: c in pod.containers && (cfg.containerNames == [] || c in cfg.containerNames) ==> poll.creates(pod.key, reason, c)
  }

  predicate EvictionSeen(cfg: Config, pod: PodView) { cfg.eviction && pod.deleting }

  predicate PreemptionSeen(cfg: Config, pod: PodView) {
    cfg.preemption &&
    exists c :: c in pod.conditions && c.kind == "DisruptionTarget" && c.reason == "PreemptingEvictor" && c.status == "True"
  }

  /** What one poll is to attempt on a disrupted pod it does not remember: the eviction, and the
      preemption unless the eviction capture has covered it. */
  function OwnTurn(cfg: Config, poll: Poll, pod: PodView): seq<Attempt> {
    var evicted := EvictionSeen(cfg, pod);
    (if evicted then [Attempt(pod.key, Eviction, CanCapture(cfg, poll, pod, Eviction))] else []) +
    (if PreemptionSeen(cfg, pod) && !(evicted && CanCapture(cfg, poll, pod, Eviction))
     then [Attempt(pod.key, Preemption, CanCapture(cfg, poll, pod, Preemption))] else [])
  }

  lemma CapturesMeaning(cfg: Config, poll: Poll, pod: PodView, reason: Reason)
    ensures Captures(cfg, poll, pod, reason) <==> CanCapture(cfg, poll, pod, reason)
  {
    PodSelector.KeepIsFilter(pod.containers, cfg.containerNames);
  }

  /** The trigger's turn for a pod it does not remember is that turn. */
  lemma TurnMeaning(cfg: Config, poll: Poll, pod: PodView)
    ensures PodTurn(cfg, poll, {}, pod).attempts == OwnTurn(cfg, poll, pod)
  {
    CapturesMeaning(cfg, poll, pod, Eviction);
    CapturesMeaning(cfg, poll, pod, Preemption);
    PreemptedMeaning(cfg, pod);
  }

  lemma PreemptedMeaning(cfg: Config, pod: PodView)
    ensures cfg.preemption && Preempted(pod) <==> PreemptionSeen(cfg, pod)
  {
    if Preempted(pod) {
      var c :| c in pod.conditions && MarksPreemption(c);
      assert c in pod.conditions && c.kind == "DisruptionTarget" && c.reason == "PreemptingEvictor" && c.status == "True";
    }
    if c :| c in pod.conditions && c.kind == "DisruptionTarget" && c.reason == "PreemptingEvictor" && c.status == "True" {
      assert MarksPreemption(c);
    }
  }

  // ---------- one pod in one poll ----------

  /** A remembered pod is left alone; any other is treated as if nothing were remembered. */
  lemma TurnDependsOnKey(cfg: Config, poll: Poll, seen: set<string>, pod: PodView)
    ensures PodTurn(cfg, poll, seen, pod).attempts ==
            if pod.key in seen then [] else PodTurn(cfg, poll, {}, pod).attempts
  {
  }

  /** A turn concerns its own pod only. */
  lemma TurnIsOwn(cfg: Config, poll: Poll, seen: set<string>, pod: PodView, key: string)
    ensures var t := PodTurn(cfg, poll, seen, pod);
            && Of(t.attempts, key) == (if key == pod.key then t.attempts else [])
            && (key in t.seen <==> key in seen || Ok(t.attempts, key))
  {
    var t := OnceIf(cfg.eviction && pod.deleting, cfg, poll, seen, pod, Eviction);
    var u := OnceIf(cfg.preemption && Preempted(pod), cfg, poll, t.seen, pod, Preemption);
    OfConcat(t.attempts, u.attempts, key);
    OnceIsOwn(cfg.eviction && pod.deleting, cfg, poll, seen, pod, Eviction, key);
    OnceIsOwn(cfg.preemption && Preempted(pod), cfg, poll, t.seen, pod, Preemption, key);
  }

  lemma OnceIsOwn(cond: bool, cfg: Config, poll: Poll, seen: set<string>, pod: PodView, reason: Reason, key: string)
    ensures var t := OnceIf(cond, cfg, poll, seen, pod, reason);
            && Of(t.attempts, key) == (if key == pod.key then t.attempts else [])
            && (key in t.seen <==> key in seen || Ok(t.attempts, key))
  {
    var t := OnceIf(cond, cfg, poll, seen, pod, reason);
    if t.attempts != [] {
      var a := t.attempts[0];
      assert t.attempts == [a] && t.attempts[..0] == [];
    }
  }

  lemma {:induction false} TurnsRemember(cfg: Config, poll: Poll, seen: set<string>, pods: seq<PodView>, key: string)
    ensures var t := PodTurns(cfg, poll, seen, pods);
            key in t.seen <==> key in seen || Ok(t.attempts, key)
  {
    if pods != [] {
      var n := |pods| - 1;
      TurnsRemember(cfg, poll, seen, pods[..n], key);
      TurnIsOwn(cfg, poll, PodTurns(cfg, poll, seen, pods[..n]).seen, pods[n], key);
    }
  }

  lemma {:induction false} UnlistedUntouched(cfg: Config, poll: Poll, seen: set<string>, pods: seq<PodView>, key: string)
    requires key !in Keys(pods)
    ensures var t := PodTurns(cfg, poll, seen, pods);
            Of(t.attempts, key) == [] && (key in t.seen <==> key in seen)
  {
    if pods != [] {
      var n := |pods| - 1;
      assert pods == pods[..n] + [pods[n]];
      UnlistedUntouched(cfg, poll, seen, pods[..n], key);
      var t := PodTurns(cfg, poll, seen, pods[..n]);
      var u := PodTurn(cfg, poll, t.seen, pods[n]);
      TurnIsOwn(cfg, poll, t.seen, pods[n], key);
      OfConcat(t.attempts, u.attempts, key);
      OkIsOf(u.attempts, key);
    }
  }

  lemma {:induction false} OkIsOf(attempts: seq<Attempt>, key: string)
    ensures Ok(attempts, key) ==> Of(attempts, key) != []
  {
    if attempts != [] {
      var n := |attempts| - 1;
      assert attempts == attempts[..n] + [attempts[n]];
      OkIsOf(attempts[..n], key);
    }
  }

  /** What a poll attempts on the i-th pod: nothing if it is remembered, else its whole turn. */
  lemma {:induction false} TurnOf(cfg: Config, poll: Poll, seen: set<string>, pods: seq<PodView>, i: nat)
    requires i < |pods| && Unique(pods)
    ensures Of(PodTurns(cfg, poll, seen, pods).attempts, pods[i].key) ==
            if pods[i].key in seen then [] else PodTurn(cfg, poll, {}, pods[i]).attempts
  {
    var n := |pods| - 1;
    var key := pods[i].key;
    var t := PodTurns(cfg, poll, seen, pods[..n]);
    var u := PodTurn(cfg, poll, t.seen, pods[n]);
    OfConcat(t.attempts, u.attempts, key);
    TurnIsOwn(cfg, poll, t.seen, pods[n], key);
    if i == n {
      UnlistedUntouched(cfg, poll, seen, pods[..n], key);
      TurnDependsOnKey(cfg, poll, t.seen, pods[n]);
    } else {
      TurnOf(cfg, poll, seen, pods[..n], i);
    }
  }

  // ---------- pods over a run ----------

  predicate AllUnique(polls: seq<Poll>) {
    forall i :: 0 <= i < |polls| && polls[i].pods.Some? ==> Unique(polls[i].pods.value)
  }

  /** The poll lists the pod disrupted and all its containers can be captured, for one of the reasons
      it is disrupted. */
  predicate CapturedIn(cfg: Config, poll: Poll, key: string) {
    poll.pods.Some? &&
    exists pod :: pod in poll.pods.value && pod.key == key &&
      ((EvictionSeen(cfg, pod) && CanCapture(cfg, poll, pod, Eviction)) ||
       (PreemptionSeen(cfg, pod) && CanCapture(cfg, poll, pod, Preemption)))
  }

  lemma TurnSucceeds(cfg: Config, poll: Poll, pod: PodView)
    ensures Ok(PodTurn(cfg, poll, {}, pod).attempts, pod.key) <==>
            (EvictionSeen(cfg, pod) && CanCapture(cfg, poll, pod, Eviction)) ||
            (PreemptionSeen(cfg, pod) && CanCapture(cfg, poll, pod, Preemption))
  {
    TurnMeaning(cfg, poll, pod);
    var evicted, e, q := EvictionSeen(cfg, pod), CanCapture(cfg, poll, pod, Eviction), CanCapture(cfg, poll, pod, Preemption);
    if evicted && e { assert Attempt(pod.key, Eviction, true) in OwnTurn(cfg, poll, pod); }
    if PreemptionSeen(cfg, pod) && q && !(evicted && e) { assert Attempt(pod.key, Preemption, true) in OwnTurn(cfg, poll, pod); }
  }

  /** The poll lists pods, and none of that key. */
  predicate Missing(poll: Poll, key: string) {
    poll.pods.Some? && forall pod :: pod in poll.pods.value ==> pod.key != key
  }

  lemma MissingMeaning(poll: Poll, key: string)
    ensures Missing(poll, key) <==> poll.pods.Some? && key !in Keys(poll.pods.value)
  {}

  /** The pod was captured in poll i and has not been seen missing since. */
  predicate CapturedFrom(cfg: Config, polls: seq<Poll>, i: nat, key: string) {
    i < |polls| && CapturedIn(cfg, polls[i], key) && forall j :: i < j < |polls| ==> !Missing(polls[j], key)
  }

  predicate CapturedSince(cfg: Config, polls: seq<Poll>, key: string) {
    exists i: nat :: i < |polls| && CapturedFrom(cfg, polls, i, key)
  }

  /** What a poll attempts on a listed pod, in terms of the memory. */
  lemma ListedAttempts(cfg: Config, s: Seen, poll: Poll, pod: PodView)
    requires poll.pods.Some? && Unique(poll.pods.value) && pod in poll.pods.value
    ensures Of(PodAttempts(cfg, s, poll), pod.key) == if pod.key in s.pods then [] else PodTurn(cfg, poll, {}, pod).attempts
  {
    var pods := poll.pods.value;
    var i :| 0 <= i < |pods| && pods[i] == pod;
    TurnOf(cfg, poll, s.pods * Keys(pods), pods, i);
  }

  /** A successful attempt on an unremembered pod is one the poll alone decides. */
  lemma SuccessIsCapture(cfg: Config, s: Seen, poll: Poll, key: string)
    requires (poll.pods.Some? ==> Unique(poll.pods.value)) && (key in s.pods ==> Missing(poll, key))
    ensures Ok(PodAttempts(cfg, s, poll), key) <==> CapturedIn(cfg, poll, key)
  {
    MissingMeaning(poll, key);
    if poll.pods.Some? {
      var pods := poll.pods.value;
      OkIsOf(PodAttempts(cfg, s, poll), key);
      if key in Keys(pods) {
        var pod :| pod in pods && pod.key == key;
        ListedAttempts(cfg, s, poll, pod);
        OkOfOf(PodAttempts(cfg, s, poll), key);
        TurnIsOwn(cfg, poll, {}, pod, key);
        OkOfOf(PodTurn(cfg, poll, {}, pod).attempts, key);
        TurnSucceeds(cfg, poll, pod);
        forall q | q in pods && q.key == key ensures q == pod { SameKeySamePod(pods, pod, q); }
      } else {
        UnlistedUntouched(cfg, poll, s.pods * Keys(pods), pods, key);
      }
    }
  }

  lemma SameKeySamePod(pods: seq<PodView>, p: PodView, q: PodView)
    requires Unique(pods) && p in pods && q in pods && p.key == q.key
    ensures p == q
  {
  }

  /** Success shows in the attempts on the pod. */
  lemma {:induction false} OkOfOf(attempts: seq<Attempt>, key: string)
    ensures Ok(attempts, key) <==> Ok(Of(attempts, key), key)
  {
    if attempts != [] {
      var n := |attempts| - 1;
      assert attempts == attempts[..n] + [attempts[n]];
      OkOfOf(attempts[..n], key);
    }
  }

  lemma NextRemembers(cfg: Config, s: Seen, poll: Poll, key: string)
    requires poll.pods.Some? ==> Unique(poll.pods.value)
    ensures key in Next(cfg, s, poll).pods <==> (key in s.pods && !Missing(poll, key)) || CapturedIn(cfg, poll, key)
  {
    MissingMeaning(poll, key);
    if poll.pods.Some? {
      TurnsRemember(cfg, poll, s.pods * Keys(poll.pods.value), poll.pods.value, key);
      if key !in s.pods || Missing(poll, key) { SuccessIsCapture(cfg, s, poll, key); }
    }
  }

  /** What the memory means: exactly the pods captured and never seen missing since. */
  lemma {:induction false} RememberedExactly(cfg: Config, polls: seq<Poll>, key: string)
    requires AllUnique(polls)
    ensures key in After(cfg, polls).pods <==> CapturedSince(cfg, polls, key)
  {
    if polls != [] {
      var n := |polls| - 1;
      RememberedExactly(cfg, polls[..n], key);
      NextRemembers(cfg, After(cfg, polls[..n]), polls[n], key);
      SinceStep(cfg, polls, key);
    }
  }

  lemma FromStep(cfg: Config, polls: seq<Poll>, i: nat, key: string)
    requires i < |polls| - 1
    ensures CapturedFrom(cfg, polls, i, key) <==>
            CapturedFrom(cfg, polls[..|polls| - 1], i, key) && !Missing(polls[|polls| - 1], key)
  {
    var before := polls[..|polls| - 1];
    if CapturedFrom(cfg, before, i, key) && !Missing(polls[|polls| - 1], key) {
      forall j | i < j < |polls| ensures !Missing(polls[j], key) {
        assert j < |before| ==> before[j] == polls[j];
      }
    }
  }

  lemma SinceStep(cfg: Config, polls: seq<Poll>, key: string)
    requires polls != []
    ensures var n := |polls| - 1;
            CapturedSince(cfg, polls, key) <==>
            (CapturedSince(cfg, polls[..n], key) && !Missing(polls[n], key)) || CapturedIn(cfg, polls[n], key)
  {
    var n := |polls| - 1;
    forall i: nat | i < n
      ensures CapturedFrom(cfg, polls, i, key) <==> CapturedFrom(cfg, polls[..n], i, key) && !Missing(polls[n], key)
    {
      FromStep(cfg, polls, i, key);
    }
    if CapturedIn(cfg, polls[n], key) { assert CapturedFrom(cfg, polls, n, key); }
  }

  /** Retried until captured, then left alone: in every poll a listed pod gets its whole turn, exactly
      unless it was captured and has been listed ever since. */
  lemma AttemptedExactly(cfg: Config, polls: seq<Poll>, i: nat, j: nat)
    requires AllUnique(polls) && i < |polls| && polls[i].pods.Some? && j < |polls[i].pods.value|
    ensures var pod := polls[i].pods.value[j];
            Of(PodAttempts(cfg, After(cfg, polls[..i]), polls[i]), pod.key) ==
            if CapturedSince(cfg, polls[..i], pod.key) then [] else OwnTurn(cfg, polls[i], pod)
  {
    TurnMeaning(cfg, polls[i], polls[i].pods.value[j]);
    RememberedExactly(cfg, polls[..i], polls[i].pods.value[j].key);
    ListedAttempts(cfg, After(cfg, polls[..i]), polls[i], polls[i].pods.value[j]);
  }

  /** Poll i of the run captures the pod. */
  predicate SucceedsAt(cfg: Config, polls: seq<Poll>, i: nat, key: string)
    requires i < |polls|
  {
    Ok(PodAttempts(cfg, After(cfg, polls[..i]), polls[i]), key)
  }

  /** Poll i captures the pod exactly when it could and the pod was not captured and listed since. */
  lemma SucceedsExactly(cfg: Config, polls: seq<Poll>, i: nat, key: string)
    requires AllUnique(polls) && i < |polls|
    ensures SucceedsAt(cfg, polls, i, key) <==> CapturedIn(cfg, polls[i], key) && !CapturedSince(cfg, polls[..i], key)
  {
    RememberedExactly(cfg, polls[..i], key);
    var s := After(cfg, polls[..i]);
    if key in s.pods && !Missing(polls[i], key) {
      if polls[i].pods.Some? {
        var pod :| pod in polls[i].pods.value && pod.key == key;
        ListedAttempts(cfg, s, polls[i], pod);
        OkIsOf(PodAttempts(cfg, s, polls[i]), key);
      }
    } else {
      SuccessIsCapture(cfg, s, polls[i], key);
    }
  }

  /** At most once per disruption: between two captures of a pod it was seen missing. */
  lemma OncePerDisruption(cfg: Config, polls: seq<Poll>, i: nat, j: nat, key: string)
    requires AllUnique(polls) && i < j < |polls| && SucceedsAt(cfg, polls, i, key) && SucceedsAt(cfg, polls, j, key)
    ensures exists k :: i < k < j && Missing(polls[k], key)
  {
    SucceedsExactly(cfg, polls, i, key);
    SucceedsExactly(cfg, polls, j, key);
    var before := polls[..j];
    assert before[i] == polls[i];
    assert !CapturedFrom(cfg, before, i, key);
    var k :| i < k < j && Missing(before[k], key);
    assert before[k] == polls[k];
  }

  /** The memory is by name: a pod recreated under the name of a captured one gets no attempt of its
      own while no poll sees the name missing. */
  lemma RecreatedPodMissed(cfg: Config, first: Poll, second: Poll, pod: PodView, later: PodView)
    requires cfg.eviction && pod.deleting && pod.key == later.key && pod.uid != later.uid && later.deleting
    requires first.pods == Some([pod]) && second.pods == Some([later]) && CanCapture(cfg, first, pod, Eviction)
    ensures Of(PodAttempts(cfg, After(cfg, [first]), second), later.key) == []
  {
    var polls := [first, second];
    assert polls[..1] == [first] && [first][..0] == [];
    assert polls[1].pods.value[0] == later;
    AttemptedExactly(cfg, polls, 1, 0);
    assert pod in [pod];
    assert CapturedFrom(cfg, [first], 0, later.key);
  }

  // ---------- draining nodes over a run ----------

  /** The poll watches drains and has both listings. */
  predicate Watched(cfg: Config, poll: Poll) { cfg.drain && poll.pods.Some? && poll.nodes.Some? }

  /** A listed node of that name is cordoned and hosts a listed pod. */
  predicate Drains(cfg: Config, poll: Poll, node: string) {
    && Watched(cfg, poll) && node != "" && (exists pod :: pod in poll.pods.value && pod.node == node)
    && exists n :: n in poll.nodes.value && n.name == node && n.unschedulable
  }

  lemma DrainsMeaning(cfg: Config, poll: Poll, node: string)
    ensures node in DrainingIn(cfg, poll) <==> Drains(cfg, poll, node)
  {}

  /** The node drains in the poll and all containers of its pods can be captured. */
  predicate DrainCapturedIn(cfg: Config, poll: Poll, node: string) {
    Drains(cfg, poll, node) && forall pod :: pod in poll.pods.value && pod.node == node ==> CanCapture(cfg, poll, pod, NodeDrain)
  }

  lemma NodeCapturedMeaning(cfg: Config, poll: Poll, node: string)
    ensures DrainCapturedIn(cfg, poll, node) <==>
            node in DrainingIn(cfg, poll) && NodeCaptured(cfg, poll, poll.pods.value, node)
  {
    DrainsMeaning(cfg, poll, node);
    if poll.pods.Some? {
      forall pod | pod in poll.pods.value
        ensures Captures(cfg, poll, pod, NodeDrain) <==> CanCapture(cfg, poll, pod, NodeDrain)
      {
        CapturesMeaning(cfg, poll, pod, NodeDrain);
      }
    }
  }

  /** A poll that watches drains sees the node not draining. */
  predicate Cleared(cfg: Config, poll: Poll, node: string) { Watched(cfg, poll) && !Drains(cfg, poll, node) }

  lemma DrainNext(cfg: Config, s: Seen, poll: Poll, node: string)
    ensures node in Next(cfg, s, poll).nodes <==>
            (node in s.nodes && !Cleared(cfg, poll, node)) || DrainCapturedIn(cfg, poll, node)
  {
    DrainsMeaning(cfg, poll, node);
    NodeCapturedMeaning(cfg, poll, node);
  }

  predicate DrainCapturedFrom(cfg: Config, polls: seq<Poll>, i: nat, node: string) {
    i < |polls| && DrainCapturedIn(cfg, polls[i], node) && forall j :: i < j < |polls| ==> !Cleared(cfg, polls[j], node)
  }

  predicate DrainCapturedSince(cfg: Config, polls: seq<Poll>, node: string) {
    exists i: nat :: i < |polls| && DrainCapturedFrom(cfg, polls, i, node)
  }

  lemma DrainFromStep(cfg: Config, polls: seq<Poll>, i: nat, node: string)
    requires i < |polls| - 1
    ensures DrainCapturedFrom(cfg, polls, i, node) <==>
            DrainCapturedFrom(cfg, polls[..|polls| - 1], i, node) && !Cleared(cfg, polls[|polls| - 1], node)
  {
    var before := polls[..|polls| - 1];
    if DrainCapturedFrom(cfg, before, i, node) && !Cleared(cfg, polls[|polls| - 1], node) {
      forall j | i < j < |polls| ensures !Cleared(cfg, polls[j], node) {
        assert j < |before| ==> before[j] == polls[j];
      }
    }
  }

  lemma DrainSinceStep(cfg: Config, polls: seq<Poll>, node: string)
    requires polls != []
    ensures var n := |polls| - 1;
            DrainCapturedSince(cfg, polls, node) <==>
            (DrainCapturedSince(cfg, polls[..n], node) && !Cleared(cfg, polls[n], node)) || DrainCapturedIn(cfg, polls[n], node)
  {
    var n := |polls| - 1;
    forall i: nat | i < n
      ensures DrainCapturedFrom(cfg, polls, i, node) <==>
              DrainCapturedFrom(cfg, polls[..n], i, node) && !Cleared(cfg, polls[n], node)
    {
      DrainFromStep(cfg, polls, i, node);
    }
    if DrainCapturedIn(cfg, polls[n], node) { assert DrainCapturedFrom(cfg, polls, n, node); }
  }

  /** A drain is remembered exactly while it lasts, from the poll that captured all its pods. */
  lemma {:induction false} DrainRememberedExactly(cfg: Config, polls: seq<Poll>, node: string)
    ensures node in After(cfg, polls).nodes <==> DrainCapturedSince(cfg, polls, node)
  {
    if polls != [] {
      DrainRememberedExactly(cfg, polls[..|polls| - 1], node);
      DrainNext(cfg, After(cfg, polls[..|polls| - 1]), polls[|polls| - 1], node);
      DrainSinceStep(cfg, polls, node);
    }
  }

  /** Poll i of the run visits the draining node and captures all its pods. */
  predicate DrainSucceedsAt(cfg: Config, polls: seq<Poll>, i: nat, node: string)
    requires i < |polls|
  {
    DrainCapturedIn(cfg, polls[i], node) && node !in After(cfg, polls[..i]).nodes
  }

  /** At most once per drain: between two full captures the node was seen not draining. */
  lemma OncePerDrain(cfg: Config, polls: seq<Poll>, i: nat, j: nat, node: string)
    requires i < j < |polls| && DrainSucceedsAt(cfg, polls, i, node) && DrainSucceedsAt(cfg, polls, j, node)
    ensures exists k :: i < k < j && Cleared(cfg, polls[k], node)
  {
    var before := polls[..j];
    DrainRememberedExactly(cfg, before, node);
    assert before[i] == polls[i];
    assert !DrainCapturedFrom(cfg, before, i, node);
    var k :| i < k < j && Cleared(cfg, before[k], node);
    assert before[k] == polls[k];
  }

  lemma {:induction false} NodeTurnUnlisted(cfg: Config, poll: Poll, pods: seq<PodView>, node: string, key: string)
    requires forall k :: 0 <= k < |pods| ==> pods[k].key != key
    ensures Of(NodeTurn(cfg, poll, pods, node), key) == []
  {
    if pods != [] {
      var n := |pods| - 1;
      NodeTurnUnlisted(cfg, poll, pods[..n], node, key);
      NodeTurnLast(cfg, poll, pods, node, key);
    }
  }

  /** The attempts of a drain on the pods of one key, split off the last pod. */
  lemma NodeTurnLast(cfg: Config, poll: Poll, pods: seq<PodView>, node: string, key: string)
    requires pods != []
    ensures var last := pods[|pods| - 1];
            Of(NodeTurn(cfg, poll, pods, node), key) == Of(NodeTurn(cfg, poll, pods[..|pods| - 1], node), key) +
              if last.node == node && last.key == key then [Attempt(key, NodeDrain, Captures(cfg, poll, last, NodeDrain))] else []
  {
    var n := |pods| - 1;
    var own := [Attempt(pods[n].key, NodeDrain, Captures(cfg, poll, pods[n], NodeDrain))];
    if pods[n].node == node {
      OfConcat(NodeTurn(cfg, poll, pods[..n], node), own, key);
      assert own[..0] == [];
      assert Of(own, key) == if pods[n].key == key then own else [];
    } else {
      assert NodeTurn(cfg, poll, pods, node) == NodeTurn(cfg, poll, pods[..n], node);
    }
  }

  lemma {:induction false} NodeTurnOf(cfg: Config, poll: Poll, pods: seq<PodView>, node: string, i: nat)
    requires i < |pods| && Unique(pods)
    ensures Of(NodeTurn(cfg, poll, pods, node), pods[i].key) ==
            if pods[i].node == node then [Attempt(pods[i].key, NodeDrain, Captures(cfg, poll, pods[i], NodeDrain))] else []
  {
    var n := |pods| - 1;
    NodeTurnLast(cfg, poll, pods, node, pods[i].key);
    if i == n {
      NodeTurnUnlisted(cfg, poll, pods[..n], node, pods[i].key);
    } else {
      NodeTurnOf(cfg, poll, pods[..n], node, i);
    }
  }

  /** What the visited nodes attempt on the i-th pod: one capture, if its node is visited unremembered. */
  lemma {:induction false} NodeTurnsOf(cfg: Config, poll: Poll, pods: seq<PodView>, seen: set<string>, order: seq<string>, i: nat)
    requires i < |pods| && Unique(pods) && NoDuplicates(order)
    ensures Of(NodeTurns(cfg, poll, pods, seen, order).attempts, pods[i].key) ==
            if pods[i].node in order && pods[i].node !in seen
            then [Attempt(pods[i].key, NodeDrain, Captures(cfg, poll, pods[i], NodeDrain))] else []
  {
    if order != [] {
      var n := |order| - 1;
      assert order == order[..n] + [order[n]];
      var t := NodeTurns(cfg, poll, pods, seen, order[..n]);
      NodeTurnsOf(cfg, poll, pods, seen, order[..n], i);
      NodeTurnsSeen(cfg, poll, pods, seen, order[..n], pods[i].node);
      NodeTurnOf(cfg, poll, pods, order[n], i);
      OfConcat(t.attempts, NodeOnce(cfg, poll, pods, t.seen, order[n]).attempts, pods[i].key);
    }
  }

  lemma DrainAttemptedExactly(cfg: Config, polls: seq<Poll>, order: seq<string>, i: nat, j: nat)
    requires i < |polls| && polls[i].pods.Some? && Unique(polls[i].pods.value) && j < |polls[i].pods.value|
    requires Enumerates(order, DrainingIn(cfg, polls[i]))
    ensures var pod, poll, before := polls[i].pods.value[j], polls[i], polls[..i];
            Of(NodeTurns(cfg, poll, poll.pods.value, After(cfg, before).nodes * DrainingIn(cfg, poll), order).attempts, pod.key) ==
              if Drains(cfg, poll, pod.node) && !DrainCapturedSince(cfg, before, pod.node)
              then [Attempt(pod.key, NodeDrain, CanCapture(cfg, poll, pod, NodeDrain))] else []
  {
    var pod, poll, before := polls[i].pods.value[j], polls[i], polls[..i];
    DrainsMeaning(cfg, poll, pod.node);
    CapturesMeaning(cfg, poll, pod, NodeDrain);
    DrainRememberedExactly(cfg, before, pod.node);
    NodeTurnsOf(cfg, poll, poll.pods.value, After(cfg, before).nodes * DrainingIn(cfg, poll), order, j);
  }

  /** Everything a poll attempts on a listed pod, stated on the polls alone: its drain capture unless
      the drain was captured and has lasted since, then its own turn unless it was captured and has
      been listed since. */
  lemma PollAttemptsExactly(cfg: Config, polls: seq<Poll>, order: seq<string>, i: nat, j: nat)
    requires AllUnique(polls) && i < |polls| && polls[i].pods.Some? && j < |polls[i].pods.value|
    requires Enumerates(order, DrainingIn(cfg, polls[i]))
    ensures var pod, poll, before := polls[i].pods.value[j], polls[i], polls[..i];
            Of(Attempts(cfg, After(cfg, before), poll, order), pod.key) ==
              (if Drains(cfg, poll, pod.node) && !DrainCapturedSince(cfg, before, pod.node)
               then [Attempt(pod.key, NodeDrain, CanCapture(cfg, poll, pod, NodeDrain))] else []) +
              (if CapturedSince(cfg, before, pod.key) then [] else OwnTurn(cfg, poll, pod))
  {
    var pod, poll, before := polls[i].pods.value[j], polls[i], polls[..i];
    var s := After(cfg, before);
    var seen := s.nodes * DrainingIn(cfg, poll);
    DrainAttemptedExactly(cfg, polls, order, i, j);
    AttemptedExactly(cfg, polls, i, j);
    OfConcat(NodeTurns(cfg, poll, poll.pods.value, seen, order).attempts, PodAttempts(cfg, s, poll), pod.key);
  }
}

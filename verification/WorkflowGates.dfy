/**
 What the chain of dependencies is for: no step starts before the steps it waits for are done. The
 dependency rule is that of `src/modules/workflow/dependency-engine.ts` and
 `src/modules/workflow/task-state-machine.ts`; the creation of tasks with automatically skipped steps
 and the release of tasks on completion are those of `src/modules/workflow/workflow.engine.ts`.
 */
module WorkflowGates {
  datatype Status = Blocked | Ready | InProgress | Completed | Skipped

  /** Each task waits for that of the step before it; tasks are numbered in step order. */
  type Edges = set<(nat, nat)>

  function ChainEdges(n: nat): Edges {
    set i, j | 0 <= j < n && 0 <= i < n && i == j + 1 :: (i, j)
  }

  /** A FINISH_TO_START dependency is satisfied by a completed and by a skipped task. */
  predicate IsDone(s: Status) {
    s == Completed || s == Skipped
  }

  /** Released and not done. */
  predicate IsOpen(s: Status) {
    s == Ready || s == InProgress
  }

  predicate AreDependenciesMet(i: nat, edges: Edges, status: seq<Status>) {
    forall e :: e in edges && e.0 == i ==> e.1 < |status| && IsDone(status[e.1])
  }

  /** Every blocked task whose dependencies are met becomes ready. */
  function Released(edges: Edges, status: seq<Status>): (released: seq<Status>)
    ensures |released| == |status|
  {
    seq(|status|, i requires 0 <= i < |status| =>
      if status[i] == Blocked && AreDependenciesMet(i, edges, status) then Ready else status[i])
  }

  /** The tasks of a new order: those its configuration does not need are skipped, then the first ones are released. */
  function CreatedOver(edges: Edges, n: nat, skipped: set<nat>): (status: seq<Status>)
    ensures |status| == n
  {
    Released(edges, seq(n, i => if i in skipped then Skipped else Blocked))
  }

  function Created(n: nat, skipped: set<nat>): (status: seq<Status>)
    ensures |status| == n
  {
    CreatedOver(ChainEdges(n), n, skipped)
  }

  datatype Event = Start(task: nat) | Complete(task: nat)

  function Step(edges: Edges, status: seq<Status>, e: Event): (next: seq<Status>)
    ensures |next| == |status|
  {
    match e
    case Start(i) => if i < |status| && status[i] == Ready then status[i := InProgress] else status
    case Complete(i) =>
      if i < |status| && IsOpen(status[i]) then Released(edges, status[i := Completed]) else status
  }

  function Run(edges: Edges, status: seq<Status>, events: seq<Event>): (final: seq<Status>)
    ensures |final| == |status|
    decreases events
  {
    if events == [] then status else Run(edges, Step(edges, status, events[0]), events[1..])
  }

  // ---------- gates

  /** Everything before a task that has been released is done: no gate before it is still open. */
  ghost predicate GatesHold(status: seq<Status>) {
    forall i, j :: 0 <= i < j < |status| && (IsOpen(status[j]) || status[j] == Completed) ==> IsDone(status[i])
  }

  ghost predicate GatesAlwaysHoldOver(edges: Edges, n: nat, skipped: set<nat>) {
    forall events :: GatesHold(Run(edges, CreatedOver(edges, n, skipped), events))
  }

  ghost predicate GatesAlwaysHold(n: nat, skipped: set<nat>) {
    GatesAlwaysHoldOver(ChainEdges(n), n, skipped)
  }

  /** No skipped step stands between two steps that are not skipped. */
  ghost predicate SkipsAtTheEnds(n: nat, skipped: set<nat>) {
    forall i, k, m :: 0 <= i < k < m < n && i !in skipped && k in skipped ==> m in skipped
  }

  /**
   A released task has its predecessor done; a task is skipped exactly if it was from the start.
   */
  ghost predicate Inv(skipped: set<nat>, status: seq<Status>) {
    && (forall i :: 0 <= i < |status| ==> (status[i] == Skipped <==> i in skipped))
    && (forall i, j :: 0 <= i && j == i + 1 && j < |status| && status[j] != Blocked && status[j] != Skipped ==>
          IsDone(status[i]))
  }

  lemma MetIff(n: nat, i: nat, status: seq<Status>)
    requires |status| == n && i < n
    ensures AreDependenciesMet(i, ChainEdges(n), status) <==> i == 0 || IsDone(status[i - 1])
  {
    if i > 0 {
      assert (i, i - 1) in ChainEdges(n);
    }
  }

  lemma ReleasedKeepsInv(n: nat, skipped: set<nat>, status: seq<Status>)
    requires |status| == n && Inv(skipped, status)
    ensures Inv(skipped, Released(ChainEdges(n), status))
  {
    forall j | 0 <= j < n ensures AreDependenciesMet(j, ChainEdges(n), status) <==> j == 0 || IsDone(status[j - 1]) {
      MetIff(n, j, status);
    }
  }

  lemma {:induction false} RunKeepsInv(n: nat, skipped: set<nat>, status: seq<Status>, events: seq<Event>)
    requires |status| == n && Inv(skipped, status)
    ensures Inv(skipped, Run(ChainEdges(n), status, events))
    decreases events
  {
    if events != [] {
      if events[0].Complete? && events[0].task < n && IsOpen(status[events[0].task]) {
        ReleasedKeepsInv(n, skipped, status[events[0].task := Completed]);
      }
      RunKeepsInv(n, skipped, Step(ChainEdges(n), status, events[0]), events[1..]);
    }
  }

  lemma CreatedIsSound(n: nat, skipped: set<nat>)
    ensures Inv(skipped, Created(n, skipped))
  {
    ReleasedKeepsInv(n, skipped, seq(n, i => if i in skipped then Skipped else Blocked));
  }

  /** With skips only at the ends, the local rule reaches all the way back. */
  lemma {:induction false} InvGivesGates(skipped: set<nat>, status: seq<Status>, i: nat, j: nat)
    requires Inv(skipped, status) && SkipsAtTheEnds(|status|, skipped)
    requires i < j < |status| && status[j] != Blocked && status[j] != Skipped
    ensures IsDone(status[i])
    decreases j
  {
    if i < j - 1 {
      if status[j - 1] == Completed {
        InvGivesGates(skipped, status, i, j - 1);
      } else {
        assert j - 1 in skipped && j !in skipped;
      }
    }
  }

  /** A skipped step after a gate releases the step behind it at once, while the gate is still open. */
  lemma SkipOpensGate(n: nat, skipped: set<nat>, i: nat, j: nat)
    requires i < j - 1 && j < n && i !in skipped && j - 1 in skipped && j !in skipped
    ensures !GatesHold(Run(ChainEdges(n), Created(n, skipped), [Start(j)]))
  {
    var before := seq(n, k => if k in skipped then Skipped else Blocked);
    var created, edges := Created(n, skipped), ChainEdges(n);
    MetIff(n, j, before);
    assert created[j] == Ready && !IsDone(created[i]);
    var final := created[j := InProgress];
    assert Step(edges, created, Start(j)) == final;
    assert Run(edges, created, [Start(j)]) == final by {
      assert [Start(j)][0] == Start(j) && [Start(j)][1..] == [];
      assert Run(edges, final, []) == final;
    }
    assert final[j] == InProgress && final[i] == created[i];
  }

  /** After a skipped step and before a later one that is kept, some step is skipped right before a kept one. */
  lemma {:induction false} LastSkip(skipped: set<nat>, k: nat, m: nat) returns (j: nat)
    requires k < m && k in skipped && m !in skipped
    ensures k < j <= m && j - 1 in skipped && j !in skipped
    decreases m - k
  {
    if m - 1 in skipped {
      j := m;
    } else {
      j := LastSkip(skipped, k, m - 1);
    }
  }

  /**
   In every run no step starts while a step before it is open, exactly when automatically skipped
   steps do not stand between steps that are kept.
   */
  lemma GatesAlwaysHoldIff(n: nat, skipped: set<nat>)
    ensures GatesAlwaysHold(n, skipped) <==> SkipsAtTheEnds(n, skipped)
  {
    if SkipsAtTheEnds(n, skipped) {
      CreatedIsSound(n, skipped);
      forall events ensures GatesHold(Run(ChainEdges(n), Created(n, skipped), events)) {
        RunKeepsInv(n, skipped, Created(n, skipped), events);
        var status := Run(ChainEdges(n), Created(n, skipped), events);
        forall i, j | 0 <= i < j < n && status[j] != Blocked && status[j] != Skipped ensures IsDone(status[i]) {
          InvGivesGates(skipped, status, i, j);
        }
      }
    } else {
      var i, k, m :| 0 <= i < k < m < n && i !in skipped && k in skipped && m !in skipped;
      var j := LastSkip(skipped, k, m);
      SkipOpensGate(n, skipped, i, j);
    }
  }

  /** The first `done` steps are completed, the next is open, and none after it has been released. */
  ghost predicate IsPrefix(status: seq<Status>, done: nat) {
    && done <= |status|
    && (forall i :: 0 <= i < done ==> status[i] == Completed)
    && (forall i :: done < i < |status| ==> status[i] == Blocked)
    && (done < |status| ==> status[done] != Completed)
  }

  /** When nothing is skipped, in every run the completed steps form a prefix, and at most the next one is under way. */
  lemma CompletedStepsFormPrefix(n: nat, events: seq<Event>) returns (done: nat)
    ensures IsPrefix(Run(ChainEdges(n), Created(n, {}), events), done)
  {
    GatesAlwaysHoldIff(n, {});
    CreatedIsSound(n, {});
    RunKeepsInv(n, {}, Created(n, {}), events);
    var status := Run(ChainEdges(n), Created(n, {}), events);
    assert GatesHold(status);
    done := 0;
    while done < n && status[done] == Completed
      invariant done <= n && forall i :: 0 <= i < done ==> status[i] == Completed
    {
      done := done + 1;
    }
  }

  // ---------- progress

  /** Not started: skipped from the start, or released exactly if what it waits for is done. */
  predicate IsUntouched(skipped: set<nat>, status: seq<Status>, i: nat)
    requires i < |status|
  {
    if i in skipped then status[i] == Skipped
    else if i == 0 || IsDone(status[i - 1]) then status[i] == Ready
    else status[i] == Blocked
  }

  /** The first tasks are done; of the others none has been started. */
  ghost predicate DoneUpTo(skipped: set<nat>, status: seq<Status>, k: nat) {
    && k <= |status|
    && (forall i :: 0 <= i < k ==> IsDone(status[i]))
    && (forall i: nat :: k <= i < |status| ==> IsUntouched(skipped, status, i))
  }

  lemma CreatedIsDoneUpTo(n: nat, skipped: set<nat>)
    ensures DoneUpTo(skipped, Created(n, skipped), 0)
  {
    var before := seq(n, i => if i in skipped then Skipped else Blocked);
    forall j | 0 <= j < n ensures AreDependenciesMet(j, ChainEdges(n), before) <==> j == 0 || IsDone(before[j - 1]) {
      MetIff(n, j, before);
    }
  }

  /** A task that is ready can be started and completed, which releases the one behind it and no other. */
  lemma CompletionReleasesNext(n: nat, skipped: set<nat>, status: seq<Status>, k: nat)
    requires |status| == n && k < n && k !in skipped && DoneUpTo(skipped, status, k)
    ensures status[k] == Ready
    ensures DoneUpTo(skipped, Step(ChainEdges(n), Step(ChainEdges(n), status, Start(k)), Complete(k)), k + 1)
  {
    var edges := ChainEdges(n);
    var completed := status[k := InProgress][k := Completed];
    assert IsUntouched(skipped, status, k);
    assert Step(edges, Step(edges, status, Start(k)), Complete(k)) == Released(edges, completed);
    var released := Released(edges, completed);
    forall j: nat | k + 1 <= j < n ensures IsUntouched(skipped, released, j) {
      MetIff(n, j, completed);
      assert IsUntouched(skipped, status, j) && IsDone(released[j - 1]) == IsDone(completed[j - 1]);
    }
  }

  /** No order gets stuck: whatever is skipped, from any such point there is a run that gets every task done. */
  lemma {:induction false} EveryTaskCanBeDone(n: nat, skipped: set<nat>, status: seq<Status>, k: nat)
    returns (events: seq<Event>)
    requires |status| == n && DoneUpTo(skipped, status, k)
    ensures DoneUpTo(skipped, Run(ChainEdges(n), status, events), n)
    decreases n - k
  {
    var edges := ChainEdges(n);
    if k == n {
      events := [];
    } else if k in skipped {
      assert IsUntouched(skipped, status, k);
      events := EveryTaskCanBeDone(n, skipped, status, k + 1);
    } else {
      var s1 := Step(edges, status, Start(k));
      var s2 := Step(edges, s1, Complete(k));
      CompletionReleasesNext(n, skipped, status, k);
      var rest := EveryTaskCanBeDone(n, skipped, s2, k + 1);
      events := [Start(k)] + ([Complete(k)] + rest);
      assert events[1..] == [Complete(k)] + rest && ([Complete(k)] + rest)[1..] == rest;
      assert Run(edges, s1, [Complete(k)] + rest) == Run(edges, s2, rest);
      hide DoneUpTo, Step;
    }
  }

  lemma OrdersCanBeFinished(n: nat, skipped: set<nat>) returns (events: seq<Event>)
    ensures var status := Run(ChainEdges(n), Created(n, skipped), events);
            forall i :: 0 <= i < n ==> IsDone(status[i])
  {
    CreatedIsDoneUpTo(n, skipped);
    events := EveryTaskCanBeDone(n, skipped, Created(n, skipped), 0);
  }
}

/**
 From the stored template to the tasks of an order, `src/modules/workflow/dependency-engine.ts`: the
 dependencies that seeding stored are the chain that the gates rest on.
 */
module SeededGates {
  import opened Common
  import opened WorkflowSeed
  import opened WorkflowGates

  type StepEdges = set<(StepId, StepId)>

  /** The stored dependencies of the template's own steps. */
  function ExplicitEdges(ids: seq<StepId>, dependencies: StepEdges): StepEdges {
    set e | e in dependencies && e.0 in ids
  }

  /** Stored dependencies count alone; only a template without any gets a chain in step order. */
  function ResolvedEdges(ids: seq<StepId>, explicit: StepEdges): StepEdges {
    if explicit != {} then explicit else Chain(ids)
  }

  /** Tasks are numbered like the steps they were made for; a dependency without both tasks is left out. */
  function TaskEdges(ids: seq<StepId>, edges: StepEdges): Edges {
    set i, j | 0 <= i < |ids| && 0 <= j < |ids| && (ids[i], ids[j]) in edges :: (i, j)
  }

  lemma InOrderIsDistinct(ids: seq<StepId>, steps: Steps, template: string)
    requires InOrder(ids, steps, template)
    ensures NoDuplicates(ids)
  {
    forall i, j | 0 <= i < j < |ids| ensures ids[i] != ids[j] {
      assert ids[i] in ids && ids[j] in ids;
    }
  }

  lemma {:induction false} ChainStartsInside(ids: seq<StepId>)
    ensures forall e :: e in Chain(ids) ==> e.0 in ids && e.1 in ids
    decreases ids
  {
    if |ids| > 1 {
      ChainStartsInside(ids[..|ids| - 1]);
    }
  }

  /** An edge of the chain joins neighbouring places and no others. */
  lemma ChainJoinsNeighbours(ids: seq<StepId>, i: nat, j: nat)
    requires NoDuplicates(ids) && i < |ids| && j < |ids|
    ensures (ids[i], ids[j]) in Chain(ids) <==> i == j + 1
  {
    InChainIff(ids, (ids[i], ids[j]));
    if (ids[i], ids[j]) in Chain(ids) {
      var a, b :| 0 <= a && b == a + 1 && b < |ids| && (ids[i], ids[j]) == (ids[b], ids[a]);
      assert b == i && a == j;
    }
  }

  /** Whatever else is stored, the tasks of a seeded template wait for each other in a chain. */
  lemma SeededEdgesAreChain(ids: seq<StepId>, others: StepEdges)
    requires NoDuplicates(ids) && forall e :: e in others ==> e.0 !in ids
    ensures TaskEdges(ids, ResolvedEdges(ids, ExplicitEdges(ids, others + Chain(ids)))) == ChainEdges(|ids|)
  {
    ChainStartsInside(ids);
    assert ExplicitEdges(ids, others + Chain(ids)) == Chain(ids);
    forall i: nat, j: nat ensures (i, j) in TaskEdges(ids, Chain(ids)) <==> (i, j) in ChainEdges(|ids|) {
      if i < |ids| && j < |ids| {
        ChainJoinsNeighbours(ids, i, j);
      }
    }
    assert TaskEdges(ids, Chain(ids)) == ChainEdges(|ids|);
  }

  /** Steps of which nothing is stored wait for each other in the same chain. */
  lemma UnlinkedStepsAreChained(ids: seq<StepId>, others: StepEdges)
    requires NoDuplicates(ids) && forall e :: e in others ==> e.0 !in ids
    ensures TaskEdges(ids, ResolvedEdges(ids, ExplicitEdges(ids, others))) == ChainEdges(|ids|)
  {
    assert ExplicitEdges(ids, others) == {};
    forall i: nat, j: nat ensures (i, j) in TaskEdges(ids, Chain(ids)) <==> (i, j) in ChainEdges(|ids|) {
      if i < |ids| && j < |ids| {
        ChainJoinsNeighbours(ids, i, j);
      }
    }
    assert TaskEdges(ids, Chain(ids)) == ChainEdges(|ids|);
  }

  /**
   For a template whose steps were linked by seeding, the tasks of every order keep their gates in every
   run exactly when the skipped steps do not stand between steps that are kept.
   */
  lemma SeededGatesHoldIff(ids: seq<StepId>, steps: Steps, template: string, others: StepEdges, skipped: set<nat>)
    requires InOrder(ids, steps, template) && forall e :: e in others ==> e.0 !in ids
    ensures var edges := TaskEdges(ids, ResolvedEdges(ids, ExplicitEdges(ids, others + Chain(ids))));
            GatesAlwaysHoldOver(edges, |ids|, skipped) <==> SkipsAtTheEnds(|ids|, skipped)
  {
    InOrderIsDistinct(ids, steps, template);
    SeededEdgesAreChain(ids, others);
    GatesAlwaysHoldIff(|ids|, skipped);
  }
}

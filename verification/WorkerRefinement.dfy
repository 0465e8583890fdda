/**
 * The status writes of one worker's job are the worker steps of the conversation slot, whatever other callers and
 * workers do in between.
 */
module WorkerRefinement {
  import opened ConversationSlot
  import opened GenerationWorker
  import opened Options

  predicate IsOwn(step: Step, j: Job) {
    (step.Begin? || step.FailEarly? || step.End? || step.WorkerDies?) && step.job == j
  }

  /** The steps that a worker's status writes are; a worker that wrote no ending is gone all the same. */
  function StepsOf(j: Job, written: seq<Status>): seq<Step>
    requires AreStatusWrites(written)
  {
    if written == [] then [WorkerDies(j)]
    else if written == [Failed] then [FailEarly(j)]
    else if |written| == 1 then [Begin(j), WorkerDies(j)]
    else [Begin(j), End(j, written[1])]
  }

  /** What a run has of one worker. */
  function OwnSteps(steps: seq<Step>, j: Job): seq<Step> {
    if steps == [] then []
    else OwnSteps(steps[..|steps| - 1], j) + if IsOwn(steps[|steps| - 1], j) then [steps[|steps| - 1]] else []
  }

  /** How far a worker is with its job, and the status the job shows. */
  datatype View = View(phase: Option<Phase>, status: Option<Status>)

  function ViewOf(s: System, j: Job): View {
    View(if j in s.workers then Some(s.workers[j]) else None, HashOf(s.redis, j).status)
  }

  function OwnStep(v: View, step: Step): View {
    match step
    case Begin(_) => if v.phase == Some(Popped) then View(Some(Working), Some(Processing)) else v
    case FailEarly(_) => if v.phase == Some(Popped) then View(None, Some(Failed)) else v
    case End(_, status) =>
      if v.phase == Some(Working) && (status.Finished? || status.Failed?) then View(None, Some(status)) else v
    case WorkerDies(_) => v.(phase := None)
    case _ => v
  }

  function OwnRun(v: View, own: seq<Step>): View {
    if own == [] then v else OwnStep(OwnRun(v, own[..|own| - 1]), own[|own| - 1])
  }

  /** The job was taken from the queue, so nobody else has it. */
  predicate IsTaken(s: System, j: Job) {
    j in s.used && j !in s.callers && j !in s.redis.queue
  }

  /** Only a worker's own steps change what its job shows. */
  lemma StepShowsInView(s: System, step: Step, j: Job)
    requires IsTaken(s, j)
    ensures IsTaken(Apply(s, step), j)
    ensures ViewOf(Apply(s, step), j) == if IsOwn(step, j) then OwnStep(ViewOf(s, j), step) else ViewOf(s, j)
  {
    hide Busy;
  }

  lemma {:induction false} RunShowsInView(first: seq<Step>, steps: seq<Step>, j: Job)
    requires IsTaken(Run(first), j)
    ensures IsTaken(Run(first + steps), j)
    ensures ViewOf(Run(first + steps), j) == OwnRun(ViewOf(Run(first), j), OwnSteps(steps, j))
  {
    hide Apply, ViewOf, OwnStep, IsOwn, IsTaken;
    if steps == [] {
      assert first + steps == first;
    } else {
      var init, step := steps[..|steps| - 1], steps[|steps| - 1];
      RunShowsInView(first, init, j);
      assert (first + steps)[..|first + init|] == first + init;
      StepShowsInView(Run(first + init), step, j);
      var own := OwnSteps(init, j);
      assert (own + [step])[..|own|] == own && own + [] == own;
    }
  }

  lemma {:induction false} OwnStepsOfPrefix(steps: seq<Step>, n: nat, j: Job)
    requires n <= |steps|
    ensures OwnSteps(steps[..n], j) <= OwnSteps(steps, j)
    decreases |steps|
  {
    if n < |steps| {
      OwnStepsOfPrefix(steps[..|steps| - 1], n, j);
      assert steps[..|steps| - 1][..n] == steps[..n];
    } else {
      assert steps[..n] == steps;
    }
  }

  /** How many of these steps write a status. */
  function Writes(own: seq<Step>): nat {
    if own == [] then 0 else Writes(own[..|own| - 1]) + if own[|own| - 1].WorkerDies? then 0 else 1
  }

  function StatusAfter(written: seq<Status>, n: nat): Status
    requires n <= |written|
  {
    if n == 0 then Pending else written[n - 1]
  }

  /** The worker's own steps take its job through exactly the statuses it wrote. */
  lemma OwnStepsShowTheWrites(j: Job, written: seq<Status>, n: nat)
    requires AreStatusWrites(written) && n <= |StepsOf(j, written)|
    ensures Writes(StepsOf(j, written)[..n]) <= |written|
    ensures OwnRun(View(Some(Popped), Some(Pending)), StepsOf(j, written)[..n]).status
         == Some(StatusAfter(written, Writes(StepsOf(j, written)[..n])))
    ensures n == |StepsOf(j, written)| ==> Writes(StepsOf(j, written)[..n]) == |written|
    ensures n == |StepsOf(j, written)| ==> OwnRun(View(Some(Popped), Some(Pending)), StepsOf(j, written)).phase.None?
  {
    var own := StepsOf(j, written);
    var start := View(Some(Popped), Some(Pending));
    OneOwnStep(start, own[0]);
    if |own| == 2 { TwoOwnSteps(start, own[0], own[1]); }
    hide OwnRun, Writes;
    assert own[..n] == if n == 0 then [] else if n == 1 then [own[0]] else [own[0], own[1]];
    assert own[..|own|] == own;
    NoOwnStep(start);
  }

  lemma NoOwnStep(v: View)
    ensures OwnRun(v, []) == v && Writes([]) == 0
  {
  }

  lemma OneOwnStep(v: View, a: Step)
    ensures OwnRun(v, [a]) == OwnStep(v, a) && Writes([a]) == if a.WorkerDies? then 0 else 1
  {
    assert [a][..0] == [];
  }

  lemma TwoOwnSteps(v: View, a: Step, b: Step)
    ensures OwnRun(v, [a, b]) == OwnStep(OwnStep(v, a), b)
    ensures Writes([a, b]) == (if a.WorkerDies? then 0 else 1) + if b.WorkerDies? then 0 else 1
  {
    assert [a, b][..1] == [a];
    OneOwnStep(v, a);
    hide OwnStep;
  }

  /**
   * In any run that goes on after a worker took the job, and in which the worker's own steps are its status writes: at
   * every moment the job shows the last status the worker has written, whatever the other steps are; in the end the
   * worker is gone and the job shows its last write.
   */
  lemma WorkerIsARun(first: seq<Step>, steps: seq<Step>, j: Job, written: seq<Status>, n: nat)
    requires j in Run(first).workers && Run(first).workers[j].Popped?
    requires AreStatusWrites(written) && OwnSteps(steps, j) == StepsOf(j, written) && n <= |steps|
    ensures Writes(OwnSteps(steps[..n], j)) <= |written|
    ensures HashOf(Run(first + steps[..n]).redis, j).status
         == Some(StatusAfter(written, Writes(OwnSteps(steps[..n], j))))
    ensures n == |steps| ==> j !in Run(first + steps).workers && Writes(OwnSteps(steps, j)) == |written|
  {
    hide Apply, OwnRun, StepsOf, Writes, OwnSteps;
    RunKeepsInv(first);
    assert JobIsRight(Run(first), j);
    RunShowsInView(first, steps[..n], j);
    OwnStepsOfPrefix(steps, n, j);
    var own := OwnSteps(steps[..n], j);
    assert own == StepsOf(j, written)[..|own|];
    OwnStepsShowTheWrites(j, written, |own|);
    assert n == |steps| ==> steps[..n] == steps;
  }

  /** What the whole job leaves in its record is what its run leaves there. */
  lemma JobIsARun(first: seq<Step>, steps: seq<Step>, j: Job, worker: Worker)
    requires j in Run(first).workers && Run(first).workers[j].Popped?
    requires AreStatusWrites(worker.written) && OwnSteps(steps, j) == StepsOf(j, worker.written)
    requires worker.status == if worker.written == [] then Pending else worker.written[|worker.written| - 1]
    ensures HashOf(Run(first + steps).redis, j).status == Some(worker.status)
    ensures j !in Run(first + steps).workers
  {
    WorkerIsARun(first, steps, j, worker.written, |steps|);
    assert steps[..|steps|] == steps;
  }
}

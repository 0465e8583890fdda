/**
 * The "a job is running" slot of a conversation: an atomic claim, an enqueue made of separate Redis
 * commands that can stop between any two, and workers that can die at any point.
 */
module ConversationSlot {
  import opened Collections
  import opened GenerationWorker
  import opened Options

  type Job = nat
  type Conversation = nat

  /** A job's hash. `described` says the fields written by the enqueue are there, not only the claim's two. */
  datatype Meta = Meta(status: Option<Status>, conversation: Option<Conversation>, described: bool)

  datatype Redis = Redis(meta: map<Job, Meta>, pointer: map<Conversation, Job>, queue: seq<Job>)

  predicate IsActive(m: Meta) {
    m.status == Some(Pending) || m.status == Some(Processing)
  }

  /** The job the claim script would report as running. */
  function Busy(r: Redis, c: Conversation): Option<Job> {
    if c in r.pointer && r.pointer[c] in r.meta
       && r.meta[r.pointer[c]].conversation == Some(c) && IsActive(r.meta[r.pointer[c]])
    then Some(r.pointer[c]) else None
  }

  /** HSET of one or more fields keeps the other fields of the hash. */
  function HashOf(r: Redis, j: Job): Meta {
    if j in r.meta then r.meta[j] else Meta(None, None, false)
  }

  function Stamp(r: Redis, c: Conversation, j: Job): Redis {
    r.(pointer := r.pointer[c := j], meta := r.meta[j := HashOf(r, j).(status := Some(Pending), conversation := Some(c))])
  }

  function WriteMeta(r: Redis, c: Conversation, j: Job): Redis {
    r.(meta := r.meta[j := Meta(Some(Pending), Some(c), true)])
  }

  function SetPointer(r: Redis, c: Conversation, j: Job): Redis {
    r.(pointer := r.pointer[c := j])
  }

  function Push(r: Redis, j: Job): Redis {
    r.(queue := r.queue + [j])
  }

  function SetStatus(r: Redis, j: Job, s: Status): Redis {
    r.(meta := r.meta[j := HashOf(r, j).(status := Some(s))])
  }

  /** The first `n` commands of an enqueue. */
  function EnqueuePrefix(r: Redis, c: Conversation, j: Job, n: nat): Redis {
    if n == 0 then r
    else if n == 1 then WriteMeta(r, c, j)
    else if n == 2 then SetPointer(WriteMeta(r, c, j), c, j)
    else Push(SetPointer(WriteMeta(r, c, j), c, j), j)
  }

  class Store {
    var meta: map<Job, Meta>
    var pointer: map<Conversation, Job>
    var queue: seq<Job>
    /** Commands that were not answered. */
    ghost var unanswered: nat

    constructor ()
      ensures State() == Redis(map[], map[], []) && unanswered == 0
    {
      meta, pointer, queue, unanswered := map[], map[], [], 0;
    }

    function State(): Redis reads this {
      Redis(meta, pointer, queue)
    }

    /** The script: the check and the claim are one step. Returns the running job when there is one. */
    method ClaimConversationSlot(c: Conversation, j: Job) returns (busy: Option<Job>)
      modifies this
      ensures busy == Busy(old(State()), c)
      ensures State() == if busy.Some? then old(State()) else Stamp(old(State()), c, j)
    {
      if c in pointer {
        var current := pointer[c];
        if current in meta && meta[current].status.Some? && meta[current].conversation == Some(c) {
          if meta[current].status == Some(Pending) || meta[current].status == Some(Processing) {
            return Some(current);
          }
        }
      }
      pointer := pointer[c := j];
      meta := meta[j := HashOf(State(), j).(status := Some(Pending), conversation := Some(c))];
      busy := None;
    }

    /** A Redis command that can be lost before or after it takes effect. */
    method Command() returns (reached: bool, answered: bool)
      modifies this`unanswered
      ensures unanswered == old(unanswered) + if reached && answered then 0 else 1
    {
      reached, answered := *, *;
      if !reached || !answered { unanswered := unanswered + 1; }
    }

    /** Meta before pointer before queue; a failure leaves a prefix of the commands done. */
    method EnqueueGenerationJob(c: Conversation, j: Job) returns (ok: bool)
      modifies this
      ensures ok <==> unanswered == old(unanswered)
      ensures ok ==> State() == EnqueuePrefix(old(State()), c, j, 3)
      ensures exists n :: 0 <= n <= 3 && State() == EnqueuePrefix(old(State()), c, j, n)
    {
      assert State() == EnqueuePrefix(old(State()), c, j, 0);
      var reached, answered := Command();
      if !reached { return false; }
      meta := meta[j := Meta(Some(Pending), Some(c), true)];
      assert State() == EnqueuePrefix(old(State()), c, j, 1);
      if !answered { return false; }
      reached, answered := Command();
      if !reached { return false; }
      pointer := pointer[c := j];
      assert State() == EnqueuePrefix(old(State()), c, j, 2);
      if !answered { return false; }
      reached, answered := Command();
      if !reached { return false; }
      queue := queue + [j];
      assert State() == EnqueuePrefix(old(State()), c, j, 3);
      ok := answered;
    }
  }

  // Any number of callers and workers.

  /** How many commands of its enqueue a caller has sent; a posted message's caller has claimed nothing. */
  datatype Caller = Caller(conversation: Conversation, sent: nat, posted: bool)

  datatype Phase = Popped | Working

  /**
   * `used` are the job ids handed out so far; a new id is always fresh. `unpointed` are the posted jobs whose meta is
   * written and whose pointer is not, whether their caller is still at it or has stopped.
   */
  datatype System = System(
    redis: Redis, callers: map<Job, Caller>, workers: map<Job, Phase>, used: set<Job>, unpointed: set<Job>)

  datatype Step =
    | Retry(conversation: Conversation, job: Job)
    | Send(job: Job)
    | CallerStops(job: Job)
    | Pop
    | Begin(job: Job)
    | FailEarly(job: Job)
    | End(job: Job, status: Status)
    | WorkerDies(job: Job)
    | Post(conversation: Conversation, job: Job)

  const START := System(Redis(map[], map[], []), map[], map[], {}, {})

  /** A step that is not possible changes nothing. */
  function Apply(s: System, step: Step): System {
    match step
    case Retry(c, j) =>
      if j in s.used then s
      else if Busy(s.redis, c).Some? then s.(used := s.used + {j})
      else s.(redis := Stamp(s.redis, c, j), callers := s.callers[j := Caller(c, 0, false)], used := s.used + {j})
    case Post(c, j) =>
      if j in s.used then s else s.(callers := s.callers[j := Caller(c, 0, true)], used := s.used + {j})
    case Send(j) =>
      if j !in s.callers then s
      else
        var caller := s.callers[j];
        if caller.sent == 0 then
          s.(redis := WriteMeta(s.redis, caller.conversation, j), callers := s.callers[j := caller.(sent := 1)],
             unpointed := if caller.posted then s.unpointed + {j} else s.unpointed)
        else if caller.sent == 1 then
          s.(redis := SetPointer(s.redis, caller.conversation, j), callers := s.callers[j := caller.(sent := 2)],
             unpointed := s.unpointed - {j})
        else
          s.(redis := Push(s.redis, j), callers := s.callers - {j})
    case CallerStops(j) => s.(callers := s.callers - {j})
    case Pop =>
      if s.redis.queue == [] then s
      else
        var j := s.redis.queue[0];
        s.(redis := s.redis.(queue := s.redis.queue[1..]), workers := s.workers[j := Popped])
    case Begin(j) =>
      if j in s.workers && s.workers[j].Popped?
      then s.(redis := SetStatus(s.redis, j, Processing), workers := s.workers[j := Working]) else s
    case FailEarly(j) =>
      if j in s.workers && s.workers[j].Popped?
      then s.(redis := SetStatus(s.redis, j, Failed), workers := s.workers - {j}) else s
    case End(j, status) =>
      if j in s.workers && s.workers[j].Working? && (status.Finished? || status.Failed?)
      then s.(redis := SetStatus(s.redis, j, status), workers := s.workers - {j}) else s
    case WorkerDies(j) => s.(workers := s.workers - {j})
  }

  function Run(steps: seq<Step>): System {
    if steps == [] then START else Apply(Run(steps[..|steps| - 1]), steps[|steps| - 1])
  }

  /** The jobs a conversation has pending or processing. */
  function ActiveJobs(s: System, c: Conversation): set<Job> {
    set j | j in s.redis.meta && s.redis.meta[j].conversation == Some(c) && IsActive(s.redis.meta[j])
  }

  predicate IsPending(s: System, j: Job) {
    j in s.redis.meta && s.redis.meta[j].conversation.Some? && s.redis.meta[j].status == Some(Pending)
  }

  // Where a job is, and what its hash says there.

  predicate IsKnown(s: System, j: Job) {
    j in s.redis.meta || j in s.callers || j in s.redis.queue || j in s.workers || j in s.unpointed ==> j in s.used
  }

  predicate IsInOnePlace(s: System, j: Job) {
    && (j in s.callers ==> j !in s.redis.queue && j !in s.workers)
    && (j in s.redis.queue ==> j !in s.workers)
    && (j in s.unpointed ==> j !in s.redis.queue && j !in s.workers)
  }

  predicate StatusMatches(s: System, j: Job) {
    && (j in s.callers ==>
          if s.callers[j].posted && s.callers[j].sent == 0 then j !in s.redis.meta
          else IsPending(s, j) && s.redis.meta[j].conversation == Some(s.callers[j].conversation))
    && (j in s.redis.queue ==> IsPending(s, j))
    && (j in s.workers ==>
          && j in s.redis.meta && s.redis.meta[j].conversation.Some?
          && s.redis.meta[j].status == Some(if s.workers[j].Popped? then Pending else Processing))
    && (j in s.unpointed ==> IsPending(s, j))
    && (j in s.callers ==> (j in s.unpointed <==> s.callers[j].posted && s.callers[j].sent == 1))
  }

  predicate JobIsRight(s: System, j: Job) {
    IsKnown(s, j) && IsInOnePlace(s, j) && StatusMatches(s, j)
  }

  predicate PointersAreRight(s: System) {
    forall c :: c in s.redis.pointer ==> s.redis.pointer[c] in s.redis.meta && s.redis.pointer[c] !in s.unpointed
  }

  ghost predicate Inv(s: System) {
    (forall j: Job :: JobIsRight(s, j)) && AllDistinct(s.redis.queue) && PointersAreRight(s)
  }

  lemma TailOfDistinct(queue: seq<Job>)
    requires queue != [] && AllDistinct(queue)
    ensures AllDistinct(queue[1..]) && queue[0] !in queue[1..]
    ensures forall j :: j in queue <==> j == queue[0] || j in queue[1..]
  {
    assert queue == [queue[0]] + queue[1..];
  }

  lemma JobStaysRight(s: System, step: Step, j: Job)
    requires JobIsRight(s, j) && AllDistinct(s.redis.queue)
    ensures JobIsRight(Apply(s, step), j)
  {
    hide AllDistinct, Busy;
    if step.Pop? && s.redis.queue != [] { TailOfDistinct(s.redis.queue); }
  }

  lemma StepKeepsInv(s: System, step: Step)
    requires Inv(s)
    ensures Inv(Apply(s, step))
  {
    forall j: Job ensures JobIsRight(Apply(s, step), j) { JobStaysRight(s, step, j); }
    hide Busy;
    match step
    case Retry(c, j) => assert JobIsRight(s, j);
    case Post(c, j) => assert JobIsRight(s, j);
    case Send(j) => SendKeepsPlaces(s, j);
    case CallerStops(j) =>
    case Pop => if s.redis.queue != [] { TailOfDistinct(s.redis.queue); }
    case Begin(j) => assert JobIsRight(s, j);
    case FailEarly(j) => assert JobIsRight(s, j);
    case End(j, status) => assert JobIsRight(s, j);
    case WorkerDies(j) =>
  }

  lemma SendKeepsPlaces(s: System, j: Job)
    requires Inv(s)
    ensures AllDistinct(Apply(s, Send(j)).redis.queue) && PointersAreRight(Apply(s, Send(j)))
  {
    assert JobIsRight(s, j);
  }

  lemma {:induction false} RunKeepsInv(steps: seq<Step>)
    ensures Inv(Run(steps))
  {
    if steps == [] {
      StartIsRight();
    } else {
      RunKeepsInv(steps[..|steps| - 1]);
      hide Inv, Apply;
      StepKeepsInv(Run(steps[..|steps| - 1]), steps[|steps| - 1]);
    }
  }

  lemma StartIsRight()
    ensures Inv(START)
  {
  }

  // When a conversation has one job.

  /** The step gives the conversation a running job it did not have: a claim, or a posted message's first command. */
  predicate StartsJob(s: System, step: Step, c: Conversation) {
    match step
    case Retry(d, j) => d == c && j !in s.used && Busy(s.redis, c).None?
    case Send(j) => j in s.callers && s.callers[j].conversation == c && s.callers[j].posted && s.callers[j].sent == 0
    case _ => false
  }

  /** Nothing is busy, and no posted job of the conversation is waiting for its pointer. */
  predicate IsIdle(s: System, c: Conversation) {
    Busy(s.redis, c).None? && forall j :: j in s.unpointed ==> HashOf(s.redis, j).conversation != Some(c)
  }

  predicate StartsAlone(s: System, step: Step, c: Conversation) {
    StartsJob(s, step, c) ==> IsIdle(s, c)
  }

  /** Every running job is either the one pointed to or still waiting for its pointer. */
  predicate IsAccountedFor(s: System, c: Conversation) {
    forall j :: j in ActiveJobs(s, c) ==> (c in s.redis.pointer && s.redis.pointer[c] == j) || j in s.unpointed
  }

  lemma StartAddsAJob(s: System, step: Step, c: Conversation)
    requires Inv(s) && StartsJob(s, step, c)
    ensures step.job !in ActiveJobs(s, c) && ActiveJobs(Apply(s, step), c) == ActiveJobs(s, c) + {step.job}
    ensures var t := Apply(s, step);
      if step.Retry? then c in t.redis.pointer && t.redis.pointer[c] == step.job && t.unpointed == s.unpointed
      else t.unpointed == s.unpointed + {step.job} && t.redis.pointer == s.redis.pointer
  {
    assert JobIsRight(s, step.job);
  }

  /** No other step adds a job; a pointer moves only to a running job of its own conversation. */
  lemma OthersAddNone(s: System, step: Step, c: Conversation, j: Job)
    requires Inv(s) && !StartsJob(s, step, c) && j in ActiveJobs(Apply(s, step), c)
    ensures j in ActiveJobs(s, c)
  {
    assert JobIsRight(s, j);
  }

  lemma OthersKeepAccounts(s: System, step: Step, c: Conversation, j: Job)
    requires Inv(s) && !StartsJob(s, step, c) && |ActiveJobs(s, c)| <= 1 && IsAccountedFor(s, c)
    requires j in ActiveJobs(Apply(s, step), c)
    ensures var t := Apply(s, step); (c in t.redis.pointer && t.redis.pointer[c] == j) || j in t.unpointed
  {
    OthersAddNone(s, step, c, j);
    assert JobIsRight(s, j);
    if step.Send? && step.job in s.callers && s.callers[step.job].conversation == c && s.callers[step.job].sent == 1 {
      assert JobIsRight(s, step.job);
      assert step.job in ActiveJobs(s, c);
      OnlyOne(ActiveJobs(s, c), j, step.job);
    }
  }

  lemma OnlyOne(jobs: set<Job>, a: Job, b: Job)
    requires |jobs| <= 1 && a in jobs && b in jobs
    ensures a == b
  {
    if a != b { TwoAreTwo(jobs, a, b); }
  }

  lemma IdleHasNoJob(s: System, c: Conversation)
    requires IsIdle(s, c) && IsAccountedFor(s, c)
    ensures ActiveJobs(s, c) == {}
  {
    assert forall j :: j in ActiveJobs(s, c) ==> HashOf(s.redis, j).conversation == Some(c);
  }

  /** Starting alone keeps a conversation to one job, and every running job accounted for. */
  lemma StepKeepsOneJob(s: System, step: Step, c: Conversation)
    requires Inv(s) && |ActiveJobs(s, c)| <= 1 && IsAccountedFor(s, c) && StartsAlone(s, step, c)
    ensures |ActiveJobs(Apply(s, step), c)| <= 1 && IsAccountedFor(Apply(s, step), c)
  {
    var t := Apply(s, step);
    if StartsJob(s, step, c) {
      StartAddsAJob(s, step, c);
      IdleHasNoJob(s, c);
      hide Apply;
    } else {
      forall j | j in ActiveJobs(t, c)
        ensures j in ActiveJobs(s, c) && ((c in t.redis.pointer && t.redis.pointer[c] == j) || j in t.unpointed)
      {
        OthersAddNone(s, step, c, j);
        OthersKeepAccounts(s, step, c, j);
      }
      hide Apply, Inv;
      CountOfSubset(ActiveJobs(t, c), ActiveJobs(s, c));
    }
  }

  lemma {:induction false} StartingAloneIsEnough(steps: seq<Step>, c: Conversation)
    requires forall n :: 0 <= n < |steps| ==> StartsAlone(Run(steps[..n]), steps[n], c)
    ensures |ActiveJobs(Run(steps), c)| <= 1 && IsAccountedFor(Run(steps), c)
  {
    hide Apply, Inv, StartsAlone;
    if steps == [] {
      assert ActiveJobs(START, c) == {};
    } else {
      var last := |steps| - 1;
      forall n | 0 <= n < last ensures StartsAlone(Run(steps[..last][..n]), steps[..last][n], c) {
        assert steps[..last][..n] == steps[..n];
      }
      StartingAloneIsEnough(steps[..last], c);
      RunKeepsInv(steps[..last]);
      StepKeepsOneJob(Run(steps[..last]), steps[last], c);
    }
  }

  lemma SecondStartMakesTwo(s: System, step: Step, c: Conversation)
    requires Inv(s) && !StartsAlone(s, step, c)
    ensures |ActiveJobs(Apply(s, step), c)| >= 2
  {
    StartAddsAJob(s, step, c);
    var other: Job;
    if Busy(s.redis, c).Some? {
      other := s.redis.pointer[c];
    } else {
      other :| other in s.unpointed && HashOf(s.redis, other).conversation == Some(c);
      assert JobIsRight(s, other);
    }
    assert other in ActiveJobs(s, c);
    hide Apply, Inv;
    TwoAreTwo(ActiveJobs(Apply(s, step), c), other, step.job);
  }

  /**
   * Over every run of retries, posted messages, workers and stops, a conversation never has more than one running job
   * if and only if each job that starts finds it idle: nothing busy, and no posted job between its first command
   * and its pointer, where a caller that stopped there leaves it for good.
   */
  lemma OneJobIffEachStartsAlone(steps: seq<Step>, c: Conversation)
    ensures (forall n :: 0 <= n <= |steps| ==> |ActiveJobs(Run(steps[..n]), c)| <= 1)
       <==> (forall n :: 0 <= n < |steps| ==> StartsAlone(Run(steps[..n]), steps[n], c))
  {
    hide Apply, StartsAlone, ActiveJobs;
    if forall n :: 0 <= n < |steps| ==> StartsAlone(Run(steps[..n]), steps[n], c) {
      forall n | 0 <= n <= |steps| ensures |ActiveJobs(Run(steps[..n]), c)| <= 1 {
        forall m | 0 <= m < n ensures StartsAlone(Run(steps[..n][..m]), steps[..n][m], c) {
          assert steps[..n][..m] == steps[..m];
        }
        StartingAloneIsEnough(steps[..n], c);
      }
    } else {
      var n :| 0 <= n < |steps| && !StartsAlone(Run(steps[..n]), steps[n], c);
      RunKeepsInv(steps[..n]);
      SecondStartMakesTwo(Run(steps[..n]), steps[n], c);
      RunSnoc(steps[..n], steps[n], steps[..n + 1]);
    }
  }

  /** Without posted messages nothing waits for a pointer, so every claim starts alone. */
  predicate NothingPosted(s: System) {
    s.unpointed == {} && forall j :: j in s.callers ==> !s.callers[j].posted
  }

  lemma {:induction false} NoPostsNoWaiting(steps: seq<Step>)
    requires forall i :: 0 <= i < |steps| ==> !steps[i].Post?
    ensures NothingPosted(Run(steps))
  {
    if steps != [] {
      NoPostsNoWaiting(steps[..|steps| - 1]);
      hide Busy, Stamp, WriteMeta, SetPointer, Push, SetStatus;
    }
  }

  /** Whatever retries and workers do, a conversation has at most one running job, and points to it. */
  lemma AtMostOneJobRuns(steps: seq<Step>, c: Conversation)
    requires forall i :: 0 <= i < |steps| ==> !steps[i].Post?
    ensures var s := Run(steps);
      |ActiveJobs(s, c)| <= 1
      && forall j :: j in ActiveJobs(s, c) ==> c in s.redis.pointer && s.redis.pointer[c] == j && Busy(s.redis, c) == Some(j)
  {
    hide Run;
    forall n | 0 <= n < |steps| ensures StartsAlone(Run(steps[..n]), steps[n], c) {
      NoPostsNoWaiting(steps[..n]);
    }
    StartingAloneIsEnough(steps, c);
    NoPostsNoWaiting(steps);
  }

  /** Pending, then processing, then finished or failed. */
  function Rank(status: Option<Status>): nat {
    match status
    case None => 0
    case Some(Pending) => 1
    case Some(Processing) => 2
    case Some(_) => 3
  }

  /** Over every run, no step moves a job's status backward, and an ended job keeps its ending. */
  lemma StatusNeverMovesBack(steps: seq<Step>, step: Step, j: Job)
    ensures var s := Run(steps);
      var before, after := HashOf(s.redis, j).status, HashOf(Apply(s, step).redis, j).status;
      && Rank(before) <= Rank(after) && (Rank(before) == 3 ==> after == before)
      && (before.Some? ==> after.Some?)
      && (before == Some(Processing) ==> after != Some(Pending))
      && (before == Some(Finished) || before == Some(Failed) ==> after == before)
  {
    RunKeepsInv(steps);
    assert JobIsRight(Run(steps), j);
    StatusMovesForward(Run(steps), step, j);
  }

  lemma StatusMovesForward(s: System, step: Step, j: Job)
    requires JobIsRight(s, j)
    ensures var before, after := HashOf(s.redis, j).status, HashOf(Apply(s, step).redis, j).status;
      Rank(before) <= Rank(after) && (Rank(before) == 3 ==> after == before)
  {
    hide Busy;
  }

  // What a client sees.

  /** GET active-job: a job that is running, still names this conversation, and has been described. */
  function GetActiveJob(r: Redis, c: Conversation): Option<Job> {
    if c in r.pointer && r.pointer[c] in r.meta && IsActive(r.meta[r.pointer[c]])
       && r.meta[r.pointer[c]].conversation == Some(c) && r.meta[r.pointer[c]].described
    then Some(r.pointer[c]) else None
  }

  /**
   * As long as jobs start alone, the answer is the conversation's running job; or none while that job is only claimed
   * or waits for its pointer, or when there is no job. A queued job is always found.
   */
  lemma ActiveJobIsTheRunningJob(steps: seq<Step>, c: Conversation)
    requires forall n :: 0 <= n < |steps| ==> StartsAlone(Run(steps[..n]), steps[n], c)
    ensures var s := Run(steps);
      && (forall j :: GetActiveJob(s.redis, c) == Some(j) <==>
            j in ActiveJobs(s, c) && s.redis.meta[j].described && j !in s.unpointed)
      && (forall j :: j in ActiveJobs(s, c) && j in s.redis.queue ==> GetActiveJob(s.redis, c) == Some(j))
  {
    RunKeepsInv(steps);
    StartingAloneIsEnough(steps, c);
    DescribedWhenQueued(steps);
    hide Run, StartsAlone;
    var s := Run(steps);
    forall j | j in s.redis.queue ensures HashOf(s.redis, j).described && j !in s.unpointed {
      assert JobIsRight(s, j) && IsDescribed(s, j);
    }
  }

  predicate IsDescribed(s: System, j: Job) {
    j in s.redis.queue || (j in s.callers && s.callers[j].sent > 0) ==> HashOf(s.redis, j).described
  }

  ghost predicate Described(s: System) {
    forall j: Job :: IsDescribed(s, j)
  }

  lemma JobStaysDescribed(s: System, step: Step, j: Job)
    requires JobIsRight(s, j) && IsDescribed(s, j)
    ensures IsDescribed(Apply(s, step), j)
  {
    hide Busy;
    if step.Pop? && s.redis.queue != [] { assert j in s.redis.queue[1..] ==> j in s.redis.queue; }
  }

  lemma StepKeepsDescribed(s: System, step: Step)
    requires Inv(s) && Described(s)
    ensures Described(Apply(s, step))
  {
    hide Apply, JobIsRight;
    forall j: Job ensures IsDescribed(Apply(s, step), j) {
      assert JobIsRight(s, j) && IsDescribed(s, j);
      JobStaysDescribed(s, step, j);
    }
  }

  /** Over every run, a job is described before a worker can take it. */
  lemma {:induction false} DescribedWhenQueued(steps: seq<Step>)
    ensures Described(Run(steps))
  {
    if steps != [] {
      DescribedWhenQueued(steps[..|steps| - 1]);
      RunKeepsInv(steps[..|steps| - 1]);
      hide Inv, Described, Apply;
      StepKeepsDescribed(Run(steps[..|steps| - 1]), steps[|steps| - 1]);
    }
  }

  // An enqueue is three of its caller's steps.

  /** The system after a caller has sent `n` more commands. */
  function SendTimes(s: System, j: Job, n: nat): System {
    if n == 0 then s else Apply(SendTimes(s, j, n - 1), Send(j))
  }

  /** Stopped after any number of its commands, an enqueue has done what as many steps of its caller do. */
  lemma EnqueueIsItsCallersSteps(s: System, j: Job, n: nat)
    requires j in s.callers && s.callers[j].sent == 0 && n <= 3
    ensures SendTimes(s, j, n).redis == EnqueuePrefix(s.redis, s.callers[j].conversation, j, n)
    ensures if n < 3 then j in SendTimes(s, j, n).callers && SendTimes(s, j, n).callers[j] == s.callers[j].(sent := n)
            else j !in SendTimes(s, j, n).callers
  {
    if n > 0 {
      EnqueueIsItsCallersSteps(s, j, n - 1);
      hide WriteMeta, SetPointer, Push;
    }
  }

  /**
   * A complete enqueue, from any state of the store: the job is described and pending, the conversation's active job,
   * what a claim would report, and last in the queue; other jobs and conversations are left alone.
   */
  lemma EnqueuedJobIsActive(r: Redis, c: Conversation, j: Job)
    ensures var after := EnqueuePrefix(r, c, j, 3);
      && GetActiveJob(after, c) == Some(j) && Busy(after, c) == Some(j)
      && after.queue == r.queue + [j]
      && j in after.meta && after.meta[j] == Meta(Some(Pending), Some(c), true)
      && (forall k :: k != j ==> HashOf(after, k) == HashOf(r, k) && (k in after.meta <==> k in r.meta))
      && (forall d :: d != c ==> (d in after.pointer <==> d in r.pointer) && (d in r.pointer ==> after.pointer[d] == r.pointer[d]))
  {
  }

  /** A claim of a free slot: the claimed job is what the next claim reports, not yet described and not queued. */
  lemma ClaimedSlotIsBusy(r: Redis, c: Conversation, j: Job)
    ensures var after := Stamp(r, c, j);
      && Busy(after, c) == Some(j) && after.queue == r.queue
      && HashOf(after, j) == HashOf(r, j).(status := Some(Pending), conversation := Some(c))
      && (forall k :: k != j ==> HashOf(after, k) == HashOf(r, k))
      && (forall d :: d != c ==> (d in after.pointer <==> d in r.pointer) && (d in r.pointer ==> after.pointer[d] == r.pointer[d]))
  {
  }

  // POST /messages enqueues without claiming.

  /** A posted message whose meta is written and whose pointer is not. */
  const POSTED := System(Redis(map[1 := Meta(Some(Pending), Some(7), true)], map[], []), map[1 := Caller(7, 1, true)], map[],
    {1}, {1})

  lemma PostedIs()
    ensures Apply(Apply(START, Post(7, 1)), Send(1)) == POSTED
    ensures Busy(Apply(START, Post(7, 1)).redis, 7).None?
  {
    assert Apply(START, Post(7, 1)) == System(Redis(map[], map[], []), map[1 := Caller(7, 0, true)], map[], {1}, {});
  }

  lemma RetriedIs()
    ensures Apply(POSTED, Retry(7, 2)).redis.meta
         == map[1 := Meta(Some(Pending), Some(7), true), 2 := Meta(Some(Pending), Some(7), false)]
  {
  }

  lemma TwoPending(s: System, described: bool)
    requires s.redis.meta == map[1 := Meta(Some(Pending), Some(7), true), 2 := Meta(Some(Pending), Some(7), described)]
    ensures ActiveJobs(s, 7) == {1, 2}
  {
  }

  /** A message posted to an idle conversation and one retry before its pointer is written: two running jobs. */
  lemma IdlePostRacesRetry()
    ensures Busy(Run([Post(7, 1)]).redis, 7).None?
    ensures ActiveJobs(Run([Post(7, 1), Send(1), Retry(7, 2)]), 7) == {1, 2}
  {
    RunSnoc([], Post(7, 1), [Post(7, 1)]);
    RunSnoc([Post(7, 1)], Send(1), [Post(7, 1), Send(1)]);
    RunSnoc([Post(7, 1), Send(1)], Retry(7, 2), [Post(7, 1), Send(1), Retry(7, 2)]);
    assert Run([]) == START;
    hide Run, Apply, Busy, ActiveJobs;
    PostedIs();
    RetriedIs();
    TwoPending(Apply(POSTED, Retry(7, 2)), false);
  }

  lemma TwoAreTwo(jobs: set<Job>, a: Job, b: Job)
    requires a != b && {a, b} <= jobs
    ensures |jobs| >= 2
  {
    assert |jobs - {a, b}| == |jobs| - 2;
  }

  /** Two messages in a row leave two jobs pending, and the pointer at the second. */
  lemma TwoPostsRunTwoJobs()
    ensures var s := Run([Post(7, 1), Send(1), Send(1), Send(1), Post(7, 2), Send(2), Send(2)]);
      ActiveJobs(s, 7) == {1, 2} && 7 in s.redis.pointer && s.redis.pointer[7] == 2
  {
    RunSeven(Post(7, 1), Send(1), Send(1), Send(1), Post(7, 2), Send(2), Send(2));
    hide Run;
    var s1 := Apply(Apply(START, Post(7, 1)), Send(1));
    var s2 := Apply(Apply(s1, Send(1)), Send(1));
    assert s2.used == {1};
    var s3 := Apply(Apply(Apply(s2, Post(7, 2)), Send(2)), Send(2));
    assert s3.redis.meta == map[1 := Meta(Some(Pending), Some(7), true), 2 := Meta(Some(Pending), Some(7), true)];
    TwoPending(s3, true);
  }

  lemma RunSeven(a: Step, b: Step, c: Step, d: Step, e: Step, f: Step, g: Step)
    ensures Run([a, b, c, d, e, f, g])
         == Apply(Apply(Apply(Apply(Apply(Apply(Apply(START, a), b), c), d), e), f), g)
  {
    hide Apply;
    RunSnoc([], a, [a]);
    RunSnoc([a], b, [a, b]);
    RunSnoc([a, b], c, [a, b, c]);
    RunSnoc([a, b, c], d, [a, b, c, d]);
    RunSnoc([a, b, c, d], e, [a, b, c, d, e]);
    RunSnoc([a, b, c, d, e], f, [a, b, c, d, e, f]);
    RunSnoc([a, b, c, d, e, f], g, [a, b, c, d, e, f, g]);
    assert Run([]) == START;
  }

  lemma RunSnoc(before: seq<Step>, step: Step, steps: seq<Step>)
    requires steps == before + [step]
    ensures Run(steps) == Apply(Run(before), step)
  {
    hide Apply;
    assert steps[..|before|] == before;
  }
}

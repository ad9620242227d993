/**
 The task protocol between the decoder's API caller and its one worker thread.

 Every step is one region that the source runs under the mutex, or one action of the worker
 between two such regions. API calls are serialized by the caller; the worker interleaves with
 them freely.
 */
module DecoderWorker {

  import opened Base

  /** An encoded frame and the number of Configure calls posted before it was accepted. */
  datatype Frame = Frame(id: nat, epoch: nat)

  datatype Job = ConfigureJob(k: nat) | FrameJob(frame: Frame) | DestroyJob

  datatype Worker =
    | NoThread
    | Waiting                                  // in the condition wait
    | Between                                  // holds the lock between two jobs
    | Busy(job: Job, cb: Option<nat>)          // runs a job; `cb` is the callback the drain captured

  datatype Caller =
    | Idle
    | ConfigureStarted | ConfigurePosted
    | ReleaseStarted | ReleasePosted | ReleaseStopping

  /** A frame handed to the codec of Configure number `codec`, or to no codec. */
  datatype Use = Use(frame: Frame, codec: Option<nat>)

  datatype State = State(
    running: bool,
    tasks: seq<Job>,
    worker: Worker,
    callback: Option<nat>,
    codec: Option<nat>,
    caller: Caller,
    done: bool,                                // the future the caller waits on is ready
    configures: nat,
    nextId: nat,
    accepted: seq<seq<Frame>>,                 // by epoch, in order of acceptance
    processed: seq<seq<Frame>>,                // by epoch, in order of processing
    cleared: bool,                             // the queue was cleared since the last Configure
    uses: seq<Use>,
    decoded: seq<Use>)

  datatype Step =
    | CallConfigure | PostConfigure | ReturnConfigure
    | CallDecode | CallRegister(cb: Option<nat>)
    | CallRelease | PostDestroy | StopWorker | ReturnRelease
    | Take | GoWait | Exit
    | BeginDrain | Deliver | FinishFrame | FinishConfigure(ok: bool) | FinishDestroy

  const INITIAL: State :=
    State(false, [], NoThread, None, None, Idle, false, 0, 0, [[]], [[]], false, [], [])

  function Frames(jobs: seq<Job>): seq<Frame> {
    if jobs == [] then []
    else (if jobs[0].FrameJob? then [jobs[0].frame] else []) + Frames(jobs[1..])
  }

  // ---- the API caller ------------------------------------------------------------

  function CallerStep(s: State, step: Step): Option<State> {
    match step
    case CallConfigure =>
      if !s.caller.Idle? then None
      else Some(s.(caller := ConfigureStarted, running := true,
                   worker := if s.running then s.worker else Waiting))
    case PostConfigure =>
      if !s.caller.ConfigureStarted? then None
      else
        var k := s.configures + 1;
        Some(s.(caller := ConfigurePosted, done := false, configures := k, tasks := [ConfigureJob(k)],
                accepted := s.accepted + [[]], processed := s.processed + [[]], cleared := false))
    case ReturnConfigure =>
      if s.caller.ConfigurePosted? && s.done then Some(s.(caller := Idle)) else None
    case CallDecode =>
      if !s.caller.Idle? then None
      else if !s.running then Some(s)                    // WEBRTC_VIDEO_CODEC_ERROR
      else
        var f := Frame(s.nextId, s.configures);
        if s.configures < |s.accepted| then
          Some(s.(tasks := s.tasks + [FrameJob(f)], nextId := s.nextId + 1,
                  accepted := s.accepted[s.configures := s.accepted[s.configures] + [f]]))
        else None
    case CallRegister(cb) =>
      if s.caller.Idle? then Some(s.(callback := cb)) else None
    case CallRelease =>
      if s.caller.Idle? then Some(s.(caller := ReleaseStarted, callback := None)) else None
    case PostDestroy =>
      if !s.caller.ReleaseStarted? then None
      else if s.running then
        Some(s.(caller := ReleasePosted, done := false, tasks := [DestroyJob], cleared := true))
      else Some(s.(caller := ReleasePosted))
    case StopWorker =>
      if s.caller.ReleasePosted? && (s.running ==> s.done)
      then Some(s.(caller := ReleaseStopping, running := false))
      else None
    case ReturnRelease =>
      if s.caller.ReleaseStopping? && s.worker.NoThread? then Some(s.(caller := Idle)) else None
    case _ => None
  }

  // ---- the worker thread -----------------------------------------------------------

  function TakeJob(s: State): State
    requires s.tasks != []
  {
    var job := s.tasks[0];
    var s' := s.(tasks := s.tasks[1..], worker := Busy(job, None));
    if job.FrameJob? then
      var e := job.frame.epoch;
      s'.(uses := s.uses + [Use(job.frame, s.codec)],
          processed := if e < |s.processed| then s.processed[e := s.processed[e] + [job.frame]] else s.processed)
    else s'
  }

  function WorkerStep(s: State, step: Step): Option<State> {
    match step
    case Take =>
      if s.tasks != [] && ((s.worker.Waiting? && s.running) || s.worker.Between?) then Some(TakeJob(s)) else None
    case GoWait =>
      if s.worker.Between? && s.tasks == [] then Some(s.(worker := Waiting)) else None
    case Exit =>
      if s.worker.Waiting? && !s.running then Some(s.(worker := NoThread)) else None
    case BeginDrain =>
      if s.worker.Busy? && s.worker.job.FrameJob? && s.codec.Some?
      then Some(s.(worker := s.worker.(cb := s.callback)))
      else None
    case Deliver =>
      if s.worker.Busy? && s.worker.job.FrameJob? && s.codec.Some? && s.worker.cb.Some?
      then Some(s.(decoded := s.decoded + [Use(s.worker.job.frame, s.codec)]))
      else None
    case FinishFrame =>
      if s.worker.Busy? && s.worker.job.FrameJob? then Some(s.(worker := Between)) else None
    case FinishConfigure(ok) =>
      if s.worker.Busy? && s.worker.job.ConfigureJob?
      then Some(s.(worker := Between, done := true, codec := if ok then Some(s.worker.job.k) else None))
      else None
    case FinishDestroy =>
      if s.worker.Busy? && s.worker.job.DestroyJob?
      then Some(s.(worker := Between, done := true, codec := None))
      else None
    case _ => None
  }

  predicate IsCallerStep(step: Step) {
    || step.CallConfigure? || step.PostConfigure? || step.ReturnConfigure? || step.CallDecode?
    || step.CallRegister? || step.CallRelease? || step.PostDestroy? || step.StopWorker? || step.ReturnRelease?
  }

  function Next(s: State, step: Step): Option<State> {
    if IsCallerStep(step) then CallerStep(s, step) else WorkerStep(s, step)
  }

  function Run(s: State, steps: seq<Step>): Option<State>
    decreases |steps|
  {
    if steps == [] then Some(s)
    else
      match Next(s, steps[0])
      case None => None
      case Some(s') => Run(s', steps[1..])
  }

  // ---- what every step keeps ----------------------------------------------------------

  /** Which control job, if any, is queued or running for the call in progress. */
  predicate ControlPending(s: State, job: Job) {
    && (!s.done ==>
          || (s.tasks == [job] && !(s.worker.Busy? && !s.worker.job.FrameJob?))
          || (s.tasks == [] && s.worker.Busy? && s.worker.job == job))
    && (s.done ==> s.tasks == [] && (s.worker.Between? || s.worker.Waiting?))
  }

  predicate OnlyFrames(s: State) {
    && (forall j :: 0 <= j < |s.tasks| ==> s.tasks[j].FrameJob? && s.tasks[j].frame.epoch == s.configures)
    && (s.worker.Busy? ==> s.worker.job.FrameJob? && s.worker.job.frame.epoch == s.configures)
    && (s.codec.Some? ==> s.codec.value == s.configures)
  }

  predicate NoWorker(s: State) {
    !s.running && s.tasks == [] && s.worker.NoThread? && s.codec.None?
  }

  predicate ThreadsAgree(s: State) {
    match s.caller
    case Idle => NoWorker(s) || (s.running && !s.worker.NoThread? && OnlyFrames(s))
    case ConfigureStarted => s.running && !s.worker.NoThread? && OnlyFrames(s)
    case ConfigurePosted =>
      && s.running && !s.worker.NoThread? && ControlPending(s, ConfigureJob(s.configures))
      && (s.done ==> s.codec.Some? ==> s.codec.value == s.configures)
    case ReleaseStarted => NoWorker(s) || (s.running && !s.worker.NoThread? && OnlyFrames(s))
    case ReleasePosted =>
      || NoWorker(s)
      || (s.running && !s.worker.NoThread? && ControlPending(s, DestroyJob) && (s.done ==> s.codec.None?))
    case ReleaseStopping => !s.running && s.tasks == [] && !s.worker.Busy? && s.codec.None?
  }

  /** A codec created by Configure k only ever sees frames of epoch k. */
  predicate OwnCodec(u: Use) {
    u.codec.Some? ==> u.codec.value == u.frame.epoch
  }

  predicate InOrder(s: State) {
    && |s.accepted| == s.configures + 1 && |s.processed| == s.configures + 1
    && (forall e :: 0 <= e <= s.configures ==> s.processed[e] <= s.accepted[e])
    && (!s.cleared ==> s.processed[s.configures] + Frames(s.tasks) == s.accepted[s.configures])
    && (s.cleared ==> Frames(s.tasks) == [] && (s.caller.ReleasePosted? || s.caller.ConfigureStarted? || !s.running))
  }

  predicate Inv(s: State) {
    && ThreadsAgree(s)
    && InOrder(s)
    && (s.worker.Busy? && s.worker.job.FrameJob? ==> OwnCodec(Use(s.worker.job.frame, s.codec)))
    && (forall k :: 0 <= k < |s.uses| ==> OwnCodec(s.uses[k]))
    && (forall k :: 0 <= k < |s.decoded| ==> OwnCodec(s.decoded[k]))
    && (forall j :: 0 <= j < |s.tasks| && s.tasks[j].FrameJob? ==> OwnCodec(Use(s.tasks[j].frame, s.codec)))
  }

  lemma {:induction false} FramesAppend(jobs: seq<Job>, f: Frame)
    ensures Frames(jobs + [FrameJob(f)]) == Frames(jobs) + [f]
  {
    if jobs == [] {
      assert [FrameJob(f)][1..] == [];
      assert jobs + [FrameJob(f)] == [FrameJob(f)];
    } else {
      FramesAppend(jobs[1..], f);
      assert (jobs + [FrameJob(f)])[1..] == jobs[1..] + [FrameJob(f)];
    }
  }

  lemma PostKeepsInv(s: State, step: Step)
    requires Inv(s) && (step.PostConfigure? || step.PostDestroy?) && CallerStep(s, step).Some?
    ensures Inv(CallerStep(s, step).value)
  {
    var s' := CallerStep(s, step).value;
    assert |s'.tasks| == 1 ==> s'.tasks[1..] == [];
    assert s.running || step.PostConfigure? ==> Frames(s'.tasks) == [];
  }

  lemma DecodeKeepsInv(s: State)
    requires Inv(s) && CallerStep(s, CallDecode).Some?
    ensures Inv(CallerStep(s, CallDecode).value)
  {
    if s.running {
      var f := Frame(s.nextId, s.configures);
      FramesAppend(s.tasks, f);
      Assoc(s.processed[s.configures], Frames(s.tasks), [f]);
    }
  }

  lemma CallerStepKeepsInv(s: State, step: Step)
    requires Inv(s) && IsCallerStep(step) && CallerStep(s, step).Some?
    ensures Inv(CallerStep(s, step).value)
  {
    match step {
      case PostConfigure => PostKeepsInv(s, step);
      case PostDestroy => PostKeepsInv(s, step);
      case CallDecode => DecodeKeepsInv(s);
      case _ =>
    }
  }

  lemma TakeKeepsOrder(s: State)
    requires Inv(s) && s.tasks != [] && (s.worker.Waiting? || s.worker.Between?)
    ensures InOrder(TakeJob(s))
  {
    var s', job := TakeJob(s), s.tasks[0];
    if job.FrameJob? {
      var f := job.frame;
      assert s.caller.Idle? || s.caller.ConfigureStarted? || s.caller.ReleaseStarted?;
      assert f.epoch == s.configures;
      assert !s.cleared;
      Assoc(s.processed[f.epoch], [f], Frames(s'.tasks));
      assert s'.processed[f.epoch] <= s'.accepted[f.epoch];
    } else {
      assert Frames(s.tasks) == Frames(s'.tasks);
    }
  }

  lemma TakeKeepsInv(s: State)
    requires Inv(s) && WorkerStep(s, Take).Some?
    ensures Inv(TakeJob(s))
  {
    TakeKeepsOrder(s);
  }

  lemma FinishKeepsInv(s: State, step: Step)
    requires Inv(s) && (step.FinishConfigure? || step.FinishDestroy? || step.FinishFrame?)
    requires WorkerStep(s, step).Some?
    ensures Inv(WorkerStep(s, step).value)
  {
  }

  lemma DrainKeepsInv(s: State, step: Step)
    requires Inv(s) && (step.BeginDrain? || step.Deliver?) && WorkerStep(s, step).Some?
    ensures Inv(WorkerStep(s, step).value)
  {
  }

  lemma WorkerStepKeepsInv(s: State, step: Step)
    requires Inv(s) && !IsCallerStep(step) && WorkerStep(s, step).Some?
    ensures Inv(WorkerStep(s, step).value)
  {
    if step.Take? {
      TakeKeepsInv(s);
    } else if step.BeginDrain? || step.Deliver? {
      DrainKeepsInv(s, step);
    } else if step.FinishConfigure? || step.FinishDestroy? || step.FinishFrame? {
      FinishKeepsInv(s, step);
    }
  }

  lemma NextKeepsInv(s: State, step: Step)
    requires Inv(s) && Next(s, step).Some?
    ensures Inv(Next(s, step).value)
  {
    if IsCallerStep(step) { CallerStepKeepsInv(s, step); } else { WorkerStepKeepsInv(s, step); }
  }

  lemma {:induction false} RunKeepsInv(s: State, steps: seq<Step>)
    requires Inv(s) && Run(s, steps).Some?
    ensures Inv(Run(s, steps).value)
    decreases |steps|
  {
    if steps == [] {
    } else {
      NextKeepsInv(s, steps[0]);
      RunKeepsInv(Next(s, steps[0]).value, steps[1..]);
    }
  }

  // ---- results over every interleaving ---------------------------------------------------

  ghost predicate Reachable(s: State) {
    exists steps :: Run(INITIAL, steps) == Some(s)
  }

  lemma ReachableInv(s: State)
    requires Reachable(s)
    ensures Inv(s)
  {
    var steps :| Run(INITIAL, steps) == Some(s);
    RunKeepsInv(INITIAL, steps);
  }

  /** In every reachable state: no codec has seen a frame of another Configure. */
  lemma NoFrameCrossesConfigure(s: State, k: nat)
    requires Reachable(s)
    ensures forall u :: u in s.uses && u.codec == Some(k) ==> u.frame.epoch == k
    ensures forall u :: u in s.decoded && u.codec == Some(k) ==> u.frame.epoch == k
  {
    ReachableInv(s);
  }

  /**
   Within one epoch the worker processes a prefix of the accepted frames, in order; and while the
   queue has not been cleared nothing is lost: processed and queued together are all accepted.
   */
  lemma AcceptanceOrder(s: State, epoch: nat)
    requires Reachable(s) && epoch <= s.configures
    ensures |s.accepted| == s.configures + 1 && |s.processed| == s.configures + 1
    ensures s.processed[epoch] <= s.accepted[epoch]
    ensures epoch == s.configures && !s.cleared ==> s.processed[epoch] + Frames(s.tasks) == s.accepted[epoch]
    ensures s.cleared ==> s.caller.ReleasePosted? || s.caller.ConfigureStarted? || !s.running
  {
    ReachableInv(s);
  }

  /** The decoder after Release, or before the first Configure. */
  predicate Stopped(s: State) {
    && !s.running && s.tasks == [] && s.worker.NoThread?
    && !s.caller.ConfigureStarted? && !s.caller.ConfigurePosted?
  }

  /** From a stopped decoder nothing runs and nothing is delivered until the next Configure. */
  lemma {:induction false} QuietUntilConfigure(s: State, steps: seq<Step>)
    requires Stopped(s) && Run(s, steps).Some?
    requires forall k :: 0 <= k < |steps| ==> !steps[k].CallConfigure?
    ensures var s' := Run(s, steps).value;
            Stopped(s') && s'.uses == s.uses && s'.decoded == s.decoded && s'.accepted == s.accepted
    decreases |steps|
  {
    if steps == [] {
    } else {
      QuietUntilConfigure(Next(s, steps[0]).value, steps[1..]);
    }
  }

  /** Release returning, in any run, leaves the decoder stopped, so the previous result applies. */
  lemma QuietAfterRelease(s: State, after: seq<Step>)
    requires Reachable(s) && Next(s, ReturnRelease).Some?
    requires Run(Next(s, ReturnRelease).value, after).Some?
    requires forall k :: 0 <= k < |after| ==> !after[k].CallConfigure?
    ensures var s' := Run(Next(s, ReturnRelease).value, after).value;
            s'.uses == s.uses && s'.decoded == s.decoded && s'.accepted == s.accepted
  {
    ReachableInv(s);
    QuietUntilConfigure(Next(s, ReturnRelease).value, after);
  }

  // ---- a waiting caller is always woken ----------------------------------------------------

  predicate CallerWaits(s: State) {
    || (s.caller.ConfigurePosted? && !s.done)
    || (s.caller.ReleasePosted? && s.running && !s.done)
    || (s.caller.ReleaseStopping? && !s.worker.NoThread?)
  }

  /** The step the worker takes next when left alone. */
  function WorkerMove(s: State): Step {
    match s.worker
    case NoThread => Exit
    case Waiting => if s.running then Take else Exit
    case Between => if s.tasks == [] then GoWait else Take
    case Busy(job, _) =>
      match job
      case FrameJob(_) => FinishFrame
      case ConfigureJob(_) => FinishConfigure(true)
      case DestroyJob => FinishDestroy
  }

  function Backlog(s: State): nat {
    3 * |s.tasks| + match s.worker { case NoThread => 0 case Waiting => 1 case Between => 2 case Busy(_, _) => 3 }
  }

  lemma WorkerMoves(s: State)
    requires Inv(s) && CallerWaits(s)
    ensures Next(s, WorkerMove(s)).Some? && !IsCallerStep(WorkerMove(s))
    ensures Backlog(Next(s, WorkerMove(s)).value) < Backlog(s)
  {
  }

  /** While a call blocks there is no deadlock: worker steps alone, at most `Backlog` many, end the wait. */
  lemma {:induction false} WaitEnds(s: State) returns (steps: seq<Step>)
    requires Inv(s)
    ensures |steps| <= Backlog(s) && (forall k :: 0 <= k < |steps| ==> !IsCallerStep(steps[k]))
    ensures Run(s, steps).Some? && !CallerWaits(Run(s, steps).value)
    decreases Backlog(s)
  {
    steps := [];
    if !CallerWaits(s) {
    } else {
      var move := WorkerMove(s);
      WorkerMoves(s);
      NextKeepsInv(s, move);
      var rest := WaitEnds(Next(s, move).value);
      steps := [move] + rest;
      assert steps[1..] == rest;
    }
  }

  predicate StartsCall(step: Step) {
    step.CallConfigure? || step.CallDecode? || step.CallRegister? || step.CallRelease?
  }

  /** The next step towards the end of the call in progress: the caller's own, or the worker's if the caller waits. */
  function CallMove(s: State): Step {
    match s.caller
    case Idle => CallDecode
    case ConfigureStarted => PostConfigure
    case ConfigurePosted => if s.done then ReturnConfigure else WorkerMove(s)
    case ReleaseStarted => PostDestroy
    case ReleasePosted => if s.running && !s.done then WorkerMove(s) else StopWorker
    case ReleaseStopping => if s.worker.NoThread? then ReturnRelease else WorkerMove(s)
  }

  function CallRank(c: Caller): nat {
    match c
    case Idle => 0
    case ConfigurePosted => 1 case ConfigureStarted => 2
    case ReleaseStopping => 1 case ReleasePosted => 2 case ReleaseStarted => 3
  }

  lemma CallMoves(s: State)
    requires Inv(s) && !s.caller.Idle?
    ensures Next(s, CallMove(s)).Some? && !StartsCall(CallMove(s))
    ensures var s' := Next(s, CallMove(s)).value;
            CallRank(s'.caller) < CallRank(s.caller) || (s'.caller == s.caller && Backlog(s') < Backlog(s))
  {
    hide InOrder, OwnCodec;
    if CallerWaits(s) {
      WorkerMoves(s);
    }
  }

  /** Every call can return without another one being made: Configure leaves a worker, Release a stopped decoder. */
  lemma {:induction false} CallReturns(s: State) returns (steps: seq<Step>)
    requires Inv(s)
    ensures forall k :: 0 <= k < |steps| ==> !StartsCall(steps[k])
    ensures Run(s, steps).Some? && Inv(Run(s, steps).value) && Run(s, steps).value.caller.Idle?
    ensures s.caller.ConfigureStarted? || s.caller.ConfigurePosted? ==> Run(s, steps).value.running
    ensures s.caller.ReleaseStarted? || s.caller.ReleasePosted? || s.caller.ReleaseStopping? ==>
              Stopped(Run(s, steps).value)
    decreases CallRank(s.caller), Backlog(s)
  {
    hide Backlog;
    steps := [];
    if s.caller.Idle? {
    } else {
      var move := CallMove(s);
      CallMoves(s);
      NextKeepsInv(s, move);
      MoveKeepsCall(s);
      var rest := CallReturns(Next(s, move).value);
      steps := [move] + rest;
      assert steps[1..] == rest;
    }
  }

  lemma MoveKeepsCall(s: State)
    requires Inv(s) && !s.caller.Idle? && Next(s, CallMove(s)).Some?
    ensures var s' := Next(s, CallMove(s)).value;
            && (s.caller.ConfigureStarted? ==> s'.caller.ConfigurePosted?)
            && (s.caller.ConfigurePosted? ==> s'.caller.ConfigurePosted? || (s'.caller.Idle? && s'.running))
            && (s.caller.ReleaseStarted? ==> s'.caller.ReleasePosted?)
            && (s.caller.ReleasePosted? ==> s'.caller.ReleasePosted? || s'.caller.ReleaseStopping?)
            && (s.caller.ReleaseStopping? ==> s'.caller.ReleaseStopping? || (s'.caller.Idle? && Stopped(s')))
  {
    hide InOrder, OwnCodec;
  }

  // ---- no frame is accepted twice ---------------------------------------------------------------

  /** The frames accepted in an epoch are of that epoch, and each has a later number than those before it. */
  ghost predicate Numbered(fs: seq<Frame>, epoch: nat, limit: nat) {
    && (forall i :: 0 <= i < |fs| ==> fs[i].epoch == epoch && fs[i].id < limit)
    && (forall i, j :: 0 <= i < j < |fs| ==> fs[i].id < fs[j].id)
  }

  ghost predicate AllNumbered(s: State) {
    forall e :: 0 <= e < |s.accepted| ==> Numbered(s.accepted[e], e, s.nextId)
  }

  lemma StepNumbers(s: State, step: Step)
    requires AllNumbered(s) && Next(s, step).Some?
    ensures AllNumbered(Next(s, step).value)
  {
    var s' := Next(s, step).value;
    forall e | 0 <= e < |s'.accepted| ensures Numbered(s'.accepted[e], e, s'.nextId) {
      if e < |s.accepted| {
        assert Numbered(s.accepted[e], e, s.nextId);
      }
    }
  }

  lemma {:induction false} RunNumbers(s: State, steps: seq<Step>)
    requires AllNumbered(s) && Run(s, steps).Some?
    ensures AllNumbered(Run(s, steps).value)
    decreases |steps|
  {
    hide Next, AllNumbered;
    if steps == [] {
    } else {
      StepNumbers(s, steps[0]);
      RunNumbers(Next(s, steps[0]).value, steps[1..]);
    }
  }

  /** In every reachable state no frame is processed twice, in one epoch or in two. */
  lemma ProcessedOnce(s: State, e: nat, i: nat, d: nat, j: nat)
    requires Reachable(s) && e <= s.configures && d <= s.configures && (e != d || i != j)
    ensures |s.processed| == s.configures + 1
    ensures i < |s.processed[e]| && j < |s.processed[d]| ==> s.processed[e][i] != s.processed[d][j]
  {
    ReachableInv(s);
    var steps :| Run(INITIAL, steps) == Some(s);
    RunNumbers(INITIAL, steps);
    assert s.processed[e] <= s.accepted[e] && s.processed[d] <= s.accepted[d];
    assert Numbered(s.accepted[e], e, s.nextId) && Numbered(s.accepted[d], d, s.nextId);
  }

  // ---- frames reach the codec, and pictures the callback -------------------------------------

  lemma {:induction false} RunConcat(s: State, a: seq<Step>, b: seq<Step>)
    ensures Run(s, a + b) == match Run(s, a) { case None => None case Some(s') => Run(s', b) }
    decreases |a|
  {
    hide Next;
    if a == [] {
      assert a + b == b;
    } else {
      assert (a + b)[1..] == a[1..] + b;
      if Next(s, a[0]).Some? {
        RunConcat(Next(s, a[0]).value, a[1..], b);
      }
    }
  }

  lemma RunOne(s: State, step: Step)
    ensures Run(s, [step]) == Next(s, step)
  {
    hide Next;
    assert [step][1..] == [];
    if Next(s, step).Some? {
      assert Run(Next(s, step).value, []) == Next(s, step);
    }
  }

  datatype Thread = Gone | Asleep | Awake | Working

  /** What the steps of a run say, without the state they are made in. */
  datatype Track = Track(
    configures: nat,            // Configure calls posted
    codec: Option<nat>,         // the Configure whose codec is in force
    registered: Option<nat>,    // the callback registered and not released since
    captured: Option<nat>,      // the callback registered when the last drain of this job began
    call: Caller,               // the API call in progress and how far it is
    thread: Thread,
    inTurn: bool)               // every step so far was one that its thread could take next

  const START := Track(0, None, None, None, Idle, Gone, true)

  /** The order in which each thread takes its steps: one API call at a time, one job at a time. */
  predicate InTurn(t: Track, step: Step) {
    match step
    case CallConfigure => t.call == Idle
    case CallDecode => t.call == Idle
    case CallRegister(_) => t.call == Idle
    case CallRelease => t.call == Idle
    case PostConfigure => t.call == ConfigureStarted
    case ReturnConfigure => t.call == ConfigurePosted
    case PostDestroy => t.call == ReleaseStarted
    case StopWorker => t.call == ReleasePosted
    case ReturnRelease => t.call == ReleaseStopping && t.thread == Gone
    case Take => t.thread == Asleep || t.thread == Awake
    case GoWait => t.thread == Awake
    case Exit => t.thread == Asleep && t.call == ReleaseStopping
    case BeginDrain => t.thread == Working && t.codec.Some?
    case Deliver => t.thread == Working && t.codec.Some? && t.captured.Some?
    case FinishFrame => t.thread == Working
    case FinishConfigure(_) => t.thread == Working && t.call == ConfigurePosted
    case FinishDestroy => t.thread == Working && t.call == ReleasePosted
  }

  function Noted(t: Track, step: Step): Track {
    var t := t.(inTurn := t.inTurn && InTurn(t, step));
    match step
    case CallConfigure => t.(call := ConfigureStarted, thread := if t.thread == Gone then Asleep else t.thread)
    case PostConfigure => t.(configures := t.configures + 1, call := ConfigurePosted)
    case ReturnConfigure => t.(call := Idle)
    case CallDecode => t
    case CallRegister(cb) => t.(registered := cb)
    case CallRelease => t.(registered := None, call := ReleaseStarted)
    case PostDestroy => t.(call := ReleasePosted)
    case StopWorker => t.(call := ReleaseStopping)
    case ReturnRelease => t.(call := Idle)
    case Take => t.(captured := None, thread := Working)
    case GoWait => t.(thread := Asleep)
    case Exit => t.(thread := Gone)
    case BeginDrain => t.(captured := t.registered)
    case Deliver => t
    case FinishFrame => t.(thread := Awake)
    case FinishConfigure(ok) => t.(codec := if ok then Some(t.configures) else None, thread := Awake)
    case FinishDestroy => t.(codec := None, thread := Awake)
  }

  function Tracked(steps: seq<Step>): Track {
    Fold(START, Noted, steps)
  }

  function ThreadOf(w: Worker): Thread {
    match w case NoThread => Gone case Waiting => Asleep case Between => Awake case Busy(_, _) => Working
  }

  predicate Agrees(s: State, t: Track) {
    && s.configures == t.configures && s.codec == t.codec && s.callback == t.registered
    && s.caller == t.call && ThreadOf(s.worker) == t.thread && t.inTurn
    && (s.worker.Busy? ==> s.worker.cb == t.captured)
  }

  lemma StepTracks(s: State, step: Step, t: Track)
    requires Inv(s) && Agrees(s, t) && Next(s, step).Some?
    ensures Agrees(Next(s, step).value, Noted(t, step))
  {
    hide InOrder, OwnCodec;
  }

  /**
   In every run the codec in force, the callback, the call in progress and the worker's whereabouts are those that the
   steps so far tell, and each thread took its steps in their order.
   */
  lemma {:induction false} RunTracks(steps: seq<Step>)
    requires Run(INITIAL, steps).Some?
    ensures Inv(Run(INITIAL, steps).value) && Agrees(Run(INITIAL, steps).value, Tracked(steps))
    decreases |steps|
  {
    hide Next, Noted, Inv;
    if steps == [] {
      InitialAgrees();
    } else {
      var before, step := steps[..|steps| - 1], steps[|steps| - 1];
      assert steps == before + [step];
      RunConcat(INITIAL, before, [step]);
      RunTracks(before);
      var s := Run(INITIAL, before).value;
      RunOne(s, step);
      StepTracks(s, step, Tracked(before));
      NextKeepsInv(s, step);
    }
  }

  lemma InitialAgrees()
    ensures Inv(INITIAL) && Agrees(INITIAL, Tracked([])) && Run(INITIAL, []) == Some(INITIAL)
  {
  }

  predicate EndsCodec(step: Step) {
    step.FinishConfigure? || step.FinishDestroy?
  }

  /** Uses added from place `n` on are all of codec `k`. */
  predicate AllOf(us: seq<Use>, n: nat, k: Option<nat>) {
    n <= |us| && forall j :: n <= j < |us| ==> us[j].codec == k
  }

  lemma StepUses(s: State, step: Step, n: nat, m: nat, k: Option<nat>)
    requires Next(s, step).Some? && s.codec == k && !EndsCodec(step) && AllOf(s.uses, n, k) && AllOf(s.decoded, m, k)
    ensures var s' := Next(s, step).value;
            s'.codec == k && AllOf(s'.uses, n, k) && AllOf(s'.decoded, m, k)
  {
    hide AllOf;
    if s.worker.Busy? && s.worker.job.FrameJob? {
      AllOfAppend(s.decoded, m, Use(s.worker.job.frame, k));
    }
    if s.tasks != [] && s.tasks[0].FrameJob? {
      AllOfAppend(s.uses, n, Use(s.tasks[0].frame, k));
    }
  }

  lemma AllOfAppend(us: seq<Use>, n: nat, u: Use)
    requires AllOf(us, n, u.codec)
    ensures AllOf(us + [u], n, u.codec)
  {
  }

  lemma {:induction false} RunUses(s: State, steps: seq<Step>, n: nat, m: nat, k: Option<nat>)
    requires Run(s, steps).Some? && s.codec == k && AllOf(s.uses, n, k) && AllOf(s.decoded, m, k)
    requires forall j :: 0 <= j < |steps| ==> !EndsCodec(steps[j])
    ensures var s' := Run(s, steps).value;
            s'.codec == k && AllOf(s'.uses, n, k) && AllOf(s'.decoded, m, k)
    decreases |steps|
  {
    hide Next;
    if steps == [] {
    } else {
      StepUses(s, steps[0], n, m, k);
      RunUses(Next(s, steps[0]).value, steps[1..], n, m, k);
    }
  }

  /**
   Configure number k finished with success, and since then no Configure and no Destroy finished: every frame the
   worker took since was handed to codec k, and every picture delivered since is of codec k.
   */
  lemma FramesReachTheCodec(before: seq<Step>, after: seq<Step>)
    requires Run(INITIAL, before + [FinishConfigure(true)] + after).Some?
    requires forall j :: 0 <= j < |after| ==> !EndsCodec(after[j])
    ensures Run(INITIAL, before).Some?
    ensures var s, s' := Run(INITIAL, before).value, Run(INITIAL, before + [FinishConfigure(true)] + after).value;
            var k := Some(Tracked(before).configures);
            s'.codec == k && AllOf(s'.uses, |s.uses|, k) && AllOf(s'.decoded, |s.decoded|, k)
  {
    hide Run, Tracked;
    var finish := FinishConfigure(true);
    RunConcat(INITIAL, before + [finish], after);
    RunConcat(INITIAL, before, [finish]);
    var s := Run(INITIAL, before).value;
    RunOne(s, finish);
    RunTracks(before);
    FinishGivesCodec(s);
    RunUses(Next(s, finish).value, after, |s.uses|, |s.decoded|, Some(s.configures));
  }

  lemma FinishGivesCodec(s: State)
    requires Inv(s) && Next(s, FinishConfigure(true)).Some?
    ensures var s' := Next(s, FinishConfigure(true)).value;
            s'.codec == Some(s.configures) && s'.uses == s.uses && s'.decoded == s.decoded
  {
  }

  /**
   A picture can be delivered exactly while a frame is processed, with a codec in force and a callback that was
   registered when the drain began; and it is of that frame and that codec.
   */
  lemma DeliverIff(steps: seq<Step>)
    requires Run(INITIAL, steps).Some?
    ensures var s, t := Run(INITIAL, steps).value, Tracked(steps);
            && (Run(INITIAL, steps + [Deliver]).Some? <==>
                  s.worker.Busy? && s.worker.job.FrameJob? && t.codec.Some? && t.captured.Some?)
            && (Run(INITIAL, steps + [Deliver]).Some? ==>
                  && s.worker.job.frame.epoch == t.codec.value
                  && Run(INITIAL, steps + [Deliver]).value.decoded == s.decoded + [Use(s.worker.job.frame, t.codec)])
  {
    hide Run, Tracked;
    RunTracks(steps);
    RunConcat(INITIAL, steps, [Deliver]);
    RunOne(Run(INITIAL, steps).value, Deliver);
  }

  /** The worker alone takes the next queued frame, and delivers a picture if there is a codec and a callback. */
  function FrameSteps(s: State): seq<Step> {
    [Take] + (if s.codec.Some? && s.callback.Some? then [BeginDrain, Deliver] else []) + [FinishFrame]
  }

  function UsesOf(fs: seq<Frame>, codec: Option<nat>): seq<Use> {
    seq(|fs|, j requires 0 <= j < |fs| => Use(fs[j], codec))
  }

  /** What those frames leave with the callback: all of them, if there is a codec and a callback. */
  function PicturesOf(fs: seq<Frame>, s: State): seq<Use> {
    if s.codec.Some? && s.callback.Some? then UsesOf(fs, s.codec) else []
  }

  predicate Serving(s: State) {
    Inv(s) && s.running && s.caller.Idle?
  }

  lemma TakesFrame(s: State) returns (s': State)
    requires Serving(s) && s.tasks != [] && !s.worker.Busy?
    ensures s.tasks[0].FrameJob? && Frames(s.tasks) == [s.tasks[0].frame] + Frames(s.tasks[1..])
    ensures Next(s, Take) == Some(s') && Serving(s')
    ensures s' == s.(tasks := s.tasks[1..], worker := Busy(s.tasks[0], None),
                     uses := s.uses + [Use(s.tasks[0].frame, s.codec)], processed := s'.processed)
  {
    s' := Next(s, Take).value;
    NextKeepsInv(s, Take);
  }

  lemma ShowsFrame(s: State) returns (s': State)
    requires Serving(s) && s.worker.Busy? && s.codec.Some? && s.callback.Some?
    ensures Run(s, [BeginDrain, Deliver]) == Some(s') && Serving(s') && s.worker.job.FrameJob?
    ensures s' == s.(worker := s.worker.(cb := s.callback), decoded := s.decoded + [Use(s.worker.job.frame, s.codec)])
  {
    hide Run;
    var s1 := Next(s, BeginDrain).value;
    s' := Next(s1, Deliver).value;
    RunOne(s, BeginDrain);
    RunOne(s1, Deliver);
    RunConcat(s, [BeginDrain], [Deliver]);
    assert [BeginDrain] + [Deliver] == [BeginDrain, Deliver];
    NextKeepsInv(s, BeginDrain);
    NextKeepsInv(s1, Deliver);
  }

  lemma OneFrame(s: State) returns (s': State)
    requires Serving(s) && s.tasks != [] && !s.worker.Busy?
    ensures Run(s, FrameSteps(s)) == Some(s') && Serving(s') && s'.tasks == s.tasks[1..] && s'.worker.Between?
    ensures Frames(s.tasks) == [Frames(s.tasks)[0]] + Frames(s'.tasks)
    ensures s'.uses == s.uses + [Use(Frames(s.tasks)[0], s.codec)]
    ensures s'.decoded == s.decoded + PicturesOf([Frames(s.tasks)[0]], s)
    ensures s'.codec == s.codec && s'.callback == s.callback
    ensures s'.configures == s.configures && s'.accepted == s.accepted
  {
    hide Run, Next, Inv, Frames;
    var s1 := TakesFrame(s);
    RunOne(s, Take);
    var shows := s.codec.Some? && s.callback.Some?;
    var shown := if shows then [BeginDrain, Deliver] else [];
    var s2 := s1;
    if shows {
      s2 := ShowsFrame(s1);
      RunConcat(s, [Take], shown);
    } else {
      assert [Take] + shown == [Take];
    }
    s' := FinishesFrame(s2);
    RunConcat(s, [Take] + shown, [FinishFrame]);
  }

  lemma UsesConcat(f: Frame, fs: seq<Frame>, codec: Option<nat>)
    ensures UsesOf([f] + fs, codec) == UsesOf([f], codec) + UsesOf(fs, codec)
  {
  }

  ghost predicate OnlyWorker(steps: seq<Step>) {
    forall j :: 0 <= j < |steps| ==> !IsCallerStep(steps[j])
  }

  /** What `s'` is when the worker alone has served every frame queued in `s`. */
  predicate Served(s: State, s': State) {
    && Serving(s') && s'.tasks == []
    && s'.codec == s.codec && s'.callback == s.callback
    && s'.configures == s.configures && s'.accepted == s.accepted
    && s'.uses == s.uses + UsesOf(Frames(s.tasks), s.codec)
    && s'.decoded == s.decoded + PicturesOf(Frames(s.tasks), s)
  }

  lemma ServedOneMore(s: State, s1: State, s': State)
    requires Served(s1, s') && Frames(s.tasks) != [] && Frames(s.tasks) == [Frames(s.tasks)[0]] + Frames(s1.tasks)
    requires s1.uses == s.uses + [Use(Frames(s.tasks)[0], s.codec)]
    requires s1.decoded == s.decoded + PicturesOf([Frames(s.tasks)[0]], s)
    requires s1.codec == s.codec && s1.callback == s.callback
    requires s1.configures == s.configures && s1.accepted == s.accepted
    ensures Served(s, s')
  {
    hide Inv, Frames;
    var f, fs := Frames(s.tasks)[0], Frames(s1.tasks);
    UsesConcat(f, fs, s.codec);
    assert UsesOf([f], s.codec) == [Use(f, s.codec)];
    Assoc(s.uses, UsesOf([f], s.codec), UsesOf(fs, s.codec));
    Assoc(s.decoded, UsesOf([f], s.codec), UsesOf(fs, s.codec));
  }

  /** Left alone, the worker can hand every queued frame to the codec in force, in order, and deliver each. */
  lemma {:induction false} WorkerCatchesUp(s: State) returns (steps: seq<Step>)
    requires Serving(s)
    ensures OnlyWorker(steps) && Run(s, steps).Some? && Served(s, Run(s, steps).value)
    decreases |s.tasks|, s.worker.Busy?
  {
    hide Next, Inv;
    if s.worker.Busy? {
      var s1 := FinishesFrame(s);
      var rest := WorkerCatchesUp(s1);
      steps := [FinishFrame] + rest;
      RunConcat(s, [FinishFrame], rest);
    } else if s.tasks == [] {
      steps := [];
      assert Frames(s.tasks) == [] && UsesOf([], s.codec) == [];
    } else {
      var s1 := OneFrame(s);
      var rest := WorkerCatchesUp(s1);
      steps := FrameSteps(s) + rest;
      RunConcat(s, FrameSteps(s), rest);
      ServedOneMore(s, s1, Run(s1, rest).value);
    }
  }

  lemma FinishesFrame(s: State) returns (s': State)
    requires Serving(s) && s.worker.Busy?
    ensures Run(s, [FinishFrame]) == Some(s') && Serving(s') && s' == s.(worker := Between)
  {
    s' := s.(worker := Between);
    RunOne(s, FinishFrame);
    NextKeepsInv(s, FinishFrame);
  }

  /**
   Whatever happened before: with a codec in force and a callback registered, a Decode call is accepted, and the
   worker alone can go on so that its picture, behind those of the frames accepted earlier, is delivered as one of
   that codec.
   */
  lemma DecodeIsDelivered(steps: seq<Step>) returns (more: seq<Step>)
    requires Run(INITIAL, steps).Some? && Run(INITIAL, steps).value.caller.Idle?
    requires Tracked(steps).codec.Some? && Tracked(steps).registered.Some?
    ensures OnlyWorker(more) && Run(INITIAL, steps + [CallDecode] + more).Some?
    ensures var s, s' := Run(INITIAL, steps).value, Run(INITIAL, steps + [CallDecode] + more).value;
            var k := Tracked(steps).codec;
            && s'.uses == s.uses + UsesOf(Frames(s.tasks), k) + [Use(Frame(s.nextId, k.value), k)]
            && s'.decoded == s.decoded + UsesOf(Frames(s.tasks), k) + [Use(Frame(s.nextId, k.value), k)]
            && k.value < |s.accepted| == |s'.accepted| == |s'.processed|
            && s'.processed[k.value] == s'.accepted[k.value] == s.accepted[k.value] + [Frame(s.nextId, k.value)]
  {
    hide Run, Tracked;
    RunTracks(steps);
    var s := Run(INITIAL, steps).value;
    var s1 := Next(s, CallDecode).value;
    RunConcat(INITIAL, steps, [CallDecode]);
    RunOne(s, CallDecode);
    NextKeepsInv(s, CallDecode);
    more := WorkerCatchesUp(s1);
    RunConcat(INITIAL, steps + [CallDecode], more);
    var f := Frame(s.nextId, s.configures);
    FramesAppend(s.tasks, f);
    UsesAppend(Frames(s.tasks), f, s.codec);
    Assoc(s.uses, UsesOf(Frames(s.tasks), s.codec), [Use(f, s.codec)]);
    Assoc(s.decoded, UsesOf(Frames(s.tasks), s.codec), [Use(f, s.codec)]);
  }

  lemma UsesAppend(fs: seq<Frame>, f: Frame, codec: Option<nat>)
    ensures UsesOf(fs + [f], codec) == UsesOf(fs, codec) + [Use(f, codec)]
  {
  }
}

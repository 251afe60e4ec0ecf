/** The renderer's two frames in flight: draw_frame and recreate_swapchain on the CPU,
    interleaved with a GPU that completes submissions in any order
    (test-renderer/src/vulkan.c). */
module FramesInFlight {

  const FRAMES: nat := 2

  /** The next Vulkan call of the CPU. `presented` tells the two callers of
      recreate_swapchain apart: after a failed acquire, and after presenting. */
  datatype CpuPc =
    | Waiting
    | FirstReset
    | Acquiring
    | SecondReset
    | Recording
    | Submitting
    | Presenting
    | WaitingIdle(presented: bool)
    | Rebuilding(presented: bool)
    | Exited(armed: bool)   // exit() was called, with or without a submission for the slot

  datatype AcquireResult = AcquireOk | AcquireOutOfDate | AcquireError
  datatype PresentResult = PresentOk | PresentStale | PresentError

  datatype State = State(
    cpu: CpuPc,
    currentFrame: nat,
    fence: seq<bool>,         // signalled?
    pending: seq<nat>,        // submissions of the slot's command buffer not yet complete
    recordedFor: seq<nat>,    // swapchain generation whose framebuffer the slot's commands use
    generation: nat,          // of the framebuffers that exist now
    abandoned: bool           // the last draw_frame returned after a failed acquire
  )

  datatype Step =
    | FenceWait
    | ResetFence
    | Acquire(acquired: AcquireResult)
    | ResetFenceAgain
    | Record
    | RecordFails
    | Submit
    | SubmitFails
    | Present(shown: PresentResult)
    | IdleWait
    | Rebuild
    | GpuComplete(slot: nat)

  predicate WellFormed(s: State) {
    |s.fence| == |s.pending| == |s.recordedFor| == FRAMES && s.currentFrame < FRAMES
  }

  predicate NothingPending(s: State) {
    forall i :: 0 <= i < |s.pending| ==> s.pending[i] == 0
  }

  predicate Enabled(s: State, a: Step)
    requires WellFormed(s)
  {
    match a
    case FenceWait => s.cpu.Waiting? && s.fence[s.currentFrame]
    case ResetFence => s.cpu.FirstReset?
    case Acquire(_) => s.cpu.Acquiring?
    case ResetFenceAgain => s.cpu.SecondReset?
    case Record => s.cpu.Recording?
    case RecordFails => s.cpu.Recording?
    case Submit => s.cpu.Submitting?
    case SubmitFails => s.cpu.Submitting?
    case Present(_) => s.cpu.Presenting?
    case IdleWait => s.cpu.WaitingIdle? && NothingPending(s)
    case Rebuild => s.cpu.Rebuilding?
    case GpuComplete(i) => i < FRAMES && 0 < s.pending[i]
  }

  function Advance(s: State): State {
    s.(cpu := Waiting, currentFrame := (s.currentFrame + 1) % FRAMES, abandoned := false)
  }

  function Do(s: State, a: Step): (t: State)
    requires WellFormed(s) && Enabled(s, a)
    ensures WellFormed(t)
  {
    var c := s.currentFrame;
    match a
    case FenceWait => s.(cpu := FirstReset)
    case ResetFence => s.(cpu := Acquiring, fence := s.fence[c := false])
    case Acquire(AcquireOk) => s.(cpu := SecondReset)
    case Acquire(AcquireOutOfDate) => s.(cpu := WaitingIdle(false))
    case Acquire(AcquireError) => s.(cpu := Exited(false))
    case ResetFenceAgain => s.(cpu := Recording, fence := s.fence[c := false])
    case Record => s.(cpu := Submitting, recordedFor := s.recordedFor[c := s.generation])
    case RecordFails => s.(cpu := Exited(false))
    case SubmitFails => s.(cpu := Exited(false))
    case Submit => s.(cpu := Presenting, pending := s.pending[c := s.pending[c] + 1])
    case Present(PresentOk) => Advance(s)
    case Present(PresentStale) => s.(cpu := WaitingIdle(true))
    case Present(PresentError) => s.(cpu := Exited(true))
    case IdleWait => s.(cpu := Rebuilding(s.cpu.presented))
    case Rebuild =>
      var t := s.(generation := s.generation + 1);
      if s.cpu.presented then Advance(t) else t.(cpu := Waiting, abandoned := true)
    case GpuComplete(i) => s.(pending := s.pending[i := s.pending[i] - 1], fence := s.fence[i := true])
  }

  predicate ValidRun(s: State, steps: seq<Step>)
    requires WellFormed(s)
    decreases |steps|
  {
    steps == [] || (Enabled(s, steps[0]) && ValidRun(Do(s, steps[0]), steps[1..]))
  }

  function Run(s: State, steps: seq<Step>): (t: State)
    requires WellFormed(s) && ValidRun(s, steps)
    ensures WellFormed(t)
    decreases |steps|
  {
    if steps == [] then s else Run(Do(s, steps[0]), steps[1..])
  }

  /** After create_sync_objects: both fences are created signalled. */
  predicate Initial(s: State) {
    && WellFormed(s) && s.cpu == Waiting && s.currentFrame == 0 && !s.abandoned
    && (forall i :: 0 <= i < FRAMES ==> s.fence[i] && s.pending[i] == 0)
  }

  /** The current slot's fence has been reset and nothing was submitted with it yet. */
  predicate Disarmed(s: State) {
    match s.cpu
    case Acquiring => true
    case SecondReset => true
    case Recording => true
    case Submitting => true
    case WaitingIdle(presented) => !presented
    case Rebuilding(presented) => !presented
    case Exited(armed) => !armed
    case Waiting => s.abandoned
    case _ => false
  }

  predicate SlotOk(s: State, i: nat)
    requires WellFormed(s) && i < FRAMES
  {
    && s.pending[i] <= 1
    && (s.pending[i] == 1 ==> !s.fence[i] && s.recordedFor[i] == s.generation)
    && (if Disarmed(s) && i == s.currentFrame then !s.fence[i] && s.pending[i] == 0
        else s.fence[i] || s.pending[i] == 1)
  }

  predicate Inv(s: State) {
    && WellFormed(s)
    && (forall i :: 0 <= i < FRAMES ==> SlotOk(s, i))
    && (s.cpu.FirstReset? ==> s.fence[s.currentFrame])
    && (s.cpu.Submitting? ==> s.recordedFor[s.currentFrame] == s.generation)
    && (s.cpu.Rebuilding? ==> NothingPending(s))
  }

  lemma SlotStays(s: State, a: Step, i: nat)
    requires Inv(s) && Enabled(s, a) && i < FRAMES
    ensures SlotOk(Do(s, a), i)
  {
    assert SlotOk(s, i) && SlotOk(s, s.currentFrame);
  }

  lemma InvStays(s: State, a: Step)
    requires Inv(s) && Enabled(s, a)
    ensures Inv(Do(s, a))
  {
    forall i | 0 <= i < FRAMES
      ensures SlotOk(Do(s, a), i)
    {
      SlotStays(s, a, i);
    }
    assert SlotOk(s, s.currentFrame);
  }

  lemma {:induction false} RunInv(s: State, steps: seq<Step>)
    requires Inv(s) && ValidRun(s, steps)
    ensures Inv(Run(s, steps))
    decreases |steps|
  {
    if steps != [] {
      InvStays(s, steps[0]);
      RunInv(Do(s, steps[0]), steps[1..]);
    }
  }

  /** What Vulkan demands before each call that touches a fence, a command buffer or the
      framebuffers. */
  predicate CallIsLegal(s: State, a: Step)
    requires WellFormed(s)
  {
    var c := s.currentFrame;
    match a
    case ResetFence => s.pending[c] == 0
    case ResetFenceAgain => s.pending[c] == 0
    case Record => s.pending[c] == 0
    case Submit => s.pending[c] == 0 && !s.fence[c] && s.recordedFor[c] == s.generation
    case Rebuild => NothingPending(s)
    case _ => true
  }

  function Outstanding(s: State): nat
    requires WellFormed(s)
  {
    s.pending[0] + s.pending[1]
  }

  /** In every interleaving with the GPU: a pending submission's fence is unsignalled and
      its framebuffers exist, no command buffer or fence is reset while in use, at most
      two submissions are outstanding, and framebuffers go only when none is. */
  lemma FramesAreSafe(s: State, steps: seq<Step>, a: Step)
    requires Initial(s) && ValidRun(s, steps)
    ensures var t := Run(s, steps);
            && (forall i :: 0 <= i < FRAMES && 0 < t.pending[i] ==> !t.fence[i] && t.recordedFor[i] == t.generation)
            && Outstanding(t) <= 2
            && (Enabled(t, a) ==> CallIsLegal(t, a))
  {
    RunInv(s, steps);
    var t := Run(s, steps);
    assert SlotOk(t, 0) && SlotOk(t, 1);
  }

  // ----- Progress of the fence wait -----

  lemma {:induction false} StuckStays(s: State, steps: seq<Step>)
    requires Inv(s) && s.cpu.Waiting? && s.abandoned && ValidRun(s, steps)
    ensures Run(s, steps).cpu.Waiting?
    decreases |steps|
  {
    if steps != [] {
      assert SlotOk(s, s.currentFrame);
      InvStays(s, steps[0]);
      StuckStays(Do(s, steps[0]), steps[1..]);
    }
  }

  /** A fence that is signalled, or will be by the GPU, lets the wait return. */
  lemma ArmedReturns(s: State) returns (steps: seq<Step>)
    requires Inv(s) && s.cpu.Waiting? && !s.abandoned
    ensures ValidRun(s, steps) && Run(s, steps).cpu.FirstReset?
  {
    var c := s.currentFrame;
    assert SlotOk(s, c);
    var u := if s.fence[c] then s else Do(s, GpuComplete(c));
    steps := [FenceWait];
    assert steps[1..] == [];
    assert ValidRun(Do(u, FenceWait), []);
    assert ValidRun(u, steps) && Run(u, steps) == Run(Do(u, FenceWait), []);
    if !s.fence[c] {
      var longer := [GpuComplete(c)] + steps;
      assert longer[1..] == steps;
      steps := longer;
    }
  }

  /** draw_frame's wait can return exactly when the previous call did not give up after an
      out-of-date acquire: that path leaves the fence reset with nothing submitted, and
      then no continuation ever leaves the wait. */
  lemma WaitReturnsExactlyWhen(s: State)
    requires Inv(s) && s.cpu.Waiting?
    ensures (exists steps :: ValidRun(s, steps) && Run(s, steps).cpu.FirstReset?) <==> !s.abandoned
  {
    if s.abandoned {
      forall steps | ValidRun(s, steps)
        ensures Run(s, steps).cpu.Waiting?
      {
        StuckStays(s, steps);
      }
    } else {
      var steps := ArmedReturns(s);
    }
  }

  /** Waiting on a fence that is not signalled and belongs to no submission. */
  predicate Hung(s: State)
    requires WellFormed(s)
  {
    s.cpu.Waiting? && !s.fence[s.currentFrame] && s.pending[s.currentFrame] == 0
  }

  lemma {:induction false} ArmedStays(s: State, steps: seq<Step>)
    requires Inv(s) && ValidRun(s, steps) && FenceWait !in steps
    requires s.cpu.Waiting? && !s.abandoned
    ensures !Hung(Run(s, steps))
    decreases |steps|
  {
    assert SlotOk(s, s.currentFrame);
    if steps != [] {
      InvStays(s, steps[0]);
      ArmedStays(Do(s, steps[0]), steps[1..]);
    }
  }

  /** The wait is sure not to hang, whatever the GPU does first, on the same condition. */
  lemma WaitSureToReturnExactlyWhen(s: State)
    requires Inv(s) && s.cpu.Waiting?
    ensures (forall steps :: ValidRun(s, steps) && FenceWait !in steps ==> !Hung(Run(s, steps))) <==> !s.abandoned
  {
    if s.abandoned {
      assert SlotOk(s, s.currentFrame);
      assert ValidRun(s, []) && FenceWait !in [] && Hung(Run(s, []));
    } else {
      forall steps | ValidRun(s, steps) && FenceWait !in steps
        ensures !Hung(Run(s, steps))
      {
        ArmedStays(s, steps);
      }
    }
  }

  lemma {:induction false} Then(s: State, xs: seq<Step>, a: Step) returns (ys: seq<Step>)
    requires WellFormed(s) && ValidRun(s, xs) && Enabled(Run(s, xs), a)
    ensures ys == xs + [a] && ValidRun(s, ys) && Run(s, ys) == Do(Run(s, xs), a)
    decreases |xs|
  {
    ys := xs + [a];
    if xs == [] {
      assert ys == [a] && ys[1..] == [];
      assert ValidRun(Do(s, a), []);
    } else {
      var rest := Then(Do(s, xs[0]), xs[1..], a);
      assert ys[1..] == rest;
    }
  }

  /** The path that abandons a slot is reachable with the very first frame. */
  lemma AbandonIsReachable(s: State) returns (steps: seq<Step>)
    requires Initial(s)
    ensures ValidRun(s, steps) && Run(s, steps).cpu.Waiting? && Run(s, steps).abandoned
  {
    steps := Then(s, [], FenceWait);
    steps := Then(s, steps, ResetFence);
    steps := Then(s, steps, Acquire(AcquireOutOfDate));
    steps := Then(s, steps, IdleWait);
    steps := Then(s, steps, Rebuild);
  }

  // ----- The slots alternate -----

  /** The step with which a draw_frame call that presented ends. */
  predicate EndsFrame(s: State, a: Step) {
    a == Present(PresentOk) || (a.Rebuild? && s.cpu == Rebuilding(true))
  }

  /** How many draw_frame calls of a run presented and ended. */
  function FramesEnded(s: State, steps: seq<Step>): nat
    requires WellFormed(s) && ValidRun(s, steps)
    decreases |steps|
  {
    if steps == [] then 0
    else (if EndsFrame(s, steps[0]) then 1 else 0) + FramesEnded(Do(s, steps[0]), steps[1..])
  }

  /** Every frame presented moves on to the other slot, and nothing else does. */
  lemma {:induction false} SlotsAlternate(s: State, steps: seq<Step>)
    requires WellFormed(s) && ValidRun(s, steps)
    ensures Run(s, steps).currentFrame == (s.currentFrame + FramesEnded(s, steps)) % 2
    decreases |steps|
  {
    if steps != [] {
      SlotsAlternate(Do(s, steps[0]), steps[1..]);
    }
  }

  // ----- The swapchain is rebuilt when it is stale, and failures end the program -----

  /** The results on which draw_frame calls recreate_swapchain. */
  predicate FindsStale(a: Step) {
    a == Acquire(AcquireOutOfDate) || a == Present(PresentStale)
  }

  function StaleResults(steps: seq<Step>): nat {
    if steps == [] then 0 else (if FindsStale(steps[0]) then 1 else 0) + StaleResults(steps[1..])
  }

  /** Inside recreate_swapchain. */
  predicate Recreating(s: State) {
    s.cpu.WaitingIdle? || s.cpu.Rebuilding?
  }

  /** The framebuffers in use are those made for the last result that demanded new ones. */
  lemma {:induction false} RebuiltExactlyWhenStale(s: State, steps: seq<Step>)
    requires WellFormed(s) && ValidRun(s, steps)
    ensures var t := Run(s, steps);
            t.generation + (if Recreating(t) then 1 else 0)
            == s.generation + (if Recreating(s) then 1 else 0) + StaleResults(steps)
    decreases |steps|
  {
    if steps != [] {
      RebuiltExactlyWhenStale(Do(s, steps[0]), steps[1..]);
    }
  }

  predicate Fails(a: Step) {
    a == Acquire(AcquireError) || a == Present(PresentError) || a.RecordFails? || a.SubmitFails?
  }

  /** draw_frame ends the program exactly on a failed call. */
  lemma {:induction false} ExitsExactlyOnFailure(s: State, steps: seq<Step>)
    requires WellFormed(s) && ValidRun(s, steps)
    ensures Run(s, steps).cpu.Exited? <==> s.cpu.Exited? || exists i :: 0 <= i < |steps| && Fails(steps[i])
    decreases |steps|
  {
    if steps != [] {
      ExitsExactlyOnFailure(Do(s, steps[0]), steps[1..]);
      assert steps == [steps[0]] + steps[1..];
    }
  }

  /** Each of those failures can happen, and with the very first frame. */
  lemma FailureIsReachable(s: State, failure: Step) returns (steps: seq<Step>)
    requires Initial(s) && Fails(failure)
    ensures ValidRun(s, steps + [failure]) && Run(s, steps + [failure]).cpu.Exited?
  {
    var last;
    if failure.Present? {
      steps := FrameSubmits(s);
    } else {
      steps := Then(s, [], FenceWait);
      steps := Then(s, steps, ResetFence);
      if !failure.Acquire? {
        steps := Then(s, steps, Acquire(AcquireOk));
        steps := Then(s, steps, ResetFenceAgain);
        if failure.SubmitFails? {
          steps := Then(s, steps, Record);
        }
      }
    }
    last := Then(s, steps, failure);
  }

  // ----- Two frames at once -----

  /** draw_frame up to the present, with its slot's fence signalled: one more submission of
      the slot is outstanding, its fence reset and its commands made for these framebuffers. */
  lemma FrameSubmits(s: State) returns (steps: seq<Step>)
    requires WellFormed(s) && s.cpu == Waiting && s.fence[s.currentFrame]
    ensures ValidRun(s, steps)
    ensures var c := s.currentFrame;
            Run(s, steps) == s.(cpu := Presenting, fence := s.fence[c := false],
                                pending := s.pending[c := s.pending[c] + 1],
                                recordedFor := s.recordedFor[c := s.generation])
  {
    steps := Then(s, [], FenceWait);
    steps := Then(s, steps, ResetFence);
    steps := Then(s, steps, Acquire(AcquireOk));
    steps := Then(s, steps, ResetFenceAgain);
    steps := Then(s, steps, Record);
    steps := Then(s, steps, Submit);
  }

  lemma {:induction false} RunConcat(s: State, xs: seq<Step>, ys: seq<Step>)
    requires WellFormed(s) && ValidRun(s, xs) && ValidRun(Run(s, xs), ys)
    ensures ValidRun(s, xs + ys) && Run(s, xs + ys) == Run(Run(s, xs), ys)
    decreases |xs|
  {
    if xs == [] {
      assert xs + ys == ys;
    } else {
      RunConcat(Do(s, xs[0]), xs[1..], ys);
      assert (xs + ys)[1..] == xs[1..] + ys;
    }
  }

  /** The bound of two is attained: the second frame is submitted while the GPU still works
      on the first. */
  lemma TwoInFlightIsReachable(s: State) returns (steps: seq<Step>)
    requires Initial(s)
    ensures ValidRun(s, steps) && Outstanding(Run(s, steps)) == 2
  {
    steps := FrameSubmits(s);
    steps := Then(s, steps, Present(PresentOk));
    var second := FrameSubmits(Run(s, steps));
    RunConcat(s, steps, second);
    steps := steps + second;
  }
}

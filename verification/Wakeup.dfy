/** The feed's wake-up protocol: one sequencer that publishes durable heads, one closer and
    any number of waiters, over an atomic head, a closed flag, a lock and a condition
    variable. Every load, store, lock, unlock, sleep and notification is one step. */
module Wakeup {
  import opened Base

  // ── state ──────────────────────────────────────────────────────────────

  datatype Owner = ByWaiter(w: nat) | BySequencer | ByCloser

  /** A waiter that got an empty page with continuation `c`, in program order. */
  datatype Waiter =
    | HasPage(c: nat)
    | Locked(c: nat)
    | SeenOpen(c: nat)
    | SeenHead(c: nat)
    | Sleeping(c: nat)
    | Woken(c: nat, timedOut: bool)
    | Relocked(c: nat, timedOut: bool)
    | Rechecking(c: nat)
    | RecheckingLocked(c: nat)
    | Calling(c: nat)
    | CallingLocked(c: nat)
    | Returned

  /** The sequencer publishing: stored the head, took the lock, notified. */
  datatype Sequencer = Serving | Stored | Holding | Notified

  /** `close`: stored the flag, took the lock, notified, done. */
  datatype Closer = Open | Flagged | CloserHolding | CloserNotified | Closed

  datatype State = State(
    head: nat,
    closed: bool,
    lock: Option<Owner>,
    sequencer: Sequencer,
    closer: Closer,
    waiters: map<nat, Waiter>)

  function Initial(head: nat): State {
    State(head, false, None, Serving, Open, map[])
  }

  // ── steps ──────────────────────────────────────────────────────────────

  datatype Step =
    | Arrive(w: nat, c: nat)
    | Take(w: nat)
    | LoadClosed(w: nat)
    | LoadHead(w: nat)
    | Sleep(w: nat)
    | TimeOut(w: nat)
    | Spurious(w: nat)
    | Retake(w: nat)
    | Drop(w: nat)
    | Recheck(w: nat)
    | Serve(w: nat)
    | Store(head: nat)
    | SequencerTake
    | SequencerNotify
    | SequencerDrop
    | Flag
    | CloserTake
    | CloserNotify
    | CloserDrop

  predicate Enabled(s: State, step: Step) {
    match step
    case Arrive(w, _) => w !in s.waiters || s.waiters[w].Returned?
    case Take(w) => w in s.waiters && s.waiters[w].HasPage? && s.lock.None?
    case LoadClosed(w) => w in s.waiters && s.waiters[w].Locked?
    case LoadHead(w) => w in s.waiters && s.waiters[w].SeenOpen?
    case Sleep(w) => w in s.waiters && s.waiters[w].SeenHead?
    case TimeOut(w) => w in s.waiters && s.waiters[w].Sleeping?
    case Spurious(w) => w in s.waiters && s.waiters[w].Sleeping?
    case Retake(w) => w in s.waiters && s.waiters[w].Woken? && s.lock.None?
    case Drop(w) => w in s.waiters && s.waiters[w].Relocked?
    case Recheck(w) => w in s.waiters && (s.waiters[w].Rechecking? || s.waiters[w].RecheckingLocked?)
    case Serve(w) => w in s.waiters && (s.waiters[w].Calling? || s.waiters[w].CallingLocked?) && s.sequencer.Serving?
    case Store(_) => s.sequencer.Serving?
    case SequencerTake => s.sequencer.Stored? && s.lock.None?
    case SequencerNotify => s.sequencer.Holding?
    case SequencerDrop => s.sequencer.Notified?
    case Flag => s.closer.Open?
    case CloserTake => s.closer.Flagged? && s.lock.None?
    case CloserNotify => s.closer.CloserHolding?
    case CloserDrop => s.closer.CloserNotified?
  }

  /** The lock is released when its owner leaves. */
  function Freed(lock: Option<Owner>, owner: Owner): Option<Owner> {
    if lock == Some(owner) then None else lock
  }

  function WokenUp(waiters: map<nat, Waiter>): map<nat, Waiter> {
    map w | w in waiters :: if waiters[w].Sleeping? then Woken(waiters[w].c, false) else waiters[w]
  }

  function Apply(s: State, step: Step): State
    requires Enabled(s, step)
  {
    match step
    case Arrive(w, c) => s.(waiters := s.waiters[w := HasPage(c)])
    case Take(w) => s.(lock := Some(ByWaiter(w)), waiters := s.waiters[w := Locked(s.waiters[w].c)])
    case LoadClosed(w) =>
      if s.closed then s.(lock := Freed(s.lock, ByWaiter(w)), waiters := s.waiters[w := Returned])
      else s.(waiters := s.waiters[w := SeenOpen(s.waiters[w].c)])
    case LoadHead(w) =>
      // a newer head is already out: the wait is skipped, the lock stays held
      if s.head <= s.waiters[w].c then s.(waiters := s.waiters[w := SeenHead(s.waiters[w].c)])
      else s.(waiters := s.waiters[w := RecheckingLocked(s.waiters[w].c)])
    case Sleep(w) => s.(lock := Freed(s.lock, ByWaiter(w)), waiters := s.waiters[w := Sleeping(s.waiters[w].c)])
    case TimeOut(w) => s.(waiters := s.waiters[w := Woken(s.waiters[w].c, true)])
    case Spurious(w) => s.(waiters := s.waiters[w := Woken(s.waiters[w].c, false)])
    case Retake(w) => s.(lock := Some(ByWaiter(w)), waiters := s.waiters[w := Relocked(s.waiters[w].c, s.waiters[w].timedOut)])
    case Drop(w) =>
      s.(lock := Freed(s.lock, ByWaiter(w)),
         waiters := s.waiters[w := if s.waiters[w].timedOut then Returned else Rechecking(s.waiters[w].c)])
    case Recheck(w) =>
      if s.closed then s.(lock := Freed(s.lock, ByWaiter(w)), waiters := s.waiters[w := Returned])
      else s.(waiters := s.waiters[w := if s.waiters[w].RecheckingLocked? then CallingLocked(s.waiters[w].c) else Calling(s.waiters[w].c)])
    case Serve(w) => s.(lock := Freed(s.lock, ByWaiter(w)), waiters := s.waiters[w := Returned])
    case Store(head) => s.(head := head, sequencer := if head == s.head then Serving else Stored)
    case SequencerTake => s.(lock := Some(BySequencer), sequencer := Holding)
    case SequencerNotify => s.(sequencer := Notified, waiters := WokenUp(s.waiters))
    case SequencerDrop => s.(lock := Freed(s.lock, BySequencer), sequencer := Serving)
    case Flag => s.(closed := true, closer := Flagged)
    case CloserTake => s.(lock := Some(ByCloser), closer := CloserHolding)
    case CloserNotify => s.(closer := CloserNotified, waiters := WokenUp(s.waiters))
    case CloserDrop => s.(lock := Freed(s.lock, ByCloser), closer := Closed)
  }

  // ── the invariant ──────────────────────────────────────────────────────

  predicate HoldsLock(x: Waiter) {
    x.Locked? || x.SeenOpen? || x.SeenHead? || x.Relocked? || x.RecheckingLocked? || x.CallingLocked?
  }

  /** Exactly the one inside a critical section owns the lock. */
  ghost predicate LockOwned(s: State) {
    && HoldersOwn(s)
    && (s.sequencer.Holding? || s.sequencer.Notified? <==> s.lock == Some(BySequencer))
    && (s.closer.CloserHolding? || s.closer.CloserNotified? <==> s.lock == Some(ByCloser))
    && OwnerHolds(s)
  }

  ghost predicate HoldersOwn(s: State) {
    forall w :: w in s.waiters && HoldsLock(s.waiters[w]) ==> s.lock == Some(ByWaiter(w))
  }

  predicate OwnerHolds(s: State) {
    s.lock.Some? && s.lock.value.ByWaiter? ==> s.lock.value.w in s.waiters && HoldsLock(s.waiters[s.lock.value.w])
  }

  predicate PublisherPending(s: State) {
    s.sequencer.Stored? || s.sequencer.Holding?
  }

  predicate CloserPending(s: State) {
    s.closer.Flagged? || s.closer.CloserHolding?
  }

  /** NO LOST WAKEUP: a sleeper that should be awake has a notification still coming. */
  ghost predicate NoLostWakeup(s: State) {
    forall w :: w in s.waiters && s.waiters[w].Sleeping? ==>
      && (s.head > s.waiters[w].c ==> PublisherPending(s))
      && (s.closed ==> CloserPending(s))
  }

  /** A waiter between its checks and its sleep: what changed since is still unannounced. */
  ghost predicate ChecksHold(s: State) {
    && (s.closed <==> !s.closer.Open?)
    && (forall w :: w in s.waiters && (s.waiters[w].SeenOpen? || s.waiters[w].SeenHead?) ==> s.closed ==> s.closer.Flagged?)
    && (forall w :: w in s.waiters && s.waiters[w].SeenHead? ==> s.head > s.waiters[w].c ==> s.sequencer.Stored?)
  }

  ghost predicate Inv(s: State) {
    LockOwned(s) && ChecksHold(s) && NoLostWakeup(s)
  }

  lemma InitialIsInv(head: nat)
    ensures Inv(Initial(head))
  {
  }

  lemma OwnerKept(s: State, step: Step)
    requires Inv(s) && Enabled(s, step)
    ensures LockOwned(Apply(s, step))
  {
    hide ChecksHold, NoLostWakeup, HoldersOwn, OwnerHolds, WokenUp;
    HoldersKept(s, step);
    OwnerStillHolds(s, step);
  }

  lemma HoldersKept(s: State, step: Step)
    requires LockOwned(s) && Enabled(s, step)
    ensures HoldersOwn(Apply(s, step))
  {
    hide OwnerHolds, WokenUp;
    WakingKeepsLocks(s.waiters);
  }

  lemma OwnerStillHolds(s: State, step: Step)
    requires LockOwned(s) && Enabled(s, step)
    ensures OwnerHolds(Apply(s, step))
  {
    hide WokenUp;
    WakingKeepsLocks(s.waiters);
  }

  lemma WakingKeepsLocks(waiters: map<nat, Waiter>)
    ensures WokenUp(waiters).Keys == waiters.Keys
    ensures forall w :: w in waiters ==> HoldsLock(WokenUp(waiters)[w]) == HoldsLock(waiters[w])
  {
  }

  lemma ChecksKept(s: State, step: Step)
    requires Inv(s) && Enabled(s, step)
    ensures ChecksHold(Apply(s, step))
  {
    hide NoLostWakeup;
  }

  lemma WakeupKept(s: State, step: Step)
    requires Inv(s) && Enabled(s, step)
    ensures NoLostWakeup(Apply(s, step))
  {
  }

  lemma StepKeeps(s: State, step: Step)
    requires Inv(s) && Enabled(s, step)
    ensures Inv(Apply(s, step))
  {
    hide Inv, LockOwned, ChecksHold, NoLostWakeup, Apply, Enabled;
    OwnerKept(s, step);
    ChecksKept(s, step);
    WakeupKept(s, step);
    Together(Apply(s, step));
  }

  lemma Together(s: State)
    requires LockOwned(s) && ChecksHold(s) && NoLostWakeup(s)
    ensures Inv(s)
  {
  }

  // ── runs ───────────────────────────────────────────────────────────────

  predicate Runs(s: State, steps: seq<Step>)
    decreases |steps|
  {
    steps == [] || (Enabled(s, steps[0]) && Runs(Apply(s, steps[0]), steps[1..]))
  }

  function RunTo(s: State, steps: seq<Step>): State
    requires Runs(s, steps)
    decreases |steps|
  {
    if steps == [] then s else RunTo(Apply(s, steps[0]), steps[1..])
  }

  /** In every interleaving of waiters, publications and a close, no wakeup is lost. */
  lemma {:induction false} WakeupsAreNeverLost(s: State, steps: seq<Step>)
    requires Inv(s) && Runs(s, steps)
    ensures Inv(RunTo(s, steps)) && NoLostWakeup(RunTo(s, steps))
    decreases |steps|
  {
    hide Inv, Enabled, Apply;
    if steps == [] {
      InvWakes(s);
    } else {
      StepKeeps(s, steps[0]);
      WakeupsAreNeverLost(Apply(s, steps[0]), steps[1..]);
    }
  }

  lemma InvWakes(s: State)
    requires Inv(s)
    ensures NoLostWakeup(s)
  {
  }

  // ── the call made with the lock held ───────────────────────────────────

  /** A waiter that skipped its wait asks the sequencer with the lock in hand, while the
      sequencer, between its store and its notification, asks for that lock. */
  predicate Embrace(s: State, w: nat) {
    w in s.waiters && s.waiters[w].CallingLocked? && s.sequencer.Stored? && s.lock == Some(ByWaiter(w))
  }

  /** Neither can move: the sequencer cannot take the lock and serves no call. */
  lemma EmbraceIsForever(s: State, steps: seq<Step>, w: nat)
    requires Inv(s) && Embrace(s, w) && Runs(s, steps)
    ensures Embrace(RunTo(s, steps), w) && RunTo(s, steps).waiters[w] == s.waiters[w]
    decreases |steps|
  {
    hide ChecksHold, NoLostWakeup;
    if steps != [] {
      StepKeeps(s, steps[0]);
      EmbraceStays(s, steps[0], w);
      EmbraceIsForever(Apply(s, steps[0]), steps[1..], w);
    }
  }

  lemma EmbraceStays(s: State, step: Step, w: nat)
    requires LockOwned(s) && Embrace(s, w) && Enabled(s, step)
    ensures Embrace(Apply(s, step), w) && Apply(s, step).waiters[w] == s.waiters[w]
  {
  }

  /** It happens: a head stored after the page was read and before the waiter's lock. */
  lemma EmbraceIsReachable()
    ensures var steps := [Arrive(0, 0), Store(1), Take(0), LoadClosed(0), LoadHead(0), Recheck(0)];
      Runs(Initial(0), steps) && Embrace(RunTo(Initial(0), steps), 0)
  {
    hide Runs, RunTo, Embrace;
    var rest := EmbracedFromLock();
    var s0 := Initial(0);
    var s1 := Apply(s0, Arrive(0, 0));
    var s2 := Apply(s1, Store(1));
    var r2 := [Take(0)] + rest;
    var r1 := [Store(1)] + r2;
    var r0 := [Arrive(0, 0)] + r1;
    var end := RunTo(LockedTooLate(), rest);
    assert Apply(s2, Take(0)).waiters == map[0 := Locked(0)];
    FirstStep(s2, Take(0), rest, r2, end);
    FirstStep(s1, Store(1), r2, r1, end);
    FirstStep(s0, Arrive(0, 0), r1, r0, end);
    assert r0 == [Arrive(0, 0), Store(1), Take(0), LoadClosed(0), LoadHead(0), Recheck(0)];
  }

  /** The waiter takes the lock behind the store of a newer head. */
  function LockedTooLate(): State {
    State(1, false, Some(ByWaiter(0)), Stored, Open, map[0 := Locked(0)])
  }

  lemma EmbracedFromLock() returns (steps: seq<Step>)
    ensures steps == [LoadClosed(0), LoadHead(0), Recheck(0)]
    ensures Runs(LockedTooLate(), steps) && Embrace(RunTo(LockedTooLate(), steps), 0)
  {
    hide Runs, RunTo;
    var s1 := Apply(LockedTooLate(), LoadClosed(0));
    var s2 := Apply(s1, LoadHead(0));
    var end := Apply(s2, Recheck(0));
    NoSteps(end);
    var r2 := [Recheck(0)];
    var r1 := [LoadHead(0)] + r2;
    steps := [LoadClosed(0)] + r1;
    assert r2 == [Recheck(0)] + [];
    FirstStep(s2, Recheck(0), [], r2, end);
    FirstStep(s1, LoadHead(0), r2, r1, end);
    FirstStep(LockedTooLate(), LoadClosed(0), r1, steps, end);
  }

  lemma NoSteps(s: State)
    ensures Runs(s, []) && RunTo(s, []) == s
  {
  }

  lemma FirstStep(s: State, step: Step, rest: seq<Step>, all: seq<Step>, end: State)
    requires all == [step] + rest && Enabled(s, step) && Runs(Apply(s, step), rest) && RunTo(Apply(s, step), rest) == end
    ensures Runs(s, all) && RunTo(s, all) == end
  {
    assert all[1..] == rest;
  }

  // ── which calls can end in an embrace ──────────────────────────────────

  /** No step of the run begins another call of the waiter. */
  predicate SameCall(steps: seq<Step>, w: nat) {
    forall i :: 0 <= i < |steps| ==> !(steps[i].Arrive? && steps[i].w == w)
  }

  ghost predicate CanEmbrace(s: State, w: nat) {
    exists steps :: SameCall(steps, w) && Runs(s, steps) && Embrace(RunTo(s, steps), w)
  }

  /** Behind the head check. */
  predicate PastHeadCheck(x: Waiter) {
    !x.HasPage? && !x.Locked? && !x.SeenOpen?
  }

  /** The wait was skipped, and the call is or will be made with the lock in hand. */
  predicate SkippedWait(s: State, w: nat)
    requires w in s.waiters
  {
    s.waiters[w].CallingLocked? || (s.waiters[w].RecheckingLocked? && !s.closed)
  }

  lemma WaitedStays(s: State, step: Step, w: nat)
    requires Inv(s) && Enabled(s, step) && w in s.waiters && PastHeadCheck(s.waiters[w]) && !SkippedWait(s, w)
    requires !(step.Arrive? && step.w == w)
    ensures var t := Apply(s, step); w in t.waiters && PastHeadCheck(t.waiters[w]) && !SkippedWait(t, w)
  {
    hide LockOwned, ChecksHold, NoLostWakeup;
  }

  /** Whoever slept makes its call without the lock: no run embraces it. */
  lemma {:induction false} WaitedNeverEmbraces(s: State, steps: seq<Step>, w: nat)
    requires Inv(s) && w in s.waiters && PastHeadCheck(s.waiters[w]) && !SkippedWait(s, w)
    requires SameCall(steps, w) && Runs(s, steps)
    ensures !Embrace(RunTo(s, steps), w)
    decreases |steps|
  {
    hide Inv, Enabled, Apply;
    if steps != [] {
      StepKeeps(s, steps[0]);
      WaitedStays(s, steps[0], w);
      WaitedNeverEmbraces(Apply(s, steps[0]), steps[1..], w);
    }
  }

  lemma Prepend(s: State, step: Step, rest: seq<Step>, w: nat)
    requires Enabled(s, step) && !(step.Arrive? && step.w == w) && SameCall(rest, w) && Runs(Apply(s, step), rest)
    ensures SameCall([step] + rest, w) && Runs(s, [step] + rest) && RunTo(s, [step] + rest) == RunTo(Apply(s, step), rest)
  {
    assert ([step] + rest)[1..] == rest;
  }

  /** A head stored while the call is out closes the embrace. */
  lemma StoreEmbraces(s: State, w: nat)
    requires Inv(s) && w in s.waiters && s.waiters[w].CallingLocked?
    ensures CanEmbrace(s, w)
  {
    hide ChecksHold, NoLostWakeup, Runs, RunTo;
    NoSteps(s);
    if s.sequencer.Stored? {
      assert SameCall([], w) && Embrace(RunTo(s, []), w);
    } else {
      var t := Apply(s, Store(s.head + 1));
      NoSteps(t);
      Prepend(s, Store(s.head + 1), [], w);
      assert Embrace(t, w);
    }
  }

  /** EMBRACED EXACTLY IF THE WAIT WAS SKIPPED: behind its head check, a call can run into
      an embrace if and only if it found a newer head, so kept the lock instead of sleeping,
      and did not find the engine closed. */
  lemma EmbraceIffWaitSkipped(s: State, w: nat)
    requires Inv(s) && w in s.waiters && PastHeadCheck(s.waiters[w])
    ensures CanEmbrace(s, w) <==> SkippedWait(s, w)
  {
    hide ChecksHold, NoLostWakeup, LockOwned, Inv, Embrace, Runs, RunTo;
    if !SkippedWait(s, w) {
      forall steps | SameCall(steps, w) && Runs(s, steps) ensures !Embrace(RunTo(s, steps), w) {
        WaitedNeverEmbraces(s, steps, w);
      }
    } else if s.waiters[w].CallingLocked? {
      StoreEmbraces(s, w);
    } else {
      StepKeeps(s, Recheck(w));
      var t := Apply(s, Recheck(w));
      StoreEmbraces(t, w);
      var steps :| SameCall(steps, w) && Runs(t, steps) && Embrace(RunTo(t, steps), w);
      Prepend(s, Recheck(w), steps, w);
    }
  }

  /** The guard that decides it: what the waiter's load reads while it holds the lock. */
  lemma HeadCheckDecides(s: State, w: nat)
    requires Inv(s) && w in s.waiters && s.waiters[w].SeenOpen?
    ensures CanEmbrace(Apply(s, LoadHead(w)), w) <==> s.head > s.waiters[w].c && !s.closed
  {
    hide ChecksHold, NoLostWakeup, LockOwned, Inv, CanEmbrace;
    StepKeeps(s, LoadHead(w));
    EmbraceIffWaitSkipped(Apply(s, LoadHead(w)), w);
  }

  // ── which calls can still be answered ──────────────────────────────────

  predicate AnsweredAfter(s: State, steps: seq<Step>, w: nat) {
    SameCall(steps, w) && Runs(s, steps) && w in RunTo(s, steps).waiters && RunTo(s, steps).waiters[w].Returned?
  }

  predicate CallIsOut(s: State, w: nat) {
    w in s.waiters && (s.waiters[w].Calling? || s.waiters[w].CallingLocked?)
  }

  ghost predicate Embraced(s: State) {
    exists v :: Embrace(s, v)
  }

  /** The step that brings the sequencer closer to serving. */
  function Unblocking(s: State): Step
    requires Inv(s) && !Embraced(s) && !s.sequencer.Serving?
  {
    match s.sequencer
    case Notified => SequencerDrop
    case Holding => SequencerNotify
    case Stored =>
      match s.lock
      case None => SequencerTake
      case Some(ByCloser) => if s.closer.CloserHolding? then CloserNotify else CloserDrop
      case Some(ByWaiter(v)) =>
        match s.waiters[v]
        case Locked(_) => LoadClosed(v)
        case SeenOpen(_) => LoadHead(v)
        case SeenHead(_) => Sleep(v)
        case Relocked(_, _) => Drop(v)
        case _ => if s.closed then Recheck(v) else Flag
  }

  /** How many steps there are to go at most. */
  function Distance(s: State): nat {
    match s.sequencer
    case Serving => 0
    case Notified => 1
    case Holding => 2
    case Stored =>
      match s.lock
      case None => 3
      case Some(ByCloser) => if s.closer.CloserHolding? then 5 else 4
      case Some(BySequencer) => 3
      case Some(ByWaiter(v)) =>
        if v !in s.waiters then 3
        else match s.waiters[v]
        case Locked(_) => 7
        case SeenOpen(_) => 6
        case RecheckingLocked(_) => if s.closed then 4 else 5
        case _ => 4
  }

  lemma UnblockingWorks(s: State, w: nat)
    requires Inv(s) && !Embraced(s) && !s.sequencer.Serving? && CallIsOut(s, w)
    ensures var step := Unblocking(s);
      && Enabled(s, step) && !step.Arrive? && CallIsOut(Apply(s, step), w)
      && !Embraced(Apply(s, step)) && Distance(Apply(s, step)) < Distance(s)
  {
    hide NoLostWakeup;
    if s.sequencer.Stored? && s.lock.Some? && s.lock.value.ByWaiter? {
      assert !Embrace(s, s.lock.value.w);
    }
  }

  lemma {:induction false} UnblockedIsAnswered(s: State, w: nat) returns (steps: seq<Step>)
    requires Inv(s) && !Embraced(s) && CallIsOut(s, w)
    ensures AnsweredAfter(s, steps, w)
    decreases Distance(s)
  {
    hide Inv, LockOwned, ChecksHold, NoLostWakeup, Embraced, Unblocking, Distance, Runs, RunTo, SameCall;
    if s.sequencer.Serving? {
      var t := Apply(s, Serve(w));
      NoSteps(t);
      NoCalls(w);
      Prepend(s, Serve(w), [], w);
      steps := [Serve(w)] + [];
    } else {
      UnblockingWorks(s, w);
      StepKeeps(s, Unblocking(s));
      var rest := UnblockedIsAnswered(Apply(s, Unblocking(s)), w);
      Prepend(s, Unblocking(s), rest, w);
      steps := [Unblocking(s)] + rest;
    }
  }

  lemma NoCalls(w: nat)
    ensures SameCall([], w)
  {
  }

  lemma EmbraceBlocksStep(s: State, step: Step, v: nat, w: nat)
    requires LockOwned(s) && Embrace(s, v) && CallIsOut(s, w) && Enabled(s, step)
    ensures CallIsOut(Apply(s, step), w)
  {
  }

  /** An embrace keeps every call out, not only its own. */
  lemma {:induction false} EmbraceBlocksAll(s: State, steps: seq<Step>, v: nat, w: nat)
    requires Inv(s) && Embrace(s, v) && CallIsOut(s, w) && Runs(s, steps)
    ensures CallIsOut(RunTo(s, steps), w)
    decreases |steps|
  {
    hide ChecksHold, NoLostWakeup, Apply, Enabled;
    if steps != [] {
      StepKeeps(s, steps[0]);
      EmbraceStays(s, steps[0], v);
      EmbraceBlocksStep(s, steps[0], v, w);
      EmbraceBlocksAll(Apply(s, steps[0]), steps[1..], v, w);
    }
  }

  /** A call that is out can still be answered exactly while no waiter, itself or another,
      is caught in an embrace with the sequencer. */
  lemma CallIsAnsweredUnlessEmbraced(s: State, w: nat)
    requires Inv(s) && CallIsOut(s, w)
    ensures (exists steps :: AnsweredAfter(s, steps, w)) <==> !Embraced(s)
  {
    hide Inv, LockOwned, ChecksHold, NoLostWakeup, Embrace, Runs, RunTo;
    if v :| Embrace(s, v) {
      forall steps ensures !AnsweredAfter(s, steps, w) {
        if Runs(s, steps) {
          EmbraceBlocksAll(s, steps, v, w);
        }
      }
    } else {
      var steps := UnblockedIsAnswered(s, w);
    }
  }
}

/** The protocol of `MainLoopTaskBase` (main_loop_task.cpp) between callers, a one-shot timer and the main loop, as
    interleaved atomic steps.

    Any number of calls of `notify` and `politely_request_stop` may be in progress at once, each a sequence of steps,
    with the loads and compare-exchanges of `notify` as they compete; `start` and `reset` overlap no other call. A
    main-loop step is another such sequence, and only one runs at a time; the timer fires when armed. A `reset` waits
    as long as it takes. */
module MainLoopTasks {
  const VERSIONS := 0xFFFF_FFFF  // values of the `uint32_t` version other than 0, which is inactive

  datatype Timer = NoTimer | Idle | Armed

  // Where the current call of `start` or `reset` is.
  datatype Caller =
    | NoCall
    | StartCreate | StartIncrement | StartPush | StartFailed
    | ResetOpen(failedStart: bool) | ResetWait

  // How many calls of `notify` and `politely_request_stop` are where: before the load of the version, with a version
  // loaded, before the test, and in their common end, with or without a bump behind them.
  datatype Kicks = Kicks(
    loading: nat, trying: multiset<nat>, testing: nat, halting: nat, haltingPolitely: nat, incrementing: nat,
    pushing: nat)

  const NO_KICKS := Kicks(0, multiset{}, 0, 0, 0, 0, 0)

  // Where the running main-loop step is; `v` is the version it has sampled, after `at` bumps.
  datatype Step =
    | NoStep
    | Dequeued
    | Sampled(v: nat, at: nat)
    | Checked(v: nat, at: nat)
    | InCallback(v: nat, at: nat, stopping: bool)
    | Delaying(v: nat, at: nat) | Rearming(v: nat, at: nat) | Starting(v: nat, at: nat)
    | Deactivating(v: nat, at: nat)
    | Leaving

  // `queued` counts this task's entries in the main loop's queue. `bumps` counts activations, `served` is the
  // newest one that a callback has run for, `lost` counts pushes that failed after their increment.
  datatype State = State(
    running: bool, stopRequested: bool, terminate: bool,
    version: nat, inflight: nat, timer: Timer, semaphore: bool, token: bool,
    queued: nat, step: Step, caller: Caller, kicks: Kicks,
    bumps: nat, served: nat, lost: nat)

  predicate Initial(s: State) {
    && !s.running && !s.stopRequested && !s.terminate && s.version == 0 && s.inflight == 0
    && s.timer == NoTimer && !s.semaphore && !s.token
    && s.queued == 0 && s.step == NoStep && s.caller == NoCall && s.kicks == NO_KICKS
    && s.bumps == 0 && s.served == 0 && s.lost == 0
  }

  // Steps of `start` and `reset`; `semOk` and `timerOk` say whether the creation succeeds, `ok` whether the push does.
  datatype OwnerStep =
    | BeginStart | Create(semOk: bool, timerOk: bool) | IncrementStart | PushStart(ok: bool)
    | BeginReset | OpenReset | Take

  // Steps of `notify` and `politely_request_stop`.
  datatype KickStep =
    | BeginNotify(clearStop: bool) | Load | TryBump(prev: nat, spurious: bool)
    | BeginPolite | TestPolite
    | HaltTimer(bumped: bool) | IncrementCall | PushCall(ok: bool)

  // Steps of `app_loop_step`.
  datatype LoopStep =
    | Dequeue | Sample | Check | Enter | Return(delay: bool) | TestTimer | DisarmTimer | ArmTimer | Deactivate | Leave

  datatype Action = Owner(own: OwnerStep) | Kick(kick: KickStep) | Loop(loop: LoopStep) | Fire(ok: bool)

  predicate HasVersion(t: Step) {
    t.Sampled? || t.Checked? || t.InCallback? || t.Delaying? || t.Rearming? || t.Starting? || t.Deactivating?
  }

  // Fewer bumps during one step than there are versions.
  predicate NoWrap(s: State) {
    HasVersion(s.step) ==> s.bumps + 1 < s.step.at + VERSIONS
  }

  // The compare-exchange finds the version that was loaded; the weak form may fail all the same.
  predicate Succeeds(s: State, a: KickStep) {
    a.TryBump? && a.prev == s.version && !a.spurious
  }

  predicate Bumps(s: State, a: Action) {
    a.Kick? && Succeeds(s, a.kick)
  }

  predicate OwnerCan(s: State, a: OwnerStep) {
    match a
    case BeginStart => s.caller.NoCall? && s.kicks == NO_KICKS
    case Create(_, _) => s.caller.StartCreate?
    case IncrementStart => s.caller.StartIncrement?
    case PushStart(_) => s.caller.StartPush?
    case BeginReset => (s.caller.NoCall? && s.kicks == NO_KICKS) || s.caller.StartFailed?
    case OpenReset => s.caller.ResetOpen?
    case Take => s.caller.ResetWait? && s.token
  }

  predicate KickCan(s: State, a: KickStep) {
    match a
    case BeginNotify(_) => s.caller.NoCall?
    case Load => s.kicks.loading > 0
    case TryBump(prev, _) => prev in s.kicks.trying && (Succeeds(s, a) ==> NoWrap(s))
    case BeginPolite => s.caller.NoCall?
    case TestPolite => s.kicks.testing > 0
    case HaltTimer(bumped) => if bumped then s.kicks.halting > 0 else s.kicks.haltingPolitely > 0
    case IncrementCall => s.kicks.incrementing > 0
    case PushCall(_) => s.kicks.pushing > 0
  }

  predicate LoopCan(s: State, a: LoopStep) {
    match a
    case Dequeue => s.step.NoStep? && s.queued > 0
    case Sample => s.step.Dequeued?
    case Check => s.step.Sampled?
    case Enter => s.step.Checked?
    case Return(_) => s.step.InCallback?
    case TestTimer => s.step.Delaying?
    case DisarmTimer => s.step.Rearming?
    case ArmTimer => s.step.Starting?
    case Deactivate => s.step.Deactivating?
    case Leave => s.step.Leaving?
  }

  predicate Enabled(s: State, a: Action) {
    match a
    case Owner(own) => OwnerCan(s, own)
    case Kick(kick) => KickCan(s, kick)
    case Loop(loop) => LoopCan(s, loop)
    case Fire(_) => s.timer.Armed?
  }

  // The version after a bump: never 0.
  function Bumped(version: nat): (next: nat)
    ensures version <= VERSIONS ==> 1 <= next <= VERSIONS
  {
    var next := if version == 0 then 1 else (version + 1) % 0x1_0000_0000;
    if next == 0 then 1 else next
  }

  function Stopped(t: Timer): Timer {
    if t.Armed? then Idle else t
  }

  // A call has loaded the version `v`, and one has done with the version it loaded.
  function Loaded(k: Kicks, v: nat): (r: Kicks)
    ensures r == k.(trying := r.trying)
  {
    k.(trying := k.trying + multiset{v})
  }

  function Dropped(k: Kicks, v: nat): (r: Kicks)
    ensures r == k.(trying := r.trying)
  {
    k.(trying := k.trying - multiset{v})
  }

  function OwnerDoes(s: State, a: OwnerStep): State
    requires OwnerCan(s, a)
  {
    match a
    case BeginStart =>
      if s.running then s
      else s.(running := true, stopRequested := false, terminate := false, version := 1, inflight := 0,
              caller := StartCreate, bumps := s.bumps + 1)
    case Create(semOk, timerOk) =>
      if !s.semaphore && !semOk then s.(caller := StartFailed)
      else if !timerOk then s.(semaphore := true, caller := StartFailed)
      else s.(semaphore := true, timer := Idle, caller := StartIncrement)
    case IncrementStart => s.(inflight := s.inflight + 1, caller := StartPush)
    case PushStart(ok) =>
      if ok then s.(queued := s.queued + 1, caller := NoCall)
      else s.(inflight := if s.inflight > 0 then s.inflight - 1 else VERSIONS, caller := StartFailed)
    case BeginReset => s.(caller := ResetOpen(s.caller.StartFailed?))
    case OpenReset =>
      if !s.running then s.(caller := NoCall)
      else
        var closed := s.(running := false, terminate := true, timer := NoTimer);
        if s.inflight > 0 && s.semaphore then closed.(caller := ResetWait)
        else closed.(semaphore := false, caller := NoCall)
    case Take => s.(token := false, semaphore := false, caller := NoCall)
  }

  function KickDoes(s: State, a: KickStep): State
    requires KickCan(s, a)
  {
    match a
    case BeginNotify(clearStop) =>
      if !s.running || s.terminate then s
      else
        s.(stopRequested := s.stopRequested && !clearStop, kicks := s.kicks.(loading := s.kicks.loading + 1))
    case Load =>
      s.(kicks := Loaded(s.kicks.(loading := s.kicks.loading - 1), s.version))
    case TryBump(prev, _) =>
      var others := Dropped(s.kicks, prev);
      if Succeeds(s, a) then
        s.(version := Bumped(prev), bumps := s.bumps + 1, kicks := others.(halting := others.halting + 1))
      else s.(kicks := Loaded(others, s.version))
    case BeginPolite => s.(stopRequested := true, kicks := s.kicks.(testing := s.kicks.testing + 1))
    case TestPolite =>
      var tested := s.kicks.(testing := s.kicks.testing - 1);
      s.(kicks := if s.version > 0 && s.running then tested.(haltingPolitely := tested.haltingPolitely + 1) else tested)
    case HaltTimer(bumped) =>
      var halted := if bumped then s.kicks.(halting := s.kicks.halting - 1)
        else s.kicks.(haltingPolitely := s.kicks.haltingPolitely - 1);
      s.(timer := Stopped(s.timer), kicks := halted.(incrementing := halted.incrementing + 1))
    case IncrementCall =>
      s.(inflight := s.inflight + 1,
         kicks := s.kicks.(incrementing := s.kicks.incrementing - 1, pushing := s.kicks.pushing + 1))
    case PushCall(ok) =>
      var pushed := s.(kicks := s.kicks.(pushing := s.kicks.pushing - 1));
      if ok then pushed.(queued := s.queued + 1) else pushed.(lost := s.lost + 1)
  }

  function LoopDoes(s: State, a: LoopStep): State
    requires LoopCan(s, a)
  {
    match a
    case Dequeue => s.(queued := s.queued - 1, step := Dequeued)
    case Sample => s.(step := Sampled(s.version, s.bumps))
    case Check =>
      s.(step := if s.terminate || s.step.v == 0 then Leaving else Checked(s.step.v, s.step.at))
    case Enter => s.(step := InCallback(s.step.v, s.step.at, s.stopRequested))
    case Return(delay) =>
      var next := if delay && !s.step.stopping then Delaying(s.step.v, s.step.at)
        else Deactivating(s.step.v, s.step.at);
      s.(step := next, served := if s.step.at > s.served then s.step.at else s.served)
    case TestTimer =>
      s.(step := if !s.terminate && !s.timer.NoTimer? then Rearming(s.step.v, s.step.at) else Leaving)
    case DisarmTimer => s.(timer := Stopped(s.timer), step := Starting(s.step.v, s.step.at))
    case ArmTimer => s.(timer := if s.timer.NoTimer? then NoTimer else Armed, step := Leaving)
    case Deactivate => s.(version := if s.version == s.step.v then 0 else s.version, step := Leaving)
    case Leave =>
      s.(inflight := if s.inflight > 0 then s.inflight - 1 else VERSIONS,
         token := s.token || (s.inflight == 1 && s.terminate && s.semaphore), step := NoStep)
  }

  function TimerDoes(s: State, ok: bool): State {
    var fired := s.(timer := Idle, inflight := s.inflight + 1);
    if ok then fired.(queued := s.queued + 1) else fired.(lost := s.lost + 1)
  }

  function Apply(s: State, a: Action): State
    requires Enabled(s, a)
  {
    match a
    case Owner(own) => OwnerDoes(s, own)
    case Kick(kick) => KickDoes(s, kick)
    case Loop(loop) => LoopDoes(s, loop)
    case Fire(ok) => TimerDoes(s, ok)
  }

  // ---- the version is a cycle

  // `version` bumped `k` times from `v`.
  function BumpedBy(v: nat, k: nat): nat
    requires v > 0
  {
    (v - 1 + k) % VERSIONS + 1
  }

  lemma {:induction false} BumpedByIsRepeated(v: nat, k: nat)
    requires 1 <= v <= VERSIONS
    ensures BumpedBy(v, 0) == v && BumpedBy(v, k + 1) == Bumped(BumpedBy(v, k))
  {}

  // A step's version comes round again exactly after a whole number of laps.
  lemma BumpsReturn(v: nat, k: nat)
    requires 1 <= v <= VERSIONS
    ensures BumpedBy(v, k) == v <==> k % VERSIONS == 0
  {}

  // ---- the invariant

  function One(b: bool): nat {
    if b then 1 else 0
  }

  // Steps in the queue or running.
  function Remaining(s: State): nat {
    s.queued + One(!s.step.NoStep?)
  }

  // Calls between their increment and their push.
  function Pushing(s: State): nat {
    s.kicks.pushing + One(s.caller.StartPush?)
  }

  predicate InStart(c: Caller) {
    c.StartCreate? || c.StartIncrement? || c.StartPush? || c.StartFailed?
  }

  // Some call is past its first test.
  predicate InKick(k: Kicks) {
    k != NO_KICKS.(testing := k.testing)
  }

  // Some call is between a bump or a timer stop and the push.
  predicate AboutToPush(s: State) {
    || s.caller.StartCreate? || s.caller.StartIncrement? || s.caller.StartPush?
    || s.kicks.halting > 0 || s.kicks.incrementing > 0 || s.kicks.pushing > 0
  }

  predicate Counted(s: State) {
    s.inflight == Remaining(s) + Pushing(s) + s.lost
  }

  // A start that failed is on its way to, or in, the reset it calls.
  predicate GivenUp(c: Caller) {
    c.StartFailed? || c == ResetOpen(true)
  }

  predicate Joining(s: State) {
    && (s.token ==> s.caller.ResetWait? && s.inflight == 0)
    && (s.caller.ResetWait? ==> s.terminate && !s.running && s.semaphore && (s.inflight > 0 || s.token))
    && (s.running ==> !s.terminate)
    && (!s.running ==> s.timer.NoTimer? && (s.caller.ResetWait? || s.inflight == 0))
    && (InStart(s.caller) || InKick(s.kicks) ==> s.running)
    && (!s.caller.NoCall? ==> s.kicks == NO_KICKS)
    && (InStart(s.caller) ==> Remaining(s) == 0 && s.lost == 0 && !s.timer.Armed?)
    && (GivenUp(s.caller) ==> s.inflight == 0 && !s.timer.Armed?)
    && (s.running && !s.caller.StartCreate? && !GivenUp(s.caller) ==> !s.timer.NoTimer? && s.semaphore)
  }

  predicate Versioned(s: State) {
    && s.version <= VERSIONS
    && s.served <= s.bumps && (s.version == 0 ==> s.served == s.bumps)
    && (HasVersion(s.step) ==>
          && s.step.v <= VERSIONS && s.step.at <= s.bumps < s.step.at + VERSIONS
          && (s.step.v > 0 ==> s.version == BumpedBy(s.step.v, s.bumps - s.step.at))
          && (s.step.v == 0 && s.step.at == s.bumps ==> s.version == 0)
          && (!s.step.Sampled? ==> s.step.v > 0))
    && (s.step.Deactivating? ==> s.served >= s.step.at)
  }

  // A step is queued or about to be.
  predicate Pushed(s: State) {
    s.queued > 0 || AboutToPush(s)
  }

  predicate Owed(s: State) {
    s.running && s.lost == 0 && !GivenUp(s.caller)
  }

  predicate Kept(s: State) {
    Owed(s) ==>
      && (s.step.NoStep? || s.step.Leaving? ==> s.version == 0 || s.timer.Armed? || Pushed(s))
      && (HasVersion(s.step) && s.step.at < s.bumps ==> Pushed(s))
  }

  predicate Inv(s: State) {
    Counted(s) && Joining(s) && Versioned(s) && Kept(s)
  }

  lemma InitialInv(s: State)
    requires Initial(s)
    ensures Inv(s)
  {
    hide Counted, Joining, Versioned, Kept;
    InitialCounted(s);
    InitialJoining(s);
    InitialVersioned(s);
    InitialKept(s);
  }

  lemma InitialCounted(s: State)
    requires Initial(s)
    ensures Counted(s)
  {}

  lemma InitialJoining(s: State)
    requires Initial(s)
    ensures Joining(s)
  {}

  lemma InitialVersioned(s: State)
    requires Initial(s)
    ensures Versioned(s)
  {
    hide BumpedBy;
  }

  lemma InitialKept(s: State)
    requires Initial(s)
    ensures Kept(s)
  {}

  lemma KeepsCounted(s: State, a: Action)
    requires Counted(s) && Joining(s) && Enabled(s, a)
    ensures Counted(Apply(s, a))
  {
    hide Counted, Joining, OwnerDoes, KickDoes, LoopDoes, TimerDoes, OwnerCan, KickCan, LoopCan;
    match a
    case Owner(own) => OwnerCounted(s, own);
    case Kick(kick) => KickCounted(s, kick);
    case Loop(loop) => LoopCounted(s, loop);
    case Fire(ok) => TimerCounted(s, ok);
  }

  lemma OwnerCounted(s: State, a: OwnerStep)
    requires Counted(s) && Joining(s) && OwnerCan(s, a)
    ensures Counted(OwnerDoes(s, a))
  {}

  lemma KickCounted(s: State, a: KickStep)
    requires Counted(s) && KickCan(s, a)
    ensures Counted(KickDoes(s, a))
  {
    hide Bumped, Stopped, Loaded, Dropped, NoWrap;
    match a
    case IncrementCall =>
    case PushCall(_) =>
    case _ =>
  }

  lemma LoopCounted(s: State, a: LoopStep)
    requires Counted(s) && LoopCan(s, a)
    ensures Counted(LoopDoes(s, a))
  {
    hide Stopped;
  }

  lemma TimerCounted(s: State, ok: bool)
    requires Counted(s)
    ensures Counted(TimerDoes(s, ok))
  {}

  lemma KeepsJoining(s: State, a: Action)
    requires Counted(s) && Joining(s) && Enabled(s, a)
    ensures Joining(Apply(s, a))
  {
    hide Counted, Joining, OwnerDoes, KickDoes, LoopDoes, TimerDoes, OwnerCan, KickCan, LoopCan;
    match a
    case Owner(own) => OwnerJoining(s, own);
    case Kick(kick) => KickJoining(s, kick);
    case Loop(loop) => LoopJoining(s, loop);
    case Fire(ok) => TimerJoining(s, ok);
  }

  lemma OwnerJoining(s: State, a: OwnerStep)
    requires Counted(s) && Joining(s) && OwnerCan(s, a)
    ensures Joining(OwnerDoes(s, a))
  {}

  lemma KickJoining(s: State, a: KickStep)
    requires Counted(s) && Joining(s) && KickCan(s, a)
    ensures Joining(KickDoes(s, a))
  {
    hide Bumped, Loaded, Dropped, NoWrap;
  }

  lemma LoopJoining(s: State, a: LoopStep)
    requires Counted(s) && Joining(s) && LoopCan(s, a)
    ensures Joining(LoopDoes(s, a))
  {}

  lemma TimerJoining(s: State, ok: bool)
    requires Counted(s) && Joining(s) && s.timer.Armed?
    ensures Joining(TimerDoes(s, ok))
  {}

  lemma KeepsVersioned(s: State, a: Action)
    requires Counted(s) && Joining(s) && Versioned(s) && Enabled(s, a)
    ensures Versioned(Apply(s, a))
  {
    hide Counted, Joining, Versioned, OwnerDoes, KickDoes, LoopDoes, TimerDoes, OwnerCan, KickCan, LoopCan;
    match a
    case Owner(own) => OwnerVersioned(s, own);
    case Kick(kick) => KickVersioned(s, kick);
    case Loop(loop) => LoopVersioned(s, loop);
    case Fire(ok) => TimerVersioned(s, ok);
  }

  lemma OwnerVersioned(s: State, a: OwnerStep)
    requires Counted(s) && Joining(s) && Versioned(s) && OwnerCan(s, a)
    ensures Versioned(OwnerDoes(s, a))
  {
    hide BumpedBy;
    if a.BeginStart? && !s.running { NoStepToStart(s); }
  }

  lemma KickVersioned(s: State, a: KickStep)
    requires Versioned(s) && KickCan(s, a)
    ensures Versioned(KickDoes(s, a))
  {
    hide BumpedBy, Bumped, Stopped, Loaded, Dropped;
    if Succeeds(s, a) {
      NextVersion(s.version);
      if HasVersion(s.step) && s.step.v > 0 { BumpedByIsRepeated(s.step.v, s.bumps - s.step.at); }
    }
  }

  lemma NextVersion(v: nat)
    ensures v <= VERSIONS ==> 1 <= Bumped(v) <= VERSIONS
  {}

  lemma LoopVersioned(s: State, a: LoopStep)
    requires Versioned(s) && LoopCan(s, a)
    ensures Versioned(LoopDoes(s, a))
  {
    hide BumpedBy, Stopped;
    if a.Sample? && s.version > 0 { BumpedByIsRepeated(s.version, 0); }
    if a.Deactivate? { BumpsReturn(s.step.v, s.bumps - s.step.at); }
  }

  lemma TimerVersioned(s: State, ok: bool)
    requires Versioned(s)
    ensures Versioned(TimerDoes(s, ok))
  {
    hide BumpedBy;
  }

  // Nothing of an earlier run is left when a task starts.
  lemma NoStepToStart(s: State)
    requires Counted(s) && Joining(s) && s.caller.NoCall? && s.kicks == NO_KICKS && !s.running
    ensures Remaining(s) == 0 && s.lost == 0
  {}

  lemma KeepsKept(s: State, a: Action)
    requires Inv(s) && Enabled(s, a)
    ensures Kept(Apply(s, a))
  {
    hide Counted, Joining, Versioned, Kept, OwnerDoes, KickDoes, LoopDoes, TimerDoes, OwnerCan, KickCan, LoopCan;
    match a
    case Owner(own) => OwnerKept(s, own);
    case Kick(kick) => KickKept(s, kick);
    case Loop(loop) => LoopKept(s, loop);
    case Fire(ok) => TimerKept(s, ok);
  }

  lemma OwnerKept(s: State, a: OwnerStep)
    requires Inv(s) && OwnerCan(s, a)
    ensures Kept(OwnerDoes(s, a))
  {
    hide BumpedBy;
  }

  lemma KickKept(s: State, a: KickStep)
    requires Inv(s) && KickCan(s, a)
    ensures Kept(KickDoes(s, a))
  {
    hide Bumped, BumpedBy, Loaded, Dropped;
  }

  lemma LoopKept(s: State, a: LoopStep)
    requires Inv(s) && LoopCan(s, a)
    ensures Kept(LoopDoes(s, a))
  {
    hide BumpedBy;
    if a.Deactivate? { BumpedByIsRepeated(s.step.v, 0); }
  }

  lemma TimerKept(s: State, ok: bool)
    requires Inv(s) && s.timer.Armed?
    ensures Kept(TimerDoes(s, ok))
  {
    hide BumpedBy;
  }

  lemma StepKeepsInv(s: State, a: Action)
    requires Inv(s) && Enabled(s, a)
    ensures Inv(Apply(s, a))
  {
    hide Counted, Joining, Versioned, Kept, Enabled, Apply;
    KeepsCounted(s, a);
    KeepsJoining(s, a);
    KeepsVersioned(s, a);
    KeepsKept(s, a);
  }

  // ---- runs

  predicate Legal(s: State, acts: seq<Action>)
    decreases |acts|
  {
    acts == [] || (Enabled(s, acts[0]) && Legal(Apply(s, acts[0]), acts[1..]))
  }

  function Final(s: State, acts: seq<Action>): State
    requires Legal(s, acts)
    decreases |acts|
  {
    if acts == [] then s else Final(Apply(s, acts[0]), acts[1..])
  }

  lemma {:induction false} RunKeepsInv(s: State, acts: seq<Action>)
    requires Inv(s) && Legal(s, acts)
    ensures Inv(Final(s, acts))
    decreases |acts|
  {
    hide Inv, Enabled, Apply;
    if acts != [] {
      StepKeepsInv(s, acts[0]);
      RunKeepsInv(Apply(s, acts[0]), acts[1..]);
    }
  }

  // ---- no stall

  // An active task has a step queued or running, its timer armed, or a caller on the way to pushing a step.
  predicate Moving(s: State) {
    s.queued > 0 || !s.step.NoStep? || s.timer.Armed? || AboutToPush(s)
  }

  lemma KeptMoves(s: State)
    requires Kept(s) && s.running && s.version != 0 && s.lost == 0 && !GivenUp(s.caller)
    ensures Moving(s)
  {}

  // As long as no push fails, a task that is running and active never stalls.
  lemma NoStall(s: State, acts: seq<Action>)
    requires Initial(s) && Legal(s, acts)
    ensures var t := Final(s, acts);
      t.running && t.version != 0 && t.lost == 0 && !GivenUp(t.caller) ==> Moving(t)
  {
    hide Kept, Counted, Joining, Versioned, Moving, GivenUp;
    InitialInv(s);
    RunKeepsInv(s, acts);
    var t := Final(s, acts);
    if t.running && t.version != 0 && t.lost == 0 && !GivenUp(t.caller) { KeptMoves(t); }
  }

  // ---- teardown

  // The count never falls below the number of steps left, and is exact between pushes if none has failed.
  lemma InflightCounts(s: State, acts: seq<Action>)
    requires Initial(s) && Legal(s, acts)
    ensures var t := Final(s, acts);
      && t.inflight >= Remaining(t)
      && (t.lost == 0 && Pushing(t) == 0 ==> t.inflight == Remaining(t))
  {
    hide Joining, Versioned, Kept;
    InitialInv(s);
    RunKeepsInv(s, acts);
  }

  // A waiting `reset` is still owed a decrement or has its token; one that sees no count or takes the token leaves
  // no step behind.
  predicate JoinSafe(s: State) {
    && (s.caller.ResetWait? ==> s.inflight > 0 || s.token)
    && (s.caller.ResetOpen? && s.inflight == 0 ==> Remaining(s) == 0)
    && (OwnerCan(s, Take) ==> Remaining(s) == 0 && s.timer.NoTimer?)
  }

  lemma CountedJoins(s: State)
    requires Counted(s) && Joining(s)
    ensures JoinSafe(s)
  {}

  lemma ResetJoins(s: State, acts: seq<Action>)
    requires Initial(s) && Legal(s, acts)
    ensures JoinSafe(Final(s, acts))
  {
    hide Counted, Joining, Versioned, Kept, JoinSafe;
    InitialInv(s);
    RunKeepsInv(s, acts);
    CountedJoins(Final(s, acts));
  }

  predicate IsIdleCall(a: Action) {
    match a
    case Owner(own) => own.BeginReset? || own.OpenReset?
    case Kick(kick) => kick.BeginNotify? || kick.BeginPolite? || kick.TestPolite?
    case _ => false
  }

  predicate NoStart(acts: seq<Action>) {
    forall i :: 0 <= i < |acts| ==> acts[i] != Owner(BeginStart)
  }

  predicate AtRest(s: State) {
    !s.running && (s.caller.NoCall? || s.caller.ResetOpen?)
  }

  // Once a `reset` has returned nothing runs any more, no step and no timer, until the next start.
  lemma {:induction false} QuietAfterReset(s: State, acts: seq<Action>)
    requires Inv(s) && AtRest(s) && Legal(s, acts) && NoStart(acts)
    ensures forall i :: 0 <= i < |acts| ==> IsIdleCall(acts[i])
    decreases |acts|
  {
    hide Versioned, Kept, Bumped;
    if acts != [] {
      assert NoStart(acts[1..]) by { assert forall i :: 0 <= i < |acts[1..]| ==> acts[1..][i] == acts[i + 1]; }
      RestStep(s, acts[0]);
      StepKeepsInv(s, acts[0]);
      QuietAfterReset(Apply(s, acts[0]), acts[1..]);
      forall i | 0 <= i < |acts| ensures IsIdleCall(acts[i]) {
        if i > 0 { assert acts[i] == acts[1..][i - 1]; }
      }
    }
  }

  lemma RestStep(s: State, a: Action)
    requires Inv(s) && AtRest(s) && Enabled(s, a) && a != Owner(BeginStart)
    ensures IsIdleCall(a) && AtRest(Apply(s, a))
  {
    hide Versioned, Kept, Bumped;
  }

  // ---- no lost notify

  predicate Returns(a: Action) {
    a.Loop? && a.loop.Return?
  }

  // During the run a callback returns that belongs to a step which sampled the version after bump `n`.
  predicate ServedSince(s: State, acts: seq<Action>, n: nat)
    requires Legal(s, acts)
    decreases |acts|
  {
    acts != [] &&
    ((Returns(acts[0]) && s.step.at >= n) || ServedSince(Apply(s, acts[0]), acts[1..], n))
  }

  lemma OnlyReturnsServe(s: State, a: Action)
    requires Enabled(s, a)
    ensures Apply(s, a).bumps >= s.bumps
    ensures !Returns(a) ==> Apply(s, a).served == s.served
    ensures Returns(a) ==> Apply(s, a).served == if s.step.at > s.served then s.step.at else s.served
  {
    hide OwnerDoes, KickDoes, LoopDoes;
    match a
    case Owner(own) => OwnerServes(s, own);
    case Kick(kick) => KickServes(s, kick);
    case Loop(loop) => LoopServes(s, loop);
    case Fire(_) =>
  }

  lemma OwnerServes(s: State, a: OwnerStep)
    requires OwnerCan(s, a)
    ensures OwnerDoes(s, a).bumps >= s.bumps && OwnerDoes(s, a).served == s.served
  {}

  lemma KickServes(s: State, a: KickStep)
    requires KickCan(s, a)
    ensures KickDoes(s, a).bumps >= s.bumps && KickDoes(s, a).served == s.served
  {
    hide Bumped, Stopped, Loaded, Dropped, NoWrap;
    match a
    case TryBump(_, _) =>
    case _ =>
  }

  lemma LoopServes(s: State, a: LoopStep)
    requires LoopCan(s, a)
    ensures LoopDoes(s, a).bumps == s.bumps
    ensures LoopDoes(s, a).served == if a.Return? && s.step.at > s.served then s.step.at else s.served
  {
    hide Stopped;
  }

  lemma {:induction false} BumpsGrow(s: State, acts: seq<Action>)
    requires Legal(s, acts)
    ensures Final(s, acts).bumps >= s.bumps
    decreases |acts|
  {
    hide Enabled, Apply;
    if acts != [] {
      OnlyReturnsServe(s, acts[0]);
      BumpsGrow(Apply(s, acts[0]), acts[1..]);
    }
  }

  lemma {:induction false} ServedMeansRun(s: State, acts: seq<Action>, n: nat)
    requires Legal(s, acts) && s.served < n <= Final(s, acts).served
    ensures ServedSince(s, acts, n)
    decreases |acts|
  {
    hide Apply;
    assert acts != [];
    OnlyReturnsServe(s, acts[0]);
    if !(Returns(acts[0]) && s.step.at >= n) {
      ServedMeansRun(Apply(s, acts[0]), acts[1..], n);
    }
  }

  // After a bump by `notify` the task does not become inactive until a callback has run in a step that sampled the
  // version after the bump.
  lemma NoLostNotify(s: State, a: Action, acts: seq<Action>)
    requires Inv(s) && Enabled(s, a) && Bumps(s, a) && Legal(Apply(s, a), acts)
    requires Final(Apply(s, a), acts).version == 0
    ensures ServedSince(Apply(s, a), acts, s.bumps + 1)
  {
    var u := Apply(s, a);
    StepKeepsInv(s, a);
    RunKeepsInv(u, acts);
    BumpsGrow(u, acts);
    ServedMeansRun(u, acts, s.bumps + 1);
  }

  // A step that sampled before the latest bump cannot deactivate the task; one that sampled after it always does.
  lemma OnlyLatestDeactivates(s: State)
    requires Inv(s) && s.step.Deactivating?
    ensures LoopDoes(s, Deactivate).version == 0 <==> s.step.at == s.bumps
  {
    hide Counted, Joining, Kept;
    BumpedByIsRepeated(s.step.v, 0);
    BumpsReturn(s.step.v, s.bumps - s.step.at);
  }

  // ---- stopping politely

  // Nobody takes a request to stop back.
  predicate KeepsRequest(a: Action) {
    a != Owner(BeginStart) && a != Kick(BeginNotify(true))
  }

  predicate AllKeepRequest(acts: seq<Action>) {
    forall i :: 0 <= i < |acts| ==> KeepsRequest(acts[i])
  }

  // The state before the `i`-th action.
  function Before(s: State, acts: seq<Action>, i: nat): State
    requires Legal(s, acts) && i <= |acts|
    decreases i
  {
    if i == 0 then s else Before(Apply(s, acts[0]), acts[1..], i - 1)
  }

  // A request stays, and is taken back exactly by a new start or a `notify` that clears it, if they are accepted.
  lemma RequestStays(s: State, a: Action)
    requires Enabled(s, a)
    ensures Apply(s, a).stopRequested ==
      if a == Owner(BeginStart) then s.running && s.stopRequested
      else if a == Kick(BeginNotify(true)) then s.stopRequested && (!s.running || s.terminate)
      else s.stopRequested || a == Kick(BeginPolite)
  {
    hide OwnerDoes, KickDoes, LoopDoes;
    match a
    case Owner(own) => OwnerAndRequest(s, own);
    case Kick(kick) => KickAndRequest(s, kick);
    case Loop(loop) => LoopAndRequest(s, loop);
    case Fire(_) =>
  }

  lemma OwnerAndRequest(s: State, a: OwnerStep)
    requires OwnerCan(s, a)
    ensures OwnerDoes(s, a).stopRequested == (s.stopRequested && (a == BeginStart ==> s.running))
  {}

  lemma KickAndRequest(s: State, a: KickStep)
    requires KickCan(s, a)
    ensures KickDoes(s, a).stopRequested ==
      if a == BeginNotify(true) then s.stopRequested && (!s.running || s.terminate)
      else s.stopRequested || a == BeginPolite
  {
    hide Bumped, Stopped, Loaded, Dropped, NoWrap;
    match a
    case BeginNotify(_) =>
    case BeginPolite =>
    case _ =>
  }

  lemma LoopAndRequest(s: State, a: LoopStep)
    requires LoopCan(s, a)
    ensures LoopDoes(s, a).stopRequested == s.stopRequested
  {
    hide Stopped;
  }

  predicate IsArming(a: Action) {
    a == Loop(TestTimer) || a == Loop(DisarmTimer) || a == Loop(ArmTimer)
  }

  // No step in progress has missed the request.
  predicate Heeded(s: State) {
    && s.stopRequested
    && !s.step.Delaying? && !s.step.Rearming? && !s.step.Starting?
    && (s.step.InCallback? ==> s.step.stopping)
  }

  lemma HeededStays(s: State, a: Action)
    requires Heeded(s) && Enabled(s, a) && KeepsRequest(a)
    ensures Heeded(Apply(s, a)) && !IsArming(a)
  {
    RequestStays(s, a);
    hide OwnerDoes, KickDoes, LoopDoes;
    match a
    case Owner(own) => OwnerKeepsStep(s, own);
    case Kick(kick) => KickKeepsStep(s, kick);
    case Loop(loop) => LoopHeeds(s, loop);
    case Fire(_) =>
  }

  lemma OwnerKeepsStep(s: State, a: OwnerStep)
    requires OwnerCan(s, a)
    ensures OwnerDoes(s, a).step == s.step
  {}

  lemma KickKeepsStep(s: State, a: KickStep)
    requires KickCan(s, a)
    ensures KickDoes(s, a).step == s.step
  {
    hide Bumped, Stopped, Loaded, Dropped, NoWrap;
    match a
    case TryBump(_, _) =>
    case _ =>
  }

  lemma LoopHeeds(s: State, a: LoopStep)
    requires Heeded(s) && LoopCan(s, a)
    ensures var t := LoopDoes(s, a).step;
      && !t.Delaying? && !t.Rearming? && !t.Starting? && (t.InCallback? ==> t.stopping)
      && !IsArming(Loop(a))
  {
    hide Stopped;
  }

  // From a request to stop on, as long as nobody takes it back: no step that enters its callback arms the timer,
  // whatever the callback returns, but each goes on to the compare-exchange that deactivates the task.
  lemma {:induction false} StopIsHeeded(s: State, acts: seq<Action>)
    requires Heeded(s) && Legal(s, acts) && AllKeepRequest(acts)
    ensures forall i :: 0 <= i < |acts| ==> !IsArming(acts[i])
    ensures forall i :: 0 <= i < |acts| && Returns(acts[i]) ==> Before(s, acts, i + 1).step.Deactivating?
    decreases |acts|
  {
    hide Heeded, Apply, Enabled;
    if acts != [] {
      HeededStays(s, acts[0]);
      HeededReturns(s, acts[0]);
      TailKeepsRequest(acts);
      StopIsHeeded(Apply(s, acts[0]), acts[1..]);
      forall i | 0 <= i < |acts|
        ensures !IsArming(acts[i]) && (Returns(acts[i]) ==> Before(s, acts, i + 1).step.Deactivating?)
      {
        assert i > 0 ==> acts[i] == acts[1..][i - 1];
        assert Before(s, acts, i + 1) == Before(Apply(s, acts[0]), acts[1..], i);
      }
    }
  }

  lemma TailKeepsRequest(acts: seq<Action>)
    requires acts != [] && AllKeepRequest(acts)
    ensures KeepsRequest(acts[0]) && AllKeepRequest(acts[1..])
  {
    assert forall i :: 0 <= i < |acts[1..]| ==> acts[1..][i] == acts[i + 1];
  }

  lemma HeededReturns(s: State, a: Action)
    requires Heeded(s) && Enabled(s, a)
    ensures Returns(a) ==> Apply(s, a).step == Deactivating(s.step.v, s.step.at)
  {}

  // A step that enters its callback after the request has seen it.
  lemma EntersHeeding(s: State)
    requires s.stopRequested && Enabled(s, Loop(Enter))
    ensures Heeded(Apply(s, Loop(Enter)))
  {}

  // In particular: the request is made, and a step enters its callback later.
  lemma PoliteStop(s: State, acts: seq<Action>, more: seq<Action>)
    requires Enabled(s, Kick(BeginPolite)) && Legal(Apply(s, Kick(BeginPolite)), acts) && AllKeepRequest(acts)
    requires var u := Final(Apply(s, Kick(BeginPolite)), acts);
      Enabled(u, Loop(Enter)) && Legal(Apply(u, Loop(Enter)), more) && AllKeepRequest(more)
    ensures var u := Final(Apply(s, Kick(BeginPolite)), acts);
      var v := Apply(u, Loop(Enter));
      && (forall i :: 0 <= i < |more| ==> !IsArming(more[i]))
      && (forall i :: 0 <= i < |more| && Returns(more[i]) ==> Before(v, more, i + 1).step.Deactivating?)
  {
    hide Enabled, Apply, Heeded;
    PoliteRequests(s);
    RequestLasts(Apply(s, Kick(BeginPolite)), acts);
    var u := Final(Apply(s, Kick(BeginPolite)), acts);
    EntersHeeding(u);
    StopIsHeeded(Apply(u, Loop(Enter)), more);
  }

  lemma PoliteRequests(s: State)
    requires Enabled(s, Kick(BeginPolite))
    ensures Apply(s, Kick(BeginPolite)).stopRequested
  {}

  lemma {:induction false} RequestLasts(s: State, acts: seq<Action>)
    requires s.stopRequested && Legal(s, acts) && AllKeepRequest(acts)
    ensures Final(s, acts).stopRequested
    decreases |acts|
  {
    hide Enabled, Apply;
    if acts != [] {
      RequestStays(s, acts[0]);
      TailKeepsRequest(acts);
      RequestLasts(Apply(s, acts[0]), acts[1..]);
    }
  }

  // A deactivating step makes the compare-exchange before it does anything else, and that succeeds unless the version
  // has been bumped since the step sampled it.
  lemma DeactivatesNext(s: State, loop: LoopStep)
    requires Inv(s) && s.step.Deactivating? && LoopCan(s, loop)
    ensures loop == Deactivate
    ensures LoopDoes(s, loop).version == 0 <==> s.step.at == s.bumps
    ensures LoopDoes(s, loop).version == 0 || LoopDoes(s, loop).version == s.version
  {
    OnlyLatestDeactivates(s);
  }

  // ---- without a request

  // A step in its callback that has seen no request, or is on its way to arming the timer.
  predicate WillArm(t: Step) {
    (t.InCallback? && !t.stopping) || t.Delaying? || t.Rearming? || t.Starting?
  }

  // While the task is not reset: a step that enters its callback without a request, and whose callback asks for a
  // delay, comes to an end only by arming the timer.
  lemma {:induction false} DelayArms(s: State, acts: seq<Action>)
    requires Inv(s) && Ready(s) && WillArm(s.step) && Legal(s, acts)
    requires forall i :: 0 <= i < |acts| ==> acts[i] != Owner(OpenReset) && acts[i] != Loop(Return(false))
    requires !WillArm(Final(s, acts).step)
    ensures exists i :: 0 <= i < |acts| && acts[i] == Loop(ArmTimer) && Before(s, acts, i + 1).timer.Armed?
    decreases |acts|
  {
    hide Enabled, Apply, Inv, WillArm, Ready;
    assert acts != [];
    var a, t, rest := acts[0], Apply(s, acts[0]), acts[1..];
    ArmingGoesOn(s, a);
    StepKeepsInv(s, a);
    assert Before(s, acts, 1) == Before(t, rest, 0) == t;
    if a == Loop(ArmTimer) {
      assert acts[0] == Loop(ArmTimer) && Before(s, acts, 0 + 1).timer.Armed?;
    } else {
      assert forall i :: 0 <= i < |rest| ==> rest[i] == acts[i + 1];
      DelayArms(t, rest);
      var i :| 0 <= i < |rest| && rest[i] == Loop(ArmTimer) && Before(t, rest, i + 1).timer.Armed?;
      assert acts[i + 1] == Loop(ArmTimer) && Before(s, acts, i + 1 + 1) == Before(t, rest, i + 1);
    }
  }

  // Started, timer and all, and not being reset.
  predicate Ready(s: State) {
    s.running && !s.terminate && !s.timer.NoTimer?
  }

  lemma ArmingGoesOn(s: State, a: Action)
    requires Inv(s) && Ready(s) && WillArm(s.step) && Enabled(s, a)
    requires a != Owner(OpenReset) && a != Loop(Return(false))
    ensures var t := Apply(s, a);
      Ready(t) && if a == Loop(ArmTimer) then t.timer.Armed? else WillArm(t.step)
  {
    hide Counted, Versioned, Kept, OwnerDoes, KickDoes, LoopDoes;
    match a
    case Owner(own) => OwnerStaysReady(s, own);
    case Kick(kick) =>
      KickKeepsStep(s, kick);
      KickStaysReady(s, kick);
    case Loop(loop) => LoopStaysReady(s, loop);
    case Fire(_) =>
  }

  lemma OwnerStaysReady(s: State, a: OwnerStep)
    requires Counted(s) && Joining(s) && Ready(s) && WillArm(s.step) && OwnerCan(s, a) && a != OpenReset
    ensures Ready(OwnerDoes(s, a)) && OwnerDoes(s, a).step == s.step
  {}

  lemma KickStaysReady(s: State, a: KickStep)
    requires Ready(s) && KickCan(s, a)
    ensures Ready(KickDoes(s, a))
  {
    hide Bumped, Loaded, Dropped, NoWrap;
    match a
    case TryBump(_, _) =>
    case _ =>
  }

  lemma LoopStaysReady(s: State, a: LoopStep)
    requires Ready(s) && WillArm(s.step) && LoopCan(s, a) && a != Return(false)
    ensures var t := LoopDoes(s, a);
      Ready(t) && if a == ArmTimer then t.timer.Armed? else WillArm(t.step)
  {}

  lemma EntersUnasked(s: State)
    requires !s.stopRequested && Enabled(s, Loop(Enter))
    ensures WillArm(Apply(s, Loop(Enter)).step)
  {}

  // ---- every kick is followed by a push

  // Calls in the common end of `notify` and `politely_request_stop`.
  function Ending(k: Kicks): nat {
    k.halting + k.haltingPolitely + k.incrementing + k.pushing
  }

  // The action brings a call there: a bump, or a stop asked of a task that is running and active.
  predicate Kicked(s: State, a: Action) {
    Bumps(s, a) || (a == Kick(TestPolite) && s.version > 0 && s.running)
  }

  predicate Pushes(a: Action) {
    a.Kick? && a.kick.PushCall?
  }

  function KickCount(s: State, acts: seq<Action>): nat
    requires Legal(s, acts)
    decreases |acts|
  {
    if acts == [] then 0 else One(Kicked(s, acts[0])) + KickCount(Apply(s, acts[0]), acts[1..])
  }

  function PushCount(acts: seq<Action>): nat {
    if acts == [] then 0 else One(Pushes(acts[0])) + PushCount(acts[1..])
  }

  lemma KickConserves(s: State, a: Action)
    requires Enabled(s, a)
    ensures Ending(s.kicks) + One(Kicked(s, a)) == Ending(Apply(s, a).kicks) + One(Pushes(a))
  {
    hide OwnerDoes, KickDoes, LoopDoes;
    match a
    case Owner(own) => OwnerKeepsKicks(s, own);
    case Kick(kick) => KickMoves(s, kick);
    case Loop(loop) => LoopKeepsKicks(s, loop);
    case Fire(_) =>
  }

  lemma OwnerKeepsKicks(s: State, a: OwnerStep)
    requires OwnerCan(s, a)
    ensures OwnerDoes(s, a).kicks == s.kicks
  {}

  lemma LoopKeepsKicks(s: State, a: LoopStep)
    requires LoopCan(s, a)
    ensures LoopDoes(s, a).kicks == s.kicks
  {
    hide Stopped;
  }

  lemma KickMoves(s: State, a: KickStep)
    requires KickCan(s, a)
    ensures Ending(s.kicks) + One(Kicked(s, Kick(a))) == Ending(KickDoes(s, a).kicks) + One(a.PushCall?)
  {
    hide Bumped, Stopped, Loaded, Dropped, NoWrap;
    match a
    case TryBump(_, _) =>
    case TestPolite =>
    case HaltTimer(_) =>
    case IncrementCall =>
    case PushCall(_) =>
    case _ =>
  }

  // In every run as many calls push a step as have bumped the version or found the task active, but for those still on
  // their way.
  lemma {:induction false} EveryKickPushes(s: State, acts: seq<Action>)
    requires Legal(s, acts)
    ensures Ending(s.kicks) + KickCount(s, acts) == Ending(Final(s, acts).kicks) + PushCount(acts)
    decreases |acts|
  {
    hide Enabled, Apply, Ending, Kicked;
    if acts != [] {
      KickConserves(s, acts[0]);
      EveryKickPushes(Apply(s, acts[0]), acts[1..]);
    }
  }

  // On its way the call has stopped the timer; which fires once.
  lemma TimerStops(s: State, bumped: bool, ok: bool)
    ensures Enabled(s, Kick(HaltTimer(bumped))) ==> !Apply(s, Kick(HaltTimer(bumped))).timer.Armed?
    ensures Enabled(s, Fire(ok)) ==>
      var t := Apply(s, Fire(ok)); !t.timer.Armed? && (ok ==> t.queued == s.queued + 1 && t.inflight == s.inflight + 1)
  {}

  // ---- after a reset has begun

  // Once a `reset` has said so, no further step enters its callback, and the timer does not fire, until the next start.
  lemma {:induction false} TerminateIsHeeded(s: State, acts: seq<Action>)
    requires Inv(s) && s.terminate && !s.step.Checked? && Legal(s, acts) && NoStart(acts)
    ensures forall i :: 0 <= i < |acts| ==> acts[i] != Loop(Enter) && !acts[i].Fire?
    decreases |acts|
  {
    hide Enabled, Apply, Inv;
    if acts != [] {
      TerminateStays(s, acts[0]);
      StepKeepsInv(s, acts[0]);
      assert forall i :: 0 <= i < |acts[1..]| ==> acts[1..][i] == acts[i + 1];
      TerminateIsHeeded(Apply(s, acts[0]), acts[1..]);
      forall i | 0 <= i < |acts| ensures acts[i] != Loop(Enter) && !acts[i].Fire? {
        if i > 0 { assert acts[i] == acts[1..][i - 1]; }
      }
    }
  }

  lemma TerminateStays(s: State, a: Action)
    requires Inv(s) && s.terminate && !s.step.Checked? && Enabled(s, a) && a != Owner(BeginStart)
    ensures var t := Apply(s, a);
      t.terminate && !t.step.Checked? && a != Loop(Enter) && !a.Fire?
  {
    hide Counted, Versioned, Kept, OwnerDoes, KickDoes, LoopDoes;
    match a
    case Owner(own) => OwnerKeepsTerminate(s, own);
    case Kick(kick) => KickKeepsTerminate(s, kick);
    case Loop(loop) => LoopKeepsTerminate(s, loop);
    case Fire(_) =>
  }

  lemma OwnerKeepsTerminate(s: State, a: OwnerStep)
    requires s.terminate && OwnerCan(s, a) && a != BeginStart
    ensures OwnerDoes(s, a).terminate && OwnerDoes(s, a).step == s.step
  {}

  lemma KickKeepsTerminate(s: State, a: KickStep)
    requires KickCan(s, a)
    ensures KickDoes(s, a).terminate == s.terminate && KickDoes(s, a).step == s.step
  {
    hide Bumped, Stopped, Loaded, Dropped, NoWrap;
    match a
    case TryBump(_, _) =>
    case _ =>
  }

  lemma LoopKeepsTerminate(s: State, a: LoopStep)
    requires s.terminate && !s.step.Checked? && LoopCan(s, a)
    ensures LoopDoes(s, a).terminate && !LoopDoes(s, a).step.Checked? && a != Enter
  {
    hide Stopped;
  }

  // A `reset` of a running task does say so.
  lemma ResetTerminates(s: State)
    requires Enabled(s, Owner(OpenReset)) && s.running
    ensures Apply(s, Owner(OpenReset)).terminate && !Apply(s, Owner(OpenReset)).running
  {}
}

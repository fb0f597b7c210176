/**
  The thread protocol of xfs_copy (copy/xfs_copy.c): `write_wbuf` in the main thread and
  `begin_reader` / `do_write` in one thread per target.

  Mutexes are used as binary semaphores: `targ[i].wait` and `mainwait` start out locked and are
  unlocked by the other side.  `glob_masks.mutex` guards the counter `num_working`.  Every shared
  access is its own step, so an increment is a load followed by a store, and any interleaving of
  steps is a run.  I/O may fail at any seek or write; a failed write may leave any part behind.
*/
module CopyProtocol {

  /** The contents of w_buf. */
  datatype Buffer = Buffer(position: int, data: seq<bv8>)

  datatype TargetState = Active | Inactive

  /** What a target thread does next. */
  datatype ThreadPc =
    | AwaitRound                            // lock(wait)
    | Seeking                               // do_write: lseek when position differs
    | Writing(seekFailed: bool)             // do_write: write
    | Locking(failed: bool)                 // lock(glob_masks.mutex)
    | Marking                               // state = INACTIVE
    | Loading(failed: bool)                 // read num_working
    | Storing(failed: bool, loaded: int)    // write num_working, test for zero
    | WakingMain(failed: bool)              // unlock(mainwait)
    | Unlocking(failed: bool)               // unlock(glob_masks.mutex)
    | Exited

  /** What the main thread does next; everything but Filling is inside write_wbuf. */
  datatype MainPc =
    | Filling                               // reading into w_buf between rounds
    | Counting(i: nat)                      // test target[i].state
    | CountLoad(i: nat)                     // num_working++, the load
    | CountStore(i: nat, loaded: int)       // num_working++, the store
    | Releasing(i: nat, bad: nat)           // test target[i].state again
    | Waking(i: nat, bad: nat)              // unlock(targ[i].wait)
    | Blocking(bad: nat)                    // lock(mainwait)
    | Aborted                               // check_errors(); exit(1)

  /**
    target[i] with its thread: `position` is target[i].position, `offset` the kernel's file
    offset of the descriptor, `written` the history of what reached the device and where.
  */
  datatype Target = Target(
    pc: ThreadPc, state: TargetState, waitLocked: bool,
    position: int, offset: int, written: seq<Buffer>)

  datatype Holder = Nobody | HeldBy(thread: nat)

  /** `sent` is the history of buffers main published; `fault` records an unlock of an unlocked mutex. */
  datatype State = State(
    main: MainPc, targets: seq<Target>, mainwaitLocked: bool, guard: Holder,
    working: int, buf: Buffer, sent: seq<Buffer>, fault: bool)

  datatype Step =
    | Fill(contents: Buffer)
    | Main
    | Thread(id: nat, seekOk: bool, landed: nat)

  ghost predicate Init(n: nat, s: State) {
    && s.main == Filling
    && |s.targets| == n
    && s.mainwaitLocked && s.guard == Nobody && s.working == 0 && s.sent == [] && !s.fault
    && forall i :: 0 <= i < n ==>
                     var t := s.targets[i];
                     && t.pc == AwaitRound && t.state == Active && t.waitLocked
                     && t.position == -1 && t.written == []
  }

  predicate Enabled(s: State, step: Step) {
    match step
    case Fill(b) => s.main.Filling? && b.position >= 0
    case Main => MainEnabled(s)
    case Thread(i, _, landed) =>
      && i < |s.targets|
      && match s.targets[i].pc
         case AwaitRound => !s.targets[i].waitLocked
         case Locking(_) => s.guard.Nobody?
         case Writing(_) => landed <= |s.buf.data|
         case Exited => false
         case _ => true
  }

  predicate MainEnabled(s: State) {
    match s.main
    case Filling => s.buf.position >= 0
    case Counting(i) => i <= |s.targets|
    case CountLoad(_) => true
    case CountStore(_, _) => true
    case Releasing(i, _) => i <= |s.targets|
    case Waking(i, _) => i < |s.targets|
    case Blocking(_) => !s.mainwaitLocked
    case Aborted => false
  }

  function Apply(s: State, step: Step): State
    requires Enabled(s, step)
  {
    match step
    case Fill(b) => s.(buf := b)
    case Main => MainStep(s)
    case Thread(i, seekOk, landed) => ThreadStep(s, i, seekOk, landed)
  }

  function MainStep(s: State): State
    requires MainEnabled(s)
  {
    var n := |s.targets|;
    match s.main
    case Filling => s.(main := Counting(0), sent := s.sent + [s.buf])
    case Counting(i) =>
      if i == n then s.(main := Releasing(0, 0))
      else if s.targets[i].state.Active? then s.(main := CountLoad(i))
      else s.(main := Counting(i + 1))
    case CountLoad(i) => s.(main := CountStore(i, s.working))
    case CountStore(i, loaded) => s.(main := Counting(i + 1), working := loaded + 1)
    case Releasing(i, bad) =>
      if i == n then s.(main := if bad == n then Aborted else Blocking(bad))
      else if s.targets[i].state.Active? then s.(main := Waking(i, bad))
      else s.(main := Releasing(i + 1, bad + 1))
    case Waking(i, bad) =>
      s.(main := Releasing(i + 1, bad),
      targets := s.targets[i := s.targets[i].(waitLocked := false)],
      fault := s.fault || !s.targets[i].waitLocked)
    case Blocking(_) => s.(main := Filling, mainwaitLocked := true)
  }

  function ThreadStep(s: State, i: nat, seekOk: bool, landed: nat): State
    requires Enabled(s, Thread(i, seekOk, landed))
  {
    var t := s.targets[i];
    var s' := With(s, i, NextTarget(t, s.buf, s.working, seekOk, landed));
    match t.pc
    case Locking(_) => s'.(guard := HeldBy(i))
    case Storing(_, loaded) => s'.(working := loaded - 1)
    case WakingMain(_) => s'.(mainwaitLocked := false, fault := s.fault || !s.mainwaitLocked)
    case Unlocking(_) => s'.(guard := Nobody, fault := s.fault || s.guard.Nobody?)
    case _ => s'
  }

  /** The part of a thread's step that changes its own target. */
  function NextTarget(t: Target, buf: Buffer, working: int, seekOk: bool, landed: nat): Target
    requires t.pc.Writing? ==> landed <= |buf.data|
  {
    match t.pc
    case AwaitRound => t.(pc := Seeking, waitLocked := true)
    case Seeking =>
      if t.position == buf.position then t.(pc := Writing(false))
      else if seekOk then t.(pc := Writing(false), position := buf.position, offset := buf.position)
      else t.(pc := Writing(true))
    case Writing(seekFailed) =>
      var failed := seekFailed || landed != |buf.data|;
      t.(pc := Locking(failed),
      written := t.written + [Buffer(t.offset, buf.data[..landed])],
      offset := t.offset + landed,
      position := if failed then buf.position else t.position + landed)
    case Locking(failed) => t.(pc := if failed then Marking else Loading(false))
    case Marking => t.(pc := Loading(true), state := Inactive)
    case Loading(failed) => t.(pc := Storing(failed, working))
    case Storing(failed, loaded) =>
      t.(pc := if loaded - 1 == 0 then WakingMain(failed) else Unlocking(failed))
    case WakingMain(failed) => t.(pc := Unlocking(failed))
    case Unlocking(failed) => t.(pc := if failed then Exited else AwaitRound)
    case Exited => t
  }

  function With(s: State, i: nat, t: Target): State
    requires i < |s.targets|
  {
    s.(targets := s.targets[i := t])
  }

  /** A run: any schedule of enabled steps from an initial state with n targets. */
  ghost predicate Run(n: nat, states: seq<State>, steps: seq<Step>) {
    && |states| == |steps| + 1
    && Init(n, states[0])
    && Linked(states, steps)
  }

  ghost predicate Linked(states: seq<State>, steps: seq<Step>)
    requires |states| == |steps| + 1
  {
    forall k :: 0 <= k < |steps| ==>
                  Enabled(states[k], steps[k]) && states[k + 1] == Apply(states[k], steps[k])
  }

  // ---------------------------------------------------------------------------
  // Counting targets
  // ---------------------------------------------------------------------------

  function CountFrom(ts: seq<Target>, from: nat, p: Target -> bool): nat
    requires from <= |ts|
    decreases |ts| - from
  {
    if from == |ts| then 0 else (if p(ts[from]) then 1 else 0) + CountFrom(ts, from + 1, p)
  }

  lemma {:induction false} CountUpdate(ts: seq<Target>, from: nat, k: nat, t: Target, p: Target -> bool)
    requires from <= |ts| && k < |ts|
    ensures CountFrom(ts[k := t], from, p) + (if from <= k && p(ts[k]) then 1 else 0)
         == CountFrom(ts, from, p) + (if from <= k && p(t) then 1 else 0)
    decreases |ts| - from
  {
    if from < |ts| { CountUpdate(ts, from + 1, k, t, p); }
  }

  lemma {:induction false} CountZero(ts: seq<Target>, from: nat, p: Target -> bool)
    requires from <= |ts|
    ensures CountFrom(ts, from, p) == 0 <==> forall j :: from <= j < |ts| ==> !p(ts[j])
    decreases |ts| - from
  {
    if from < |ts| { CountZero(ts, from + 1, p); }
  }

  lemma {:induction false} CountWitness(ts: seq<Target>, from: nat, p: Target -> bool) returns (j: nat)
    requires from <= |ts| && CountFrom(ts, from, p) > 0
    ensures from <= j < |ts| && p(ts[j])
    decreases |ts| - from
  {
    if p(ts[from]) { j := from; } else { j := CountWitness(ts, from + 1, p); }
  }

  // ---------------------------------------------------------------------------
  // The invariant
  // ---------------------------------------------------------------------------

  /** Released for, or still inside, the current round and not yet subtracted from num_working. */
  predicate Pending(t: Target) {
    !t.waitLocked || t.pc.Seeking? || t.pc.Writing? || t.pc.Locking? || t.pc.Marking?
    || t.pc.Loading? || t.pc.Storing?
  }

  predicate IsActive(t: Target) { t.state.Active? }

  predicate IsWaking(t: Target) { t.pc.WakingMain? }

  /** The thread may still read w_buf in this round. */
  predicate UsesBuffer(t: Target) { !t.waitLocked || t.pc.Seeking? || t.pc.Writing? }

  predicate Holds(pc: ThreadPc) {
    pc.Marking? || pc.Loading? || pc.Storing? || pc.WakingMain? || pc.Unlocking?
  }

  predicate Failed(pc: ThreadPc) {
    pc.Marking? || pc.Exited?
    || ((pc.Locking? || pc.Loading? || pc.Storing? || pc.WakingMain? || pc.Unlocking?) && pc.failed)
  }

  predicate Dead(pc: ThreadPc) { Failed(pc) && !pc.Locking? && !pc.Marking? }

  ghost predicate ThreadInv(s: State, i: nat)
    requires i < |s.targets|
  {
    var t := s.targets[i];
    && (t.state.Inactive? <==> Dead(t.pc))
    && (s.guard == HeldBy(i) <==> Holds(t.pc))
    && (!t.waitLocked ==> t.pc == AwaitRound || t.pc == Unlocking(false))
    && (t.pc.Storing? ==> t.pc.loaded == s.working)
    && (t.pc.WakingMain? ==> s.mainwaitLocked)
  }

  ghost predicate NonePending(ts: seq<Target>) {
    forall j :: 0 <= j < |ts| ==> !Pending(ts[j])
  }

  /** Wake-ups of main in flight: mainwait left unlocked, or a thread about to unlock it. */
  function Signals(ts: seq<Target>, mainwaitLocked: bool): nat {
    (if mainwaitLocked then 0 else 1) + CountFrom(ts, 0, IsWaking)
  }

  ghost predicate ReleaseInv(ts: seq<Target>, working: int, mainwaitLocked: bool, i: nat, bad: nat)
    requires i <= |ts|
  {
    && bad <= i
    && (forall j :: i <= j < |ts| ==> !Pending(ts[j]))
    && working == CountFrom(ts, 0, Pending) + CountFrom(ts, i, IsActive)
    && Signals(ts, mainwaitLocked) == (if bad < i && working == 0 then 1 else 0)
    && (bad == i ==> forall j :: 0 <= j < i ==> !Pending(ts[j]) && ts[j].state.Inactive?)
  }

  ghost predicate CountInv(ts: seq<Target>, working: int, mainwaitLocked: bool, i: nat)
    requires i <= |ts|
  {
    && NonePending(ts)
    && Signals(ts, mainwaitLocked) == 0
    && working == CountFrom(ts, 0, IsActive) - CountFrom(ts, i, IsActive)
  }

  ghost predicate PhaseInv(s: State) {
    var n := |s.targets|;
    match s.main
    case Filling => CountInv(s.targets, s.working, s.mainwaitLocked, 0)
    case Counting(i) => i <= n && CountInv(s.targets, s.working, s.mainwaitLocked, i)
    case CountLoad(i) => i < n && s.targets[i].state.Active? && CountInv(s.targets, s.working, s.mainwaitLocked, i)
    case CountStore(i, loaded) =>
      i < n && s.targets[i].state.Active? && CountInv(s.targets, s.working, s.mainwaitLocked, i) && loaded == s.working
    case Releasing(i, bad) => i <= n && ReleaseInv(s.targets, s.working, s.mainwaitLocked, i, bad)
    case Waking(i, bad) =>
      i < n && s.targets[i].state.Active? && ReleaseInv(s.targets, s.working, s.mainwaitLocked, i, bad)
    case Blocking(bad) => bad < n && ReleaseInv(s.targets, s.working, s.mainwaitLocked, n, bad)
    case Aborted => NonePending(s.targets) && forall j :: 0 <= j < n ==> s.targets[j].state.Inactive?
  }

  /** The first target that main has yet to release in the current round. */
  function NextRelease(main: MainPc, n: nat): nat {
    match main
    case Counting(_) => 0
    case CountLoad(_) => 0
    case CountStore(_, _) => 0
    case Releasing(k, _) => k
    case Waking(k, _) => k
    case _ => n
  }

  /** Target i still owes the write of the last published buffer. */
  predicate Due(t: Target, i: nat, next: nat) {
    UsesBuffer(t) || (next <= i && t.state.Active?)
  }

  /** Unless it failed, target i holds every buffer published so far, except one that is still due. */
  ghost predicate Delivered(t: Target, i: nat, next: nat, sent: seq<Buffer>, buf: Buffer) {
    !Failed(t.pc) ==>
      && (Due(t, i, next) ==> sent != [])
      && t.written == (if Due(t, i, next) then sent[..|sent| - 1] else sent)
      && (t.pc == Writing(false) ==> t.offset == buf.position == t.position)
      && (!t.pc.Writing? ==> t.position == -1 || t.position == t.offset)
  }

  ghost predicate DeliveryInv(s: State, i: nat)
    requires i < |s.targets|
  {
    Delivered(s.targets[i], i, NextRelease(s.main, |s.targets|), s.sent, s.buf)
  }

  ghost predicate Inv(s: State) {
    && !s.fault
    && (s.guard.HeldBy? ==> s.guard.thread < |s.targets|)
    && (forall i :: 0 <= i < |s.targets| ==> ThreadInv(s, i))
    && PhaseInv(s)
    && (!s.main.Filling? ==> s.sent != [] && s.buf == s.sent[|s.sent| - 1] && s.buf.position >= 0)
    && (forall i :: 0 <= i < |s.targets| ==> DeliveryInv(s, i))
  }

  lemma {:induction false} InitInv(n: nat, s: State)
    requires Init(n, s)
    ensures Inv(s)
  {
    CountZero(s.targets, 0, IsWaking);
  }

  /** A pending thread exists only while main is releasing threads or blocked. */
  lemma {:induction false} PendingPhase(s: State, i: nat)
    requires PhaseInv(s) && i < |s.targets| && Pending(s.targets[i])
    ensures s.main.Releasing? || s.main.Waking? || s.main.Blocking?
    ensures s.working >= 1 && Signals(s.targets, s.mainwaitLocked) == 0
    ensures (s.main.Releasing? || s.main.Waking?) ==> i < s.main.i
  {
    CountZero(s.targets, 0, Pending);
  }

  lemma {:induction false} WakeKeepsRelease(ts: seq<Target>, working: int, locked: bool, i: nat, bad: nat)
    requires i < |ts| && ts[i].state.Active? && ReleaseInv(ts, working, locked, i, bad)
    ensures ReleaseInv(ts[i := ts[i].(waitLocked := false)], working, locked, i + 1, bad)
  {
    var t := ts[i].(waitLocked := false);
    CountUpdate(ts, 0, i, t, Pending);
    CountUpdate(ts, 0, i, t, IsWaking);
    CountUpdate(ts, i + 1, i, t, IsActive);
  }

  lemma {:induction false} UnblockGivesCount(ts: seq<Target>, working: int, bad: nat)
    requires bad < |ts| && ReleaseInv(ts, working, false, |ts|, bad)
    ensures CountInv(ts, working, true, 0)
  {
    CountZero(ts, 0, Pending);
    CountZero(ts, 0, IsWaking);
  }

  lemma {:induction false} CountAdvances(ts: seq<Target>, working: int, locked: bool, i: nat)
    requires i < |ts| && CountInv(ts, working, locked, i)
    ensures CountInv(ts, working + (if ts[i].state.Active? then 1 else 0), locked, i + 1)
  {
  }

  lemma {:induction false} CountGivesRelease(ts: seq<Target>, working: int, locked: bool)
    requires CountInv(ts, working, locked, |ts|)
    ensures ReleaseInv(ts, working, locked, 0, 0)
  {
    CountZero(ts, 0, Pending);
  }

  lemma {:induction false} SkipKeepsRelease(ts: seq<Target>, working: int, locked: bool, i: nat, bad: nat)
    requires i < |ts| && ts[i].state.Inactive? && ReleaseInv(ts, working, locked, i, bad)
    ensures ReleaseInv(ts, working, locked, i + 1, bad + 1)
  {
    CountZero(ts, 0, Pending);
  }

  lemma {:induction false} CountStepPhase(s: State)
    requires PhaseInv(s) && MainEnabled(s)
    requires s.main.Filling? || s.main.Counting? || s.main.CountLoad? || s.main.CountStore?
    ensures PhaseInv(MainStep(s)) && MainStep(s).fault == s.fault
  {
    var ts, w, locked := s.targets, s.working, s.mainwaitLocked;
    match s.main
    case Counting(i) => if i == |ts| { CountGivesRelease(ts, w, locked); } else { CountAdvances(ts, w, locked, i); }
    case CountStore(i, _) => CountAdvances(ts, w, locked, i);
    case _ =>
  }

  lemma {:induction false} ReleaseStepPhase(s: State)
    requires PhaseInv(s) && MainEnabled(s)
    requires s.main.Releasing? || s.main.Waking? || s.main.Blocking?
    ensures PhaseInv(MainStep(s)) && MainStep(s).fault == s.fault
  {
    var ts, w, locked := s.targets, s.working, s.mainwaitLocked;
    match s.main
    case Releasing(i, bad) => if i < |ts| && ts[i].state.Inactive? { SkipKeepsRelease(ts, w, locked, i, bad); }
    case Waking(i, bad) => WakeKeepsRelease(ts, w, locked, i, bad);
    case Blocking(bad) => UnblockGivesCount(ts, w, bad);
  }

  lemma {:induction false} MainKeepsThreadInv(s: State, j: nat)
    requires PhaseInv(s) && MainEnabled(s) && j < |s.targets| && ThreadInv(s, j)
    ensures ThreadInv(MainStep(s), j)
  {
    if Pending(s.targets[j]) { PendingPhase(s, j); }
    if s.main.Waking? { CountZero(s.targets, 0, IsWaking); }
  }

  /** Who owes the current buffer only changes when main publishes a new one. */
  lemma {:induction false} MainKeepsDue(s: State, j: nat)
    requires PhaseInv(s) && MainEnabled(s) && j < |s.targets| && !s.main.Filling?
    ensures var s' := MainStep(s);
            && s'.sent == s.sent && s'.buf == s.buf && |s'.targets| == |s.targets|
            && s'.targets[j] in {s.targets[j], s.targets[j].(waitLocked := false)}
            && Due(s'.targets[j], j, NextRelease(s'.main, |s.targets|))
               == Due(s.targets[j], j, NextRelease(s.main, |s.targets|))
  {
    if Pending(s.targets[j]) { PendingPhase(s, j); }
  }

  lemma {:induction false} PublishMakesDue(s: State, j: nat)
    requires PhaseInv(s) && MainEnabled(s) && j < |s.targets| && s.main.Filling?
    requires ThreadInv(s, j) && DeliveryInv(s, j)
    ensures DeliveryInv(MainStep(s), j)
  {
    assert MainStep(s).sent[..|s.sent|] == s.sent;
  }

  lemma {:induction false} MainKeepsInv(s: State)
    requires Inv(s) && MainEnabled(s)
    ensures Inv(MainStep(s))
  {
    if s.main.Releasing? || s.main.Waking? || s.main.Blocking? { ReleaseStepPhase(s); } else { CountStepPhase(s); }
    forall j | 0 <= j < |s.targets|
      ensures ThreadInv(MainStep(s), j) && DeliveryInv(MainStep(s), j)
    {
      MainKeepsTarget(s, j);
    }
  }

  lemma {:induction false} MainKeepsTarget(s: State, j: nat)
    requires Inv(s) && MainEnabled(s) && j < |s.targets|
    ensures |MainStep(s).targets| == |s.targets| && ThreadInv(MainStep(s), j) && DeliveryInv(MainStep(s), j)
  {
    assert ThreadInv(s, j) && DeliveryInv(s, j);
    MainKeepsThreadInv(s, j);
    if s.main.Filling? { PublishMakesDue(s, j); } else { MainKeepsDue(s, j); }
  }

  /** What a step of thread i leaves alone. */
  lemma {:induction false} ThreadFrame(s: State, i: nat, seekOk: bool, landed: nat)
    requires Enabled(s, Thread(i, seekOk, landed))
    ensures var s' := ThreadStep(s, i, seekOk, landed);
            && s'.main == s.main && s'.sent == s.sent && s'.buf == s.buf
            && |s'.targets| == |s.targets| && s'.targets == s.targets[i := s'.targets[i]]
            && (s'.guard == s.guard || s'.guard == Nobody || s'.guard == HeldBy(i))
            && (s.targets[i].pc.Locking? ==> s.guard == Nobody && s'.guard == HeldBy(i))
            && (!Holds(s.targets[i].pc) && !s.targets[i].pc.Locking? ==> s'.guard == s.guard)
            && (!Holds(s.targets[i].pc) ==> s'.working == s.working && s'.mainwaitLocked == s.mainwaitLocked)
  {
  }

  /** While main counts, the only steps left are the last unlocks of the previous round. */
  lemma {:induction false} ThreadKeepsCount(s: State, i: nat, seekOk: bool, landed: nat, k: nat)
    requires Enabled(s, Thread(i, seekOk, landed)) && ThreadInv(s, i)
    requires k <= |s.targets| && CountInv(s.targets, s.working, s.mainwaitLocked, k)
    ensures s.targets[i].pc.Unlocking?
    ensures var s' := ThreadStep(s, i, seekOk, landed);
            |s'.targets| == |s.targets| && CountInv(s'.targets, s'.working, s'.mainwaitLocked, k)
  {
    CountZero(s.targets, 0, IsWaking);
    var t' := ThreadStep(s, i, seekOk, landed).targets[i];
    CountUpdate(s.targets, 0, i, t', IsWaking);
    CountUpdate(s.targets, 0, i, t', IsActive);
    CountUpdate(s.targets, k, i, t', IsActive);
  }

  /** The counting part of a thread step, for a target that changes from ts[i] to t'. */
  lemma {:induction false} CountsAfter(ts: seq<Target>, w: int, locked: bool, i: nat, t': Target, w': int,
                                       locked': bool, k: nat, bad: nat)
    requires i < |ts| && k <= |ts| && ReleaseInv(ts, w, locked, k, bad)
    requires w' - w == (if Pending(t') then 1 else 0) - (if Pending(ts[i]) then 1 else 0)
    requires Pending(t') ==> Pending(ts[i])
    requires Pending(ts[i]) && !Pending(t') ==>
               locked' == locked && (IsWaking(t') <==> w' == 0) && !IsWaking(ts[i])
    requires Pending(ts[i]) == Pending(t') ==>
               (if locked' then 0 else 1) + (if IsWaking(t') then 1 else 0)
               == (if locked then 0 else 1) + (if IsWaking(ts[i]) then 1 else 0)
    requires Pending(ts[i]) || t'.state == ts[i].state
    ensures ReleaseInv(ts[i := t'], w', locked', k, bad)
  {
    CountZero(ts, 0, Pending);
    CountUpdate(ts, 0, i, t', Pending);
    CountUpdate(ts, 0, i, t', IsWaking);
    CountUpdate(ts, k, i, t', IsActive);
  }

  lemma {:induction false} ThreadKeepsRelease(s: State, i: nat, seekOk: bool, landed: nat, k: nat, bad: nat)
    requires Enabled(s, Thread(i, seekOk, landed)) && ThreadInv(s, i)
    requires k <= |s.targets| && ReleaseInv(s.targets, s.working, s.mainwaitLocked, k, bad)
    ensures var s' := ThreadStep(s, i, seekOk, landed);
            |s'.targets| == |s.targets| && ReleaseInv(s'.targets, s'.working, s'.mainwaitLocked, k, bad)
  {
    ThreadFrame(s, i, seekOk, landed);
    var s' := ThreadStep(s, i, seekOk, landed);
    CountsAfter(s.targets, s.working, s.mainwaitLocked, i, s'.targets[i], s'.working, s'.mainwaitLocked, k, bad);
  }

  lemma {:induction false} ThreadKeepsPhase(s: State, i: nat, seekOk: bool, landed: nat)
    requires PhaseInv(s) && Enabled(s, Thread(i, seekOk, landed)) && ThreadInv(s, i)
    ensures PhaseInv(ThreadStep(s, i, seekOk, landed))
  {
    ThreadFrame(s, i, seekOk, landed);
    if s.main.Releasing? || s.main.Waking? || s.main.Blocking? {
      ThreadKeepsReleasing(s, i, seekOk, landed);
    } else if !s.main.Aborted? {
      ThreadKeepsCounting(s, i, seekOk, landed);
    }
  }

  lemma {:induction false} ThreadKeepsCounting(s: State, i: nat, seekOk: bool, landed: nat)
    requires PhaseInv(s) && Enabled(s, Thread(i, seekOk, landed)) && ThreadInv(s, i)
    requires s.main.Filling? || s.main.Counting? || s.main.CountLoad? || s.main.CountStore?
    ensures PhaseInv(ThreadStep(s, i, seekOk, landed))
  {
    ThreadFrame(s, i, seekOk, landed);
    match s.main
    case Filling => ThreadKeepsCount(s, i, seekOk, landed, 0);
    case Counting(k) => ThreadKeepsCount(s, i, seekOk, landed, k);
    case CountLoad(k) => ThreadKeepsCount(s, i, seekOk, landed, k);
    case CountStore(k, _) => ThreadKeepsCount(s, i, seekOk, landed, k);
  }

  lemma {:induction false} ThreadKeepsReleasing(s: State, i: nat, seekOk: bool, landed: nat)
    requires PhaseInv(s) && Enabled(s, Thread(i, seekOk, landed)) && ThreadInv(s, i)
    requires s.main.Releasing? || s.main.Waking? || s.main.Blocking?
    ensures PhaseInv(ThreadStep(s, i, seekOk, landed))
  {
    ThreadFrame(s, i, seekOk, landed);
    match s.main
    case Releasing(k, bad) => ThreadKeepsRelease(s, i, seekOk, landed, k, bad);
    case Waking(k, bad) => ThreadKeepsRelease(s, i, seekOk, landed, k, bad);
    case Blocking(bad) => ThreadKeepsRelease(s, i, seekOk, landed, |s.targets|, bad);
  }

  lemma {:induction false} NextTargetDelivered(t: Target, i: nat, next: nat, sent: seq<Buffer>, buf: Buffer,
                            working: int, seekOk: bool, landed: nat)
    requires t.pc.Writing? ==> landed <= |buf.data|
    requires t.pc == AwaitRound ==> !t.waitLocked
    requires !t.waitLocked ==> t.pc == AwaitRound || t.pc == Unlocking(false)
    requires UsesBuffer(t) ==> i < next && sent != [] && buf == sent[|sent| - 1] && buf.position >= 0
    requires t.state.Inactive? <==> Dead(t.pc)
    requires Delivered(t, i, next, sent, buf)
    ensures Delivered(NextTarget(t, buf, working, seekOk, landed), i, next, sent, buf)
  {
    if t.pc == Writing(false) && landed == |buf.data| {
      assert buf.data[..landed] == buf.data;
      assert sent == sent[..|sent| - 1] + [buf];
    }
  }

  lemma {:induction false} ThreadKeepsThreadInv(s: State, i: nat, seekOk: bool, landed: nat)
    requires PhaseInv(s) && !s.fault && Enabled(s, Thread(i, seekOk, landed)) && ThreadInv(s, i)
    ensures ThreadInv(ThreadStep(s, i, seekOk, landed), i)
    ensures !ThreadStep(s, i, seekOk, landed).fault
  {
    if Pending(s.targets[i]) { PendingPhase(s, i); }
  }

  lemma {:induction false} ThreadKeepsDelivery(s: State, i: nat, seekOk: bool, landed: nat)
    requires PhaseInv(s) && Enabled(s, Thread(i, seekOk, landed))
    requires !s.main.Filling? ==> s.sent != [] && s.buf == s.sent[|s.sent| - 1] && s.buf.position >= 0
    requires ThreadInv(s, i) && DeliveryInv(s, i)
    ensures DeliveryInv(ThreadStep(s, i, seekOk, landed), i)
  {
    if Pending(s.targets[i]) { PendingPhase(s, i); }
    NextTargetDelivered(s.targets[i], i, NextRelease(s.main, |s.targets|), s.sent, s.buf, s.working, seekOk, landed);
  }

  lemma {:induction false} OtherKeeps(s: State, s': State, i: nat, j: nat)
    requires i < |s.targets| && j < |s.targets| && i != j
    requires s'.main == s.main && s'.sent == s.sent && s'.buf == s.buf
    requires |s'.targets| == |s.targets| && s'.targets[j] == s.targets[j]
    requires s'.guard == s.guard
          || ((s'.guard == Nobody || s'.guard == HeldBy(i)) && (s.guard == Nobody || s.guard == HeldBy(i)))
    requires s.guard == HeldBy(i) || (s'.working == s.working && s'.mainwaitLocked == s.mainwaitLocked)
    requires ThreadInv(s, j) && DeliveryInv(s, j)
    ensures ThreadInv(s', j) && DeliveryInv(s', j)
  {
  }

  lemma {:induction false} ThreadKeepsInv(s: State, i: nat, seekOk: bool, landed: nat)
    requires Inv(s) && Enabled(s, Thread(i, seekOk, landed))
    ensures Inv(ThreadStep(s, i, seekOk, landed))
  {
    var s' := ThreadStep(s, i, seekOk, landed);
    assert ThreadInv(s, i) && DeliveryInv(s, i);
    ThreadFrame(s, i, seekOk, landed);
    ThreadKeepsPhase(s, i, seekOk, landed);
    ThreadKeepsThreadInv(s, i, seekOk, landed);
    ThreadKeepsDelivery(s, i, seekOk, landed);
    forall j | 0 <= j < |s.targets|
      ensures ThreadInv(s', j) && DeliveryInv(s', j)
    {
      if j != i {
        assert ThreadInv(s, j) && DeliveryInv(s, j);
        OtherKeeps(s, s', i, j);
      }
    }
  }

  lemma {:induction false} StepKeepsInv(s: State, step: Step)
    requires Inv(s) && Enabled(s, step)
    ensures Inv(Apply(s, step))
  {
    match step
    case Fill(_) =>
      forall j | 0 <= j < |s.targets|
        ensures ThreadInv(Apply(s, step), j) && DeliveryInv(Apply(s, step), j)
      {
        assert ThreadInv(s, j) && DeliveryInv(s, j);
      }
    case Main => MainKeepsInv(s);
    case Thread(i, seekOk, landed) => ThreadKeepsInv(s, i, seekOk, landed);
  }

  lemma {:induction false} RunInv(n: nat, states: seq<State>, steps: seq<Step>, k: nat)
    requires Run(n, states, steps) && k < |states|
    ensures Inv(states[k]) && |states[k].targets| == n
  {
    if k == 0 {
      InitInv(n, states[0]);
    } else {
      RunInv(n, states, steps, k - 1);
      StepKeepsInv(states[k - 1], steps[k - 1]);
    }
  }

  // ---------------------------------------------------------------------------
  // What every run guarantees
  // ---------------------------------------------------------------------------

  /** No mutex is ever unlocked while it is unlocked, whatever the interleaving. */
  lemma {:induction false} NoUnlockFault(n: nat, states: seq<State>, steps: seq<Step>, k: nat)
    requires Run(n, states, steps) && k < |states|
    ensures !states[k].fault
  {
    RunInv(n, states, steps, k);
  }

  /** While main waits, num_working is the number of threads that have not finished the round. */
  lemma {:induction false} WorkingCountsPending(n: nat, states: seq<State>, steps: seq<Step>, k: nat)
    requires Run(n, states, steps) && k < |states| && states[k].main.Blocking?
    ensures states[k].working == CountFrom(states[k].targets, 0, Pending)
  {
    RunInv(n, states, steps, k);
  }

  /** Main gets past mainwait only when nobody uses w_buf and nobody is left to count down. */
  lemma {:induction false} MainResumesQuiet(n: nat, states: seq<State>, steps: seq<Step>, k: nat)
    requires Run(n, states, steps) && k < |steps|
    requires states[k].main.Blocking? && steps[k] == Main
    ensures states[k].working == 0 && |states[k].targets| == n
    ensures forall i :: 0 <= i < n ==> !Pending(states[k].targets[i]) && !UsesBuffer(states[k].targets[i])
  {
    RunInv(n, states, steps, k);
    CountZero(states[k].targets, 0, Pending);
  }

  /** Main gives up only when every target has failed. */
  lemma {:induction false} AbortsOnlyWhenAllFailed(n: nat, states: seq<State>, steps: seq<Step>, k: nat)
    requires Run(n, states, steps) && k < |states| && states[k].main.Aborted?
    ensures |states[k].targets| == n
    ensures forall i :: 0 <= i < n ==> states[k].targets[i].state.Inactive?
  {
    RunInv(n, states, steps, k);
  }

  /** The buffers main handed to the targets in the first k steps. */
  ghost function Published(states: seq<State>, steps: seq<Step>, k: nat): seq<Buffer>
    requires |states| == |steps| + 1 && k <= |steps|
  {
    if k == 0 then []
    else
      Published(states, steps, k - 1)
      + (if steps[k - 1] == Main && states[k - 1].main.Filling? then [states[k - 1].buf] else [])
  }

  lemma {:induction false} SentIsPublished(n: nat, states: seq<State>, steps: seq<Step>, k: nat)
    requires Run(n, states, steps) && k <= |steps|
    ensures states[k].sent == Published(states, steps, k)
  {
    if k > 0 {
      SentIsPublished(n, states, steps, k - 1);
      if steps[k - 1].Thread? {
        ThreadFrame(states[k - 1], steps[k - 1].id, steps[k - 1].seekOk, steps[k - 1].landed);
      }
    }
  }

  /**
    Between rounds every target that is still ACTIVE has received exactly main's buffers, each at its
    own position and in order, whichever other targets failed and when.
  */
  lemma {:induction false} ActiveTargetsHaveEverything(n: nat, states: seq<State>, steps: seq<Step>, k: nat, i: nat)
    requires Run(n, states, steps) && k < |states| && i < n
    ensures |states[k].targets| == n
    ensures states[k].main.Filling? && states[k].targets[i].state.Active? ==>
              states[k].targets[i].written == Published(states, steps, k)
  {
    RunInv(n, states, steps, k);
    SentIsPublished(n, states, steps, k);
    assert ThreadInv(states[k], i) && DeliveryInv(states[k], i);
  }

  /** In mid-round a target that has not failed is at most the current buffer behind. */
  lemma {:induction false} AtMostOneBehind(n: nat, states: seq<State>, steps: seq<Step>, k: nat, i: nat)
    requires Run(n, states, steps) && k < |states| && i < n
    ensures |states[k].targets| == n
    ensures var t, sent := states[k].targets[i], Published(states, steps, k);
            !Failed(t.pc) ==>
              t.written == sent || (sent != [] && t.written == sent[..|sent| - 1] && !states[k].main.Filling?)
  {
    RunInv(n, states, steps, k);
    SentIsPublished(n, states, steps, k);
    assert DeliveryInv(states[k], i);
  }

  // ---------------------------------------------------------------------------
  // Which targets fail
  // ---------------------------------------------------------------------------

  /** The step is a seek or a write of thread i that fails: the seek is refused, or not all of the buffer lands. */
  predicate IoFails(s: State, step: Step, i: nat) {
    && step.Thread? && step.id == i && i < |s.targets|
    && var t := s.targets[i];
       || (t.pc.Seeking? && t.position != s.buf.position && !step.seekOk)
       || (t.pc.Writing? && step.landed < |s.buf.data|)
  }

  /** Some I/O of target i failed in the first k steps. */
  ghost predicate IoFailed(states: seq<State>, steps: seq<Step>, k: nat, i: nat)
    requires |states| == |steps| + 1 && k <= |steps|
  {
    exists m :: 0 <= m < k && IoFails(states[m], steps[m], i)
  }

  /** The thread is on its way out, or out. */
  predicate Doomed(pc: ThreadPc) { Failed(pc) || pc == Writing(true) }

  lemma {:induction false} DoomedStep(s: State, step: Step, i: nat)
    requires Enabled(s, step) && i < |s.targets|
    ensures |Apply(s, step).targets| == |s.targets|
    ensures Doomed(Apply(s, step).targets[i].pc) <==> Doomed(s.targets[i].pc) || IoFails(s, step, i)
  {
    if step.Thread? {
      ThreadFrame(s, step.id, step.seekOk, step.landed);
      DoomedThread(s.targets[step.id], s.buf, s.working, step.seekOk, step.landed);
    }
  }

  lemma {:induction false} DoomedThread(t: Target, buf: Buffer, working: int, seekOk: bool, landed: nat)
    requires t.pc.Writing? ==> landed <= |buf.data|
    ensures Doomed(NextTarget(t, buf, working, seekOk, landed).pc)
       <==> Doomed(t.pc)
            || (t.pc.Seeking? && t.position != buf.position && !seekOk) || (t.pc.Writing? && landed < |buf.data|)
  {
  }

  /** A thread is doomed exactly when some I/O of its own has failed. */
  lemma {:induction false} DoomedByIo(n: nat, states: seq<State>, steps: seq<Step>, k: nat, i: nat)
    requires Run(n, states, steps) && k < |states| && i < n
    ensures |states[k].targets| == n && (Doomed(states[k].targets[i].pc) <==> IoFailed(states, steps, k, i))
  {
    if k > 0 {
      DoomedByIo(n, states, steps, k - 1, i);
      DoomedStep(states[k - 1], steps[k - 1], i);
      if IoFailed(states, steps, k - 1, i) {
        var m :| 0 <= m < k - 1 && IoFails(states[m], steps[m], i);
        assert 0 <= m < k;
      }
    }
  }

  /**
    A target goes INACTIVE only because a seek or a write of its own failed; between rounds it is so
    exactly if one did, whatever the other targets do.
  */
  lemma {:induction false} InactiveMeansFailedIo(n: nat, states: seq<State>, steps: seq<Step>, k: nat, i: nat)
    requires Run(n, states, steps) && k < |states| && i < n
    ensures |states[k].targets| == n
    ensures states[k].targets[i].state.Inactive? ==> IoFailed(states, steps, k, i)
    ensures states[k].main.Filling? ==> (states[k].targets[i].state.Inactive? <==> IoFailed(states, steps, k, i))
  {
    RunInv(n, states, steps, k);
    DoomedByIo(n, states, steps, k, i);
    assert ThreadInv(states[k], i);
  }

  /** Main gives up only when some I/O of every target has failed. */
  lemma {:induction false} AbortMeansFailedIo(n: nat, states: seq<State>, steps: seq<Step>, k: nat, i: nat)
    requires Run(n, states, steps) && k < |states| && states[k].main.Aborted? && i < n
    ensures IoFailed(states, steps, k, i)
  {
    AbortsOnlyWhenAllFailed(n, states, steps, k);
    InactiveMeansFailedIo(n, states, steps, k, i);
  }

  /**
    Without failed I/O every target stays ACTIVE, main never gives up, and between rounds every target
    has received everything.
  */
  lemma {:induction false} NoFailureNoLoss(n: nat, states: seq<State>, steps: seq<Step>, k: nat, i: nat)
    requires Run(n, states, steps) && k < |states| && i < n && !IoFailed(states, steps, k, i)
    ensures |states[k].targets| == n && states[k].targets[i].state.Active? && !states[k].main.Aborted?
    ensures states[k].main.Filling? ==> states[k].targets[i].written == Published(states, steps, k)
  {
    InactiveMeansFailedIo(n, states, steps, k, i);
    ActiveTargetsHaveEverything(n, states, steps, k, i);
    if states[k].main.Aborted? { AbortMeansFailedIo(n, states, steps, k, i); }
  }

  // ---------------------------------------------------------------------------
  // Data races
  // ---------------------------------------------------------------------------

  /** The unlocked shared variables. */
  datatype Shared = WBuf | NumWorking | StateOf(target: nat)

  function MainReads(s: State): set<Shared> {
    match s.main
    case Counting(i) => if i < |s.targets| then {StateOf(i)} else {}
    case CountLoad(_) => {NumWorking}
    case Releasing(i, _) => if i < |s.targets| then {StateOf(i)} else {}
    case Aborted => set i | 0 <= i < |s.targets| :: StateOf(i)
    case _ => {}
  }

  function MainWrites(s: State): set<Shared> {
    match s.main
    case Filling => {WBuf}
    case CountStore(_, _) => {NumWorking}
    case _ => {}
  }

  function ThreadReads(t: Target): set<Shared> {
    match t.pc
    case Seeking => {WBuf}
    case Writing(_) => {WBuf}
    case Loading(_) => {NumWorking}
    case _ => {}
  }

  function ThreadWrites(t: Target, i: nat): set<Shared> {
    match t.pc
    case Marking => {StateOf(i)}
    case Storing(_, _) => {NumWorking}
    case _ => {}
  }

  /** The variable has the same value in both states. */
  predicate SameOn(s: State, s': State, x: Shared) {
    match x
    case WBuf => s.buf == s'.buf
    case NumWorking => s.working == s'.working
    case StateOf(i) => i < |s.targets| && i < |s'.targets| ==> s.targets[i].state == s'.targets[i].state
  }

  /** What main does next depends on the variables it reads alone, and changes those alone that it writes. */
  lemma {:induction false} MainFootprint(s: State, s2: State)
    requires MainEnabled(s) && MainEnabled(s2) && s.main == s2.main && |s.targets| == |s2.targets|
    requires forall x :: x in MainReads(s) ==> SameOn(s, s2, x)
    ensures MainStep(s).main == MainStep(s2).main
    ensures forall x :: x in MainWrites(s) && x != WBuf ==> SameOn(MainStep(s), MainStep(s2), x)
    ensures forall x :: x !in MainWrites(s) ==> SameOn(s, MainStep(s), x)
  {
    if (s.main.Counting? || s.main.Releasing?) && s.main.i < |s.targets| { assert StateOf(s.main.i) in MainReads(s); }
    if s.main.CountLoad? { assert NumWorking in MainReads(s); }
  }

  /** The same of a thread, whose position, file offset and history are its own. */
  lemma {:induction false} ThreadFootprint(s: State, s2: State, i: nat, seekOk: bool, landed: nat)
    requires Enabled(s, Thread(i, seekOk, landed)) && Enabled(s2, Thread(i, seekOk, landed))
    requires s.targets[i] == s2.targets[i] && forall x :: x in ThreadReads(s.targets[i]) ==> SameOn(s, s2, x)
    ensures var t, t2 := ThreadStep(s, i, seekOk, landed), ThreadStep(s2, i, seekOk, landed);
            && t.targets[i] == t2.targets[i]
            && (forall x :: x in ThreadWrites(s.targets[i], i) ==> SameOn(t, t2, x))
            && (forall x :: x !in ThreadWrites(s.targets[i], i) ==> SameOn(s, t, x))
  {
    ThreadDepends(s, s2, i, seekOk, landed);
    ThreadChanges(s, i, seekOk, landed);
  }

  lemma {:induction false} NextTargetDepends(t: Target, buf: Buffer, buf2: Buffer, working: int, working2: int,
                                             seekOk: bool, landed: nat)
    requires t.pc.Writing? ==> landed <= |buf.data|
    requires (t.pc.Loading? ==> working == working2) && (t.pc.Seeking? || t.pc.Writing? ==> buf == buf2)
    ensures NextTarget(t, buf, working, seekOk, landed) == NextTarget(t, buf2, working2, seekOk, landed)
  {
  }

  lemma {:induction false} StepTarget(s: State, i: nat, seekOk: bool, landed: nat)
    requires Enabled(s, Thread(i, seekOk, landed))
    ensures var t, s' := s.targets[i], ThreadStep(s, i, seekOk, landed);
            && s'.targets[i] == NextTarget(t, s.buf, s.working, seekOk, landed)
            && (t.pc.Storing? ==> s'.working == t.pc.loaded - 1)
  {
  }

  lemma {:induction false} ThreadDepends(s: State, s2: State, i: nat, seekOk: bool, landed: nat)
    requires Enabled(s, Thread(i, seekOk, landed)) && Enabled(s2, Thread(i, seekOk, landed))
    requires s.targets[i] == s2.targets[i] && forall x :: x in ThreadReads(s.targets[i]) ==> SameOn(s, s2, x)
    ensures var t, t2 := ThreadStep(s, i, seekOk, landed), ThreadStep(s2, i, seekOk, landed);
            t.targets[i] == t2.targets[i] && (s.targets[i].pc.Storing? ==> t.working == t2.working)
  {
    var t := s.targets[i];
    if t.pc.Loading? { assert NumWorking in ThreadReads(t); }
    if t.pc.Seeking? || t.pc.Writing? { assert WBuf in ThreadReads(t); }
    NextTargetDepends(t, s.buf, s2.buf, s.working, s2.working, seekOk, landed);
    StepTarget(s, i, seekOk, landed);
    StepTarget(s2, i, seekOk, landed);
  }

  lemma {:induction false} ThreadChanges(s: State, i: nat, seekOk: bool, landed: nat)
    requires Enabled(s, Thread(i, seekOk, landed))
    ensures forall x :: x !in ThreadWrites(s.targets[i], i) ==> SameOn(s, ThreadStep(s, i, seekOk, landed), x)
  {
    forall x | x !in ThreadWrites(s.targets[i], i)
      ensures SameOn(s, ThreadStep(s, i, seekOk, landed), x)
    {
      if x == StateOf(i) { assert !s.targets[i].pc.Marking?; }
    }
  }

  /** No two threads are ever about to touch the same variable with one of them writing it. */
  lemma {:induction false} NoDataRace(n: nat, states: seq<State>, steps: seq<Step>, k: nat, i: nat, j: nat)
    requires Run(n, states, steps) && k < |states| && i < n && j < n && i != j
    ensures |states[k].targets| == n
    ensures var s := states[k];
            var t, u := s.targets[i], s.targets[j];
            && MainWrites(s) !! (ThreadReads(t) + ThreadWrites(t, i))
            && MainReads(s) !! ThreadWrites(t, i)
            && ThreadWrites(t, i) !! (ThreadReads(u) + ThreadWrites(u, j))
  {
    RunInv(n, states, steps, k);
    var s := states[k];
    assert ThreadInv(s, i) && ThreadInv(s, j);
    if Pending(s.targets[i]) { PendingPhase(s, i); }
  }

  // ---------------------------------------------------------------------------
  // Progress
  // ---------------------------------------------------------------------------

  function PcWeight(pc: ThreadPc): nat {
    match pc
    case AwaitRound => 0
    case Exited => 0
    case Unlocking(_) => 1
    case WakingMain(_) => 2
    case Storing(_, _) => 3
    case Loading(_) => 4
    case Marking => 5
    case Locking(_) => 6
    case Writing(_) => 7
    case Seeking => 8
  }

  function Weight(t: Target): nat {
    PcWeight(t.pc) + if t.waitLocked then 0 else 9
  }

  function TotalWeight(ts: seq<Target>): nat {
    if ts == [] then 0 else Weight(ts[0]) + TotalWeight(ts[1..])
  }

  lemma {:induction false} WeightUpdate(ts: seq<Target>, k: nat, t: Target)
    requires k < |ts|
    ensures TotalWeight(ts[k := t]) + Weight(ts[k]) == TotalWeight(ts) + Weight(t)
  {
    if k > 0 {
      assert ts[k := t][1..] == ts[1..][k - 1 := t];
      WeightUpdate(ts[1..], k - 1, t);
    }
  }

  function MainWeight(main: MainPc, n: nat): int {
    match main
    case Filling => 0
    case Aborted => 0
    case Blocking(_) => 1
    case Releasing(i, _) => 12 * (n - i) + 2
    case Waking(i, _) => 12 * (n - i) + 1
    case Counting(i) => 12 * n + 3 * (n - i) + 3
    case CountLoad(i) => 12 * n + 3 * (n - i) + 2
    case CountStore(i, _) => 12 * n + 3 * (n - i) + 1
  }

  /** An upper bound on the steps left in the current round. */
  function StepsLeft(s: State): int {
    MainWeight(s.main, |s.targets|) + TotalWeight(s.targets)
  }

  lemma {:induction false} MainUsesBudget(s: State)
    requires PhaseInv(s) && MainEnabled(s) && !s.main.Filling?
    ensures StepsLeft(MainStep(s)) < StepsLeft(s)
  {
    if s.main.Waking? {
      WeightUpdate(s.targets, s.main.i, s.targets[s.main.i].(waitLocked := false));
    }
  }

  lemma {:induction false} ThreadUsesBudget(s: State, i: nat, seekOk: bool, landed: nat)
    requires Enabled(s, Thread(i, seekOk, landed)) && ThreadInv(s, i)
    ensures StepsLeft(ThreadStep(s, i, seekOk, landed)) < StepsLeft(s)
  {
    ThreadFrame(s, i, seekOk, landed);
    var t' := NextTarget(s.targets[i], s.buf, s.working, seekOk, landed);
    WeightUpdate(s.targets, i, t');
    assert Weight(t') < Weight(s.targets[i]);
  }

  lemma {:induction false} StepUsesBudget(s: State, step: Step)
    requires Inv(s) && Enabled(s, step) && !s.main.Filling?
    ensures StepsLeft(Apply(s, step)) < StepsLeft(s)
  {
    match step
    case Main => MainUsesBudget(s);
    case Thread(i, seekOk, landed) =>
      assert ThreadInv(s, i);
      ThreadUsesBudget(s, i, seekOk, landed);
  }

  lemma {:induction false} BudgetNonNegative(s: State)
    requires Inv(s)
    ensures StepsLeft(s) >= 0
  {
  }

  /** Inside a round some thread can always move: the protocol has no deadlock. */
  lemma {:induction false} NoDeadlock(s: State) returns (step: Step)
    requires Inv(s) && !s.main.Filling? && !s.main.Aborted?
    ensures Enabled(s, step)
  {
    step := Main;
    if s.main.Blocking? && s.mainwaitLocked {
      var j: nat;
      if s.working == 0 {
        j := CountWitness(s.targets, 0, IsWaking);
      } else {
        j := CountWitness(s.targets, 0, Pending);
      }
      assert ThreadInv(s, j);
      if s.targets[j].pc.Locking? && s.guard.HeldBy? {
        j := s.guard.thread;
        assert ThreadInv(s, j);
      }
      step := Thread(j, true, 0);
    }
  }

  /**
    However the threads are scheduled, a round cannot go on for more than StepsLeft steps; together
    with NoDeadlock every round ends with main filling the next buffer or aborting.
  */
  lemma {:induction false} RoundTerminates(states: seq<State>, steps: seq<Step>)
    requires |states| == |steps| + 1 && Linked(states, steps) && Inv(states[0])
    requires forall k :: 0 <= k < |steps| ==> !states[k].main.Filling?
    ensures |steps| <= StepsLeft(states[0])
  {
    BudgetNonNegative(states[0]);
    if steps != [] {
      StepUsesBudget(states[0], steps[0]);
      StepKeepsInv(states[0], steps[0]);
      assert states[1] == Apply(states[0], steps[0]);
      forall k | 0 <= k < |steps[1..]|
        ensures Enabled(states[1..][k], steps[1..][k]) && states[1..][k + 1] == Apply(states[1..][k], steps[1..][k])
      {
        assert Enabled(states[k + 1], steps[k + 1]);
      }
      RoundTerminates(states[1..], steps[1..]);
    }
  }
}

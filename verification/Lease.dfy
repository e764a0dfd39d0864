/** The installer as a timed protocol. */
module Lease {
  // Coordinators and workers over two mutexes and the staging directories
  // (`RunCoordinatorLocked`, `RunWorker`, `TryAcquireMutex`, `IsWorkerActive`,
  // `RemovePriorWorkingDirectories`). Any process can crash at any step; a mutex
  // its owner dies with is abandoned, and whoever waits for it next owns it. Times
  // are milliseconds.

  const QUARANTINE := 120000
  const MAX_PRIOR := 32

  datatype Mutex = Free | Held(owner: nat) | Abandoned

  /** A staging directory: its creator's last write, and the recorded time of
      the last write by anyone. */
  datatype Folder = Folder(staged: int, touched: int)

  /** Where a coordinator, which owns the singleton mutex, stands. `probed` is
      when it took the worker lease to see that no worker holds it. */
  datatype Phase =
    | Probing
    | ProbeHeld(probed: int)
    | Listing(probed: int)
    | Testing(probed: int, todo: seq<string>, passed: seq<string>)
    | Deleting(probed: int, passed: seq<string>)
    | Downloading
    | Staging(dir: string)
    | Waiting(dir: string, worker: nat)
    | Cleaning(dir: string)

  datatype Worker = Launched(dir: string) | Leased(dir: string, at: int)

  datatype State = State(now: int, singleton: Mutex, lease: Mutex, folders: map<string, Folder>,
                         coordinators: map<nat, Phase>, workers: map<nat, Worker>, pids: set<nat>, names: set<string>)

  datatype Step =
    | Tick(delta: nat)
    | StartCoordinator(pid: nat)
    | Probe(pid: nat)
    | Unprobe(pid: nat)
    | List(pid: nat, found: seq<string>)
    | Test(pid: nat, verified: bool)
    | Delete(pid: nat, gone: bool)
    | GiveUp(pid: nat)
    | SweepEnds(pid: nat)
    | DownloadFails(pid: nat)
    | Create(pid: nat, dir: string)
    | Write(pid: nat)
    | StagingFails(pid: nat)
    | Launch(pid: nat, worker: nat)
    | TakeLease(worker: nat)
    | WorkerEnds(worker: nat)
    | Reap(pid: nat)
    | Clean(pid: nat, gone: bool)
    | CleanEnds(pid: nat)
    | CrashCoordinator(pid: nat)
    | CrashWorker(worker: nat)

  // ----- what each step needs and does

  predicate Enabled(s: State, step: Step) {
    match step
    case Tick(_) => true
    case StartCoordinator(pid) => pid !in s.pids
    case Probe(pid) => pid in s.coordinators && s.coordinators[pid].Probing?
    case Unprobe(pid) => pid in s.coordinators && s.coordinators[pid].ProbeHeld?
    case List(pid, found) =>
      pid in s.coordinators && s.coordinators[pid].Listing? && (set dir | dir in found) == s.folders.Keys
    case Test(pid, _) => pid in s.coordinators && s.coordinators[pid].Testing? && s.coordinators[pid].todo != []
    case Delete(pid, _) => pid in s.coordinators && s.coordinators[pid].Deleting? && s.coordinators[pid].passed != []
    case GiveUp(pid) => pid in s.coordinators && s.coordinators[pid].Deleting?
    case SweepEnds(pid) => pid in s.coordinators && s.coordinators[pid].Deleting? && s.coordinators[pid].passed == []
    case DownloadFails(pid) => pid in s.coordinators && s.coordinators[pid].Downloading?
    case Create(pid, dir) => pid in s.coordinators && s.coordinators[pid].Downloading? && dir !in s.names
    case Write(pid) => pid in s.coordinators && s.coordinators[pid].Staging?
    case StagingFails(pid) => pid in s.coordinators && s.coordinators[pid].Staging?
    case Launch(pid, worker) => pid in s.coordinators && s.coordinators[pid].Staging? && worker !in s.pids
    case TakeLease(worker) => worker in s.workers && s.workers[worker].Launched?
    case WorkerEnds(worker) => worker in s.workers && s.workers[worker].Leased?
    case Reap(pid) => pid in s.coordinators && s.coordinators[pid].Waiting? && s.coordinators[pid].worker !in s.workers
    case Clean(pid, _) => pid in s.coordinators && s.coordinators[pid].Cleaning?
    case CleanEnds(pid) => pid in s.coordinators && s.coordinators[pid].Cleaning?
    case CrashCoordinator(pid) => pid in s.coordinators
    case CrashWorker(worker) => worker in s.workers
  }

  function At(s: State, pid: nat, phase: Phase): State {
    s.(coordinators := s.coordinators[pid := phase])
  }

  /** The coordinator returns and releases the singleton. */
  function Returned(s: State, pid: nat): State {
    s.(coordinators := s.coordinators - {pid}, singleton := Free)
  }

  predicate OldEnough(f: Folder, now: int) {
    f.touched <= now && now - f.touched >= QUARANTINE
  }

  /** Deleting a directory's files marks it as written. */
  function Removed(folders: map<string, Folder>, dir: string, gone: bool, now: int): map<string, Folder> {
    if dir !in folders then folders
    else if gone then folders - {dir}
    else folders[dir := folders[dir].(touched := now)]
  }

  /** After a test: the next candidate, the deletions, or a refused sweep. */
  function Tested(s: State, pid: nat, p: Phase, verified: bool): State
    requires p.Testing? && p.todo != []
  {
    if p.todo[0] !in s.folders || !OldEnough(s.folders[p.todo[0]], s.now) || !verified then Returned(s, pid)
    else if |p.todo| == 1 then At(s, pid, Deleting(p.probed, p.passed + [p.todo[0]]))
    else At(s, pid, Testing(p.probed, p.todo[1..], p.passed + [p.todo[0]]))
  }

  function Take(s: State, step: Step): State
    requires Enabled(s, step)
  {
    match step
    case Tick(delta) => s.(now := s.now + delta)
    case StartCoordinator(pid) =>
      var t := s.(pids := s.pids + {pid});
      if s.singleton.Held? then t else At(t.(singleton := Held(pid)), pid, Probing)
    case Probe(pid) =>
      if s.lease.Held? then Returned(s, pid) else At(s.(lease := Held(pid)), pid, ProbeHeld(s.now))
    case Unprobe(pid) => At(s.(lease := Free), pid, Listing(s.coordinators[pid].probed))
    case List(pid, found) =>
      if |found| > MAX_PRIOR then Returned(s, pid)
      else if found == [] then At(s, pid, Deleting(s.coordinators[pid].probed, []))
      else At(s, pid, Testing(s.coordinators[pid].probed, found, []))
    case Test(pid, verified) => Tested(s, pid, s.coordinators[pid], verified)
    case Delete(pid, gone) =>
      var p := s.coordinators[pid];
      var t := s.(folders := Removed(s.folders, p.passed[0], gone, s.now));
      if gone then At(t, pid, Deleting(p.probed, p.passed[1..])) else At(t, pid, p)
    case GiveUp(pid) => Returned(s, pid)
    case SweepEnds(pid) => At(s, pid, Downloading)
    case DownloadFails(pid) => Returned(s, pid)
    case Create(pid, dir) =>
      At(s.(folders := s.folders[dir := Folder(s.now, s.now)], names := s.names + {dir}), pid, Staging(dir))
    case Write(pid) =>
      s.(folders := s.folders[s.coordinators[pid].dir := Folder(s.now, s.now)])
    case StagingFails(pid) => At(s, pid, Cleaning(s.coordinators[pid].dir))
    case Launch(pid, worker) =>
      At(s.(workers := s.workers[worker := Launched(s.coordinators[pid].dir)], pids := s.pids + {worker}), pid,
         Waiting(s.coordinators[pid].dir, worker))
    case TakeLease(worker) =>
      if s.lease.Held? then s.(workers := s.workers - {worker})
      else s.(lease := Held(worker), workers := s.workers[worker := Leased(s.workers[worker].dir, s.now)])
    case WorkerEnds(worker) => s.(lease := Free, workers := s.workers - {worker})
    case Reap(pid) => At(s, pid, Cleaning(s.coordinators[pid].dir))
    case Clean(pid, gone) => s.(folders := Removed(s.folders, s.coordinators[pid].dir, gone, s.now))
    case CleanEnds(pid) => Returned(s, pid)
    case CrashCoordinator(pid) =>
      s.(coordinators := s.coordinators - {pid}, singleton := Abandoned,
         lease := if s.coordinators[pid].ProbeHeld? then Abandoned else s.lease)
    case CrashWorker(worker) =>
      s.(workers := s.workers - {worker}, lease := if s.workers[worker].Leased? then Abandoned else s.lease)
  }

  // ----- the bounds

  /** A worker takes its lease within `handoff` of its directory's last write,
      and a sweep tests ages within `window` of its probe. */
  predicate Timely(s: State, step: Step, handoff: int, window: int)
    requires Enabled(s, step)
  {
    match step
    case TakeLease(worker) =>
      s.workers[worker].dir in s.folders ==> s.now - s.folders[s.workers[worker].dir].staged <= handoff
    case Test(pid, _) => s.now - s.coordinators[pid].probed <= window
    case _ => true
  }

  /** The directory a step deletes from. */
  predicate Deletes(s: State, step: Step, dir: string)
    requires Enabled(s, step)
  {
    match step
    case Delete(pid, _) => dir == s.coordinators[pid].passed[0]
    case Clean(pid, _) => dir == s.coordinators[pid].dir
    case _ => false
  }

  predicate LeaseHeldOn(s: State, dir: string) {
    exists w | w in s.workers :: s.workers[w].Leased? && s.workers[w].dir == dir
  }

  // ----- the invariant

  ghost predicate Exclusive(s: State) {
    && (forall pid | pid in s.coordinators :: s.singleton == Held(pid) && pid in s.pids)
    && (forall pid | pid in s.coordinators && s.coordinators[pid].ProbeHeld? :: s.lease == Held(pid))
    && (forall w | w in s.workers && s.workers[w].Leased? :: s.lease == Held(w))
    && (forall w | w in s.workers :: w in s.pids && w !in s.coordinators && s.workers[w].dir in s.names)
  }

  ghost predicate Dated(s: State, handoff: int) {
    && (forall dir | dir in s.folders :: s.folders[dir].staged <= s.folders[dir].touched <= s.now && dir in s.names)
    && (forall w | w in s.workers && s.workers[w].Leased? ::
          s.workers[w].at <= s.now
          && (s.workers[w].dir in s.folders ==> s.workers[w].at - s.folders[s.workers[w].dir].staged <= handoff))
  }

  predicate NoWorkerOn(s: State, dir: string) {
    forall w | w in s.workers :: s.workers[w].dir != dir
  }

  /** No worker has held its lease since before the probe. */
  predicate LeasedSince(s: State, probed: int) {
    probed <= s.now && forall w | w in s.workers && s.workers[w].Leased? :: s.workers[w].at >= probed
  }

  /** What passed the age test was old when the worker lease was probed, but
      for the window. */
  ghost predicate PassedAged(s: State, probed: int, passed: seq<string>, window: int) {
    forall dir | dir in passed && dir in s.folders :: probed - s.folders[dir].staged >= QUARANTINE - window
  }

  ghost predicate PhaseHolds(s: State, p: Phase, window: int) {
    match p
    case Probing => true
    case ProbeHeld(probed) => probed <= s.now
    case Listing(probed) => LeasedSince(s, probed)
    case Testing(probed, _, passed) => LeasedSince(s, probed) && PassedAged(s, probed, passed, window)
    case Deleting(probed, passed) => LeasedSince(s, probed) && PassedAged(s, probed, passed, window)
    case Downloading => true
    case Staging(dir) => NoWorkerOn(s, dir) && dir in s.names
    case Waiting(dir, worker) => dir in s.names && forall w | w in s.workers && s.workers[w].dir == dir :: w == worker
    case Cleaning(dir) => NoWorkerOn(s, dir) && dir in s.names
  }

  ghost predicate PhasesHold(s: State, window: int) {
    forall pid | pid in s.coordinators :: PhaseHolds(s, s.coordinators[pid], window)
  }

  ghost predicate Inv(s: State, handoff: int, window: int) {
    Exclusive(s) && Dated(s, handoff) && PhasesHold(s, window)
  }

  // Each kind of step keeps the invariant.

  lemma ClockKeepsOrder(s: State, step: Step, handoff: int, window: int)
    requires Inv(s, handoff, window) && Enabled(s, step) && Timely(s, step, handoff, window)
    requires step.Tick? || step.StartCoordinator?
    ensures Exclusive(Take(s, step)) && Dated(Take(s, step), handoff)
  {
    hide PhaseHolds;
  }

  lemma ClockKeepsPhases(s: State, step: Step, handoff: int, window: int)
    requires Inv(s, handoff, window) && Enabled(s, step) && Timely(s, step, handoff, window)
    requires step.Tick? || step.StartCoordinator?
    ensures PhasesHold(Take(s, step), window)
  {
  }

  lemma ClockKeeps(s: State, step: Step, handoff: int, window: int)
    requires Inv(s, handoff, window) && Enabled(s, step) && Timely(s, step, handoff, window)
    requires step.Tick? || step.StartCoordinator?
    ensures Inv(Take(s, step), handoff, window)
  {
    hide Enabled, Timely, Take, Exclusive, Dated, PhasesHold;
    ClockKeepsOrder(s, step, handoff, window);
    ClockKeepsPhases(s, step, handoff, window);
  }

  lemma ProbeKeepsOrder(s: State, step: Step, handoff: int, window: int)
    requires Inv(s, handoff, window) && Enabled(s, step) && Timely(s, step, handoff, window)
    requires step.Probe? || step.Unprobe? || step.List?
    ensures Exclusive(Take(s, step)) && Dated(Take(s, step), handoff)
  {
    hide PhaseHolds;
  }

  lemma ProbeKeepsPhases(s: State, step: Step, handoff: int, window: int)
    requires Inv(s, handoff, window) && Enabled(s, step) && Timely(s, step, handoff, window)
    requires step.Probe? || step.Unprobe? || step.List?
    ensures PhasesHold(Take(s, step), window)
  {
  }

  lemma ProbeKeeps(s: State, step: Step, handoff: int, window: int)
    requires Inv(s, handoff, window) && Enabled(s, step) && Timely(s, step, handoff, window)
    requires step.Probe? || step.Unprobe? || step.List?
    ensures Inv(Take(s, step), handoff, window)
  {
    hide Enabled, Timely, Take, Exclusive, Dated, PhasesHold;
    ProbeKeepsOrder(s, step, handoff, window);
    ProbeKeepsPhases(s, step, handoff, window);
  }

  lemma TestKeepsOrder(s: State, step: Step, handoff: int, window: int)
    requires Inv(s, handoff, window) && Enabled(s, step) && Timely(s, step, handoff, window)
    requires step.Test?
    ensures Exclusive(Take(s, step)) && Dated(Take(s, step), handoff)
  {
    hide PhaseHolds;
  }

  lemma TestKeepsPhases(s: State, step: Step, handoff: int, window: int)
    requires Inv(s, handoff, window) && Enabled(s, step) && Timely(s, step, handoff, window)
    requires step.Test?
    ensures PhasesHold(Take(s, step), window)
  {
  }

  lemma TestKeeps(s: State, step: Step, handoff: int, window: int)
    requires Inv(s, handoff, window) && Enabled(s, step) && Timely(s, step, handoff, window)
    requires step.Test?
    ensures Inv(Take(s, step), handoff, window)
  {
    hide Enabled, Timely, Take, Exclusive, Dated, PhasesHold;
    TestKeepsOrder(s, step, handoff, window);
    TestKeepsPhases(s, step, handoff, window);
  }

  lemma DeleteKeepsOrder(s: State, step: Step, handoff: int, window: int)
    requires Inv(s, handoff, window) && Enabled(s, step) && Timely(s, step, handoff, window)
    requires step.Delete?
    ensures Exclusive(Take(s, step)) && Dated(Take(s, step), handoff)
  {
    hide PhaseHolds;
  }

  lemma DeleteKeepsPhases(s: State, step: Step, handoff: int, window: int)
    requires Inv(s, handoff, window) && Enabled(s, step) && Timely(s, step, handoff, window)
    requires step.Delete?
    ensures PhasesHold(Take(s, step), window)
  {
  }

  lemma DeleteKeeps(s: State, step: Step, handoff: int, window: int)
    requires Inv(s, handoff, window) && Enabled(s, step) && Timely(s, step, handoff, window)
    requires step.Delete?
    ensures Inv(Take(s, step), handoff, window)
  {
    hide Enabled, Timely, Take, Exclusive, Dated, PhasesHold;
    DeleteKeepsOrder(s, step, handoff, window);
    DeleteKeepsPhases(s, step, handoff, window);
  }

  lemma SweepKeeps(s: State, step: Step, handoff: int, window: int)
    requires Inv(s, handoff, window) && Enabled(s, step) && Timely(s, step, handoff, window)
    requires step.GiveUp? || step.SweepEnds? || step.DownloadFails?
    ensures Inv(Take(s, step), handoff, window)
  {
  }

  lemma StagingKeeps(s: State, step: Step, handoff: int, window: int)
    requires Inv(s, handoff, window) && Enabled(s, step) && Timely(s, step, handoff, window)
    requires step.Create? || step.Write?
    ensures Inv(Take(s, step), handoff, window)
  {
  }

  lemma FailureKeeps(s: State, step: Step, handoff: int, window: int)
    requires Inv(s, handoff, window) && Enabled(s, step) && Timely(s, step, handoff, window)
    requires step.StagingFails?
    ensures Inv(Take(s, step), handoff, window)
  {
  }

  lemma LaunchKeepsOrder(s: State, step: Step, handoff: int, window: int)
    requires Inv(s, handoff, window) && Enabled(s, step) && Timely(s, step, handoff, window)
    requires step.Launch?
    ensures Exclusive(Take(s, step)) && Dated(Take(s, step), handoff)
  {
  }

  lemma LaunchKeepsPhases(s: State, step: Step, handoff: int, window: int)
    requires Inv(s, handoff, window) && Enabled(s, step) && Timely(s, step, handoff, window)
    requires step.Launch?
    ensures PhasesHold(Take(s, step), window)
  {
  }

  lemma LaunchKeeps(s: State, step: Step, handoff: int, window: int)
    requires Inv(s, handoff, window) && Enabled(s, step) && Timely(s, step, handoff, window)
    requires step.Launch?
    ensures Inv(Take(s, step), handoff, window)
  {
    hide Enabled, Timely, Take, Exclusive, Dated, PhasesHold;
    LaunchKeepsOrder(s, step, handoff, window);
    LaunchKeepsPhases(s, step, handoff, window);
  }

  lemma ReapKeeps(s: State, step: Step, handoff: int, window: int)
    requires Inv(s, handoff, window) && Enabled(s, step) && Timely(s, step, handoff, window)
    requires step.Reap?
    ensures Inv(Take(s, step), handoff, window)
  {
  }

  lemma CleaningKeeps(s: State, step: Step, handoff: int, window: int)
    requires Inv(s, handoff, window) && Enabled(s, step) && Timely(s, step, handoff, window)
    requires step.Clean? || step.CleanEnds?
    ensures Inv(Take(s, step), handoff, window)
  {
  }

  lemma CrashKeeps(s: State, step: Step, handoff: int, window: int)
    requires Inv(s, handoff, window) && Enabled(s, step) && Timely(s, step, handoff, window)
    requires step.CrashCoordinator?
    ensures Inv(Take(s, step), handoff, window)
  {
  }

  lemma LeaseKeepsOrder(s: State, step: Step, handoff: int, window: int)
    requires Inv(s, handoff, window) && Enabled(s, step) && Timely(s, step, handoff, window)
    requires step.TakeLease?
    ensures Exclusive(Take(s, step)) && Dated(Take(s, step), handoff)
  {
    hide PhaseHolds;
  }

  lemma LeaseKeepsPhases(s: State, step: Step, handoff: int, window: int)
    requires Inv(s, handoff, window) && Enabled(s, step) && Timely(s, step, handoff, window)
    requires step.TakeLease?
    ensures PhasesHold(Take(s, step), window)
  {
  }

  lemma LeaseKeeps(s: State, step: Step, handoff: int, window: int)
    requires Inv(s, handoff, window) && Enabled(s, step) && Timely(s, step, handoff, window)
    requires step.TakeLease?
    ensures Inv(Take(s, step), handoff, window)
  {
    hide Enabled, Timely, Take, Exclusive, Dated, PhasesHold;
    LeaseKeepsOrder(s, step, handoff, window);
    LeaseKeepsPhases(s, step, handoff, window);
  }

  lemma WorkerKeepsOrder(s: State, step: Step, handoff: int, window: int)
    requires Inv(s, handoff, window) && Enabled(s, step) && Timely(s, step, handoff, window)
    requires step.WorkerEnds? || step.CrashWorker?
    ensures Exclusive(Take(s, step)) && Dated(Take(s, step), handoff)
  {
    hide PhaseHolds;
  }

  lemma WorkerKeepsPhases(s: State, step: Step, handoff: int, window: int)
    requires Inv(s, handoff, window) && Enabled(s, step) && Timely(s, step, handoff, window)
    requires step.WorkerEnds? || step.CrashWorker?
    ensures PhasesHold(Take(s, step), window)
  {
  }

  lemma WorkerKeeps(s: State, step: Step, handoff: int, window: int)
    requires Inv(s, handoff, window) && Enabled(s, step) && Timely(s, step, handoff, window)
    requires step.WorkerEnds? || step.CrashWorker?
    ensures Inv(Take(s, step), handoff, window)
  {
    hide Enabled, Timely, Take, Exclusive, Dated, PhasesHold;
    WorkerKeepsOrder(s, step, handoff, window);
    WorkerKeepsPhases(s, step, handoff, window);
  }

  /** Every timely step keeps the invariant. */
  lemma StepKeeps(s: State, step: Step, handoff: int, window: int)
    requires Inv(s, handoff, window) && Enabled(s, step) && Timely(s, step, handoff, window)
    ensures Inv(Take(s, step), handoff, window)
  {
    hide Inv, Enabled, Timely, Take;
    match step {
      case Tick(_) => ClockKeeps(s, step, handoff, window);
      case StartCoordinator(_) => ClockKeeps(s, step, handoff, window);
      case Probe(_) => ProbeKeeps(s, step, handoff, window);
      case Unprobe(_) => ProbeKeeps(s, step, handoff, window);
      case List(_, _) => ProbeKeeps(s, step, handoff, window);
      case Test(_, _) => TestKeeps(s, step, handoff, window);
      case Delete(_, _) => DeleteKeeps(s, step, handoff, window);
      case GiveUp(_) => SweepKeeps(s, step, handoff, window);
      case SweepEnds(_) => SweepKeeps(s, step, handoff, window);
      case DownloadFails(_) => SweepKeeps(s, step, handoff, window);
      case Create(_, _) => StagingKeeps(s, step, handoff, window);
      case Write(_) => StagingKeeps(s, step, handoff, window);
      case StagingFails(_) => FailureKeeps(s, step, handoff, window);
      case Launch(_, _) => LaunchKeeps(s, step, handoff, window);
      case TakeLease(_) => LeaseKeeps(s, step, handoff, window);
      case WorkerEnds(_) => WorkerKeeps(s, step, handoff, window);
      case Reap(_) => ReapKeeps(s, step, handoff, window);
      case Clean(_, _) => CleaningKeeps(s, step, handoff, window);
      case CleanEnds(_) => CleaningKeeps(s, step, handoff, window);
      case CrashCoordinator(_) => CrashKeeps(s, step, handoff, window);
      case CrashWorker(_) => WorkerKeeps(s, step, handoff, window);
    }
  }

  /** No step deletes from a directory whose worker holds the lease. */
  lemma StepIsSafe(s: State, step: Step, dir: string, handoff: int, window: int)
    requires Inv(s, handoff, window) && Enabled(s, step) && handoff + window < QUARANTINE
    requires Deletes(s, step, dir) && dir in s.folders
    ensures !LeaseHeldOn(s, dir)
  {
  }

  // ----- whole runs

  const INITIAL := State(0, Free, Free, map[], map[], map[], {}, {})

  /** `t` follows from `s` by timely steps. */
  ghost predicate Reaches(s: State, steps: seq<Step>, t: State, handoff: int, window: int)
    decreases |steps|
  {
    if steps == [] then s == t
    else Enabled(s, steps[0]) && Timely(s, steps[0], handoff, window)
         && Reaches(Take(s, steps[0]), steps[1..], t, handoff, window)
  }

  lemma {:induction false} RunKeeps(s: State, steps: seq<Step>, t: State, handoff: int, window: int)
    requires Inv(s, handoff, window) && Reaches(s, steps, t, handoff, window)
    ensures Inv(t, handoff, window)
    decreases |steps|
  {
    hide Inv, Enabled, Timely, Take;
    if steps != [] {
      StepKeeps(s, steps[0], handoff, window);
      RunKeeps(Take(s, steps[0]), steps[1..], t, handoff, window);
    }
  }

  /** In some timely run a step deletes from a directory under lease. */
  ghost predicate CanDeleteUnderLease(handoff: int, window: int) {
    exists steps, t, step, dir ::
      Reaches(INITIAL, steps, t, handoff, window) && DeletesUnderLease(t, step, dir)
  }

  predicate DeletesUnderLease(s: State, step: Step, dir: string) {
    Enabled(s, step) && Deletes(s, step, dir) && dir in s.folders && LeaseHeldOn(s, dir)
  }

  lemma ReachesFrom(s: State, step: Step, steps: seq<Step>, t: State, handoff: int, window: int)
    requires Enabled(s, step) && Timely(s, step, handoff, window) && Reaches(Take(s, step), steps, t, handoff, window)
    ensures Reaches(s, [step] + steps, t, handoff, window)
  {
    hide Enabled, Timely, Take;
    assert ([step] + steps)[1..] == steps;
  }

  /** A coordinator stages "d" at time 0, starts worker 2 and dies. */
  function Orphaned(now: int): State {
    State(now, Abandoned, Free, map["d" := Folder(0, 0)], map[], map[2 := Launched("d")], {1, 2}, {"d"})
  }

  /** The first coordinator, from its download on. */
  function Ready(): State {
    State(0, Held(1), Free, map[], map[1 := Downloading], map[], {1}, {})
  }

  lemma ReadyIsReachable(handoff: int, window: int, t: State, rest: seq<Step>) returns (steps: seq<Step>)
    requires Reaches(Ready(), rest, t, handoff, window)
    ensures Reaches(INITIAL, steps, t, handoff, window)
  {
    var s1 := Take(INITIAL, StartCoordinator(1));
    var s2 := Take(s1, Probe(1));
    var s3 := Take(s2, Unprobe(1));
    var none: seq<string> := [];
    assert (set dir | dir in none) == s3.folders.Keys;
    var s4 := Take(s3, List(1, none));
    assert Take(s4, SweepEnds(1)) == Ready();
    hide Reaches;
    ReachesFrom(s4, SweepEnds(1), rest, t, handoff, window);
    ReachesFrom(s3, List(1, none), [SweepEnds(1)] + rest, t, handoff, window);
    ReachesFrom(s2, Unprobe(1), [List(1, none)] + ([SweepEnds(1)] + rest), t, handoff, window);
    ReachesFrom(s1, Probe(1), [Unprobe(1)] + ([List(1, none)] + ([SweepEnds(1)] + rest)), t, handoff, window);
    steps := [StartCoordinator(1)] + ([Probe(1)] + ([Unprobe(1)] + ([List(1, none)] + ([SweepEnds(1)] + rest))));
    ReachesFrom(INITIAL, StartCoordinator(1), steps[1..], t, handoff, window);
  }

  lemma OrphanIsReachable(handoff: int, window: int, t: State, rest: seq<Step>) returns (steps: seq<Step>)
    requires Reaches(Orphaned(0), rest, t, handoff, window)
    ensures Reaches(INITIAL, steps, t, handoff, window)
  {
    var s6 := Take(Ready(), Create(1, "d"));
    var s7 := Take(s6, Launch(1, 2));
    assert Take(s7, CrashCoordinator(1)) == Orphaned(0);
    hide Reaches;
    ReachesFrom(s7, CrashCoordinator(1), rest, t, handoff, window);
    ReachesFrom(s6, Launch(1, 2), [CrashCoordinator(1)] + rest, t, handoff, window);
    ReachesFrom(Ready(), Create(1, "d"), [Launch(1, 2)] + ([CrashCoordinator(1)] + rest), t, handoff, window);
    steps := ReadyIsReachable(handoff, window, t, [Create(1, "d")] + ([Launch(1, 2)] + ([CrashCoordinator(1)] + rest)));
  }

  /** The next coordinator, about to delete "d" while worker 2 holds the lease. */
  function AboutToDelete(handoff: int, window: int): State {
    State(handoff + window, Held(3), Held(2), map["d" := Folder(0, 0)], map[3 := Deleting(handoff, ["d"])],
          map[2 := Leased("d", handoff)], {1, 2, 3}, {"d"})
  }

  /** The next coordinator has probed, and only then worker 2 takes the lease. */
  function Probed(handoff: int): State {
    State(handoff, Held(3), Held(2), map["d" := Folder(0, 0)], map[3 := Listing(handoff)],
          map[2 := Leased("d", handoff)], {1, 2, 3}, {"d"})
  }

  /** The next coordinator, about to probe. */
  function Started(handoff: int): State {
    State(handoff, Held(3), Free, map["d" := Folder(0, 0)], map[3 := Probing], map[2 := Launched("d")], {1, 2, 3}, {"d"})
  }

  lemma LateStart(handoff: int, window: int, t: State, rest: seq<Step>) returns (steps: seq<Step>)
    requires 0 <= handoff && Reaches(Started(handoff), rest, t, handoff, window)
    ensures Reaches(Orphaned(0), steps, t, handoff, window)
  {
    var s1 := Take(Orphaned(0), Tick(handoff));
    assert Take(s1, StartCoordinator(3)) == Started(handoff);
    hide Reaches;
    ReachesFrom(s1, StartCoordinator(3), rest, t, handoff, window);
    steps := [Tick(handoff)] + ([StartCoordinator(3)] + rest);
    ReachesFrom(Orphaned(0), Tick(handoff), steps[1..], t, handoff, window);
  }

  /** It has probed and let the worker lease go. */
  function Released(handoff: int): State {
    Started(handoff).(coordinators := map[3 := Listing(handoff)])
  }

  lemma LateProbe(handoff: int, window: int)
    requires 0 <= handoff
    ensures var s := Started(handoff);
      && Enabled(s, Probe(3)) && Timely(s, Probe(3), handoff, window)
      && Enabled(Take(s, Probe(3)), Unprobe(3)) && Timely(Take(s, Probe(3)), Unprobe(3), handoff, window)
      && Take(Take(s, Probe(3)), Unprobe(3)) == Released(handoff)
  {
  }

  lemma LateTake(handoff: int, window: int)
    requires 0 <= handoff
    ensures var s := Released(handoff);
      Enabled(s, TakeLease(2)) && Timely(s, TakeLease(2), handoff, window) && Take(s, TakeLease(2)) == Probed(handoff)
  {
  }

  lemma LateLease(handoff: int, window: int, t: State, rest: seq<Step>) returns (steps: seq<Step>)
    requires 0 <= handoff && Reaches(Probed(handoff), rest, t, handoff, window)
    ensures Reaches(Started(handoff), steps, t, handoff, window)
  {
    hide Reaches, Enabled, Timely, Take, Probed, Started, Released;
    LateProbe(handoff, window);
    LateTake(handoff, window);
    ReachesFrom(Released(handoff), TakeLease(2), rest, t, handoff, window);
    ReachesFrom(Take(Started(handoff), Probe(3)), Unprobe(3), [TakeLease(2)] + rest, t, handoff, window);
    steps := [Probe(3)] + ([Unprobe(3)] + ([TakeLease(2)] + rest));
    ReachesFrom(Started(handoff), Probe(3), [Unprobe(3)] + ([TakeLease(2)] + rest), t, handoff, window);
  }

  lemma SlowSweep(handoff: int, window: int) returns (steps: seq<Step>)
    requires 0 <= handoff && 0 <= window && handoff + window >= QUARANTINE
    ensures Reaches(Probed(handoff), steps, AboutToDelete(handoff, window), handoff, window)
  {
    var t := AboutToDelete(handoff, window);
    assert (set dir | dir in ["d"]) == Probed(handoff).folders.Keys;
    var s6 := Take(Probed(handoff), List(3, ["d"]));
    var s7 := Take(s6, Tick(window));
    assert [] + ["d"] == ["d"];
    assert Take(s7, Test(3, true)) == t;
    assert Reaches(t, [], t, handoff, window);
    hide Reaches;
    ReachesFrom(s7, Test(3, true), [], t, handoff, window);
    ReachesFrom(s6, Tick(window), [Test(3, true)] + [], t, handoff, window);
    steps := [List(3, ["d"])] + ([Tick(window)] + ([Test(3, true)] + []));
    ReachesFrom(Probed(handoff), List(3, ["d"]), steps[1..], t, handoff, window);
  }

  lemma SlowRun(handoff: int, window: int) returns (steps: seq<Step>)
    requires 0 <= handoff && 0 <= window && handoff + window >= QUARANTINE
    ensures Reaches(INITIAL, steps, AboutToDelete(handoff, window), handoff, window)
  {
    hide Reaches;
    var sweep := SlowSweep(handoff, window);
    var late := LateLease(handoff, window, AboutToDelete(handoff, window), sweep);
    var start := LateStart(handoff, window, AboutToDelete(handoff, window), late);
    steps := OrphanIsReachable(handoff, window, AboutToDelete(handoff, window), start);
  }

  /** With crashes anywhere, no run deletes from a directory whose worker holds
      the lease exactly when the two delays together stay below the quarantine. */
  lemma LeaseIsSafeIff(handoff: int, window: int)
    requires 0 <= handoff && 0 <= window
    ensures !CanDeleteUnderLease(handoff, window) <==> handoff + window < 120000
  {
    hide Inv, Enabled, Timely, Take, Reaches;
    if handoff + window < QUARANTINE {
      forall steps, t, step, dir | Reaches(INITIAL, steps, t, handoff, window)
        ensures !DeletesUnderLease(t, step, dir)
      {
        InitialHolds(handoff, window);
        RunKeeps(INITIAL, steps, t, handoff, window);
        RunIsSafe(t, step, dir, handoff, window);
      }
    } else {
      var steps := SlowRun(handoff, window);
      LastStep(handoff, window);
      assert DeletesUnderLease(AboutToDelete(handoff, window), Delete(3, true), "d");
    }
  }

  lemma InitialHolds(handoff: int, window: int)
    ensures Inv(INITIAL, handoff, window)
  {
  }

  lemma RunIsSafe(s: State, step: Step, dir: string, handoff: int, window: int)
    requires Inv(s, handoff, window) && handoff + window < QUARANTINE
    ensures !DeletesUnderLease(s, step, dir)
  {
    hide Inv, Enabled, Deletes, LeaseHeldOn;
    if DeletesUnderLease(s, step, dir) {
      StepIsSafe(s, step, dir, handoff, window);
      assert false;
    }
  }

  lemma LastStep(handoff: int, window: int)
    ensures DeletesUnderLease(AboutToDelete(handoff, window), Delete(3, true), "d")
  {
    var s := AboutToDelete(handoff, window);
    assert 2 in s.workers && s.workers[2].Leased? && s.workers[2].dir == "d";
    assert LeaseHeldOn(s, "d");
  }

  // ----- who holds the mutexes, and what happens to the directories

  /** A held mutex is held by a live process that is at work under it. */
  ghost predicate HeldByLive(s: State) {
    SingletonHeldByLive(s) && LeaseHeldByLive(s)
  }

  predicate SingletonHeldByLive(s: State) {
    s.singleton.Held? ==> s.singleton.owner in s.coordinators
  }

  predicate LeaseHeldByLive(s: State) {
    s.lease.Held? ==>
      || (s.lease.owner in s.coordinators && s.coordinators[s.lease.owner].ProbeHeld?)
      || (s.lease.owner in s.workers && s.workers[s.lease.owner].Leased?)
  }

  /** No step leaks a mutex. */
  lemma StepLeaksNothing(s: State, step: Step)
    requires Exclusive(s) && HeldByLive(s) && Enabled(s, step)
    ensures HeldByLive(Take(s, step))
  {
    StepKeepsSingletonOwner(s, step);
    StepKeepsLeaseOwner(s, step);
    hide Enabled, Take, Exclusive, SingletonHeldByLive, LeaseHeldByLive;
  }

  lemma StepKeepsSingletonOwner(s: State, step: Step)
    requires Exclusive(s) && SingletonHeldByLive(s) && Enabled(s, step)
    ensures SingletonHeldByLive(Take(s, step))
  {
  }

  lemma StepKeepsLeaseOwner(s: State, step: Step)
    requires Exclusive(s) && LeaseHeldByLive(s) && Enabled(s, step)
    ensures LeaseHeldByLive(Take(s, step))
  {
  }

  lemma {:induction false} RunLeaksNothing(s: State, steps: seq<Step>, t: State, handoff: int, window: int)
    requires Inv(s, handoff, window) && HeldByLive(s) && Reaches(s, steps, t, handoff, window)
    ensures HeldByLive(t)
    decreases |steps|
  {
    hide Enabled, Timely, Take, HeldByLive, Exclusive, Dated, PhasesHold;
    if steps != [] {
      StepKeeps(s, steps[0], handoff, window);
      StepLeaksNothing(s, steps[0]);
      RunLeaksNothing(Take(s, steps[0]), steps[1..], t, handoff, window);
    }
  }

  /** In every run: at most one coordinator is at work, at most one process is
      under the worker lease, and each mutex is free to take as soon as nobody
      is at work under it. */
  lemma MutexesExclude(steps: seq<Step>, t: State, handoff: int, window: int)
    requires Reaches(INITIAL, steps, t, handoff, window)
    ensures forall p, q | p in t.coordinators && q in t.coordinators :: p == q
    ensures forall v, w | v in t.workers && w in t.workers && t.workers[v].Leased? && t.workers[w].Leased? :: v == w
    ensures t.coordinators == map[] <==> !t.singleton.Held?
    ensures (forall w | w in t.workers :: !t.workers[w].Leased?) && (forall p | p in t.coordinators :: !t.coordinators[p].ProbeHeld?)
       <==> !t.lease.Held?
  {
    hide Enabled, Timely, Take, Dated, PhasesHold, Reaches;
    InitialHolds(handoff, window);
    RunKeeps(INITIAL, steps, t, handoff, window);
    RunLeaksNothing(INITIAL, steps, t, handoff, window);
  }

  /** What becomes of a directory in one step: only its creation makes it, only
      a deletion that succeeds removes it, and only creation, writing and a
      failed deletion date it. */
  lemma FolderFate(s: State, step: Step, dir: string)
    requires Enabled(s, step)
    ensures var t := Take(s, step);
      var deleted := (step.Delete? && dir == s.coordinators[step.pid].passed[0]) || (step.Clean? && dir == s.coordinators[step.pid].dir);
      var written := (step.Create? && dir == step.dir) || (step.Write? && dir == s.coordinators[step.pid].dir);
      if written then dir in t.folders && t.folders[dir] == Folder(s.now, s.now)
      else if dir !in s.folders || (deleted && step.gone) then dir !in t.folders
      else dir in t.folders && t.folders[dir] == Folder(s.folders[dir].staged, if deleted then s.now else s.folders[dir].touched)
  {
  }

  /** A candidate passes when it is there, verified, and was last written two
      minutes ago or more; any other ends the sweep before a deletion. */
  lemma TestedIs(s: State, pid: nat, verified: bool)
    requires Enabled(s, Test(pid, verified))
    ensures var t, p := Take(s, Test(pid, verified)), s.coordinators[pid];
      var dir := p.todo[0];
      if dir in s.folders && verified && s.now >= s.folders[dir].touched + 120000
      then pid in t.coordinators
           && t.coordinators[pid] == if |p.todo| == 1 then Deleting(p.probed, p.passed + [dir]) else Testing(p.probed, p.todo[1..], p.passed + [dir])
      else pid !in t.coordinators && t.folders == s.folders
  {
  }

  /** The sweep lists every directory, and refuses more than 32. */
  lemma ListedIs(s: State, pid: nat, found: seq<string>)
    requires Enabled(s, List(pid, found))
    ensures (forall dir :: dir in found <==> dir in s.folders)
    ensures var t, probed := Take(s, List(pid, found)), s.coordinators[pid].probed;
      if |found| > 32 then pid !in t.coordinators
      else pid in t.coordinators && t.coordinators[pid] == if found == [] then Deleting(probed, []) else Testing(probed, found, [])
  {
    var names := set dir | dir in found;
    assert forall dir :: dir in names <==> dir in s.folders.Keys;
  }

  /** A deletion that succeeds takes its candidate off the list and leaves the
      rest in order; one that fails leaves the list. No other process is touched. */
  lemma DeletedIs(s: State, pid: nat, gone: bool)
    requires Enabled(s, Delete(pid, gone))
    ensures var t, p := Take(s, Delete(pid, gone)), s.coordinators[pid];
      && t.workers == s.workers && t.lease == s.lease && t.singleton == s.singleton
      && p.Deleting? && p.passed != []
      && t.coordinators == s.coordinators[pid := Deleting(p.probed, if gone then p.passed[1..] else p.passed)]
      && (gone ==> t.folders == s.folders - {p.passed[0]})
  {
  }
}

/** The driver installer's work on disk. */
module Installer {
  // Bounded cleanup with retries, the all-or-nothing sweep of earlier staging
  // directories, and the exit codes of the coordinator and its worker. Faults of
  // the file system, the network and the worker are inputs.

  import opened Options
  import Lease

  const CLEANUP_ATTEMPTS := 40
  const PINNED: set<string> := {"HIDMaestro.Core.dll", "Microsoft.Windows.SDK.NET.dll", "WinRT.Runtime.dll"}

  /** An entry of a staging directory: `plain` when it is neither a directory
      nor a reparse point, `matches` when its bytes are the pinned ones. */
  datatype Entry = Entry(name: string, plain: bool, matches: bool)

  /** `proper`: a directory and no reparse point. */
  datatype Folder = Folder(proper: bool, entries: seq<Entry>)

  predicate DistinctNames(entries: seq<Entry>) {
    forall i, j | 0 <= i < j < |entries| :: entries[i].name != entries[j].name
  }

  /** Nothing but plain files with pinned names. */
  predicate Enumerable(f: Folder) {
    && f.proper && |f.entries| <= |PINNED|
    && (forall i | 0 <= i < |f.entries| :: f.entries[i].plain && f.entries[i].name in PINNED)
    && DistinctNames(f.entries)
  }

  predicate AllMatch(entries: seq<Entry>) {
    forall i | 0 <= i < |entries| :: entries[i].matches
  }

  predicate Verified(f: Folder, complete: bool) {
    Enumerable(f) && (complete ==> |f.entries| == |PINNED|) && AllMatch(f.entries)
  }

  /** Acceptable to delete: a real directory of at most three plain files, each
      with another of the three pinned names, and with the pinned bytes where
      they are required. */
  lemma AcceptableIff(f: Folder, requirePins: bool)
    ensures Acceptable(f, requirePins) <==>
      && f.proper && |f.entries| <= 3
      && (forall i | 0 <= i < |f.entries| ::
            && f.entries[i].plain
            && f.entries[i].name in ["HIDMaestro.Core.dll", "Microsoft.Windows.SDK.NET.dll", "WinRT.Runtime.dll"]
            && (requirePins ==> f.entries[i].matches))
      && (forall i, j | 0 <= i < |f.entries| && 0 <= j < |f.entries| && f.entries[i].name == f.entries[j].name :: i == j)
  {
  }

  /** Verified: that with pinned bytes; complete: all three files are there. */
  lemma VerifiedIff(f: Folder, complete: bool)
    ensures Verified(f, complete) <==> Acceptable(f, true) && (complete ==> |f.entries| == 3)
  {
  }

  // ----- deletion

  /** What the file system does during one attempt. */
  datatype Attempt =
    | Smooth
    | Unlistable             // the directory cannot be enumerated
    | Unhashable             // a file cannot be read
    | FileHeld(deleted: nat) // some files go, then one is in use
    | FolderHeld             // the files go, the directory is in use
    | Lingers                // the directory's removal is still pending

  predicate Retried(a: Attempt) {
    a.FileHeld? || a.FolderHeld? || a.Lingers?
  }

  /** Contents are read only where pinned bytes are required. */
  predicate Refuses(a: Attempt, requirePins: bool) {
    a.Unlistable? || (requirePins && a.Unhashable?)
  }

  predicate Completes(a: Attempt, requirePins: bool) {
    a.Smooth? || (!requirePins && a.Unhashable?)
  }

  datatype Outcome = Gone | Refused | Left(folder: Folder)

  predicate Acceptable(f: Folder, requirePins: bool) {
    Enumerable(f) && (requirePins ==> AllMatch(f.entries))
  }

  function Attempted(f: Folder, requirePins: bool, a: Attempt): Outcome {
    if Refuses(a, requirePins) || !Acceptable(f, requirePins) then Refused
    else
      match a
      case FileHeld(deleted) => Left(f.(entries := f.entries[if deleted < |f.entries| then deleted else |f.entries|..]))
      case FolderHeld => Left(f.(entries := []))
      case Lingers => Left(f.(entries := []))
      case _ => Gone
  }

  /** One attempt on an acceptable directory: it goes, or the files before the
      one in use go, or all files go and the directory stays. */
  lemma AttemptIs(f: Folder, requirePins: bool, a: Attempt, i: nat)
    requires Acceptable(f, requirePins)
    ensures a == Smooth ==> Attempted(f, requirePins, a) == Gone
    ensures a == Unlistable ==> Attempted(f, requirePins, a) == Refused
    ensures a == Unhashable ==> Attempted(f, requirePins, a) == if requirePins then Refused else Gone
    ensures a == FolderHeld || a == Lingers ==> Attempted(f, requirePins, a) == Left(Folder(f.proper, []))
    ensures a.FileHeld? ==>
      var outcome := Attempted(f, requirePins, a);
      && outcome.Left? && outcome.folder.proper == f.proper
      && |outcome.folder.entries| == (if a.deleted <= |f.entries| then |f.entries| - a.deleted else 0)
      && (i < |outcome.folder.entries| ==> outcome.folder.entries[i] == f.entries[a.deleted + i])
  {
    hide Acceptable;
  }

  /** What is left of a directory, and whether it is reported gone. */
  function Deletion(f: Option<Folder>, requirePins: bool, attempts: seq<Attempt>): (Option<Folder>, bool)
    decreases |attempts|
  {
    if attempts == [] then (f, false)
    else if f.None? then (f, true)
    else
      match Attempted(f.value, requirePins, attempts[0])
      case Gone => (None, true)
      case Refused => (f, false)
      case Left(rest) => Deletion(Some(rest), requirePins, attempts[1..])
  }

  /** The first attempt that is not merely retried goes through. */
  predicate GoesThrough(attempts: seq<Attempt>, requirePins: bool) {
    exists k | 0 <= k < |attempts| :: Completes(attempts[k], requirePins) && forall j | 0 <= j < k :: Retried(attempts[j])
  }

  lemma DistinctSuffix(f: Folder, requirePins: bool, k: nat)
    requires k <= |f.entries| && Acceptable(f, requirePins)
    ensures Acceptable(f.(entries := f.entries[k..]), requirePins)
  {
    var rest := f.entries[k..];
    assert forall i | 0 <= i < |rest| :: rest[i] == f.entries[k + i];
  }

  lemma LeftIsAcceptable(f: Folder, requirePins: bool, a: Attempt)
    requires Attempted(f, requirePins, a).Left?
    ensures Retried(a) && Acceptable(Attempted(f, requirePins, a).folder, requirePins)
    ensures TailOf(Attempted(f, requirePins, a).folder, f)
  {
    var k := if a.FileHeld? && a.deleted < |f.entries| then a.deleted else |f.entries|;
    DistinctSuffix(f, requirePins, k);
  }

  lemma GoesThroughLater(attempts: seq<Attempt>, requirePins: bool)
    requires attempts != []
    ensures GoesThrough(attempts, requirePins) <==>
              Completes(attempts[0], requirePins) || (Retried(attempts[0]) && GoesThrough(attempts[1..], requirePins))
  {
    var rest := attempts[1..];
    if Retried(attempts[0]) && GoesThrough(rest, requirePins) {
      var k :| 0 <= k < |rest| && Completes(rest[k], requirePins) && forall j | 0 <= j < k :: Retried(rest[j]);
      assert Completes(attempts[k + 1], requirePins) && forall j | 0 <= j < k + 1 :: Retried(attempts[j]);
    }
    if GoesThrough(attempts, requirePins) && !Completes(attempts[0], requirePins) {
      var k :| 0 <= k < |attempts| && Completes(attempts[k], requirePins) && forall j | 0 <= j < k :: Retried(attempts[j]);
      assert Completes(rest[k - 1], requirePins) && forall j | 0 <= j < k - 1 :: Retried(rest[j]);
    }
  }

  lemma AttemptedSpec(f: Folder, requirePins: bool, a: Attempt)
    ensures Attempted(f, requirePins, a).Gone? <==> Acceptable(f, requirePins) && Completes(a, requirePins)
    ensures Attempted(f, requirePins, a).Left? <==> Acceptable(f, requirePins) && Retried(a)
    ensures Completes(a, requirePins) ==> !Retried(a)
  {
    hide Acceptable;
  }

  lemma NothingGoesThrough(requirePins: bool)
    ensures !GoesThrough([], requirePins)
  {
  }

  /** A present directory is gone afterwards exactly when it holds nothing but
      pinned files (with pinned bytes, where that is required) and some attempt
      goes through before one is refused. A refusal up front changes nothing. */
  lemma {:induction false} DeletionSucceedsIff(f: Folder, requirePins: bool, attempts: seq<Attempt>)
    ensures Deletion(Some(f), requirePins, attempts).1 <==> Acceptable(f, requirePins) && GoesThrough(attempts, requirePins)
    ensures Deletion(Some(f), requirePins, attempts).1 ==> Deletion(Some(f), requirePins, attempts).0 == None
    ensures !Acceptable(f, requirePins) ==> Deletion(Some(f), requirePins, attempts).0 == Some(f)
    decreases |attempts|
  {
    hide Attempted, Acceptable, GoesThrough, Refuses, Completes, Retried, TailOf;
    if attempts == [] {
      NothingGoesThrough(requirePins);
    } else {
      AttemptedSpec(f, requirePins, attempts[0]);
      GoesThroughLater(attempts, requirePins);
      if Attempted(f, requirePins, attempts[0]).Left? {
        LeftIsAcceptable(f, requirePins, attempts[0]);
        DeletionSucceedsIff(Attempted(f, requirePins, attempts[0]).folder, requirePins, attempts[1..]);
      }
    }
  }

  predicate TailOf(f: Folder, g: Folder) {
    && f.proper == g.proper && |f.entries| <= |g.entries|
    && f.entries == g.entries[|g.entries| - |f.entries|..]
  }

  lemma TailOfItself(f: Folder)
    ensures TailOf(f, f)
  {
    assert f.entries == f.entries[0..];
  }

  lemma TailOfTail(f: Folder, g: Folder, h: Folder)
    requires TailOf(f, g) && TailOf(g, h)
    ensures TailOf(f, h)
  {
  }

  /** Whatever the faults, what is left is a tail of what was there. */
  lemma {:induction false} DeletionOnlyDeletes(f: Folder, requirePins: bool, attempts: seq<Attempt>)
    ensures var left := Deletion(Some(f), requirePins, attempts).0; left.Some? ==> TailOf(left.value, f)
    decreases |attempts|
  {
    hide TailOf, Acceptable, Attempted;
    TailOfItself(f);
    if attempts != [] && Attempted(f, requirePins, attempts[0]).Left? {
      LeftIsAcceptable(f, requirePins, attempts[0]);
      var rest := Attempted(f, requirePins, attempts[0]).folder;
      DeletionOnlyDeletes(rest, requirePins, attempts[1..]);
      var left := Deletion(Some(rest), requirePins, attempts[1..]).0;
      if left.Some? {
        TailOfTail(left.value, rest, f);
      }
    }
  }

  // ----- the sweep

  /** What one candidate's age test and content check observe. */
  datatype Test = Test(lastWrite: int, now: int, readable: bool)

  predicate OldEnough(t: Test) {
    t.lastWrite <= t.now && t.now - t.lastWrite >= Lease.QUARANTINE
  }

  /** Two minutes old, and not written in the future. */
  lemma OldEnoughIff(t: Test)
    ensures OldEnough(t) <==> t.now >= t.lastWrite + 120000
  {
  }

  predicate Passes(folders: map<string, Folder>, path: string, t: Test) {
    path in folders && OldEnough(t) && t.readable && Verified(folders[path], false)
  }

  predicate AllPass(folders: map<string, Folder>, listing: seq<string>, tests: seq<Test>)
    requires |tests| == |listing|
  {
    |listing| <= Lease.MAX_PRIOR && forall i | 0 <= i < |listing| :: Passes(folders, listing[i], tests[i])
  }

  function Look(folders: map<string, Folder>, path: string): Option<Folder> {
    if path in folders then Some(folders[path]) else None
  }

  /** What is left of the candidates: of the first that does not go, what its
      attempts leave; of the later ones, all. */
  ghost predicate Stays(before: map<string, Folder>, after: map<string, Folder>, listing: seq<string>, attempts: seq<seq<Attempt>>)
    requires Listed(before, listing) && |listing| == |attempts|
  {
    forall j | 0 <= j < |listing| ::
      Look(after, listing[j]) == if forall k | 0 <= k < j :: GoesThrough(attempts[k], true)
                                 then Deletion(Some(before[listing[j]]), true, attempts[j]).0 else Some(before[listing[j]])
  }

  /** The first `i` candidates are gone and the others untouched. */
  ghost predicate GoneUpTo(before: map<string, Folder>, after: map<string, Folder>, listing: seq<string>,
                           attempts: seq<seq<Attempt>>, i: nat)
    requires Listed(before, listing) && |listing| == |attempts|
  {
    && (forall k | 0 <= k < |listing| && k < i ::
          GoesThrough(attempts[k], true) && Deletion(Some(before[listing[k]]), true, attempts[k]).0 == None)
    && (forall k | 0 <= k < |listing| :: Look(after, listing[k]) == if k < i then None else Some(before[listing[k]]))
    && (forall path | path in after :: path in before && TailOf(after[path], before[path]))
  }

  lemma GoneNext(before: map<string, Folder>, mid: map<string, Folder>, after: map<string, Folder>, listing: seq<string>,
                 attempts: seq<seq<Attempt>>, i: nat)
    requires Listed(before, listing) && |listing| == |attempts| && i < |listing|
    requires GoneUpTo(before, mid, listing, attempts, i)
    requires Look(after, listing[i]) == Deletion(Some(before[listing[i]]), true, attempts[i]).0
    requires forall other | other != listing[i] :: Look(after, other) == Look(mid, other)
    requires listing[i] in after ==> TailOf(after[listing[i]], before[listing[i]])
    ensures GoesThrough(attempts[i], true) && Look(after, listing[i]) == None ==> GoneUpTo(before, after, listing, attempts, i + 1)
    ensures !GoesThrough(attempts[i], true) ==> Stays(before, after, listing, attempts)
    ensures forall path | path in after :: path in before && TailOf(after[path], before[path])
  {
    hide GoesThrough, Deletion, TailOf;
    forall k | 0 <= k < |listing| && k != i ensures Look(after, listing[k]) == Look(mid, listing[k]) {
    }
    forall path | path in after ensures path in before && TailOf(after[path], before[path]) {
      assert path != listing[i] ==> Look(mid, path) == Some(after[path]);
    }
  }

  lemma AllGone(before: map<string, Folder>, after: map<string, Folder>, listing: seq<string>, attempts: seq<seq<Attempt>>)
    requires Listed(before, listing) && |listing| == |attempts| && GoneUpTo(before, after, listing, attempts, |listing|)
    ensures after == map[] && Stays(before, after, listing, attempts) && forall k | 0 <= k < |listing| :: GoesThrough(attempts[k], true)
  {
    hide GoesThrough, Deletion, TailOf;
    forall path ensures path !in after {
      assert path in before ==> path in listing;
    }
  }

  function With(folders: map<string, Folder>, path: string, f: Option<Folder>): map<string, Folder> {
    if f.Some? then folders[path := f.value] else folders - {path}
  }

  predicate Listed(folders: map<string, Folder>, listing: seq<string>) {
    && (forall i, j | 0 <= i < j < |listing| :: listing[i] != listing[j])
    && (forall path | path in folders :: path in listing) && (forall i | 0 <= i < |listing| :: listing[i] in folders)
  }

  /** The staging directories beside the installer. */
  class Disk {
    var folders: map<string, Folder>

    constructor (folders: map<string, Folder>)
      ensures this.folders == folders
    {
      this.folders := folders;
    }

    /** Delete the first files of a directory. */
    method DeleteFiles(path: string, count: nat)
      requires path in folders && count <= |folders[path].entries|
      modifies this
      ensures folders == old(folders)[path := old(folders[path]).(entries := old(folders[path]).entries[count..])]
    {
      var f := folders[path];
      for i := 0 to count
        invariant folders == old(folders)[path := f.(entries := f.entries[i..])]
      {
        assert f.entries[i..][1..] == f.entries[i + 1..];
        folders := folders[path := folders[path].(entries := folders[path].entries[1..])];
      }
    }

    /** At most 40 attempts; a refusal ends them, a fault is retried. */
    method DeleteWorkingDirectory(path: string, requirePins: bool, attempts: seq<Attempt>) returns (gone: bool)
      requires |attempts| == CLEANUP_ATTEMPTS
      modifies this
      ensures var outcome := Deletion(Look(old(folders), path), requirePins, attempts);
        gone == outcome.1 && folders == With(old(folders), path, outcome.0)
    {
      hide Acceptable;
      for attempt := 0 to CLEANUP_ATTEMPTS
        invariant Deletion(Look(folders, path), requirePins, attempts[attempt..])
               == Deletion(Look(old(folders), path), requirePins, attempts)
        invariant folders == With(old(folders), path, Look(folders, path))
      {
        assert attempts[attempt..][0] == attempts[attempt] && attempts[attempt..][1..] == attempts[attempt + 1..];
        if path !in folders {
          return true;
        }
        if Refuses(attempts[attempt], requirePins) || !Acceptable(folders[path], requirePins) {
          return false;
        }
        var f := folders[path];
        if Completes(attempts[attempt], requirePins) {
          DeleteFiles(path, |f.entries|);
          folders := folders - {path};
          return true;
        }
        DeleteFiles(path, if attempts[attempt].FileHeld? && attempts[attempt].deleted < |f.entries|
                          then attempts[attempt].deleted else |f.entries|);
      }
      return false;
    }

    /** Every candidate is checked before any is deleted. */
    method RemovePriorWorkingDirectories(listing: seq<string>, tests: seq<Test>, attempts: seq<seq<Attempt>>) returns (ok: bool)
      requires Listed(folders, listing) && |tests| == |listing| == |attempts|
      requires forall i | 0 <= i < |attempts| :: |attempts[i]| == CLEANUP_ATTEMPTS
      modifies this
      ensures !AllPass(old(folders), listing, tests) ==> !ok && folders == old(folders)
      ensures ok <==> AllPass(old(folders), listing, tests) && forall i | 0 <= i < |listing| :: GoesThrough(attempts[i], true)
      ensures ok ==> folders == map[]
      ensures AllPass(old(folders), listing, tests) ==> Stays(old(folders), folders, listing, attempts)
      ensures forall path | path in folders :: path in old(folders) && TailOf(folders[path], old(folders)[path])
    {
      if |listing| > Lease.MAX_PRIOR {
        Unchanged(folders);
        return false;
      }
      for i := 0 to |listing|
        invariant folders == old(folders)
        invariant forall k | 0 <= k < i :: Passes(folders, listing[k], tests[k])
      {
        if !OldEnough(tests[i]) || !tests[i].readable || !Verified(folders[listing[i]], false) {
          Unchanged(folders);
          return false;
        }
      }
      ok := DeleteAll(listing, attempts);
    }

    /** Delete one verified directory. */
    method DeletePinned(path: string, attempts: seq<Attempt>) returns (gone: bool)
      requires path in folders && Verified(folders[path], false) && |attempts| == CLEANUP_ATTEMPTS
      modifies this
      ensures gone <==> GoesThrough(attempts, true)
      ensures Look(folders, path) == Deletion(Some(old(folders)[path]), true, attempts).0
      ensures gone ==> Look(folders, path) == None
      ensures forall other | other != path :: Look(folders, other) == Look(old(folders), other)
      ensures path in folders ==> TailOf(folders[path], old(folders)[path])
    {
      hide Verified, GoesThrough, Deletion, TailOf;
      var f := folders[path];
      VerifiedIsAcceptable(f);
      DeletionSucceedsIff(f, true, attempts);
      DeletionOnlyDeletes(f, true, attempts);
      gone := DeleteWorkingDirectory(path, true, attempts);
    }

    method DeleteAll(listing: seq<string>, attempts: seq<seq<Attempt>>) returns (ok: bool)
      requires Listed(folders, listing) && |listing| == |attempts|
      requires forall i | 0 <= i < |attempts| :: |attempts[i]| == CLEANUP_ATTEMPTS
      requires forall i | 0 <= i < |listing| :: Verified(folders[listing[i]], false)
      modifies this
      ensures ok <==> forall i | 0 <= i < |listing| :: GoesThrough(attempts[i], true)
      ensures ok ==> folders == map[]
      ensures Stays(old(folders), folders, listing, attempts)
      ensures forall path | path in folders :: path in old(folders) && TailOf(folders[path], old(folders)[path])
    {
      hide Verified, GoesThrough, Deletion, TailOf, GoneUpTo, Stays;
      AllUntouched(folders, listing, attempts);
      for i := 0 to |listing|
        invariant GoneUpTo(old(folders), folders, listing, attempts, i)
      {
        ghost var before := folders;
        NotYetGone(old(folders), folders, listing, attempts, i);
        var gone := DeletePinned(listing[i], attempts[i]);
        GoneNext(old(folders), before, folders, listing, attempts, i);
        if !gone {
          return false;
        }
      }
      AllGone(old(folders), folders, listing, attempts);
      return true;
    }
  }

  lemma AllUntouched(folders: map<string, Folder>, listing: seq<string>, attempts: seq<seq<Attempt>>)
    requires Listed(folders, listing) && |listing| == |attempts|
    ensures GoneUpTo(folders, folders, listing, attempts, 0)
  {
    Unchanged(folders);
  }

  lemma NotYetGone(before: map<string, Folder>, after: map<string, Folder>, listing: seq<string>, attempts: seq<seq<Attempt>>, i: nat)
    requires Listed(before, listing) && |listing| == |attempts| && i < |listing| && GoneUpTo(before, after, listing, attempts, i)
    ensures listing[i] in after && after[listing[i]] == before[listing[i]]
  {
    assert Look(after, listing[i]) == Some(before[listing[i]]);
  }

  lemma Unchanged(folders: map<string, Folder>)
    ensures forall path | path in folders :: TailOf(folders[path], folders[path])
  {
    forall path | path in folders ensures TailOf(folders[path], folders[path]) {
      TailOfItself(folders[path]);
    }
  }

  lemma VerifiedIsAcceptable(f: Folder)
    requires Verified(f, false)
    ensures Acceptable(f, true)
  {
  }

  // ----- the mutexes

  class Mutex {
    var state: Lease.Mutex

    constructor (state: Lease.Mutex)
      ensures this.state == state
    {
      this.state := state;
    }

    /** An abandoned mutex is acquired like a free one; a held one stays with
        its owner. */
    method TryAcquire(pid: nat) returns (acquired: bool)
      modifies this
      ensures acquired <==> !old(state).Held?
      ensures state == if acquired then Lease.Held(pid) else old(state)
    {
      acquired := !state.Held?;
      if acquired {
        state := Lease.Held(pid);
      }
    }

    method Release(pid: nat)
      requires state == Lease.Held(pid)
      modifies this
      ensures state == Lease.Free
    {
      state := Lease.Free;
    }
  }

  method IsWorkerActive(lease: Mutex, pid: nat) returns (active: bool)
    modifies lease
    ensures active <==> old(lease.state).Held?
    ensures lease.state == if active then old(lease.state) else Lease.Free
  {
    var acquired := lease.TryAcquire(pid);
    if !acquired {
      return true;
    }
    lease.Release(pid);
    return false;
  }

  // ----- the worker

  datatype Install = Installed | WrongShape | Failed | OtherFault

  /** The worker's exit code: 0 exactly when it held the lease on a complete,
      verified directory and the driver installed. */
  method RunWorker(lease: Mutex, pid: nat, exactPath: bool, readable: bool, folder: Option<Folder>, install: Install) returns (code: int)
    modifies lease
    ensures code == 0 <==> !old(lease.state).Held? && exactPath && readable && folder.Some? && Verified(folder.value, true) && install.Installed?
    ensures code == 3 <==> old(lease.state).Held?
    ensures code == 5 <==> !old(lease.state).Held? && !(exactPath && readable && folder.Some? && Verified(folder.value, true))
    ensures code == 6 <==> !old(lease.state).Held? && exactPath && readable && folder.Some? && Verified(folder.value, true) && install.WrongShape?
    ensures code in {0, 3, 5, 6, 7}
    ensures lease.state == if old(lease.state).Held? then old(lease.state) else Lease.Free
  {
    var acquired := lease.TryAcquire(pid);
    if !acquired {
      return 3;
    }
    if !exactPath || !readable || folder.None? || !Verified(folder.value, true) {
      code := 5;
    } else {
      match install {
        case Installed => code := 0;
        case WrongShape => code := 6;
        case Failed => code := 7;
        case OtherFault => code := 7;
      }
    }
    lease.Release(pid);
  }

  // ----- the coordinator

  datatype Download = Archive | Unreachable | WrongBytes | DownloadFault

  /** The outcome of creating the staging directory and of unpacking into it. */
  datatype Unpack =
    | NoDirectory(shape: bool)               // no directory could be made
    | Unpacked(path: string, folder: Folder) // unpacking ended normally
    | BadPins(path: string, folder: Folder)  // an entry, a length or a hash is wrong
    | UnpackFault(path: string, folder: Folder)

  /** The worker's exit code, or a failed launch. */
  datatype Launch = Exited(code: int) | NotLaunched(shape: bool)

  datatype Sweep = Sweep(listing: seq<string>, tests: seq<Test>, attempts: seq<seq<Attempt>>)

  datatype Events = Events(sweep: Sweep, download: Download, unpack: Unpack, launch: Launch, cleanup: seq<Attempt>)

  ghost predicate SweepFits(folders: map<string, Folder>, s: Sweep) {
    && Listed(folders, s.listing) && |s.tests| == |s.listing| == |s.attempts|
    && forall i | 0 <= i < |s.attempts| :: |s.attempts[i]| == CLEANUP_ATTEMPTS
  }

  predicate Swept(folders: map<string, Folder>, s: Sweep)
    requires |s.tests| == |s.listing| == |s.attempts|
  {
    AllPass(folders, s.listing, s.tests) && forall i | 0 <= i < |s.listing| :: GoesThrough(s.attempts[i], true)
  }

  /** Unpacking leaves a complete, verified directory. */
  predicate Staged(e: Events) {
    e.download.Archive? && e.unpack.Unpacked? && Verified(e.unpack.folder, true)
  }

  /** The exit code before cleaning. */
  function StagingCode(e: Events): int {
    match e.download
    case Unreachable => 4
    case WrongBytes => 5
    case DownloadFault => 7
    case Archive =>
      match e.unpack
      case NoDirectory(shape) => if shape then 6 else 7
      case BadPins(_, _) => 5
      case UnpackFault(_, _) => 7
      case Unpacked(_, folder) =>
        if !Verified(folder, true) then 5
        else
          match e.launch
          case NotLaunched(shape) => if shape then 6 else 7
          case Exited(code) => if code in {0, 3, 5, 6, 7} then code else 7
  }

  /** What each exit code before cleaning means; any other case gives 7. */
  lemma ExitCodesMean(e: Events)
    ensures StagingCode(e) in {0, 3, 4, 5, 6, 7}
    ensures StagingCode(e) == 0 <==> Staged(e) && e.launch == Exited(0)
    ensures StagingCode(e) == 3 <==> Staged(e) && e.launch == Exited(3)
    ensures StagingCode(e) == 4 <==> e.download.Unreachable?
    ensures StagingCode(e) == 5 <==>
      || e.download.WrongBytes?
      || (e.download.Archive? && e.unpack.BadPins?)
      || (e.download.Archive? && e.unpack.Unpacked? && (!Acceptable(e.unpack.folder, true) || |e.unpack.folder.entries| < 3))
      || (Staged(e) && e.launch == Exited(5))
    ensures StagingCode(e) == 6 <==>
      || (e.download.Archive? && e.unpack == NoDirectory(true))
      || (Staged(e) && (e.launch == NotLaunched(true) || e.launch == Exited(6)))
  {
    if e.download.Archive? && e.unpack.Unpacked? {
      VerifiedIff(e.unpack.folder, true);
    }
    hide Acceptable;
  }

  /** The old directories go exactly when there are at most 32, each is two
      minutes old and holds only pinned files with pinned bytes, and some attempt
      at each goes through. */
  lemma SweptIff(folders: map<string, Folder>, s: Sweep)
    requires |s.tests| == |s.listing| == |s.attempts|
    ensures Swept(folders, s) <==>
      && |s.listing| <= 32
      && forall i | 0 <= i < |s.listing| ::
           && s.listing[i] in folders && s.tests[i].now >= s.tests[i].lastWrite + 120000 && s.tests[i].readable
           && Acceptable(folders[s.listing[i]], true) && GoesThrough(s.attempts[i], true)
  {
    forall i | 0 <= i < |s.listing| && s.listing[i] in folders
      ensures Verified(folders[s.listing[i]], false) <==> Acceptable(folders[s.listing[i]], true)
    {
      VerifiedIff(folders[s.listing[i]], false);
    }
    hide Acceptable, Verified, GoesThrough;
  }

  /** A staging that succeeds fails to clean up exactly when no attempt goes through. */
  lemma CleansIff(e: Events)
    requires Staged(e)
    ensures Cleans(e) <==> GoesThrough(e.cleanup, true)
  {
    hide GoesThrough;
  }

  predicate Makes(e: Events) {
    e.download.Archive? && !e.unpack.NoDirectory?
  }

  /** The coordinator's staging directory is cleaned up. */
  predicate Cleans(e: Events) {
    Makes(e) ==> Acceptable(e.unpack.folder, Staged(e)) && GoesThrough(e.cleanup, Staged(e))
  }

  /** The coordinator under its mutex. Exit code 0 means that the worker
      returned 0 and that no staging directory, old or new, is left. */
  method RunCoordinatorLocked(lease: Mutex, pid: nat, disk: Disk, e: Events) returns (code: int)
    requires SweepFits(disk.folders, e.sweep) && |e.cleanup| == CLEANUP_ATTEMPTS
    modifies lease, disk
    ensures old(lease.state).Held? ==> code == 3 && disk.folders == old(disk.folders) && lease.state == old(lease.state)
    ensures !old(lease.state).Held? ==> lease.state == Lease.Free
    ensures !old(lease.state).Held? ==>
      code == if !Swept(old(disk.folders), e.sweep) then 10
              else if StagingCode(e) == 0 && !Cleans(e) then 8 else StagingCode(e)
    ensures !old(lease.state).Held? && !AllPass(old(disk.folders), e.sweep.listing, e.sweep.tests) ==>
      disk.folders == old(disk.folders)
    ensures !old(lease.state).Held? && Swept(old(disk.folders), e.sweep) ==>
      disk.folders == if Makes(e) then With(map[], e.unpack.path, Deletion(Some(e.unpack.folder), Staged(e), e.cleanup).0) else map[]
    ensures code == 0 ==> Staged(e) && e.launch == Exited(0) && disk.folders == map[]
    ensures code == 8 ==> Staged(e) && e.launch == Exited(0) && e.unpack.path in disk.folders
  {
    hide Acceptable, Verified, GoesThrough, AllPass, Listed, TailOf;
    var active := IsWorkerActive(lease, pid);
    if active {
      return 3;
    }
    var ok := disk.RemovePriorWorkingDirectories(e.sweep.listing, e.sweep.tests, e.sweep.attempts);
    if !ok {
      return 10;
    }
    assert disk.folders == map[];
    var workDirectory: Option<string> := None;
    var stagingComplete := false;
    var result := 7;
    if e.download.Unreachable? {
      result := 4;
    } else if e.download.WrongBytes? {
      result := 5;
    } else if e.download.Archive? {
      if e.unpack.NoDirectory? {
        result := if e.unpack.shape then 6 else 7;
      } else {
        workDirectory := Some(e.unpack.path);
        disk.folders := disk.folders[e.unpack.path := e.unpack.folder];
        if e.unpack.BadPins? || (e.unpack.Unpacked? && !Verified(e.unpack.folder, true)) {
          result := 5;
        } else if e.unpack.Unpacked? {
          stagingComplete := true;
          if e.launch.Exited? && e.launch.code in {0, 3, 5, 6, 7} {
            result := e.launch.code;
          } else if e.launch.NotLaunched? && e.launch.shape {
            result := 6;
          }
        }
      }
    }
    var cleaned := true;
    if workDirectory.Some? {
      cleaned := disk.DeleteWorkingDirectory(workDirectory.value, stagingComplete, e.cleanup);
      DeletionSucceedsIff(e.unpack.folder, stagingComplete, e.cleanup);
      LeftWhenNotCleaned(e.unpack.folder, stagingComplete, e.cleanup);
    }
    if !cleaned && result == 0 {
      return 8;
    }
    return result;
  }

  lemma {:induction false} LeftWhenNotCleaned(f: Folder, requirePins: bool, attempts: seq<Attempt>)
    ensures !Deletion(Some(f), requirePins, attempts).1 ==> Deletion(Some(f), requirePins, attempts).0.Some?
    decreases |attempts|
  {
    if attempts != [] && Attempted(f, requirePins, attempts[0]).Left? {
      LeftWhenNotCleaned(Attempted(f, requirePins, attempts[0]).folder, requirePins, attempts[1..]);
    }
  }
}

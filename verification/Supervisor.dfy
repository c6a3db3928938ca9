/**
 The supervisor S: `reap_exited`, `sweep` and `run_supervise`, with arbitrary moves of
 every other process between any two of S's kernel calls.
 */
module Supervisor {
  import opened Prelude
  import opened ProcessTable
  import opened SweepProtocol

  /** What one waitid call for any child finds; Interrupted is EINTR, WaitBroke any error but EINTR and ECHILD. */
  datatype Wait = Collected(child: Inc, pid: nat, status: ExitStatus) | NoChild | NothingYet | Interrupted | WaitBroke

  datatype ReapState = NoneLeft | SomeLeft | ReapFailed | StillReaping

  /** Complete is return code 0, Unidentifiable is -1, Deadline is -2. */
  datatype SweepResult = Complete | Unidentifiable | Deadline | StillSweeping

  datatype EntryResult = Passed | EntryFailed

  /** Test-only fault points read in supervise mode. */
  datatype Fault =
    | SubreaperUnavailable | PidfdUnavailable | ProcUnavailable | CloseRangeUnavailable
    | LandlockUnavailable | SweepBlocked

  /** The one record S writes on its report channel. */
  datatype Report =
    | SetupFailed(errno: int)
    | FaultBlocked(candidates: nat)
    | SweepFailed(reason: SweepResult)
    | Completed(workerStatus: int)

  /** Refused: no worker was started and nothing was reported.  Unfinished: S still waits. */
  datatype Outcome = Refused(code: nat) | Reported(report: Report, code: nat) | Unfinished

  predicate Completes(o: Outcome) {
    o.Reported? && o.report.Completed?
  }

  predicate FailedWith(o: Outcome, reason: SweepResult) {
    o.Reported? && o.report == SweepFailed(reason)
  }

  /** Which record and exit code S may end with once a worker was forked. */
  predicate ProperOutcome(o: Outcome, execErrno: Option<int>, fault: Option<Fault>) {
    && !o.Refused?
    && (execErrno.Some? ==> o == Reported(SetupFailed(execErrno.value), 125))
    && (execErrno == None && o.Reported? ==>
      match o.report
      case SetupFailed(_) => false
      case FaultBlocked(_) => fault == Some(SweepBlocked) && o.code == 124
      case SweepFailed(reason) => fault == None && o.code == 124 && (reason == Unidentifiable || reason == Deadline)
      case Completed(_) => fault == None && o.code == 0)
  }

  function ExitCode(s: ExitStatus): nat {
    match s
    case Exited(code) => code
    case KilledBy(signal) => 128 + signal
  }

  /** `status` is what the worker really ended with, encoded as S encodes it. */
  ghost predicate RealStatus(start: Kernel, log: seq<Event>, worker: Inc, status: int)
    requires Inv(start)
  {
    exists s: ExitStatus :: ExitedAs(start, log, worker, s) && status == ExitCode(s)
  }

  /** An incarnation has one real status, and it is never the initial -1. */
  lemma RealStatusIsUnique(start: Kernel, log: seq<Event>, worker: Inc, a: int, b: int)
    requires Inv(start) && RealStatus(start, log, worker, a) && RealStatus(start, log, worker, b)
    ensures a == b >= 0
  {
    var s: ExitStatus :| ExitedAs(start, log, worker, s) && a == ExitCode(s);
    var t: ExitStatus :| ExitedAs(start, log, worker, t) && b == ExitCode(t);
    var i: nat :| ExitAt(start, log, worker, s, i);
    var j: nat :| ExitAt(start, log, worker, t, j);
    ExitsOnce(start, log, worker, s, i, t, j);
  }

  /**
   `status` tells how the worker ended: the code of its exit, or 128 more than the signal that
   killed it.
   */
  ghost predicate TellsTheEnd(start: Kernel, log: seq<Event>, worker: Inc, status: int)
    requires Inv(start)
  {
    && (forall code: nat :: ExitedAs(start, log, worker, Exited(code)) ==> status == code)
    && (forall signal: nat :: ExitedAs(start, log, worker, KilledBy(signal)) ==> status == 128 + signal)
    && ((exists code: nat :: ExitedAs(start, log, worker, Exited(code)))
        || (exists signal: nat :: ExitedAs(start, log, worker, KilledBy(signal))))
  }

  lemma RealStatusTellsTheEnd(start: Kernel, log: seq<Event>, worker: Inc, status: int)
    requires Inv(start) && RealStatus(start, log, worker, status)
    ensures TellsTheEnd(start, log, worker, status)
  {
    var s: ExitStatus :| ExitedAs(start, log, worker, s) && status == ExitCode(s);
    var i: nat :| ExitAt(start, log, worker, s, i);
    forall t: ExitStatus | ExitedAs(start, log, worker, t) ensures t == s {
      var j: nat :| ExitAt(start, log, worker, t, j);
      ExitsOnce(start, log, worker, s, i, t, j);
    }
    match s
    case Exited(code) => assert ExitedAs(start, log, worker, Exited(code));
    case KilledBy(signal) => assert ExitedAs(start, log, worker, KilledBy(signal));
  }

  /** Incarnation `worker` was forked by S itself during the run. */
  ghost predicate SpawnedBySelf(start: Kernel, log: seq<Event>, worker: Inc)
    requires Inv(start)
  {
    exists i: nat :: i < |log| && log[i].Spawn? && Possible(Replay(start, log[..i]), log[i])
      && Replay(start, log[..i]).next == worker
  }

  /** A /proc entry name: a pid, or a name that is not a number. */
  type Entry = Option<nat>

  predicate Listed(scan: seq<Entry>, from: nat, pid: nat) {
    exists i :: from <= i < |scan| && scan[i] == Some(pid)
  }

  predicate ListedOnce(scan: seq<Entry>) {
    forall i, j | 0 <= i < j < |scan| && scan[i].Some? :: scan[i] != scan[j]
  }

  /** The listing names each of these processes once, and nothing else. */
  ghost predicate ListsExactly(k: Kernel, scan: seq<Entry>, done: set<Inc>)
    requires done <= k.procs.Keys
  {
    && ListedOnce(scan)
    && (forall x | x in done :: Listed(scan, 0, k.procs[x].pid))
    && (forall i | 0 <= i < |scan| :: IsPidOf(k, done, scan[i]))
  }

  ghost predicate IsPidOf(k: Kernel, done: set<Inc>, entry: Entry)
    requires done <= k.procs.Keys
  {
    exists x :: x in done && entry == Some(k.procs[x].pid)
  }

  predicate ListsEveryone(k: Kernel, scan: seq<Entry>) {
    forall x | x in k.procs :: Listed(scan, 0, k.procs[x].pid)
  }

  /** How many more forks the lineage of S has if it may reach `quota` members ever born. */
  ghost function ForksLeft(k: Kernel, quota: nat): nat {
    if |k.born| <= quota then quota - |k.born| else 0
  }

  /** How many processes of the lineage S may still have to reap. */
  ghost function Work(k: Kernel, quota: nat): nat {
    |Kin(k)| + ForksLeft(k, quota)
  }

  /** How high the tree under S may still become. */
  ghost function Rank(k: Kernel, quota: nat): nat
    requires TreeShape(k)
  {
    Height(k) + ForksLeft(k, quota)
  }

  /** No process that had left the table `k0` is in the later table `k`. */
  ghost predicate NoneReturn(k0: Kernel, k: Kernel) {
    k0.next <= k.next && forall c | c in k.procs && c < k0.next :: c in k0.procs
  }

  ghost predicate SameSelf(k0: Kernel, k: Kernel) {
    && k.self == k0.self && k.self in k.procs && k0.self in k0.procs
    && k.procs[k.self].pid == k0.procs[k0.self].pid && k.procs[k.self].subreaper == k0.procs[k0.self].subreaper
  }

  /** Every child of S in `k0` that is still in the table `k` keeps its place and its pid. */
  ghost predicate ChildrenKept(k0: Kernel, k: Kernel) {
    && k.self == k0.self && k0.next <= k.next
    && (forall c | c in k0.procs :: c < k0.next)
    && forall c | c in k.procs && IsChild(k0, c) :: IsChild(k, c) && k.procs[c].pid == k0.procs[c].pid
  }

  /** The children of S in `k0` are still its children, with their pids, all but `gone`. */
  ghost predicate OthersStay(k0: Kernel, k: Kernel, gone: Option<Inc>) {
    forall c | c in k0.procs && IsChild(k0, c) && gone != Some(c) :: IsChild(k, c) && k.procs[c].pid == k0.procs[c].pid
  }

  /** The zombie children of S in `k0` still are, all but `gone`. */
  ghost predicate ZombiesStay(k0: Kernel, k: Kernel, gone: Option<Inc>) {
    forall c | c in k0.procs && IsZombieChild(k0, c) && gone != Some(c) :: IsZombieChild(k, c)
  }

  /** What S reads off a reaped child: its pid while it still held it, and its exit status. */
  ghost predicate CollectedFrom(k: Kernel, k0: Kernel, w: Wait)
    requires w.Collected?
  {
    && IsZombieChild(k, w.child) && k.procs[w.child].pid == w.pid && k.procs[w.child].state.status == w.status
    && forall c | c in k0.procs && IsChild(k0, c) :: k0.procs[c].pid == w.pid <==> c == w.child
  }

  /** No surviving child of S in `k0` had this pid. */
  ghost predicate Cleared(k0: Kernel, k: Kernel, pid: nat) {
    forall c | c in k.procs && IsChild(k0, c) :: k0.procs[c].pid != pid
  }

  ghost function Children(k: Kernel): set<Inc> {
    set c | c in k.procs && IsChild(k, c)
  }

  /** The children of S in `k` with this pid: one, or none. */
  ghost function Holders(k: Kernel, pid: nat): set<Inc> {
    set c | c in Children(k) && k.procs[c].pid == pid
  }

  /** Every child of S in `k` has been found, or is listed at or after entry `from`. */
  ghost predicate YetToFind(k: Kernel, scan: seq<Entry>, from: nat, found: set<Inc>) {
    forall c | c in Children(k) :: c in found || Listed(scan, from, k.procs[c].pid)
  }

  /** What has been found are children of S whose pids are listed before entry `upto`. */
  ghost predicate FoundBefore(k: Kernel, scan: seq<Entry>, upto: nat, found: set<Inc>) {
    forall c | c in found ::
      c in Children(k) && exists i :: 0 <= i < upto && i < |scan| && scan[i] == Some(k.procs[c].pid)
  }

  /** The count after the first `upto` entries; it is exact as long as nothing has moved. */
  ghost predicate Tally(k: Kernel, scan: seq<Entry>, upto: nat, candidates: nat, found: set<Inc>, still: bool) {
    && ListedOnce(scan) && YetToFind(k, scan, upto, found) && |found| <= candidates
    && (still ==> |found| == candidates && FoundBefore(k, scan, upto, found))
  }

  /** Every surviving child of S in `k0` is listed at or after entry `from`. */
  ghost predicate LeftToVisit(k0: Kernel, k: Kernel, scan: seq<Entry>, from: nat) {
    forall c | c in k.procs && IsChild(k0, c) :: Listed(scan, from, k0.procs[c].pid)
  }

  /** The worker was running at each of these moments of the run. */
  ghost predicate RunningAt(start: Kernel, log: seq<Event>, worker: Inc, moments: seq<nat>)
    requires Inv(start)
  {
    forall i | 0 <= i < |moments| :: moments[i] <= |log| && IsRunning(Replay(start, log[..moments[i]]), worker)
  }

  /** `k` is the process table at some moment of the run. */
  ghost predicate TableOfRun(start: Kernel, log: seq<Event>, k: Kernel)
    requires Inv(start)
  {
    exists i :: 0 <= i <= |log| && k == Replay(start, log[..i])
  }

  /**
   The clock and the fuel allow a sweep to end that starts from `k` and meets at most `forks` forks
   of the lineage.
   */
  ghost predicate TimeEnough(k: Kernel, forks: nat, deadlineAfter: nat, fuel: nat) {
    TreeShape(k) && Height(k) + forks <= deadlineAfter && |Kin(k)| + forks < fuel
  }

  /**
   S and the kernel it runs on.  While `calm` holds, the lineage of S stays within `quota`
   members ever born, /proc lists every process and tells its parent truthfully, and no
   call fails for want of resources; the rest of the system forks as it likes.  Otherwise
   every fork, every answer of /proc and every failure is arbitrary.
   */
  class Supervisor {
    var calm: bool
    var quota: nat
    var failures: nat    // calls of S that failed for another reason than that their object is gone
    ghost const start: Kernel
    var k: Kernel
    ghost var log: seq<Event>

    ghost predicate Valid()
      reads this
    {
      Inv(start) && k == Replay(start, log) && (calm ==> |k.born| <= quota)
    }

    /** The log has only grown since it was `before`. */
    ghost predicate Continues(before: seq<Event>)
      reads this
    {
      Valid() && before <= log
    }

    lemma Rebase(before: seq<Event>)
      requires Valid() && before <= log
      ensures k == Replay(Replay(start, before), log[|before|..])
    {
      ReplayConcat(start, before, log[|before|..]);
      assert before + log[|before|..] == log;
    }

    /** In a calm world neither the work nor the rank grows. */
    lemma CalmShrinks(before: seq<Event>)
      requires Continues(before) && calm
      ensures Work(k, quota) <= Work(Replay(start, before), quota)
      ensures Rank(k, quota) <= Rank(Replay(start, before), quota)
    {
      Rebase(before);
      KinGrowsByForks(Replay(start, before), log[|before|..]);
      HeightGrowsByForks(Replay(start, before), log[|before|..]);
    }

    lemma Departed(before: seq<Event>)
      requires Continues(before)
      ensures NoneReturn(Replay(start, before), k)
    {
      Rebase(before);
      var k0 := Replay(start, before);
      ReplayKeepsBorn(k0, log[|before|..]);
      forall c | c in k.procs && c < k0.next ensures c in k0.procs {
        ReplayShrinks(k0, log[|before|..], c);
      }
    }

    constructor (table: Kernel, calm: bool, quota: nat)
      requires Inv(table) && (calm ==> |table.born| <= quota)
      ensures Valid() && k == start == table && log == [] && this.calm == calm && this.quota == quota
    {
      k, start, log := table, table, [];
      this.calm, this.quota, failures := calm, quota, 0;
    }

    /** A calm world allows this event. */
    predicate WithinQuota(e: Event)
      requires TreeShape(k) && IsRunning(k, k.self)
      reads this
    {
      calm ==> |Apply(k, e).born| <= quota
    }

    method Perform(e: Event)
      requires Valid() && WithinQuota(e)
      modifies `k, `log
      ensures Valid() && log == old(log) + [e] && k == Apply(old(k), e)
    {
      Replayed(e);
      hide Inv, Apply, TreeShape, Replay;
      log := log + [e];
      k := Apply(k, e);
    }

    lemma Replayed(e: Event)
      requires Valid()
      ensures Apply(k, e) == Replay(start, log + [e])
    {
      assert (log + [e])[..|log|] == log;
    }

    /** Forks apart, no event adds to the lineage. */
    lemma NoForkNoKin(k: Kernel, e: Event)
      requires Inv(k) && !e.Spawn? && !(e.Env? && e.move.Fork?)
      ensures Apply(k, e).born == k.born
    {
    }

    /** A step that the protocol allows; `pending` is the target owed after it. */
    method Step(e: Event, ghost pending: Option<Inc>)
      requires Valid() && LastIsProper(k, e, pending) && Protocol(start, log, PendingBefore(e, pending))
      requires !(e.Env? && e.move.Fork?) && (calm && e.Spawn? ==> |k.born| < quota)
      modifies `k, `log
      ensures Valid() && log == old(log) + [e] && k == Apply(old(k), e)
      ensures Protocol(start, log, pending)
    {
      if e.Spawn? {
        SpawnAddsOne(k, e.pid);
      } else {
        NoForkNoKin(k, e);
      }
      hide Inv, Replay, Apply, LastIsProper, PendingBefore;
      Perform(e);
      assert log[..|log| - 1] == old(log);
    }

    lemma SpawnAddsOne(k: Kernel, pid: nat)
      requires Inv(k)
      ensures |Apply(k, Spawn(pid)).born| <= |k.born| + 1
      ensures |Kin(Apply(k, Spawn(pid)))| <= |Kin(k)| + 1
      ensures forall q: nat | |k.born| <= q :: Work(Apply(k, Spawn(pid)), q + 1) <= Work(k, q) + 1
    {
      assert Kin(Apply(k, Spawn(pid))) <= Kin(k) + {k.next};
      SubsetSize(Kin(Apply(k, Spawn(pid))), Kin(k) + {k.next});
    }

    /** What no schedule of the others can do to S's children or to departed incarnations. */
    lemma OthersRespect(k0: Kernel, moves: seq<Event>)
      requires Inv(k0) && EnvOnly(moves)
      ensures ChildrenKept(k0, Replay(k0, moves)) && SameSelf(k0, Replay(k0, moves))
      ensures OthersStay(k0, Replay(k0, moves), None)
      ensures forall c | c in k0.procs && IsZombieChild(k0, c) :: IsZombieChild(Replay(k0, moves), c)
      ensures forall c: Inc | c < k0.next && c !in k0.procs :: c !in Replay(k0, moves).procs
    {
      var k1 := Replay(k0, moves);
      OthersKeepChildren(k0, moves, k0.self);
      OthersKeepFlag(k0, moves);
      ReplayKeepsBorn(k0, moves);
      assert forall c | c in k0.procs :: c < k0.next;
      hide Inv, Replay;
      forall c | c in k0.procs && IsChild(k0, c)
        ensures IsChild(k1, c) && k1.procs[c].pid == k0.procs[c].pid
        ensures IsZombieChild(k0, c) ==> IsZombieChild(k1, c)
      {
        OthersKeepChildren(k0, moves, c);
      }
      forall c: Inc | c < k0.next && c !in k0.procs ensures c !in k1.procs {
        GoneStaysGone(k0, moves, c);
      }
      assert k1.self == k0.self;
    }

    /** Any number of moves of the other processes. */
    method Others()
      requires Valid()
      modifies `k, `log
      ensures Continues(old(log)) && EnvOnly(log[|old(log)|..])
      ensures forall p: Option<Inc> :: Protocol(start, old(log), p) ==> Protocol(start, log, p)
      ensures ChildrenKept(old(k), k) && SameSelf(old(k), k) && OthersStay(old(k), k, None)
      ensures forall c | c in old(k).procs && IsZombieChild(old(k), c) :: IsZombieChild(k, c)
      ensures forall c: Inc | c < old(k).next && c !in old(k).procs :: c !in k.procs
    {
      hide Inv, Replay, Protocol, Apply, WithinQuota, TreeShape;
      var n: nat := *;
      ghost var moves: seq<Event> := [];
      while n > 0
        invariant Valid() && log == old(log) + moves && EnvOnly(moves)
      {
        var m: Move := *;
        Starts();
        if WithinQuota(Env(m)) {
          Perform(Env(m));
          moves := moves + [Env(m)];
        }
        n := n - 1;
      }
      assert log[|old(log)|..] == moves;
      ReplayConcat(start, old(log), moves);
      OthersRespect(old(k), moves);
      forall p: Option<Inc> | Protocol(start, old(log), p) ensures Protocol(start, log, p) {
        EnvKeepsProtocol(start, old(log), moves, p);
      }
    }

    lemma Reaped(k: Kernel, e: Event, c: Inc, k0: Kernel)
      requires Inv(k) && IsZombieChild(k, c) && (e == ReapAny(c) || e == ReapPinned(c))
      ensures SameSelf(k, Apply(k, e)) && Apply(k, e).born == k.born && |Kin(Apply(k, e))| < |Kin(k)|
      ensures c !in Apply(k, e).procs && ZombiesStay(k, Apply(k, e), Some(c))
      ensures ChildrenKept(k0, k) ==> ChildrenKept(k0, Apply(k, e))
    {
      assert Apply(k, e).procs.Keys == k.procs.Keys - {c};
      ChildDescends(k, c);
      assert c in k.born <==> Descendant(k, c);
      assert Kin(Apply(k, e)) == Kin(k) - {c} && c in Kin(k);
    }

    lemma PidTells(k0: Kernel, k: Kernel, c: Inc)
      requires Inv(k) && IsZombieChild(k, c) && OthersStay(k0, k, None)
      ensures CollectedFrom(k, k0, Collected(c, k.procs[c].pid, k.procs[c].state.status))
      ensures OthersStay(k0, Apply(k, ReapAny(c)), Some(c))
    {
      forall d | d in k0.procs && IsChild(k0, d) ensures k0.procs[d].pid == k.procs[c].pid <==> d == c {
        if k0.procs[d].pid == k.procs[c].pid {
          PidsAreDistinct(k, c, d, k.procs[c].pid);
        }
      }
    }

    lemma Signalled(k: Kernel, c: Inc)
      requires Inv(k) && IsChild(k, c)
      ensures Apply(k, Signal(c)) == k && SameSelf(k, k)
    {
    }

    method CollectZombie(c: Inc, ghost k0: Kernel) returns (w: Wait)
      requires Valid() && Protocol(start, log, None) && IsZombieChild(k, c) && OthersStay(k0, k, None)
      modifies `k, `log
      ensures Valid() && Protocol(start, log, None) && SameSelf(old(k), k)
      ensures log == old(log) + [ReapAny(c)] && k.born == old(k).born && |Kin(k)| < |Kin(old(k))|
      ensures OthersStay(k0, k, Some(c)) && ZombiesStay(old(k), k, Some(c))
      ensures w.Collected? && w.child == c && CollectedFrom(old(k), k0, w)
    {
      w := Collected(c, k.procs[c].pid, k.procs[c].state.status);
      Reaped(k, ReapAny(c), c, k);
      PidTells(k0, k, c);
      hide Inv, Replay, Protocol, TreeShape, Apply, OthersStay, ZombiesStay, CollectedFrom, SameSelf, Kin;
      Step(ReapAny(c), None);
    }

    /** Whether the next call fails, which it never does in a calm world. */
    method CallFails() returns (fails: bool)
      modifies `failures
      ensures fails ==> !calm
      ensures failures == old(failures) + if fails then 1 else 0
    {
      fails := *;
      fails := fails && !calm;
      if fails {
        failures := failures + 1;
      }
    }

    /** waitid(P_ALL, WEXITED): reaps some zombie child, if there is one, or fails as `breaks` says. */
    method WaitAny(breaks: bool) returns (w: Wait)
      requires Valid() && Protocol(start, log, None)
      modifies `k, `log, `failures
      ensures Continues(old(log)) && Protocol(start, log, None) && SameSelf(old(k), k)
      ensures w == WaitBroke <==> breaks
      ensures failures == old(failures) + if w == WaitBroke || w == Interrupted then 1 else 0
      ensures w == NoChild ==> NoChildren(k)
      ensures w == NothingYet ==> !NoChildren(k) && forall c | c in k.procs :: !IsZombieChild(k, c)
      ensures ZombiesStay(old(k), k, if w.Collected? then Some(w.child) else None)
      ensures calm ==> w != Interrupted
      ensures calm ==> Work(k, quota) <= Work(old(k), quota) - if w.Collected? then 1 else 0
      ensures OthersStay(old(k), k, if w.Collected? then Some(w.child) else None)
      ensures w.Collected? ==> |log| > 0 && log[|log| - 1] == ReapAny(w.child)
      ensures w.Collected? ==> CollectedFrom(Replay(start, log[..|log| - 1]), old(k), w)
    {
      hide Inv, Replay, Protocol, TreeShape, Height, Apply, Kin, Rank;
      Others();
      if calm {
        CalmShrinks(old(log));
      }
      var interrupted := false;
      if breaks {
        failures := failures + 1;
      } else {
        interrupted := CallFails();
      }
      if breaks {
        w := WaitBroke;
      } else if interrupted {
        w := Interrupted;
      } else if NoChildren(k) {
        w := NoChild;
      } else if c :| c in k.procs && IsZombieChild(k, c) {
        w := CollectZombie(c, old(k));
      } else {
        w := NothingYet;
      }
    }

    /**
     `reap_exited`: collects zombie children until none is left to collect.  The run is
     followed for at most `fuel` waits, since others may supply zombies for ever.
     */
    method ReapExited(fuel: nat) returns (state: ReapState)
      requires Valid() && Protocol(start, log, None)
      modifies `k, `log, `failures
      ensures Continues(old(log)) && Protocol(start, log, None) && SameSelf(old(k), k)
      ensures state == NoneLeft ==> NoChildren(k)
      ensures state == SomeLeft ==> !NoChildren(k)
      ensures calm ==> state != ReapFailed
      ensures failures == old(failures) + if state == ReapFailed then 1 else 0
      ensures calm && fuel > Work(old(k), quota) ==> state != StillReaping
    {
      hide Work;
      var left := fuel;
      while left > 0
        invariant Continues(old(log)) && Protocol(start, log, None) && SameSelf(old(k), k)
        invariant failures == old(failures)
        invariant left <= fuel && (calm ==> Work(k, quota) - left <= Work(old(k), quota) - fuel)
      {
        var breaks: bool := *;
        var w := WaitAny(breaks && !calm);
        match w
        case Collected(_, _, _) => left := left - 1;
        case NoChild => return NoneLeft;
        case NothingYet => return SomeLeft;
        case Interrupted => return ReapFailed;
        case WaitBroke => return ReapFailed;
      }
      return StillReaping;
    }

    /** `parent_of`: what /proc says about the parent of whoever holds the pid, if anybody does. */
    method ParentOf(pid: nat) returns (ppid: int)
      requires Valid()
      ensures calm && (forall t | t in k.procs :: !Holds(k, t, pid)) ==> ppid == -1
      ensures calm ==> forall t | t in k.procs && Holds(k, t, pid) ::
        k.procs[t].parent in k.procs && ppid == k.procs[k.procs[t].parent].pid
    {
      if !calm {
        ppid := *;
      } else if t :| t in k.procs && Holds(k, t, pid) {
        assert ParentFits(k, t);
        forall u | u in k.procs && Holds(k, u, pid) ensures u == t {
          PidsAreDistinct(k, u, t, pid);
        }
        ppid := k.procs[k.procs[t].parent].pid;
      } else {
        ppid := -1;
      }
    }

    lemma ChildDies(k: Kernel, t: Inc, status: ExitStatus, k0: Kernel)
      requires Inv(k) && IsChild(k, t) && IsRunning(k, t) && ChildrenKept(k0, k)
      ensures Possible(k, Env(Exit(t, status)))
      ensures var k' := Apply(k, Env(Exit(t, status)));
        IsZombieChild(k', t) && SameSelf(k, k') && ChildrenKept(k0, k')
    {
      assert ParentFits(k, t);
    }

    /** The end of a pinned target: it dies of the signal unless it has already exited. */
    method AwaitExit(target: Inc, ghost k0: Kernel)
      requires Valid() && IsChild(k, target) && Protocol(start, log, Some(target)) && ChildrenKept(k0, k)
      modifies `k, `log
      ensures Continues(old(log)) && SameSelf(old(k), k) && ChildrenKept(k0, k)
      ensures IsZombieChild(k, target) && Protocol(start, log, Some(target))
    {
      hide Inv, Replay, Protocol, Apply;
      Others();
      if k.procs[target].state.Running? {
        ChildDies(k, target, KilledBy(9), k0);
        Step(Env(Exit(target, KilledBy(9))), Some(target));
      }
      Others();
    }

    /** pidfd_send_signal with SIGKILL, and the wait for the target's end. */
    method KillAndWait(target: Inc, ghost k0: Kernel)
      requires Valid() && IsChild(k, target) && Protocol(start, log, None) && ChildrenKept(k0, k)
      modifies `k, `log
      ensures Continues(old(log)) && SameSelf(old(k), k) && ChildrenKept(k0, k)
      ensures IsZombieChild(k, target) && Protocol(start, log, Some(target))
    {
      hide Inv, Replay, Protocol, TreeShape, Apply, ChildrenKept, IsZombieChild, SameSelf;
      Signalled(k, target);
      Step(Signal(target), Some(target));
      AwaitExit(target, k0);
    }

    method ReapTarget(target: Inc, ghost k0: Kernel)
      requires Valid() && IsZombieChild(k, target) && Protocol(start, log, Some(target)) && ChildrenKept(k0, k)
      modifies `k, `log
      ensures Continues(old(log)) && SameSelf(old(k), k) && ChildrenKept(k0, k)
      ensures Protocol(start, log, None) && target !in k.procs
    {
      hide Inv, Replay, Protocol, TreeShape, Apply, ChildrenKept, SameSelf;
      Reaped(k, ReapPinned(target), target, k0);
      Step(ReapPinned(target), None);
    }

    /** Signals a proven child through its pidfd and reaps it through the same pidfd. */
    method Revoke(target: Inc, ghost k0: Kernel) returns (r: EntryResult)
      requires Valid() && IsChild(k, target) && Protocol(start, log, None) && ChildrenKept(k0, k)
      modifies `k, `log, `failures
      ensures Continues(old(log)) && SameSelf(old(k), k) && ChildrenKept(k0, k)
      ensures r == Passed ==> Protocol(start, log, None) && target !in k.procs
      ensures r == EntryFailed ==> !calm && (Protocol(start, log, None) || Protocol(start, log, Some(target)))
      ensures failures == old(failures) + if r == EntryFailed then 1 else 0
    {
      hide Inv, Replay, Protocol, TreeShape, Apply, ChildrenKept, IsZombieChild, SameSelf;
      var sendFails := CallFails();
      if sendFails {
        Signalled(k, target);
        return EntryFailed;
      }
      KillAndWait(target, k0);
      var waitFails := CallFails();
      if waitFails {
        return EntryFailed;
      }
      ghost var k1 := k;
      ReapTarget(target, k0);
      SelfTransitive(old(k), k1, k);
      r := Passed;
    }

    lemma PidsAreDistinct(k: Kernel, t: Inc, u: Inc, pid: nat)
      requires Inv(k) && Holds(k, t, pid) && Holds(k, u, pid)
      ensures t == u
    {
      assert SamePid(k, t, u);
    }

    /** pidfd_open, then waitid(P_PIDFD, WNOWAIT): a pinned incarnation proven to be S's own child. */
    method PinChild(pid: nat, ghost k0: Kernel) returns (r: EntryResult, target: Option<Inc>)
      requires Valid() && Protocol(start, log, None) && ChildrenKept(k0, k)
      modifies `k, `log, `failures
      ensures Continues(old(log)) && SameSelf(old(k), k) && ChildrenKept(k0, k) && Protocol(start, log, None)
      ensures target.Some? ==> r == Passed && IsChild(k, target.value)
      ensures failures == old(failures) + if r == EntryFailed then 1 else 0
      ensures calm ==> r == Passed && (target == None ==> Cleared(k0, k, pid))
      ensures calm ==> forall k': Kernel | target.Some? && NoneReturn(k, k') && target.value !in k'.procs ::
        Cleared(k0, k', pid)
    {
      hide Inv, Replay, Protocol, TreeShape;
      r, target := Passed, None;
      Others();
      if t :| t in k.procs && Holds(k, t, pid) {
        forall c | c in k.procs && IsChild(k0, c) && k0.procs[c].pid == pid ensures c == t {
          PidsAreDistinct(k, c, t, pid);
        }
        ghost var l1 := log;
        Others();
        Departed(l1);
        if IsChild(k, t) {
          target := Some(t);
        }
      }
      var fails := CallFails();
      if fails {
        r, target := EntryFailed, None;
      }
    }

    /** An entry is a candidate if /proc says its parent is S. */
    method IsCandidate(pid: nat, selfPid: nat, ghost k0: Kernel) returns (yes: bool)
      requires Valid() && Protocol(start, log, None) && ChildrenKept(k0, k) && selfPid == k.procs[k.self].pid
      modifies `k, `log
      ensures Continues(old(log)) && SameSelf(old(k), k) && ChildrenKept(k0, k) && Protocol(start, log, None)
      ensures calm && !yes ==> Cleared(k0, k, pid)
    {
      hide Inv, Replay, Protocol, TreeShape;
      Others();
      var ppid := ParentOf(pid);
      yes := ppid == selfPid;
      assert forall c | c in k.procs && IsChild(k0, c) && k0.procs[c].pid == pid :: Holds(k, c, pid);
    }

    /**
     One numeric /proc entry of a pass.  The pid may change hands between any two calls;
     the pidfd keeps the incarnation it pinned.
     */
    method VisitEntry(pid: nat, selfPid: nat, ghost k0: Kernel) returns (r: EntryResult)
      requires Valid() && Protocol(start, log, None) && ChildrenKept(k0, k) && selfPid == k.procs[k.self].pid
      modifies `k, `log, `failures
      ensures Continues(old(log)) && SameSelf(old(k), k) && ChildrenKept(k0, k)
      ensures r == Passed ==> Protocol(start, log, None)
      ensures failures == old(failures) + if r == EntryFailed then 1 else 0
      ensures r == EntryFailed ==> !calm && exists p: Option<Inc> :: Protocol(start, log, p)
      ensures NoneReturn(old(k), k) && (calm ==> Cleared(k0, k, pid))
    {
      hide Inv, Replay, Protocol, TreeShape, Height, ChildrenKept, Cleared, IsChild;
      r := Passed;
      var candidate := IsCandidate(pid, selfPid, k0);
      if candidate {
        var target;
        r, target := PinChild(pid, k0);
        if target.Some? {
          ghost var l1 := log;
          r := Revoke(target.value, k0);
          Departed(l1);
        }
      }
      Departed(old(log));
    }

    /** In a calm world, S's pid is the parent of a pid exactly if one of its children holds that pid. */
    lemma ParentIsSelf(pid: nat, ppid: int)
      requires Valid()
      requires (forall t | t in k.procs :: !Holds(k, t, pid)) ==> ppid == -1
      requires forall t | t in k.procs && Holds(k, t, pid) ::
        k.procs[t].parent in k.procs && ppid == k.procs[k.procs[t].parent].pid
      ensures ppid == k.procs[k.self].pid <==> exists t :: Holds(k, t, pid) && IsChild(k, t)
    {
      if ppid == k.procs[k.self].pid {
        var t :| t in k.procs && Holds(k, t, pid);
        PidsAreDistinct(k, k.procs[t].parent, k.self, ppid);
        assert ParentFits(k, t);
      }
    }

    /** readdir on /proc: in a calm world every process in the table is listed, and no pid twice. */
    method ReadProc() returns (scan: seq<Entry>)
      requires Valid()
      ensures calm ==> ListsEveryone(k, scan) && ListedOnce(scan)
    {
      scan := *;
      if calm && !(ListsEveryone(k, scan) && ListedOnce(scan)) {
        scan := ListAll();
      }
    }

    method ListAll() returns (scan: seq<Entry>)
      requires Valid()
      ensures ListsEveryone(k, scan) && ListedOnce(scan)
    {
      scan := [];
      var rest := k.procs.Keys;
      hide Inv, Replay, ListsExactly;
      NoneListed();
      while rest != {}
        invariant rest <= k.procs.Keys && ListsExactly(k, scan, k.procs.Keys - rest)
        decreases |rest|
      {
        var x :| x in rest;
        assert k.procs.Keys - (rest - {x}) == k.procs.Keys - rest + {x};
        ListOneMore(k, scan, k.procs.Keys - rest, x);
        scan, rest := scan + [Some(k.procs[x].pid)], rest - {x};
      }
      assert k.procs.Keys - rest == k.procs.Keys;
      AllListed(scan);
    }

    lemma NoneListed()
      requires Valid()
      ensures ListsExactly(k, [], k.procs.Keys - k.procs.Keys)
    {
    }

    lemma AllListed(scan: seq<Entry>)
      requires ListsExactly(k, scan, k.procs.Keys)
      ensures ListsEveryone(k, scan) && ListedOnce(scan)
    {
    }

    lemma ListOneMore(k: Kernel, scan: seq<Entry>, done: set<Inc>, x: Inc)
      requires Inv(k) && done <= k.procs.Keys && ListsExactly(k, scan, done) && x in k.procs && x !in done
      ensures ListsExactly(k, scan + [Some(k.procs[x].pid)], done + {x})
    {
      var more := scan + [Some(k.procs[x].pid)];
      assert more[|scan|] == Some(k.procs[x].pid);
      forall y | y in done ensures Listed(more, 0, k.procs[y].pid) {
        var i :| 0 <= i < |scan| && scan[i] == Some(k.procs[y].pid);
        assert more[i] == scan[i];
      }
      forall i | 0 <= i < |scan| ensures scan[i] != Some(k.procs[x].pid) {
        assert IsPidOf(k, done, scan[i]);
        var y :| y in done && scan[i] == Some(k.procs[y].pid);
        if k.procs[y].pid == k.procs[x].pid {
          PidsAreDistinct(k, x, y, k.procs[x].pid);
        }
      }
      forall i | 0 <= i < |more| ensures IsPidOf(k, done + {x}, more[i]) {
        if i < |scan| {
          assert IsPidOf(k, done, scan[i]);
          var y :| y in done && scan[i] == Some(k.procs[y].pid);
          assert y in done + {x};
        } else {
          assert x in done + {x} && more[i] == Some(k.procs[x].pid);
        }
      }
    }

    /** One full pass over a /proc listing. */
    method Pass(scan: seq<Entry>, selfPid: nat) returns (r: EntryResult)
      requires Valid() && Protocol(start, log, None) && selfPid == k.procs[k.self].pid
      modifies `k, `log, `failures
      ensures Continues(old(log)) && SameSelf(old(k), k)
      ensures r == Passed ==> Protocol(start, log, None)
      ensures r == EntryFailed ==> !calm && exists p: Option<Inc> :: Protocol(start, log, p)
      ensures failures == old(failures) + if r == EntryFailed then 1 else 0
      ensures calm && ListsEveryone(old(k), scan) ==> forall c | c in k.procs :: !IsChild(old(k), c)
    {
      ghost var k0 := k;
      Starts();
      r := Passed;
      hide Inv, Replay, Protocol, TreeShape;
      for i := 0 to |scan|
        invariant Continues(old(log)) && SameSelf(k0, k) && ChildrenKept(k0, k) && Protocol(start, log, None)
        invariant r == Passed && failures == old(failures)
        invariant calm && ListsEveryone(k0, scan) ==> LeftToVisit(k0, k, scan, i)
      {
        if scan[i].Some? {
          ghost var k1 := k;
          r := VisitEntry(scan[i].value, selfPid, k0);
          if r == EntryFailed {
            return;
          }
          if calm && ListsEveryone(k0, scan) {
            EntryVisited(k0, k1, k, scan, i);
          }
        }
      }
    }

    lemma Starts()
      requires Valid()
      ensures ChildrenKept(k, k) && SameSelf(k, k) && TreeShape(k) && IsRunning(k, k.self)
    {
    }

    lemma EntryVisited(k0: Kernel, k1: Kernel, k2: Kernel, scan: seq<Entry>, i: nat)
      requires LeftToVisit(k0, k1, scan, i) && ChildrenKept(k0, k1) && NoneReturn(k1, k2) && i < |scan|
      requires scan[i].Some? ==> Cleared(k0, k2, scan[i].value)
      ensures LeftToVisit(k0, k2, scan, i + 1)
    {
      forall c | c in k2.procs && IsChild(k0, c) ensures Listed(scan, i + 1, k0.procs[c].pid) {
        assert c < k0.next <= k1.next;
        var j :| i <= j < |scan| && scan[j] == Some(k0.procs[c].pid);
        assert j != i;
      }
    }

    /** One turn of the sweep loop up to the clock reading; None means the loop goes on. */
    method Turn(selfPid: nat, fuel: nat) returns (done: Option<SweepResult>)
      requires Valid() && Protocol(start, log, None) && selfPid == k.procs[k.self].pid
      modifies `k, `log, `failures
      ensures Continues(old(log)) && SameSelf(old(k), k)
      ensures done != Some(Unidentifiable) ==> Protocol(start, log, None)
      ensures done == Some(Unidentifiable) ==> !calm && exists p: Option<Inc> :: Protocol(start, log, p)
      ensures done != Some(Deadline)
      ensures failures == old(failures) + if done == Some(Unidentifiable) then 1 else 0
      ensures done == Some(Complete) ==> NoChildren(k)
      ensures calm && fuel > Work(old(k), quota) ==> done != Some(StillSweeping)
      ensures calm ==> Work(k, quota) <= Work(old(k), quota)
      ensures calm && done == None ==> Rank(k, quota) < Rank(old(k), quota)
    {
      hide Inv, Replay, Protocol, TreeShape, SameSelf, IsChild, NoChildren, Work, Rank, Kin, Height, ListsEveryone,
        ListedOnce;
      done := None;
      var state := ReapExited(fuel);
      if calm {
        CalmShrinks(old(log));
      }
      if state == NoneLeft {
        done := Some(Complete);
        return;
      } else if state == StillReaping {
        done := Some(StillSweeping);
        return;
      }
      if state == ReapFailed {
        done := Some(Unidentifiable);
        return;
      }
      var openFails := CallFails();
      if openFails {
        done := Some(Unidentifiable);
        return;
      }
      ghost var l2 := log;
      HeightOfChildren();
      var scan := ReadProc();
      SelfPidKept(old(k), k);
      var r := Pass(scan, selfPid);
      SelfTransitive(old(k), Replay(start, l2), k);
      if r == EntryFailed {
        done := Some(Unidentifiable);
        return;
      }
      if calm {
        PassLowersHeight(l2);
        CalmShrinks(l2);
      }
    }

    lemma SelfPidKept(k0: Kernel, k1: Kernel)
      requires SameSelf(k0, k1)
      ensures k1.procs[k1.self].pid == k0.procs[k0.self].pid
    {
    }

    lemma SelfTransitive(k0: Kernel, k1: Kernel, k2: Kernel)
      requires SameSelf(k0, k1) && SameSelf(k1, k2)
      ensures SameSelf(k0, k2)
    {
    }

    /**
     `sweep`.  `deadlineAfter` is the number of passes whose closing clock reading is still
     within the deadline; `fuel` bounds how far one `reap_exited` is followed.
     Complete means the lineage of S is gone from the table; in a calm world as many passes
     suffice as the tree is high and its lineage still forks.
     */
    method Sweep(deadlineAfter: nat, fuel: nat) returns (result: SweepResult)
      requires Valid() && Protocol(start, log, None)
      modifies `k, `log, `failures
      ensures Continues(old(log)) && SameSelf(old(k), k)
      ensures exists p: Option<Inc> :: Protocol(start, log, p)
      ensures result != Unidentifiable ==> Protocol(start, log, None)
      ensures result == Complete ==> NoChildren(k) && forall x | x in k.procs :: x !in k.born && !Descendant(k, x)
      ensures calm ==> result != Unidentifiable
      ensures calm && TimeEnough(old(k), ForksLeft(old(k), quota), deadlineAfter, fuel) ==> result == Complete
      ensures failures == old(failures) + if result == Unidentifiable then 1 else 0
    {
      Starts();
      TimeBounds(deadlineAfter, fuel);
      ghost var k0 := k;
      var selfPid, passes := k.procs[k.self].pid, 0;
      hide Inv, Replay, Protocol, TreeShape, TimeEnough, Rank, Work, SameSelf;
      while true
        invariant passes <= deadlineAfter && failures == old(failures)
        invariant Continues(old(log)) && SameSelf(k0, k) && Protocol(start, log, None)
        invariant calm ==> Work(k, quota) <= Work(k0, quota)
        invariant calm ==> Rank(k, quota) <= Rank(k0, quota) - passes
        decreases deadlineAfter - passes
      {
        ghost var k1 := k;
        SelfPidKept(k0, k);
        var done := Turn(selfPid, fuel);
        SelfTransitive(k0, k1, k);
        if done.Some? {
          if done.value == Complete {
            NothingLeft();
          }
          return done.value;
        }
        if passes == deadlineAfter {
          return Deadline;
        }
        passes := passes + 1;
      }
    }

    lemma TimeBounds(deadlineAfter: nat, fuel: nat)
      requires Valid()
      ensures TreeShape(k)
      ensures TimeEnough(k, ForksLeft(k, quota), deadlineAfter, fuel) ==>
        Rank(k, quota) <= deadlineAfter && Work(k, quota) < fuel
    {
    }

    lemma NothingLeft()
      requires Valid() && NoChildren(k)
      ensures TreeShape(k)
      ensures forall x | x in k.procs :: x !in k.born && !Descendant(k, x)
    {
      assert Replay(k, []) == k;
      CompletionIsFinal(k, []);
    }

    lemma HeightOfChildren()
      requires Valid()
      ensures TreeShape(k) && (Height(k) == 0 <==> NoChildren(k))
    {
      HeightZeroIffNoChildren(k);
    }

    /** What a pass is for: all former children gone, the tree is lower, but for the forks of its lineage. */
    lemma PassLowersHeight(before: seq<Event>)
      requires Continues(before) && calm
      requires forall c | c in k.procs :: !IsChild(Replay(start, before), c)
      ensures TreeShape(Replay(start, before)) && TreeShape(k)
      ensures Height(Replay(start, before)) > 0 ==> Rank(k, quota) < Rank(Replay(start, before), quota)
    {
      Rebase(before);
      ClearingChildrenLowersHeight(Replay(start, before), log[|before|..]);
    }

    lemma WorkerStatus(worker: Inc, w: Wait, k0: Kernel)
      requires Valid() && w.Collected? && w.child == worker && worker !in start.procs
      requires |log| > 0 && CollectedFrom(Replay(start, log[..|log| - 1]), k0, w)
      ensures RealStatus(start, log, worker, ExitCode(w.status))
    {
      ZombieExited(start, log[..|log| - 1], worker);
      ExitedAsExtends(start, log[..|log| - 1], log, worker, w.status);
    }

    lemma StatusExtends(before: seq<Event>, worker: Inc, status: int)
      requires Valid() && before <= log && RealStatus(start, before, worker, status)
      ensures RealStatus(start, log, worker, status)
    {
      var s: ExitStatus :| ExitedAs(start, before, worker, s) && status == ExitCode(s);
      ExitedAsExtends(start, before, log, worker, s);
    }

    /**
     The wait loop of `run_supervise`, followed for at most `waits` returns of waitid, the
     one numbered `breaksAt` failing with neither EINTR nor ECHILD.  `lost` is the branch
     that leaves the loop with the worker unseen: never on ECHILD, only on that failure.
     `blockedAt` are the moments at which S found itself still waiting, all of them with
     the worker running; `made` counts the waits.
     */
    method AwaitWorker(worker: Inc, workerPid: nat, waits: nat, breaksAt: Option<nat>)
      returns (watched: bool, lost: bool, status: int, ghost blockedAt: seq<nat>, ghost made: nat)
      requires Valid() && Protocol(start, log, None) && worker !in start.procs
      requires IsChild(k, worker) && k.procs[worker].pid == workerPid
      modifies `k, `log, `failures
      ensures Continues(old(log)) && Protocol(start, log, None)
      ensures if watched then RealStatus(start, log, worker, status) && !lost else status == -1
      ensures made <= waits && (if !watched && !lost then made == waits else made > 0)
      ensures breaksAt.Some? && !lost ==> made <= breaksAt.value
      ensures lost <==> made > 0 && breaksAt == Some((made - 1) as nat)
      ensures RunningAt(start, log, worker, blockedAt)
      ensures calm && waits >= |blockedAt| + Work(old(k), quota) ==> watched || lost
      ensures calm && IsZombieChild(old(k), worker) ==> blockedAt == []
      ensures failures >= old(failures)
    {
      hide Inv, Replay, Protocol, TreeShape, RealStatus, RunningAt, Work;
      ghost var dead := calm && IsZombieChild(k, worker);
      watched, lost, status, blockedAt, made := false, false, -1, [], 0;
      NeverBlocked(worker);
      var n := 0;
      while !watched && n < waits
        invariant Continues(old(log)) && Protocol(start, log, None) && !lost && failures >= old(failures)
        invariant !watched ==> IsChild(k, worker) && k.procs[worker].pid == workerPid && status == -1
        invariant watched ==> RealStatus(start, log, worker, status)
        invariant RunningAt(start, log, worker, blockedAt)
        invariant made == n <= waits && (watched ==> n > 0) && (breaksAt.Some? ==> n <= breaksAt.value)
        invariant dead ==> blockedAt == [] && (!watched ==> IsZombieChild(k, worker))
        invariant calm && !watched ==> Work(k, quota) + n <= Work(old(k), quota) + |blockedAt|
        decreases waits - n
      {
        ghost var k0, l0 := k, log;
        var w := WaitAny(breaksAt == Some(n));
        n, made := n + 1, made + 1;
        StillRanThen(l0, worker, blockedAt);
        match w {
          case Collected(_, pid, exit) =>
            if pid == workerPid {
              watched, status := true, ExitCode(exit);
              WorkerStatus(worker, w, k0);
            }
          case NoChild =>
            lost := true;
            break;
          case NothingYet =>
            RunsNow(worker, blockedAt);
            blockedAt := blockedAt + [|log|];
          case Interrupted =>    // EINTR: try again
          case WaitBroke =>
            lost := true;
            break;
        }
      }
      if !watched && !lost {
        WorkIsLeft(worker);
      }
    }

    lemma WorkIsLeft(worker: Inc)
      requires Valid() && IsChild(k, worker)
      ensures Work(k, quota) > 0
    {
      ChildDescends(k, worker);
      assert worker in k.born <==> Descendant(k, worker);
      assert worker in Kin(k);
    }

    lemma NeverBlocked(worker: Inc)
      requires Valid()
      ensures RunningAt(start, log, worker, [])
    {
    }

    lemma StillRanThen(before: seq<Event>, worker: Inc, moments: seq<nat>)
      requires Valid() && before <= log && RunningAt(start, before, worker, moments)
      ensures RunningAt(start, log, worker, moments)
    {
      forall i | 0 <= i < |moments| ensures log[..moments[i]] == before[..moments[i]] {
      }
    }

    lemma RunsNow(worker: Inc, moments: seq<nat>)
      requires Valid() && RunningAt(start, log, worker, moments) && IsChild(k, worker) && !IsZombieChild(k, worker)
      ensures RunningAt(start, log, worker, moments + [|log|])
    {
      assert log[..|log|] == log;
    }

    lemma StillNoChildren(before: seq<Event>)
      requires Valid() && before <= log && NoChildren(Replay(start, before)) && EnvOnly(log[|before|..])
      ensures NoChildren(k)
    {
      Rebase(before);
      CompletionIsFinal(Replay(start, before), log[|before|..]);
    }

    lemma FlagChangesNoParent()
      requires Valid()
      ensures var k' := Apply(k, BecomeSubreaper);
        && k'.procs[k.self].subreaper && k'.born == k.born && Kin(k') == Kin(k)
        && (NoChildren(k) ==> NoChildren(k'))
    {
      var k' := Apply(k, BecomeSubreaper);
      assert k'.procs.Keys == k.procs.Keys;
      assert NoChildren(k) ==> forall c | c in k'.procs :: !IsChild(k', c);
    }

    /** `require_process_prereqs` and the Landlock check: S becomes a subreaper before anything else. */
    method Prerequisites(fault: Option<Fault>) returns (ok: bool)
      requires Valid() && Protocol(start, log, None)
      modifies `k, `log
      ensures Valid() && old(log) <= log && Protocol(start, log, None)
      ensures NoChildren(old(k)) ==> NoChildren(k)
      ensures fault == Some(SubreaperUnavailable) ==>
        k.procs[k.self].subreaper == old(k).procs[old(k).self].subreaper
      ensures ok ==> (fault == None || fault == Some(SweepBlocked)) && k.procs[k.self].subreaper
      ensures calm && (fault == None || fault == Some(SweepBlocked)) ==> ok
      ensures calm ==> Work(k, quota) <= Work(old(k), quota)
    {
      hide Replay, Protocol, Apply, TreeShape, LineageIsTree, PidsDistinct;
      Others();
      if NoChildren(old(k)) {
        StillNoChildren(old(log));
      }
      if calm {
        CalmShrinks(old(log));
      }
      var available: bool := *;
      if fault == Some(SubreaperUnavailable) || !(available || calm) {
        return false;
      }
      FlagChangesNoParent();
      Step(BecomeSubreaper, None);
      available := *;
      return (available || calm) && (fault == None || fault.value == SweepBlocked);
    }

    lemma ForkMakesChild(pid: nat)
      requires Valid() && PidFree(k, pid) && k.procs[k.self].subreaper
      ensures var k' := Apply(k, Spawn(pid));
        && IsChild(k', k.next) && k'.procs[k.next].pid == pid && k.next !in start.procs
        && k'.born == k.born + {k.next} && k.next !in k.born
      ensures SpawnedBySelf(start, log + [Spawn(pid)], k.next)
    {
      assert (log + [Spawn(pid)])[..|log|] == log;
      ReplayKeepsBorn(start, log);
    }

    lemma SpawnExtends(before: seq<Event>, worker: Inc)
      requires Inv(start) && before <= log && SpawnedBySelf(start, before, worker)
      ensures SpawnedBySelf(start, log, worker)
    {
      var i: nat :| i < |before| && before[i].Spawn? && Possible(Replay(start, before[..i]), before[i])
        && Replay(start, before[..i]).next == worker;
      assert log[..i] == before[..i];
    }

    method FreePid() returns (pid: nat)
      requires Valid()
      ensures PidFree(k, pid)
    {
      var rest := k.procs.Keys;
      pid := 0;
      while rest != {}
        invariant rest <= k.procs.Keys
        invariant forall x | x in k.procs.Keys - rest :: k.procs[x].pid < pid
        decreases |rest|
      {
        var x :| x in rest;
        if k.procs[x].pid >= pid {
          pid := k.procs[x].pid + 1;
        }
        rest := rest - {x};
      }
    }

    /** fork: the kernel picks any free pid, or the call fails.  S's own fork does not count against the quota. */
    method ForkWorker() returns (worker: Option<Inc>, pid: nat)
      requires Valid() && Protocol(start, log, None) && k.procs[k.self].subreaper
      modifies `k, `log, `quota
      ensures Valid() && old(log) <= log && Protocol(start, log, None)
      ensures worker == None ==> !calm && k == old(k)
      ensures calm ==> Work(k, quota) <= Work(old(k), old(quota)) + 1
      ensures worker.Some? ==>
        IsChild(k, worker.value) && k.procs[worker.value].pid == pid && worker.value !in start.procs
      ensures worker.Some? ==> SpawnedBySelf(start, log, worker.value)
    {
      pid := *;
      if !PidFree(k, pid) {
        if !calm {
          return None, pid;
        }
        pid := FreePid();
      }
      worker := Some(k.next);
      ForkInto(pid);
    }

    method ForkInto(pid: nat)
      requires Valid() && Protocol(start, log, None) && k.procs[k.self].subreaper && PidFree(k, pid)
      modifies `k, `log, `quota
      ensures Valid() && old(log) <= log && Protocol(start, log, None)
      ensures calm ==> Work(k, quota) <= Work(old(k), old(quota)) + 1
      ensures var worker := old(k.next);
        && IsChild(k, worker) && k.procs[worker].pid == pid && worker !in start.procs
        && SpawnedBySelf(start, log, worker)
    {
      ForkMakesChild(pid);
      SpawnAddsOne(k, pid);
      hide Inv, Replay, Protocol, Apply, SpawnedBySelf, Kin, Work, TreeShape, IsChild, PidFree, NoChildren;
      quota := quota + 1;
      Step(Spawn(pid), None);
    }

    /** The wait for a worker that failed before exec: it has written its errno and exits. */
    method CollectFailedWorker(worker: Inc)
      requires Valid() && Protocol(start, log, None) && IsChild(k, worker)
      modifies `k, `log
      ensures Valid() && old(log) <= log && Protocol(start, log, None)
    {
      hide Inv, Replay, Protocol, Apply;
      Others();
      if k.procs[worker].state.Running? {
        Starts();
        ChildDies(k, worker, Exited(127), k);
        Step(Env(Exit(worker, Exited(127))), None);
      }
      Others();
      Step(ReapAny(worker), None);
    }

    /** One entry of the count: a candidate if /proc says that its parent is S. */
    method CountEntry(pid: nat, ghost k0: Kernel) returns (counted: bool)
      requires Valid() && Protocol(start, log, None) && Inv(k0) && OthersStay(k0, k, None)
      modifies `k, `log
      ensures Valid() && old(log) <= log && Protocol(start, log, None) && OthersStay(k0, k, None)
      ensures log == old(log) ==> k == old(k)
      ensures calm && !counted ==> Holders(k0, pid) == {}
      ensures calm && counted && k == k0 ==> Holders(k0, pid) != {}
    {
      hide Inv, Replay, Protocol, Apply, TreeShape, Holders;
      Others();
      var ppid := ParentOf(pid);
      counted := ppid == k.procs[k.self].pid;
      HoldersRemain(k0, k, pid);
      if calm {
        ParentIsSelf(pid, ppid);
        SomeHolder(k, pid);
      }
    }

    /**
     The test-only fault after the worker's end: S counts the candidates and kills nothing.  In a
     calm world none of its children is missed, and nothing else is counted if nothing moves.
     */
    method CountCandidates() returns (candidates: nat)
      requires Valid() && Protocol(start, log, None)
      modifies `k, `log
      ensures Valid() && old(log) <= log && Protocol(start, log, None)
      ensures calm ==> candidates >= |Children(old(k))|
      ensures calm && log == old(log) ==> candidates == |Children(old(k))|
    {
      candidates := 0;
      ghost var k0, l0 := k, log;
      Starts();
      StaysAsIs();
      var scan := ReadProc();
      ghost var found: set<Inc> := {};
      hide *;
      if calm {
        NothingTallied(k0, scan);
      }
      for i := 0 to |scan|
        invariant Counting(k0, l0, scan, i, candidates, found)
      {
        candidates, found := CountOne(scan, i, candidates, k0, l0, found);
      }
      Counted(k0, l0, scan, candidates, found);
    }

    /** How the count stands before entry `i`. */
    ghost predicate Counting(k0: Kernel, l0: seq<Event>, scan: seq<Entry>, i: nat, candidates: nat, found: set<Inc>)
      reads this
    {
      && Valid() && l0 <= log && Protocol(start, log, None)
      && Inv(k0) && OthersStay(k0, k, None) && (log == l0 ==> k == k0)
      && (calm ==> Tally(k0, scan, i, candidates, found, log == l0))
    }

    lemma Counted(k0: Kernel, l0: seq<Event>, scan: seq<Entry>, candidates: nat, found: set<Inc>)
      requires Counting(k0, l0, scan, |scan|, candidates, found)
      ensures Valid() && l0 <= log && Protocol(start, log, None)
      ensures calm ==> candidates >= |Children(k0)| && (log == l0 ==> candidates == |Children(k0)|)
    {
      if calm {
        AllFound(k0, scan, candidates, found, log == l0);
      }
    }

    method CountOne(scan: seq<Entry>, i: nat, candidates: nat, ghost k0: Kernel, ghost l0: seq<Event>,
                    ghost found: set<Inc>)
      returns (now: nat, ghost nowFound: set<Inc>)
      requires i < |scan| && Counting(k0, l0, scan, i, candidates, found)
      modifies `k, `log
      ensures Counting(k0, l0, scan, i + 1, now, nowFound)
    {
      hide Inv, Replay, Protocol, Apply, TreeShape, Children, Holders, Tally, OthersStay;
      ghost var still := log == l0;
      var counted := false;
      if scan[i].Some? {
        counted := CountEntry(scan[i].value, k0);
      }
      now := candidates + if counted then 1 else 0;
      nowFound := found + if counted then Holders(k0, scan[i].value) else {};
      if calm {
        TallyEntry(k0, scan, i, candidates, found, still, counted, log == l0);
      }
    }

    lemma NothingTallied(k: Kernel, scan: seq<Entry>)
      requires ListsEveryone(k, scan) && ListedOnce(scan)
      ensures Tally(k, scan, 0, 0, {}, true)
    {
    }

    lemma TallyEntry(k: Kernel, scan: seq<Entry>, i: nat, candidates: nat, before: set<Inc>, still: bool,
                     counted: bool, stillNow: bool)
      requires Inv(k) && i < |scan| && Tally(k, scan, i, candidates, before, still)
      requires stillNow ==> still
      requires counted ==> scan[i].Some?
      requires scan[i].Some? && !counted ==> Holders(k, scan[i].value) == {}
      requires scan[i].Some? && counted && stillNow ==> Holders(k, scan[i].value) != {}
      ensures var found := before + if counted then Holders(k, scan[i].value) else {};
        Tally(k, scan, i + 1, candidates + if counted then 1 else 0, found, stillNow)
    {
      var found := before + if counted then Holders(k, scan[i].value) else {};
      if scan[i].Some? {
        HoldersAreFew(k, scan[i].value, before);
      }
      forall c | c in Children(k) ensures c in found || Listed(scan, i + 1, k.procs[c].pid) {
        assert c in Holders(k, k.procs[c].pid);
        if c !in before {
          var j :| i <= j < |scan| && scan[j] == Some(k.procs[c].pid);
          assert j == i || Listed(scan, i + 1, k.procs[c].pid);
        }
      }
      if counted && stillNow {
        EntryIsNew(k, scan, i, before);
      }
    }

    /** An entry counted while nothing moves finds one more child, not one found before. */
    lemma EntryIsNew(k: Kernel, scan: seq<Entry>, i: nat, before: set<Inc>)
      requires Inv(k) && i < |scan| && ListedOnce(scan) && FoundBefore(k, scan, i, before)
      requires scan[i].Some? && Holders(k, scan[i].value) != {}
      ensures FoundBefore(k, scan, i + 1, before + Holders(k, scan[i].value))
      ensures |before + Holders(k, scan[i].value)| == |before| + 1
    {
      var t :| t in Holders(k, scan[i].value);
      forall u | u in Holders(k, scan[i].value) ensures u == t {
        PidsAreDistinct(k, u, t, scan[i].value);
      }
      assert Holders(k, scan[i].value) == {t} && t !in before;
    }

    lemma AllFound(k: Kernel, scan: seq<Entry>, candidates: nat, found: set<Inc>, still: bool)
      requires Tally(k, scan, |scan|, candidates, found, still)
      ensures |Children(k)| <= candidates && (still ==> |Children(k)| == candidates)
    {
      SubsetSize(Children(k), found);
      if still {
        SubsetSize(found, Children(k));
      }
    }

    /** A pid has at most one holder among the children of S. */
    lemma HoldersAreFew(k: Kernel, pid: nat, found: set<Inc>)
      requires Inv(k)
      ensures |found + Holders(k, pid)| <= |found| + 1
    {
      if Holders(k, pid) != {} {
        var t :| t in Holders(k, pid);
        forall u | u in Holders(k, pid) ensures u == t {
          PidsAreDistinct(k, u, t, pid);
        }
        assert Holders(k, pid) == {t};
      } else {
        assert found + Holders(k, pid) == found;
      }
    }

    lemma HoldersRemain(k0: Kernel, k: Kernel, pid: nat)
      requires OthersStay(k0, k, None)
      ensures Holders(k0, pid) != {} ==> exists t :: Holds(k, t, pid) && IsChild(k, t)
    {
      if Holders(k0, pid) != {} {
        var t :| t in Holders(k0, pid);
        assert Holds(k, t, pid) && IsChild(k, t);
      }
    }

    lemma SomeHolder(k: Kernel, pid: nat)
      ensures Holders(k, pid) != {} <==> exists t :: Holds(k, t, pid) && IsChild(k, t)
    {
      if t :| Holds(k, t, pid) && IsChild(k, t) {
        assert t in Holders(k, pid);
      }
      if Holders(k, pid) != {} {
        var t :| t in Holders(k, pid);
        assert Holds(k, t, pid) && IsChild(k, t);
      }
    }

    lemma StaysAsIs()
      requires Valid()
      ensures Inv(k) && OthersStay(k, k, None)
    {
    }

    /** How many forks of its lineage a sweep that starts now can meet, if the world bounds them at all. */
    ghost function ForksAhead(quiet: Option<nat>): Option<nat>
      reads this
    {
      if calm then Some(ForksLeft(k, quota)) else quiet
    }

    /**
     The sweep of a supervisor around which the world is calm from now on, with `quiet` forks to
     come, if any are given.
     */
    method SweepQuietly(quiet: Option<nat>, deadlineAfter: nat, fuel: nat) returns (result: SweepResult)
      requires Valid() && Protocol(start, log, None)
      modifies `k, `log, `failures, `calm, `quota
      ensures Valid() && old(log) <= log && calm == old(calm) && (calm ==> quota == old(quota))
      ensures exists p: Option<Inc> :: Protocol(start, log, p)
      ensures result == Complete ==> NoChildren(k) && forall x | x in k.procs :: x !in k.born && !Descendant(k, x)
      ensures var forks := old(ForksAhead(quiet));
        forks.Some? && TimeEnough(old(k), forks.value, deadlineAfter, fuel) ==> result == Complete
      ensures calm ==> result != Unidentifiable
      ensures result != Unidentifiable ==> Protocol(start, log, None)
      ensures failures == old(failures) + if result == Unidentifiable then 1 else 0
    {
      hide Inv, Replay, Protocol, Height, Kin;
      var before := calm;
      if !calm && quiet.Some? {
        calm, quota := true, |k.born| + quiet.value;
      }
      result := Sweep(deadlineAfter, fuel);
      calm := before;
    }

    /**
     What S does once its worker is forked: setup failure, or wait, sweep and report.
     `execErrno` is what the worker writes on the status pipe if it fails before exec.
     `quiet` lets the world become calm when the sweep starts, and only then; `atSweep` is
     the process table when S turns to what the worker left, if the run gets there.
     */
    method SuperviseWorker(worker: Inc, pid: nat, execErrno: Option<int>, fault: Option<Fault>, waits: nat,
                           breaksAt: Option<nat>, quiet: Option<nat>, deadlineAfter: nat, fuel: nat)
      returns (outcome: Outcome, ghost lost: bool, ghost atSweep: Option<Kernel>, ghost blockedAt: seq<nat>)
      requires Valid() && Protocol(start, log, None) && worker !in start.procs
      requires IsChild(k, worker) && k.procs[worker].pid == pid
      requires fault == None || fault == Some(SweepBlocked)
      modifies `k, `log, `failures, `calm, `quota
      ensures Valid() && old(log) <= log && calm == old(calm) && (calm ==> quota == old(quota))
      ensures exists p: Option<Inc> :: Protocol(start, log, p)
      ensures ProperOutcome(outcome, execErrno, fault)
      ensures !FailedWith(outcome, Unidentifiable) && outcome != Unfinished ==> Protocol(start, log, None)
      ensures calm ==> !FailedWith(outcome, Unidentifiable)
      ensures failures >= old(failures) && (FailedWith(outcome, Unidentifiable) ==> failures > old(failures))
      ensures Completes(outcome) ==>
        && NoChildren(k) && (forall x | x in k.procs :: x !in k.born && !Descendant(k, x))
        && StatusFits(worker, lost, outcome.report.workerStatus)
        && (!lost ==> TellsTheEnd(start, log, worker, outcome.report.workerStatus))
      ensures lost ==> breaksAt.Some? && breaksAt.value < waits
      ensures execErrno == None && waits > 0 && breaksAt == Some(0) ==> lost
      ensures RunningAt(start, log, worker, blockedAt)
      ensures calm && IsZombieChild(old(k), worker) ==> blockedAt == []
      ensures execErrno == None ==>
        && (atSweep == None ==> outcome == Unfinished && !lost)
        && (calm && waits >= |blockedAt| + Work(old(k), quota) ==> atSweep.Some?)
      ensures atSweep.Some? ==>
        && TableOfRun(start, log, atSweep.value)
        && (calm ==> Work(atSweep.value, quota) <= Work(old(k), quota))
        && (fault.Some? ==> CountsChildren(outcome, atSweep.value))
      ensures atSweep.Some? && fault == None ==>
        && (var forks := if calm then Some(ForksLeft(atSweep.value, quota)) else quiet;
            forks.Some? && TimeEnough(atSweep.value, forks.value, deadlineAfter, fuel) ==> Completes(outcome))
        && (calm && deadlineAfter >= Work(old(k), quota) && fuel > Work(old(k), quota) ==> Completes(outcome))
    {
      hide Inv, Replay, Protocol, Apply, TreeShape, RealStatus, TellsTheEnd, Height, RunningAt, TimeEnough, TableOfRun,
        Work, Children;
      lost, atSweep, blockedAt := false, None, [];
      NeverBlocked(worker);
      if execErrno.Some? {
        CollectFailedWorker(worker);
        NeverBlocked(worker);
        return Reported(SetupFailed(execErrno.value), 125), false, None, [];
      }
      var watched, broke, status;
      ghost var made;
      watched, broke, status, blockedAt, made := AwaitWorker(worker, pid, waits, breaksAt);
      lost := broke;
      if !watched && !broke {
        return Unfinished, lost, None, blockedAt;
      }
      ghost var l1 := log;
      if calm {
        CalmShrinks(old(log));
        WorkIsTimeEnough(deadlineAfter, fuel);
      }
      atSweep := Some(k);
      if fault == Some(SweepBlocked) {
        var candidates := CountCandidates();
        StillRanThen(l1, worker, blockedAt);
        WasTheTable(l1);
        return Reported(FaultBlocked(candidates), 124), lost, atSweep, blockedAt;
      }
      var result := SweepQuietly(quiet, deadlineAfter, fuel);
      StillRanThen(l1, worker, blockedAt);
      WasTheTable(l1);
      if result == StillSweeping {
        outcome := Unfinished;
      } else if result != Complete {
        outcome := Reported(SweepFailed(result), 124);
      } else {
        if watched {
          StatusExtends(l1, worker, status);
          RealStatusTellsTheEnd(start, log, worker, status);
        }
        RealStatusIsProper(worker, status);
        outcome := Reported(Completed(status), 0);
      }
    }

    /** The fault report: in a calm world it counts no fewer candidates than S had children. */
    ghost predicate CountsChildren(outcome: Outcome, atSweep: Kernel)
      reads this
    {
      && outcome.Reported? && outcome.report.FaultBlocked? && outcome.code == 124
      && (calm ==> outcome.report.candidates >= |Children(atSweep)|)
    }

    /**
     The status S reports is the worker's real one exactly when the worker was not lost, and the
     initial -1 exactly when it was.
     */
    ghost predicate StatusFits(worker: Inc, lost: bool, status: int)
      requires Inv(start)
      reads this
    {
      (!lost <==> RealStatus(start, log, worker, status)) && (lost <==> status == -1)
    }

    lemma RealStatusIsProper(worker: Inc, status: int)
      requires Valid()
      ensures RealStatus(start, log, worker, status) ==> status >= 0
    {
      if RealStatus(start, log, worker, status) {
        RealStatusIsUnique(start, log, worker, status, status);
      }
    }

    lemma WasTheTable(before: seq<Event>)
      requires Valid() && before <= log
      ensures TableOfRun(start, log, Replay(start, before))
    {
      assert log[..|before|] == before;
    }

    lemma WorkIsTimeEnough(deadlineAfter: nat, fuel: nat)
      requires Valid()
      ensures deadlineAfter >= Work(k, quota) && fuel > Work(k, quota) ==>
        TimeEnough(k, ForksLeft(k, quota), deadlineAfter, fuel)
    {
      HeightAtMostKin(k);
    }

    /** The refusals, or the fork: `run_supervise` up to its worker. */
    method StartWorker(fault: Option<Fault>) returns (worker: Option<Inc>, pid: nat)
      requires Valid() && Protocol(start, log, None)
      modifies `k, `log, `quota
      ensures Valid() && old(log) <= log && Protocol(start, log, None)
      ensures worker == None ==> NoChildren(old(k)) ==> NoChildren(k)
      ensures worker.Some? ==> fault == None || fault == Some(SweepBlocked)
      ensures calm && (fault == None || fault == Some(SweepBlocked)) ==> worker.Some?
      ensures calm ==> Work(k, quota) <= Work(old(k), old(quota)) + 1
      ensures worker.Some? ==>
        IsChild(k, worker.value) && k.procs[worker.value].pid == pid && worker.value !in start.procs
      ensures worker.Some? ==> SpawnedBySelf(start, log, worker.value)
    {
      hide Inv, Replay, Protocol, SpawnedBySelf, Work, NoChildren, IsChild;
      worker, pid := None, 0;
      var ok := Prerequisites(fault);
      if ok {
        worker, pid := ForkWorker();
      }
    }

    /**
     `run_supervise`.  COMPLETE is reported only when nothing of S's lineage is left in the
     table, never under a fault, and with the worker's own exit status unless waitid broke
     down while S waited for it, and with -1 if it did.  Once the lineage forks at most
     `quiet` times more when the sweep starts, and there is time for as many passes as the
     tree is then high and still forks, COMPLETE is certain; and in a calm world the sweep
     does start, waits in which the worker still ran aside, within as many waits as there
     are processes of S to reap.
     */
    method RunSupervise(execErrno: Option<int>, fault: Option<Fault>, waits: nat, breaksAt: Option<nat>,
                        quiet: Option<nat>, deadlineAfter: nat, fuel: nat)
      returns (outcome: Outcome, worker: Option<Inc>, ghost lost: bool, ghost atSweep: Option<Kernel>,
        ghost blockedAt: seq<nat>)
      requires Valid() && log == []
      modifies `k, `log, `failures, `calm, `quota
      ensures Valid() && calm == old(calm) && exists p: Option<Inc> :: Protocol(start, log, p)
      ensures outcome.Refused? <==> worker == None
      ensures worker == None ==> (NoChildren(old(k)) ==> NoChildren(k)) && outcome == Refused(125) && atSweep == None
      ensures fault.Some? && fault != Some(SweepBlocked) ==> worker == None
      ensures calm && (fault == None || fault == Some(SweepBlocked)) ==> worker.Some?
      ensures worker.Some? ==> SpawnedBySelf(start, log, worker.value) && ProperOutcome(outcome, execErrno, fault)
      ensures !FailedWith(outcome, Unidentifiable) && outcome != Unfinished ==> Protocol(start, log, None)
      ensures calm ==> !FailedWith(outcome, Unidentifiable)
      ensures failures >= old(failures) && (FailedWith(outcome, Unidentifiable) ==> failures > old(failures))
      ensures Completes(outcome) ==>
        && worker.Some?
        && NoChildren(k) && (forall x | x in k.procs :: x !in k.born && !Descendant(k, x))
        && StatusFits(worker.value, lost, outcome.report.workerStatus)
        && (!lost ==> TellsTheEnd(start, log, worker.value, outcome.report.workerStatus))
      ensures lost ==> breaksAt.Some? && breaksAt.value < waits
      ensures worker.Some? && execErrno == None && waits > 0 && breaksAt == Some(0) ==> lost
      ensures worker.Some? ==> RunningAt(start, log, worker.value, blockedAt)
      ensures worker.Some? && execErrno == None ==>
        && (atSweep == None ==> outcome == Unfinished && !lost)
        && (calm && waits > |blockedAt| + Work(old(k), old(quota)) ==> atSweep.Some?)
      ensures atSweep.Some? ==>
        && TableOfRun(start, log, atSweep.value)
        && (fault.Some? ==> CountsChildren(outcome, atSweep.value))
      ensures atSweep.Some? && fault == None ==>
        && (var forks := if calm then Some(ForksLeft(atSweep.value, quota)) else quiet;
            forks.Some? && TimeEnough(atSweep.value, forks.value, deadlineAfter, fuel) ==> Completes(outcome))
        && (calm && deadlineAfter > Work(old(k), old(quota)) && fuel > Work(old(k), old(quota)) + 1 ==>
          Completes(outcome))
    {
      assert Protocol(start, log, None);
      hide Replay, Protocol, Apply, RealStatus, TellsTheEnd, SpawnedBySelf, RunningAt, TimeEnough, TableOfRun,
        StatusFits, CountsChildren, Work, Kin, ProperOutcome, PidFree, LineageIsTree, PidsDistinct, ForksLeft;
      lost, atSweep, blockedAt := false, None, [];
      var pid;
      worker, pid := StartWorker(fault);
      if worker == None {
        return Refused(125), None, false, None, [];
      }
      ghost var l1 := log;
      outcome, lost, atSweep, blockedAt := SuperviseWorker(worker.value, pid, execErrno, fault, waits, breaksAt,
        quiet, deadlineAfter, fuel);
      SpawnExtends(l1, worker.value);
    }

    /**
     The one way to a wrong status: in a calm world with time enough, a run whose first
     wait breaks down always ends in COMPLETE with the initial -1.
     */
    method RunWithBrokenWait(waits: nat, deadlineAfter: nat, fuel: nat) returns (outcome: Outcome)
      requires Valid() && log == [] && calm && waits > 0
      requires deadlineAfter > Work(k, quota) && fuel > Work(k, quota) + 1
      modifies `k, `log, `failures, `calm, `quota
      ensures outcome == Reported(Completed(-1), 0)
    {
      hide Work, StatusFits;
      var worker;
      ghost var lost, atSweep, blockedAt;
      outcome, worker, lost, atSweep, blockedAt := RunSupervise(None, None, waits, Some(0), None, deadlineAfter, fuel);
      LostMeansMinusOne(worker.value, outcome.report.workerStatus);
    }

    lemma LostMeansMinusOne(worker: Inc, status: int)
      requires Valid() && StatusFits(worker, true, status)
      ensures status == -1
    {
    }
  }
}

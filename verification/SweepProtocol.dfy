/**
 What S may do with signals, as a predicate on the interleaved event log, and the facts
 about schedules that the sweep relies on.
 */
module SweepProtocol {
  import opened Prelude
  import opened ProcessTable

  /** The pinned, signalled and not yet reaped target before `last`, given the one after it. */
  function PendingBefore(last: Event, pending: Option<Inc>): Option<Inc> {
    match last
    case Env(_) => pending
    case ReapPinned(c) => Some(c)
    case _ => None
  }

  predicate LastIsProper(now: Kernel, last: Event, pending: Option<Inc>) {
    match last
    case Env(_) => true
    case Signal(t) => IsChild(now, t) && pending == Some(t)
    case ReapAny(c) => IsZombieChild(now, c) && pending == None
    case ReapPinned(c) => IsZombieChild(now, c) && pending == None
    case BecomeSubreaper => pending == None
    case Spawn(_) => pending == None
  }

  /**
   S signals only its own unreaped children, at most one at a time, and its next own
   call reaps exactly the signalled incarnation.  `pending` is the target still owed.
   */
  ghost predicate Protocol(k: Kernel, log: seq<Event>, pending: Option<Inc>)
    requires Inv(k)
    decreases |log|
  {
    if log == [] then pending == None else
      var before, last := log[..|log| - 1], log[|log| - 1];
      LastIsProper(Replay(k, before), last, pending) && Protocol(k, before, PendingBefore(last, pending))
  }

  /** Every SIGKILL hits an unreaped child of S, and that incarnation is what S reaps next. */
  lemma {:induction false} SignalledChildIsReaped(k: Kernel, log: seq<Event>, pending: Option<Inc>, i: nat)
    returns (j: nat)
    requires Inv(k) && Protocol(k, log, pending) && i < |log| && log[i].Signal?
    ensures IsChild(Replay(k, log[..i]), log[i].target)
    ensures i < j <= |log| && forall m | i < m < j :: log[m].Env?
    ensures j == |log| ==> pending == Some(log[i].target)
    ensures j < |log| ==> log[j] == ReapPinned(log[i].target) && IsZombieChild(Replay(k, log[..j]), log[i].target)
    decreases |log|
  {
    hide Inv, Replay;
    var n := |log| - 1;
    var before, last := log[..n], log[n];
    if i == n {
      j := |log|;
    } else {
      j := SignalledChildIsReaped(k, before, PendingBefore(last, pending), i);
      assert before[..i] == log[..i];
      if j < n {
        assert before[..j] == log[..j];
      } else if last.Env? {
        j := |log|;
      }
    }
  }

  lemma {:induction false} ReplayConcat(k: Kernel, a: seq<Event>, b: seq<Event>)
    requires Inv(k)
    ensures Replay(k, a + b) == Replay(Replay(k, a), b)
    decreases |b|
  {
    if b == [] {
      assert a + b == a;
    } else {
      assert (a + b)[..|a + b| - 1] == a + b[..|b| - 1];
      ReplayConcat(k, a, b[..|b| - 1]);
    }
  }

  lemma {:induction false} EnvKeepsProtocol(k: Kernel, log: seq<Event>, moves: seq<Event>, pending: Option<Inc>)
    requires Inv(k) && Protocol(k, log, pending) && EnvOnly(moves)
    ensures Protocol(k, log + moves, pending)
    decreases |moves|
  {
    if moves == [] {
      assert log + moves == log;
    } else {
      EnvKeepsProtocol(k, log, moves[..|moves| - 1], pending);
      assert (log + moves)[..|log + moves| - 1] == log + moves[..|moves| - 1];
    }
  }

  /** An incarnation that left the table never comes back, whatever happens to its pid. */
  lemma {:induction false} GoneStaysGone(k: Kernel, log: seq<Event>, c: Inc)
    requires Inv(k) && c < k.next && c !in k.procs
    ensures c !in Replay(k, log).procs && k.next <= Replay(k, log).next
    decreases |log|
  {
    if log != [] {
      GoneStaysGone(k, log[..|log| - 1], c);
    }
  }

  lemma MoveKeepsChild(k: Kernel, m: Move, c: Inc)
    requires Inv(k) && c in k.procs && (IsChild(k, c) || c == k.self)
    ensures c in Apply(k, Env(m)).procs && Apply(k, Env(m)).procs[c].pid == k.procs[c].pid
    ensures IsChild(k, c) ==> IsChild(Apply(k, Env(m)), c)
    ensures IsZombieChild(k, c) ==> IsZombieChild(Apply(k, Env(m)), c)
  {
    assert ParentFits(k, c);
  }

  /** Only S reaps its children and only a parent's exit moves a child: both are S's own. */
  lemma {:induction false} OthersKeepChildren(k: Kernel, moves: seq<Event>, c: Inc)
    requires Inv(k) && EnvOnly(moves) && c in k.procs && (IsChild(k, c) || c == k.self)
    ensures c in Replay(k, moves).procs && Replay(k, moves).procs[c].pid == k.procs[c].pid
    ensures IsChild(k, c) ==> IsChild(Replay(k, moves), c)
    ensures IsZombieChild(k, c) ==> IsZombieChild(Replay(k, moves), c)
    decreases |moves|
  {
    hide Inv, Apply;
    if moves != [] {
      OthersKeepChildren(k, moves[..|moves| - 1], c);
      MoveKeepsChild(Replay(k, moves[..|moves| - 1]), moves[|moves| - 1].move, c);
    }
  }

  // ----- how a process ended -----

  lemma MoveKeepsFlag(k: Kernel, m: Move)
    requires Inv(k)
    ensures var k' := Apply(k, Env(m));
      k.self in k'.procs && k'.procs[k.self].subreaper == k.procs[k.self].subreaper
  {
    ApplyKeepsInv(k, Env(m));
  }

  /** The subreaper flag of S is its own affair. */
  lemma {:induction false} OthersKeepFlag(k: Kernel, moves: seq<Event>)
    requires Inv(k) && EnvOnly(moves)
    ensures var k' := Replay(k, moves);
      k.self in k'.procs && k'.procs[k.self].subreaper == k.procs[k.self].subreaper
    decreases |moves|
  {
    if moves != [] {
      var n := |moves| - 1;
      OthersKeepFlag(k, moves[..n]);
      MoveKeepsFlag(Replay(k, moves[..n]), moves[n].move);
    }
  }

  /** Event `i` is the moment at which `x` exited with this status. */
  ghost predicate ExitAt(k: Kernel, log: seq<Event>, x: Inc, status: ExitStatus, i: nat)
    requires Inv(k)
  {
    i < |log| && log[i] == Env(Exit(x, status)) && Possible(Replay(k, log[..i]), log[i])
  }

  ghost predicate ExitedAs(k: Kernel, log: seq<Event>, x: Inc, status: ExitStatus)
    requires Inv(k)
  {
    exists i: nat :: ExitAt(k, log, x, status, i)
  }

  lemma ExitedAsExtends(k: Kernel, log: seq<Event>, longer: seq<Event>, x: Inc, status: ExitStatus)
    requires Inv(k) && log <= longer && ExitedAs(k, log, x, status)
    ensures ExitedAs(k, longer, x, status)
  {
    var i: nat :| ExitAt(k, log, x, status, i);
    assert longer[..i] == log[..i];
    assert ExitAt(k, longer, x, status, i);
  }

  /** A zombie's recorded status is the one it exited with, unless it was a zombie from the start. */
  lemma {:induction false} ZombieExited(k: Kernel, log: seq<Event>, x: Inc)
    requires Inv(k) && x in Replay(k, log).procs && Replay(k, log).procs[x].state.Zombie?
    ensures
      || ExitedAs(k, log, x, Replay(k, log).procs[x].state.status)
      || (x in k.procs && k.procs[x].state == Replay(k, log).procs[x].state)
    decreases |log|
  {
    if log != [] {
      var n := |log| - 1;
      var before, last := Replay(k, log[..n]), log[n];
      if x in before.procs && before.procs[x].state.Zombie? {
        assert before.procs[x].state == Replay(k, log).procs[x].state;
        ZombieExited(k, log[..n], x);
        if ExitedAs(k, log[..n], x, before.procs[x].state.status) {
          ExitedAsExtends(k, log[..n], log, x, before.procs[x].state.status);
        }
      } else {
        assert ExitAt(k, log, x, Replay(k, log).procs[x].state.status, n);
      }
    }
  }

  lemma {:induction false} NeverRunsAgain(k: Kernel, log: seq<Event>, x: Inc)
    requires Inv(k) && x < k.next && !IsRunning(k, x)
    ensures !IsRunning(Replay(k, log), x)
    decreases |log|
  {
    if log != [] {
      NeverRunsAgain(k, log[..|log| - 1], x);
      ReplayKeepsBorn(k, log[..|log| - 1]);
    }
  }

  /** An incarnation exits at most once, so it has one real status. */
  lemma ExitsOnce(k: Kernel, log: seq<Event>, x: Inc, s1: ExitStatus, i: nat, s2: ExitStatus, j: nat)
    requires Inv(k) && ExitAt(k, log, x, s1, i) && ExitAt(k, log, x, s2, j)
    ensures i == j && s1 == s2
  {
    if i < j {
      ExitEnds(k, log, x, s1, i, j);
    } else if j < i {
      ExitEnds(k, log, x, s2, j, i);
    }
  }

  lemma ReplayStep(k: Kernel, log: seq<Event>, i: nat)
    requires Inv(k) && i < |log|
    ensures Replay(k, log[..i + 1]) == Apply(Replay(k, log[..i]), log[i])
  {
    assert log[..i + 1][..i] == log[..i];
  }

  lemma ExitStep(k: Kernel, x: Inc, status: ExitStatus)
    requires Inv(k) && Possible(k, Env(Exit(x, status)))
    ensures !IsRunning(Apply(k, Env(Exit(x, status))), x) && x < Apply(k, Env(Exit(x, status))).next
  {
  }

  lemma ExitEnds(k: Kernel, log: seq<Event>, x: Inc, status: ExitStatus, i: nat, j: nat)
    requires Inv(k) && ExitAt(k, log, x, status, i) && i < j <= |log|
    ensures !IsRunning(Replay(k, log[..j]), x)
  {
    hide Inv, Possible, Apply, Replay;
    ExitStep(Replay(k, log[..i]), x, status);
    ReplayStep(k, log, i);
    var after := Replay(k, log[..i + 1]);
    ReplayConcat(k, log[..i + 1], log[i + 1..j]);
    assert log[..i + 1] + log[i + 1..j] == log[..j];
    NeverRunsAgain(after, log[i + 1..j], x);
  }

  /** The incarnation now holding a pid, which is what pidfd_open pins. */
  predicate Holds(k: Kernel, t: Inc, pid: nat) {
    t in k.procs && k.procs[t].pid == pid
  }
}

/**
 The kernel's process table as the supervisor S sees it change: fork, exit, orphan
 reparenting, wait and pid reuse.  A process is an incarnation, numbered in order of
 birth and never reused; its pid is free again as soon as its zombie is reaped.
 */
module ProcessTable {
  import opened Prelude

  type Inc = nat

  datatype ExitStatus = Exited(code: nat) | KilledBy(signal: nat)

  datatype RunState = Running | Zombie(status: ExitStatus)

  datatype Proc = Proc(pid: nat, parent: Inc, state: RunState, subreaper: bool)

  /**
   Incarnation 0 is init.  `self` is S.  `born` records fork lineage only: it holds
   every incarnation forked by S or by a member of `born`, and never looks at parents.
   */
  datatype Kernel = Kernel(procs: map<Inc, Proc>, next: Inc, self: Inc, born: set<Inc>)

  predicate IsRunning(k: Kernel, x: Inc) {
    x in k.procs && k.procs[x].state.Running?
  }

  predicate PidFree(k: Kernel, pid: nat) {
    forall x | x in k.procs :: k.procs[x].pid != pid
  }

  predicate IsChild(k: Kernel, c: Inc) {
    c in k.procs && c != 0 && k.procs[c].parent == k.self
  }

  predicate NoChildren(k: Kernel) {
    forall c | c in k.procs :: !IsChild(k, c)
  }

  /** A parent is running and older than its child. */
  predicate ParentFits(k: Kernel, x: Inc)
    requires x in k.procs
  {
    x == 0 || (k.procs[x].parent < x && IsRunning(k, k.procs[x].parent))
  }

  predicate TreeShape(k: Kernel) {
    && IsRunning(k, 0) && k.procs[0].parent == 0
    && (forall x | x in k.procs :: x < k.next)
    && (forall x {:trigger ParentFits(k, x)} | x in k.procs :: ParentFits(k, x))
  }

  /** `x` and all its ancestors up to init. */
  function Above(k: Kernel, x: Inc): (r: set<Inc>)
    requires TreeShape(k) && x in k.procs
    ensures x in r && r <= k.procs.Keys
    ensures forall a | a in r :: a <= x
    decreases x
  {
    assert ParentFits(k, x);
    {x} + if x == 0 then {} else Above(k, k.procs[x].parent)
  }

  predicate Descendant(k: Kernel, x: Inc)
    requires TreeShape(k)
  {
    x in k.procs && x != k.self && k.self in Above(k, x)
  }

  /** The nearest subreaper at or above `a`, or init: where orphans go. */
  function Reaper(k: Kernel, a: Inc): (r: Inc)
    requires TreeShape(k) && IsRunning(k, a)
    ensures IsRunning(k, r) && r <= a
    decreases a
  {
    assert ParentFits(k, a);
    if a == 0 || k.procs[a].subreaper then a else Reaper(k, k.procs[a].parent)
  }

  // ----- moves of every process other than S -----

  datatype Move =
    | Fork(actor: Inc, pid: nat, sibling: bool)   // sibling: CLONE_PARENT
    | Exit(actor: Inc, status: ExitStatus)
    | Collect(actor: Inc, child: Inc)             // a parent reaps its own zombie
    | SetSubreaper(actor: Inc, on: bool)

  predicate Enabled(k: Kernel, m: Move) {
    && m.actor != k.self && IsRunning(k, m.actor)
    && match m
       case Fork(a, pid, sibling) => PidFree(k, pid) && (sibling ==> a != 0)
       case Exit(a, _) => a != 0
       case Collect(a, c) => c in k.procs && c != 0 && k.procs[c].parent == a && k.procs[c].state.Zombie?
       case SetSubreaper(_, _) => true
  }

  function AfterFork(k: Kernel, actor: Inc, parent: Inc, pid: nat): Kernel {
    k.(procs := k.procs[k.next := Proc(pid, parent, Running, false)],
       next := k.next + 1,
       born := if actor == k.self || actor in k.born then k.born + {k.next} else k.born)
  }

  /** `x` becomes a zombie and its children go to the nearest subreaper above it. */
  function AfterExit(k: Kernel, x: Inc, status: ExitStatus): Kernel
    requires TreeShape(k) && IsRunning(k, x) && x != 0
  {
    assert ParentFits(k, x);
    var heir := Reaper(k, k.procs[x].parent);
    k.(procs := map y | y in k.procs ::
         if y == x then k.procs[y].(state := Zombie(status))
         else if k.procs[y].parent == x then k.procs[y].(parent := heir)
         else k.procs[y])
  }

  function AfterReap(k: Kernel, c: Inc): Kernel {
    k.(procs := k.procs - {c})
  }

  function WithFlag(k: Kernel, a: Inc, on: bool): Kernel
    requires a in k.procs
  {
    k.(procs := k.procs[a := k.procs[a].(subreaper := on)])
  }

  function AfterMove(k: Kernel, m: Move): Kernel
    requires TreeShape(k) && Enabled(k, m)
  {
    match m
    case Fork(a, pid, sibling) => AfterFork(k, a, if sibling then k.procs[a].parent else a, pid)
    case Exit(a, status) => AfterExit(k, a, status)
    case Collect(_, c) => AfterReap(k, c)
    case SetSubreaper(a, on) => WithFlag(k, a, on)
  }

  // ----- S's own kernel calls, interleaved with the moves of the others -----

  datatype Event =
    | Env(move: Move)
    | BecomeSubreaper
    | Spawn(pid: nat)
    | Signal(target: Inc)       // SIGKILL through a pidfd
    | ReapAny(child: Inc)       // waitid(P_ALL)
    | ReapPinned(child: Inc)    // waitid(P_PIDFD)

  predicate IsZombieChild(k: Kernel, c: Inc) {
    IsChild(k, c) && k.procs[c].state.Zombie?
  }

  predicate Possible(k: Kernel, e: Event)
    requires k.self in k.procs
  {
    match e
    case Env(m) => Enabled(k, m)
    case BecomeSubreaper => true
    case Spawn(pid) => PidFree(k, pid) && k.procs[k.self].subreaper
    case Signal(_) => true
    case ReapAny(c) => IsZombieChild(k, c)
    case ReapPinned(c) => IsZombieChild(k, c)
  }

  /** An event that is not possible changes nothing, so every event list is a schedule. */
  function Apply(k: Kernel, e: Event): Kernel
    requires TreeShape(k) && IsRunning(k, k.self)
  {
    if !Possible(k, e) then k else
    match e
    case Env(m) => AfterMove(k, m)
    case BecomeSubreaper => WithFlag(k, k.self, true)
    case Spawn(pid) => AfterFork(k, k.self, k.self, pid)
    case Signal(_) => k
    case ReapAny(c) => AfterReap(k, c)
    case ReapPinned(c) => AfterReap(k, c)
  }

  predicate SamePid(k: Kernel, x: Inc, y: Inc) {
    x in k.procs && y in k.procs && k.procs[x].pid == k.procs[y].pid
  }

  ghost predicate PidsDistinct(k: Kernel) {
    forall x, y | SamePid(k, x, y) :: x == y
  }

  /** Fork lineage and the current tree under S agree on every process in the table. */
  ghost predicate LineageIsTree(k: Kernel)
    requires TreeShape(k)
  {
    && (forall x | x in k.born :: x < k.next)
    && (forall x {:trigger Descendant(k, x)} | x in k.procs :: x in k.born <==> Descendant(k, x))
  }

  /** What holds in every reachable state. */
  ghost predicate Inv(k: Kernel) {
    && TreeShape(k)
    && k.self != 0 && IsRunning(k, k.self)
    && (k.procs[k.self].subreaper || NoChildren(k))
    && PidsDistinct(k)
    && LineageIsTree(k)
  }

  ghost function Replay(k: Kernel, log: seq<Event>): (r: Kernel)
    requires Inv(k)
    ensures Inv(r) && r.self == k.self
    decreases |log|
  {
    if log == [] then k else
      var before := Replay(k, log[..|log| - 1]);
      ApplyKeepsInv(before, log[|log| - 1]);
      Apply(before, log[|log| - 1])
  }

  // ----- ancestor sets -----

  lemma {:induction false} AboveTransitive(k: Kernel, x: Inc, y: Inc)
    requires TreeShape(k) && x in k.procs && y in Above(k, x)
    ensures Above(k, y) <= Above(k, x)
    decreases x
  {
    assert ParentFits(k, x);
    if x != y {
      AboveTransitive(k, k.procs[x].parent, y);
    }
  }

  lemma {:induction false} ReaperAbove(k: Kernel, a: Inc)
    requires TreeShape(k) && IsRunning(k, a)
    ensures Reaper(k, a) in Above(k, a)
    ensures k.self in Above(k, a) && k.self in k.procs && k.procs[k.self].subreaper ==> k.self in Above(k, Reaper(k, a))
    decreases a
  {
    assert ParentFits(k, a);
    if a != 0 && !k.procs[a].subreaper {
      ReaperAbove(k, k.procs[a].parent);
    }
  }

  ghost predicate SameParent(k: Kernel, k': Kernel, x: Inc) {
    x in k.procs && x in k'.procs ==> k'.procs[x].parent == k.procs[x].parent
  }

  /** Tables that agree on the parents of surviving processes agree on their ancestors. */
  lemma {:induction false} AboveAgree(k: Kernel, k': Kernel, x: Inc)
    requires TreeShape(k) && TreeShape(k') && x in k.procs && x in k'.procs
    requires forall y :: SameParent(k, k', y)
    ensures Above(k', x) == Above(k, x)
    decreases x
  {
    assert SameParent(k, k', x) && ParentFits(k, x) && ParentFits(k', x);
    if x != 0 {
      AboveAgree(k, k', k.procs[x].parent);
    }
  }

  lemma ChildDescends(k: Kernel, c: Inc)
    requires TreeShape(k) && k.self in k.procs
    ensures IsChild(k, c) ==> Descendant(k, c)
  {
    if IsChild(k, c) {
      assert ParentFits(k, c);
    }
  }

  lemma {:induction false} NoChildrenNoDescendant(k: Kernel, x: Inc)
    requires TreeShape(k) && NoChildren(k) && x in k.procs
    ensures !Descendant(k, x)
    decreases x
  {
    assert ParentFits(k, x) && !IsChild(k, x);
    if x != 0 {
      NoChildrenNoDescendant(k, k.procs[x].parent);
    }
  }

  /** The child of S through which a descendant hangs. */
  lemma {:induction false} TopChild(k: Kernel, x: Inc) returns (c: Inc)
    requires TreeShape(k) && Descendant(k, x)
    ensures IsChild(k, c) && c in Above(k, x) && c > k.self
    decreases x
  {
    assert ParentFits(k, x);
    if k.procs[x].parent == k.self {
      c := x;
    } else {
      c := TopChild(k, k.procs[x].parent);
    }
  }

  // ----- every event keeps the invariant -----

  lemma ForkTreeShape(k: Kernel, actor: Inc, parent: Inc, pid: nat)
    requires TreeShape(k) && IsRunning(k, parent)
    ensures TreeShape(AfterFork(k, actor, parent, pid))
  {
    var k' := AfterFork(k, actor, parent, pid);
    forall x | x in k'.procs ensures ParentFits(k', x) {
      if x != k.next {
        assert ParentFits(k, x);
      }
    }
  }

  lemma ForkKeepsLineage(k: Kernel, actor: Inc, parent: Inc, pid: nat)
    requires Inv(k) && IsRunning(k, actor) && IsRunning(k, parent) && TreeShape(AfterFork(k, actor, parent, pid))
    requires parent == actor || (actor != k.self && actor != 0 && parent == k.procs[actor].parent)
    ensures LineageIsTree(AfterFork(k, actor, parent, pid))
  {
    var k' := AfterFork(k, actor, parent, pid);
    assert forall y :: SameParent(k, k', y);
    assert Descendant(k, actor) <==> actor in k.born;
    assert Descendant(k, parent) <==> parent in k.born;
    AboveAgree(k, k', parent);
    forall x | x in k'.procs ensures x in k'.born <==> Descendant(k', x) {
      if x == k.next {
        assert Above(k', x) == {x} + Above(k', parent);
      } else {
        AboveAgree(k, k', x);
        assert x in k.born <==> Descendant(k, x);
      }
    }
  }

  lemma ForkKeepsInv(k: Kernel, actor: Inc, parent: Inc, pid: nat)
    requires Inv(k) && IsRunning(k, actor) && IsRunning(k, parent) && PidFree(k, pid)
    requires k.procs[k.self].subreaper || actor != k.self
    requires parent == actor || (actor != k.self && actor != 0 && parent == k.procs[actor].parent)
    ensures Inv(AfterFork(k, actor, parent, pid))
  {
    var k' := AfterFork(k, actor, parent, pid);
    ForkTreeShape(k, actor, parent, pid);
    ForkKeepsLineage(k, actor, parent, pid);
    assert IsRunning(k', k'.self);
    assert k'.procs[k'.self].subreaper == k.procs[k.self].subreaper;
    forall x, y | SamePid(k', x, y) ensures x == y {
      assert x != k.next && y != k.next ==> SamePid(k, x, y);
    }
    if NoChildren(k) && !k.procs[k.self].subreaper {
      forall c | c in k'.procs ensures !IsChild(k', c) {
        assert !IsChild(k, actor);
        assert c in k.procs ==> !IsChild(k, c);
      }
    }
  }

  lemma ExitTreeShape(k: Kernel, p: Inc, status: ExitStatus)
    requires TreeShape(k) && IsRunning(k, p) && p != 0
    ensures TreeShape(AfterExit(k, p, status))
  {
    var k' := AfterExit(k, p, status);
    assert ParentFits(k, p);
    forall x | x in k'.procs ensures ParentFits(k', x) {
      assert ParentFits(k, x);
    }
  }

  /** An exit only takes the exiting process out of the ancestor sets of the others. */
  lemma {:induction false} ExitShrinks(k: Kernel, p: Inc, status: ExitStatus, x: Inc)
    requires TreeShape(k) && IsRunning(k, p) && p != 0 && p != k.self && x in k.procs
    requires TreeShape(AfterExit(k, p, status))
    ensures Above(AfterExit(k, p, status), x) <= Above(k, x)
    ensures k.self in Above(k, x) && k.procs[k.self].subreaper ==> k.self in Above(AfterExit(k, p, status), x)
    decreases x
  {
    var k' := AfterExit(k, p, status);
    assert ParentFits(k, x) && ParentFits(k', x) && ParentFits(k, p);
    if x != 0 {
      var q := k.procs[x].parent;
      if x != p && q == p {
        var r := Reaper(k, k.procs[p].parent);
        ReaperAbove(k, k.procs[p].parent);
        AboveTransitive(k, k.procs[p].parent, r);
        ExitShrinks(k, p, status, r);
      } else {
        ExitShrinks(k, p, status, q);
      }
    }
  }

  lemma ExitKeepsLineage(k: Kernel, p: Inc, status: ExitStatus)
    requires Inv(k) && IsRunning(k, p) && p != 0 && p != k.self && TreeShape(AfterExit(k, p, status))
    ensures LineageIsTree(AfterExit(k, p, status))
  {
    var k' := AfterExit(k, p, status);
    forall x | x in k'.procs ensures x in k'.born <==> Descendant(k', x) {
      ExitShrinks(k, p, status, x);
      assert x in k.born <==> Descendant(k, x);
      if NoChildren(k) {
        NoChildrenNoDescendant(k, x);
      }
    }
  }

  lemma ExitKeepsInv(k: Kernel, p: Inc, status: ExitStatus)
    requires Inv(k) && IsRunning(k, p) && p != 0 && p != k.self
    ensures Inv(AfterExit(k, p, status))
  {
    var k' := AfterExit(k, p, status);
    ExitTreeShape(k, p, status);
    ExitKeepsLineage(k, p, status);
    assert IsRunning(k', k'.self);
    assert k'.procs[k'.self].subreaper == k.procs[k.self].subreaper;
    forall x, y | SamePid(k', x, y) ensures x == y {
      assert SamePid(k, x, y);
    }
    if NoChildren(k) {
      forall c | c in k'.procs ensures !IsChild(k', c) {
        NoChildrenNoDescendant(k, c);
        assert c in k.born <==> Descendant(k, c);
        assert c in k'.born <==> Descendant(k', c);
        ChildDescends(k', c);
      }
    }
  }

  /** A change that keeps parents and pids and removes or flags processes keeps the invariant. */
  lemma SameParentsKeepInv(k: Kernel, k': Kernel)
    requires Inv(k) && TreeShape(k') && IsRunning(k', k.self)
    requires k'.self == k.self && k'.born == k.born && k'.next == k.next && k'.procs.Keys <= k.procs.Keys
    requires forall y :: SameParent(k, k', y)
    requires forall y | y in k'.procs :: k'.procs[y].pid == k.procs[y].pid
    requires k.procs[k.self].subreaper ==> k'.procs[k.self].subreaper
    ensures Inv(k')
  {
    forall x, y | SamePid(k', x, y) ensures x == y {
      assert SamePid(k, x, y);
    }
    forall x | x in k'.procs ensures x in k'.born <==> Descendant(k', x) {
      AboveAgree(k, k', x);
      assert x in k.born <==> Descendant(k, x);
    }
    forall x | x in k'.procs && IsChild(k', x) ensures IsChild(k, x) {
      assert SameParent(k, k', x);
    }
  }

  lemma ReapKeepsInv(k: Kernel, c: Inc)
    requires Inv(k) && c in k.procs && c != 0 && k.procs[c].state.Zombie?
    ensures Inv(AfterReap(k, c))
  {
    var k' := AfterReap(k, c);
    forall x | x in k'.procs ensures ParentFits(k', x) {
      assert ParentFits(k, x);
    }
    assert forall y :: SameParent(k, k', y);
    SameParentsKeepInv(k, k');
  }

  lemma FlagKeepsInv(k: Kernel, a: Inc, on: bool)
    requires Inv(k) && IsRunning(k, a) && (a == k.self ==> on)
    ensures Inv(WithFlag(k, a, on))
  {
    var k' := WithFlag(k, a, on);
    forall x | x in k'.procs ensures ParentFits(k', x) {
      assert ParentFits(k, x);
    }
    assert forall y :: SameParent(k, k', y);
    SameParentsKeepInv(k, k');
  }

  lemma MoveKeepsInv(k: Kernel, m: Move)
    requires Inv(k) && Enabled(k, m)
    ensures Inv(AfterMove(k, m)) && AfterMove(k, m).self == k.self
  {
    match m
    case Fork(a, pid, sibling) =>
      assert ParentFits(k, a);
      ForkKeepsInv(k, a, if sibling then k.procs[a].parent else a, pid);
    case Exit(a, status) => ExitKeepsInv(k, a, status);
    case Collect(_, c) => ReapKeepsInv(k, c);
    case SetSubreaper(a, on) => FlagKeepsInv(k, a, on);
  }

  lemma ApplyKeepsInv(k: Kernel, e: Event)
    requires Inv(k)
    ensures Inv(Apply(k, e)) && Apply(k, e).self == k.self
  {
    if Possible(k, e) {
      match e
      case Env(m) => MoveKeepsInv(k, m);
      case BecomeSubreaper => FlagKeepsInv(k, k.self, true);
      case Spawn(pid) => ForkKeepsInv(k, k.self, k.self, pid);
      case Signal(_) =>
      case ReapAny(c) => ReapKeepsInv(k, c);
      case ReapPinned(c) => ReapKeepsInv(k, c);
    }
  }

  // ----- no children means no descendants, for good -----

  predicate EnvOnly(log: seq<Event>) {
    forall i | 0 <= i < |log| :: log[i].Env?
  }

  lemma CompletionStep(k: Kernel, m: Move)
    requires Inv(k) && NoChildren(k)
    ensures NoChildren(Apply(k, Env(m))) && Apply(k, Env(m)).born == k.born
  {
    var k' := Apply(k, Env(m));
    ApplyKeepsInv(k, Env(m));
    if Enabled(k, m) {
      NoChildrenNoDescendant(k, m.actor);
      assert m.actor in k.born <==> Descendant(k, m.actor);
    }
    assert k'.born == k.born;
    forall c | c in k'.procs ensures !IsChild(k', c) {
      ChildDescends(k', c);
      assert c in k'.born <==> Descendant(k', c);
      if c in k.procs {
        NoChildrenNoDescendant(k, c);
        assert c in k.born <==> Descendant(k, c);
      }
    }
  }

  /**
   Once S has no child, nothing forked in S's lineage is in the table, and no move of
   any other process can ever change that.
   */
  lemma {:induction false} CompletionIsFinal(k: Kernel, log: seq<Event>)
    requires Inv(k) && NoChildren(k) && EnvOnly(log)
    ensures NoChildren(Replay(k, log)) && Replay(k, log).born == k.born
    ensures forall x | x in Replay(k, log).procs :: x !in k.born && !Descendant(Replay(k, log), x)
    decreases |log|
  {
    var r := Replay(k, log);
    if log != [] {
      CompletionIsFinal(k, log[..|log| - 1]);
      CompletionStep(Replay(k, log[..|log| - 1]), log[|log| - 1].move);
    }
    forall x | x in r.procs ensures x !in k.born && !Descendant(r, x) {
      NoChildrenNoDescendant(r, x);
      assert x in r.born <==> Descendant(r, x);
    }
  }

  /** S itself, a child of S and a grandchild, when S never became a subreaper. */
  function NoSubreaperExample(): Kernel {
    Kernel(map[0 := Proc(1, 0, Running, false), 1 := Proc(10, 0, Running, false),
               2 := Proc(11, 1, Running, false), 3 := Proc(12, 2, Running, false)], 4, 1, {2, 3})
  }

  /** Why the subreaper flag comes first: without it S can see ECHILD while its lineage lives on. */
  lemma SubreaperIsNeeded()
    ensures var k := NoSubreaperExample();
      && TreeShape(k) && LineageIsTree(k)
      && var k1 := Apply(k, Env(Exit(2, Exited(0))));
      && TreeShape(k1) && IsRunning(k1, k1.self)
      && var k2 := Apply(k1, ReapAny(2));
      && NoChildren(k2) && 3 in k2.born && IsRunning(k2, 3)
  {
    var k := NoSubreaperExample();
    assert Reaper(k, 1) == 0;
    assert Above(k, 1) == {0, 1} && Above(k, 2) == {0, 1, 2} && Above(k, 3) == {0, 1, 2, 3};
    assert PidFree(k, 13);
    var k1 := Apply(k, Env(Exit(2, Exited(0))));
    assert k1 == AfterExit(k, 2, Exited(0));
    assert k1.procs[3].parent == 0;
  }

  // ----- the tree under S gets lower, but for its own forks -----

  /** A process that stays keeps its parent or gets one from further up; only new ones come from forks. */
  lemma ApplyShrinks(k: Kernel, e: Event, x: Inc)
    requires Inv(k) && Inv(Apply(k, e)) && x in Apply(k, e).procs && x < k.next
    ensures x in k.procs && Above(Apply(k, e), x) <= Above(k, x)
    ensures x in Apply(k, e).born <==> x in k.born
  {
    var k' := Apply(k, e);
    if e.Env? && e.move.Exit? && Possible(k, e) {
      ExitShrinks(k, e.move.actor, e.move.status, x);
    } else {
      assert forall y :: SameParent(k, k', y);
      AboveAgree(k, k', x);
    }
  }

  lemma ApplyKeepsBorn(k: Kernel, e: Event)
    requires Inv(k)
    ensures k.born <= Apply(k, e).born && k.next <= Apply(k, e).next
    ensures forall x | x in Apply(k, e).born - k.born :: x >= k.next
  {
  }

  /** Lineage is recorded for good, and what is added to it is new. */
  lemma {:induction false} ReplayKeepsBorn(k: Kernel, log: seq<Event>)
    requires Inv(k)
    ensures k.born <= Replay(k, log).born && k.next <= Replay(k, log).next
    ensures forall x | x in Replay(k, log).born - k.born :: x >= k.next
    decreases |log|
  {
    if log != [] {
      var k1, e := Replay(k, log[..|log| - 1]), log[|log| - 1];
      ReplayKeepsBorn(k, log[..|log| - 1]);
      ApplyKeepsBorn(k1, e);
      forall x | x in Apply(k1, e).born - k.born ensures x >= k.next {
        assert x in k1.born - k.born || x in Apply(k1, e).born - k1.born;
      }
    }
  }

  /** Over any schedule, processes that survive keep their descent from S and their ancestor lines only shrink. */
  lemma {:induction false} ReplayShrinks(k: Kernel, log: seq<Event>, x: Inc)
    requires Inv(k) && x in Replay(k, log).procs && x < k.next
    ensures x in k.procs && Above(Replay(k, log), x) <= Above(k, x)
    ensures Descendant(Replay(k, log), x) <==> Descendant(k, x)
    decreases |log|
  {
    if log != [] {
      var k1, e := Replay(k, log[..|log| - 1]), log[|log| - 1];
      ApplyKeepsInv(k1, e);
      ReplayKeepsBorn(k, log[..|log| - 1]);
      ApplyShrinks(k1, e, x);
      ReplayShrinks(k, log[..|log| - 1], x);
      assert x in k1.born <==> Descendant(k1, x);
      assert x in Apply(k1, e).born <==> Descendant(Apply(k1, e), x);
    }
  }

  /** The lineage of S in the table: what `Inv` makes its descendants. */
  ghost function Kin(k: Kernel): set<Inc> {
    k.procs.Keys * k.born
  }

  /** The lineage in the table grows by its own forks only, whatever the rest of the system does. */
  lemma KinGrowsByForks(k: Kernel, log: seq<Event>)
    requires Inv(k)
    ensures var k1 := Replay(k, log);
      |k1.born| >= |k.born| && |Kin(k1)| <= |Kin(k)| + (|k1.born| - |k.born|)
  {
    var k1 := Replay(k, log);
    ReplayKeepsBorn(k, log);
    forall x | x in Kin(k1) ensures x in Kin(k) + (k1.born - k.born) {
      if x in k.born {
        ReplayShrinks(k, log, x);
      }
    }
    SubsetSize(Kin(k1), Kin(k) + (k1.born - k.born));
    assert k1.born == k.born + (k1.born - k.born);
  }

  /** The part of the ancestor line strictly below S; its size is the depth of `x`. */
  ghost function Line(k: Kernel, x: Inc): set<Inc>
    requires TreeShape(k) && x in k.procs
  {
    set a | a in Above(k, x) && a > k.self
  }

  ghost predicate HeightAtMost(k: Kernel, h: nat)
    requires TreeShape(k)
  {
    forall x | x in k.procs && Descendant(k, x) :: |Line(k, x)| <= h
  }

  lemma HeightAtMostTableSize(k: Kernel)
    requires TreeShape(k)
    ensures HeightAtMost(k, |k.procs.Keys|)
  {
    forall x | x in k.procs && Descendant(k, x) ensures |Line(k, x)| <= |k.procs.Keys| {
      SubsetSize(Line(k, x), k.procs.Keys);
    }
  }

  ghost function LeastHeight(k: Kernel, h: nat): (r: nat)
    requires TreeShape(k) && HeightAtMost(k, h)
    ensures HeightAtMost(k, r)
    ensures forall g: nat | HeightAtMost(k, g) :: r <= g
    decreases h
  {
    if h == 0 || !HeightAtMost(k, h - 1) then h else LeastHeight(k, h - 1)
  }

  /** The greatest depth of a descendant of S. */
  ghost function Height(k: Kernel): (h: nat)
    requires TreeShape(k)
    ensures HeightAtMost(k, h)
    ensures forall g: nat | HeightAtMost(k, g) :: h <= g
  {
    HeightAtMostTableSize(k);
    LeastHeight(k, |k.procs.Keys|)
  }

  lemma HeightBounds(k: Kernel, x: Inc)
    requires TreeShape(k) && x in k.procs && Descendant(k, x)
    ensures |Line(k, x)| <= Height(k)
  {
  }

  lemma HeightZeroIffNoChildren(k: Kernel)
    requires Inv(k)
    ensures Height(k) == 0 <==> NoChildren(k)
  {
    if NoChildren(k) {
      forall x | x in k.procs ensures !Descendant(k, x) {
        NoChildrenNoDescendant(k, x);
      }
      assert HeightAtMost(k, 0);
    } else {
      var c :| c in k.procs && IsChild(k, c);
      ChildDescends(k, c);
      assert ParentFits(k, c);
      assert c in Line(k, c) && |Line(k, c)| > 0;
    }
  }

  /** Everything on the line of a descendant descends from S. */
  lemma {:induction false} LineDescends(k: Kernel, x: Inc, a: Inc)
    requires TreeShape(k) && x in k.procs && Descendant(k, x) && a in Line(k, x)
    ensures Descendant(k, a)
    decreases x
  {
    assert ParentFits(k, x);
    if a != x {
      LineDescends(k, k.procs[x].parent, a);
    }
  }

  /** The tree under S is no higher than its lineage is large. */
  lemma HeightAtMostKin(k: Kernel)
    requires Inv(k)
    ensures Height(k) <= |Kin(k)|
  {
    forall x | x in k.procs && Descendant(k, x) ensures |Line(k, x)| <= |Kin(k)| {
      forall a | a in Line(k, x) ensures a in Kin(k) {
        LineDescends(k, x, a);
        assert a in k.born <==> Descendant(k, a);
      }
      SubsetSize(Line(k, x), Kin(k));
    }
    assert HeightAtMost(k, |Kin(k)|);
  }

  /** The part of the ancestor line below S that was there before incarnation `n`. */
  ghost function OldLine(k: Kernel, x: Inc, n: Inc): set<Inc>
    requires TreeShape(k) && x in k.procs
  {
    set a | a in Line(k, x) && a < n
  }

  lemma {:induction false} OldLineBounded(k: Kernel, n: Inc, bound: nat, x: Inc)
    requires TreeShape(k) && x in k.procs && Descendant(k, x)
    requires forall y | y in k.procs && y < n && Descendant(k, y) :: |Line(k, y)| <= bound
    ensures |OldLine(k, x, n)| <= bound
    decreases x
  {
    assert ParentFits(k, x);
    if x < n {
      SubsetSize(OldLine(k, x, n), Line(k, x));
    } else if k.procs[x].parent == k.self {
      assert OldLine(k, x, n) == {};
    } else {
      OldLineBounded(k, n, bound, k.procs[x].parent);
      assert OldLine(k, x, n) == OldLine(k, k.procs[x].parent, n);
    }
  }

  /** If the surviving processes are within `bound` of S, the new ones are within as many more as the lineage forked. */
  lemma ForksRaiseAtMost(k: Kernel, log: seq<Event>, bound: nat)
    requires Inv(k)
    requires forall y | y in Replay(k, log).procs && y < k.next && Descendant(Replay(k, log), y) ::
      |Line(Replay(k, log), y)| <= bound
    ensures var k1 := Replay(k, log);
      |k1.born| >= |k.born| && Height(k1) <= bound + (|k1.born| - |k.born|)
  {
    var k1 := Replay(k, log);
    var forked := k1.born - k.born;
    ReplayKeepsBorn(k, log);
    assert k1.born == k.born + forked;
    forall x | x in k1.procs && Descendant(k1, x) ensures |Line(k1, x)| <= bound + |forked| {
      OldLineBounded(k1, k.next, bound, x);
      forall a | a in Line(k1, x) && a >= k.next ensures a in forked {
        LineDescends(k1, x, a);
        assert a in k1.born <==> Descendant(k1, a);
      }
      SubsetSize(Line(k1, x), OldLine(k1, x, k.next) + forked);
    }
    assert HeightAtMost(k1, bound + |forked|);
  }

  lemma ClearingLowersLine(k: Kernel, log: seq<Event>, x: Inc)
    requires Inv(k) && x in Replay(k, log).procs && x < k.next && Descendant(Replay(k, log), x)
    requires forall c | c in Replay(k, log).procs :: !IsChild(k, c)
    ensures Descendant(k, x) && |Line(Replay(k, log), x)| < |Line(k, x)|
  {
    var k1 := Replay(k, log);
    ReplayShrinks(k, log, x);
    var c := TopChild(k, x);
    assert c in Line(k, x) && c !in Line(k1, x);
    SubsetSize(Line(k1, x), Line(k, x) - {c});
  }

  /**
   The convergence measure: across any events that end with every former child of S gone,
   the tree under S loses at least one level, but for one that each fork of its lineage
   may add.  The rest of the system may fork at will.
   */
  lemma ClearingChildrenLowersHeight(k: Kernel, log: seq<Event>)
    requires Inv(k)
    requires forall c | c in Replay(k, log).procs :: !IsChild(k, c)
    ensures var k1 := Replay(k, log);
      |k1.born| >= |k.born| && Height(k1) <= (if Height(k) == 0 then 0 else Height(k) - 1) + (|k1.born| - |k.born|)
  {
    var k1, h := Replay(k, log), Height(k);
    var bound := if h == 0 then 0 else h - 1;
    forall x | x in k1.procs && x < k.next && Descendant(k1, x) ensures |Line(k1, x)| <= bound {
      ClearingLowersLine(k, log, x);
      HeightBounds(k, x);
    }
    ForksRaiseAtMost(k, log, bound);
  }

  /** No schedule raises the tree by more than its lineage forks. */
  lemma HeightGrowsByForks(k: Kernel, log: seq<Event>)
    requires Inv(k)
    ensures var k1 := Replay(k, log);
      |k1.born| >= |k.born| && Height(k1) <= Height(k) + (|k1.born| - |k.born|)
  {
    var k1, h := Replay(k, log), Height(k);
    forall x | x in k1.procs && x < k.next && Descendant(k1, x) ensures |Line(k1, x)| <= h {
      ReplayShrinks(k, log, x);
      assert |Line(k, x)| <= h;
      SubsetSize(Line(k1, x), Line(k, x));
    }
    ForksRaiseAtMost(k, log, h);
  }
}

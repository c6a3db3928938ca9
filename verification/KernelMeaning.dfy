/** What the moves in the process table mean, told process by process. */
module KernelMeaning {
  import opened Prelude
  import opened ProcessTable

  /** What every running process but S may do at any time. */
  lemma OthersAreFree(k: Kernel, x: Inc, pid: nat, status: ExitStatus, child: Inc)
    requires Inv(k)
    ensures x != k.self && x in k.procs && k.procs[x].state == Running ==>
      && ((forall y | y in k.procs :: k.procs[y].pid != pid) <==> Enabled(k, Fork(x, pid, false)))
      && (x != 0 && (forall y | y in k.procs :: k.procs[y].pid != pid) ==> Enabled(k, Fork(x, pid, true)))
      && (x != 0 <==> Enabled(k, Exit(x, status)))
      && (child in k.procs && child != 0 && k.procs[child].parent == x && k.procs[child].state != Running
          <==> Enabled(k, Collect(x, child)))
      && Enabled(k, SetSubreaper(x, true)) && Enabled(k, SetSubreaper(x, false))
  {
  }

  /** A fork adds a running process under the forking one, or beside it, and changes no other. */
  lemma ForkMeans(k: Kernel, x: Inc, pid: nat, sibling: bool)
    requires Inv(k) && Enabled(k, Fork(x, pid, sibling))
    ensures var k' := Apply(k, Env(Fork(x, pid, sibling)));
      && k.next !in k.procs && k'.procs.Keys == k.procs.Keys + {k.next} && k'.next > k.next && k'.self == k.self
      && k'.procs[k.next].pid == pid && k'.procs[k.next].state == Running && !k'.procs[k.next].subreaper
      && k'.procs[k.next].parent == (if sibling then k.procs[x].parent else x)
      && (forall y | y in k.procs :: k'.procs[y] == k.procs[y])
      && (k.next in k'.born <==> x in k.born)
  {
    assert x in k.born <==> Descendant(k, x);
  }

  /**
   A process that exits is a zombie with its status, and its orphans go to the nearest subreaper
   above it, or to init.
   */
  lemma ExitMeans(k: Kernel, x: Inc, status: ExitStatus) returns (heir: Inc)
    requires Inv(k) && Enabled(k, Exit(x, status))
    ensures heir in Above(k, x) && heir != x && k.procs[heir].state == Running
    ensures heir == 0 || k.procs[heir].subreaper
    ensures forall a | a in Above(k, x) && heir < a < x :: !k.procs[a].subreaper
    ensures var k' := Apply(k, Env(Exit(x, status)));
      && k'.procs.Keys == k.procs.Keys && k'.self == k.self && k'.born == k.born && k'.next == k.next
      && k'.procs[x] == k.procs[x].(state := Zombie(status))
      && forall y | y in k.procs && y != x ::
        k'.procs[y] == if k.procs[y].parent == x then k.procs[y].(parent := heir) else k.procs[y]
  {
    assert ParentFits(k, x);
    heir := Reaper(k, k.procs[x].parent);
    ReaperAbove(k, k.procs[x].parent);
    NearestReaper(k, k.procs[x].parent);
  }

  lemma {:induction false} NearestReaper(k: Kernel, a: Inc)
    requires TreeShape(k) && IsRunning(k, a)
    ensures Reaper(k, a) == 0 || k.procs[Reaper(k, a)].subreaper
    ensures forall b | b in Above(k, a) && Reaper(k, a) < b :: !k.procs[b].subreaper
    decreases a
  {
    assert ParentFits(k, a);
    if a != 0 && !k.procs[a].subreaper {
      NearestReaper(k, k.procs[a].parent);
    }
  }

  /** What S's own calls do: its fork, its waits and its flag; a signal by itself changes nothing. */
  lemma OwnCallsMean(k: Kernel, pid: nat, c: Inc)
    requires Inv(k)
    ensures Apply(k, Signal(c)) == k
    ensures IsChild(k, c) && k.procs[c].state != Running ==>
      && Apply(k, ReapAny(c)) == Apply(k, ReapPinned(c))
      && Apply(k, ReapAny(c)) == k.(procs := k.procs - {c})
    ensures var k' := Apply(k, BecomeSubreaper);
      && k'.procs[k.self].subreaper && k'.procs.Keys == k.procs.Keys
      && k' == k.(procs := k'.procs) && k'.procs[k.self] == k.procs[k.self].(subreaper := true)
      && forall y | y in k.procs && y != k.self :: k'.procs[y] == k.procs[y]
    ensures k.procs[k.self].subreaper && (forall y | y in k.procs :: k.procs[y].pid != pid) ==>
      var k' := Apply(k, Spawn(pid));
      && k.next !in k.procs && k'.procs.Keys == k.procs.Keys + {k.next} && k.next in k'.born
      && k'.procs[k.next] == Proc(pid, k.self, Running, false)
      && forall y | y in k.procs :: k'.procs[y] == k.procs[y]
  {
  }

  /** Collecting a zombie frees its pid; setting the flag of another process is that process's own affair. */
  lemma OtherMovesMean(k: Kernel, x: Inc, child: Inc, on: bool)
    requires Inv(k)
    ensures Enabled(k, Collect(x, child)) ==> Apply(k, Env(Collect(x, child))) == k.(procs := k.procs - {child})
    ensures Enabled(k, SetSubreaper(x, on)) ==>
      Apply(k, Env(SetSubreaper(x, on))) == k.(procs := k.procs[x := k.procs[x].(subreaper := on)])
  {
  }

  /** What descends from S hangs under it by a chain of parents. */
  lemma DescendantsHangByParents(k: Kernel, x: Inc)
    requires TreeShape(k) && k.self in k.procs && x in k.procs && x != 0
    ensures k.procs[x].parent in k.procs
    ensures Descendant(k, x) <==>
      x != k.self && (k.procs[x].parent == k.self || Descendant(k, k.procs[x].parent))
  {
    assert ParentFits(k, x);
  }
}

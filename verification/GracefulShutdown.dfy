/** The shutdown race: signals, `server.close`, the database shutdown and the deadline. */
module GracefulShutdown {
  import opened Prelude

  /** What can happen between two steps of the program; `Resume` runs the continuation of a settled await. */
  datatype Event = Signal | CloseCallback(ok: bool) | DbSettles(ok: bool) | Resume | Deadline

  datatype Effect = LogReceived | ServerClose | DbShutdown | LogComplete | LogError | Exit(code: int)

  datatype Entry = Happened(event: Event) | Did(effect: Effect)

  /** Where the `shutdown` closure stands; an await holds the outcome of its promise once settled. */
  datatype Phase = Idle | AwaitClose(closed: Option<bool>) | AwaitDb(ended: Option<bool>) | Returned

  datatype Timer = Unset | Armed | Fired | Cleared

  datatype State = State(shuttingDown: bool, terminal: bool, phase: Phase, timer: Timer, history: seq<Entry>)

  const INITIAL := State(false, false, Idle, Unset, [])

  /**
   Which events the runtime can deliver: the close callback any number of times once
   `server.close` was called, the outcome of the database shutdown once, a continuation
   once its promise settled, and the deadline while its timer is armed.
   */
  predicate Enabled(s: State, e: Event) {
    match e
    case Signal => true
    case CloseCallback(_) => s.shuttingDown
    case DbSettles(_) => s.phase == AwaitDb(None)
    case Resume =>
      s.phase in {AwaitClose(Some(true)), AwaitClose(Some(false)), AwaitDb(Some(true)), AwaitDb(Some(false))}
    case Deadline => s.timer == Armed
  }

  const STARTED := [LogReceived, ServerClose]
  const CLOSED := STARTED + [DbShutdown]
  const FAILED := [LogError, Exit(1)]
  const SUCCEEDED := [LogComplete, Exit(0)]

  /** What the program does at once when `e` happens. */
  function Reaction(s: State, e: Event): seq<Effect> {
    match e
    case Signal => if s.shuttingDown then [] else STARTED
    case Deadline => if s.terminal then [] else FAILED
    case Resume =>
      if s.terminal then []
      else if s.phase == AwaitClose(Some(true)) then [DbShutdown]
      else if s.phase == AwaitDb(Some(true)) then SUCCEEDED
      else FAILED
    case _ => []
  }

  function Entries(e: Event, effects: seq<Effect>): (r: seq<Entry>)
    ensures |r| == |effects| + 1 && r[0] == Happened(e)
    ensures forall i | 0 <= i < |effects| :: r[i + 1] == Did(effects[i])
  {
    if effects == [] then [Happened(e)]
    else Entries(e, effects[..|effects| - 1]) + [Did(effects[|effects| - 1])]
  }

  function Step(s: State, e: Event): State {
    var n := s.(history := s.history + Entries(e, Reaction(s, e)));
    match e
    case Signal => if s.shuttingDown then n else n.(shuttingDown := true, timer := Armed, phase := AwaitClose(None))
    case CloseCallback(ok) => if s.phase == AwaitClose(None) then n.(phase := AwaitClose(Some(ok))) else n
    case DbSettles(ok) => n.(phase := AwaitDb(Some(ok)))
    case Deadline => n.(terminal := true, timer := Fired)
    case Resume =>
      if s.terminal then n.(phase := Returned)
      else if s.phase == AwaitClose(Some(true)) then n.(phase := AwaitDb(None))
      else n.(phase := Returned, terminal := true, timer := Cleared)
  }

  /** The closure of `createGracefulShutdown` with its captured variables. */
  class Shutdown {
    var shuttingDown: bool
    var terminal: bool
    var phase: Phase
    var timer: Timer
    var history: seq<Entry>

    ghost function Now(): State
      reads this
    {
      State(shuttingDown, terminal, phase, timer, history)
    }

    constructor ()
      ensures Now() == INITIAL
    {
      shuttingDown, terminal, phase, timer, history := false, false, Idle, Unset, [];
    }

    method Perform(effect: Effect)
      modifies this`history
      ensures history == old(history) + [Did(effect)]
    {
      history := history + [Did(effect)];
    }

    method Notice(event: Event)
      modifies this`history
      ensures history == old(history) + [Happened(event)]
    {
      history := history + [Happened(event)];
    }

    /** A call of `shutdown`, up to its first await. */
    method ReceiveSignal()
      modifies this
      ensures Now() == Step(old(Now()), Signal)
    {
      Notice(Signal);
      if shuttingDown {
        return;
      }
      shuttingDown := true;
      Perform(LogReceived);
      timer := Armed;
      Perform(ServerClose);
      phase := AwaitClose(None);
    }

    /** The promise around `server.close` settles at the first callback only. */
    method OnCloseCallback(ok: bool)
      requires Enabled(Now(), CloseCallback(ok))
      modifies this
      ensures Now() == Step(old(Now()), CloseCallback(ok))
    {
      Notice(CloseCallback(ok));
      if phase == AwaitClose(None) {
        phase := AwaitClose(Some(ok));
      }
    }

    method OnDbSettles(ok: bool)
      requires Enabled(Now(), DbSettles(ok))
      modifies this
      ensures Now() == Step(old(Now()), DbSettles(ok))
    {
      Notice(DbSettles(ok));
      phase := AwaitDb(Some(ok));
    }

    method OnDeadline()
      requires Enabled(Now(), Deadline)
      modifies this
      ensures Now() == Step(old(Now()), Deadline)
    {
      Notice(Deadline);
      timer := Fired;
      if terminal {
        return;
      }
      terminal := true;
      Perform(LogError);
      Perform(Exit(1));
    }

    /** The code after the await that has settled, up to the next await or the end. */
    method Continue()
      requires Enabled(Now(), Resume)
      modifies this
      ensures Now() == Step(old(Now()), Resume)
    {
      Notice(Resume);
      var settled := phase;
      phase := Returned;
      if settled == AwaitClose(Some(true)) {
        if terminal {
          return;
        }
        Perform(DbShutdown);
        phase := AwaitDb(None);
      } else if settled == AwaitDb(Some(true)) {
        if terminal {
          return;
        }
        terminal := true;
        timer := Cleared;
        Perform(LogComplete);
        Perform(Exit(0));
      } else {
        Catch();
      }
    }

    method Catch()
      modifies this
      ensures Now() == if old(terminal) then old(Now()) else
        old(Now()).(terminal := true, timer := Cleared, history := old(history) + [Did(LogError), Did(Exit(1))])
    {
      if terminal {
        return;
      }
      terminal := true;
      timer := Cleared;
      Perform(LogError);
      Perform(Exit(1));
    }
  }

  // ----- runs -----

  predicate Possible(events: seq<Event>) {
    events == []
    || (Possible(events[..|events| - 1]) && Enabled(Run(events[..|events| - 1]), events[|events| - 1]))
  }

  function Run(events: seq<Event>): State {
    if events == [] then INITIAL else Step(Run(events[..|events| - 1]), events[|events| - 1])
  }

  /** What the shutdown did, leaving out what happened to it. */
  function Effects(history: seq<Entry>): seq<Effect> {
    if history == [] then [] else
      var last := history[|history| - 1];
      Effects(history[..|history| - 1]) + if last.Did? then [last.effect] else []
  }

  /** The entries of `xs` occur in `history` in this order, with anything in between. */
  predicate InOrder(xs: seq<Entry>, history: seq<Entry>)
    decreases |history|
  {
    xs == []
    || (history != []
        && ((xs[|xs| - 1] == history[|history| - 1] && InOrder(xs[..|xs| - 1], history[..|history| - 1]))
            || InOrder(xs, history[..|history| - 1])))
  }

  const ORDERLY_END := [Happened(Signal), Did(ServerClose), Happened(CloseCallback(true)), Did(DbShutdown),
                       Happened(DbSettles(true)), Happened(Resume), Did(Exit(0))]

  /** What was done, by where the closure stands. */
  predicate EffectsFit(s: State) {
    var did := Effects(s.history);
    && (s.shuttingDown <==> s.phase != Idle)
    && match s.phase
       case Idle => !s.terminal && s.timer == Unset && did == []
       case AwaitClose(_) =>
         && s.timer == (if s.terminal then Fired else Armed)
         && did == (if s.terminal then STARTED + FAILED else STARTED)
       case AwaitDb(_) =>
         && s.timer == (if s.terminal then Fired else Armed)
         && did == (if s.terminal then CLOSED + FAILED else CLOSED)
       case Returned =>
         && s.terminal
         && (s.timer == Fired || s.timer == Cleared)
         && (did == STARTED + FAILED || did == CLOSED + FAILED || (did == CLOSED + SUCCEEDED && s.timer == Cleared))
  }

  /** What the deadline excludes, and what the success of the database shutdown leads to. */
  predicate CausesFit(s: State) {
    && (s.timer == Fired <==> Happened(Deadline) in s.history)
    && !InOrder([Happened(Deadline), Did(DbShutdown)], s.history)
    && (Happened(DbSettles(true)) in s.history ==>
          s.phase == AwaitDb(Some(true))
          || (s.phase == Returned && (s.timer == Fired || Effects(s.history) == CLOSED + SUCCEEDED)))
    && (s.phase != Returned ==> !InOrder([Happened(DbSettles(true)), Happened(Resume)], s.history))
  }

  /** How much of the orderly end has happened. */
  function Reached(s: State): (r: nat)
    ensures r <= |ORDERLY_END|
  {
    match s.phase
    case Idle => 0
    case AwaitClose(closed) => if closed == Some(true) then 3 else 2
    case AwaitDb(ended) => if ended == Some(true) then 5 else 4
    case Returned => if Effects(s.history) == CLOSED + SUCCEEDED then 7 else 0
  }

  /** The six lists of effects differ, and only the ones with an end exit. */
  lemma EffectsDiffer()
    ensures CLOSED + FAILED != CLOSED + SUCCEEDED && STARTED + FAILED != CLOSED + SUCCEEDED
    ensures Exit(1) in STARTED + FAILED && Exit(1) in CLOSED + FAILED && Exit(0) in CLOSED + SUCCEEDED
    ensures Exit(0) !in STARTED + FAILED && Exit(0) !in CLOSED + FAILED && Exit(0) !in CLOSED
  {
    assert (CLOSED + FAILED)[4] == Exit(1) && (CLOSED + SUCCEEDED)[4] == Exit(0) && |STARTED + FAILED| == 4;
    assert (STARTED + FAILED)[3] == Exit(1);
  }

  lemma EntriesOfTwo(e: Event, x: Effect, y: Effect)
    ensures Entries(e, [x]) == [Happened(e), Did(x)] && Entries(e, [x, y]) == [Happened(e), Did(x), Did(y)]
    ensures Entries(e, []) == [Happened(e)]
  {
  }

  // ----- histories grow at the end -----

  lemma EffectsSnoc(h: seq<Entry>, x: Entry)
    ensures Effects(h + [x]) == Effects(h) + if x.Did? then [x.effect] else []
  {
    assert (h + [x])[..|h|] == h;
  }

  lemma InOrderSnoc(xs: seq<Entry>, h: seq<Entry>, x: Entry)
    ensures InOrder(xs, h + [x]) <==>
      xs == [] || InOrder(xs, h) || (xs[|xs| - 1] == x && InOrder(xs[..|xs| - 1], h))
  {
    assert (h + [x])[..|h|] == h;
  }

  lemma {:induction false} EffectsOfEntries(h: seq<Entry>, e: Event, effects: seq<Effect>)
    ensures Effects(h + Entries(e, effects)) == Effects(h) + effects
    decreases |effects|
  {
    if effects == [] {
      assert Entries(e, effects) == [Happened(e)];
      EffectsSnoc(h, Happened(e));
    } else {
      var n := |effects| - 1;
      EffectsOfEntries(h, e, effects[..n]);
      assert h + Entries(e, effects) == (h + Entries(e, effects[..n])) + [Did(effects[n])];
      EffectsSnoc(h + Entries(e, effects[..n]), Did(effects[n]));
    }
  }

  lemma StepEffects(s: State, e: Event)
    requires EffectsFit(s) && Enabled(s, e)
    ensures EffectsFit(Step(s, e))
  {
    hide Effects, Entries;
    EffectsOfEntries(s.history, e, Reaction(s, e));
    assert STARTED + [DbShutdown] == CLOSED && [] + STARTED == STARTED;
    assert forall did: seq<Effect> :: did + [] == did;
  }

  lemma {:induction false} InOrderGrows(xs: seq<Entry>, h: seq<Entry>, t: seq<Entry>)
    requires InOrder(xs, h)
    ensures InOrder(xs, h + t)
    decreases |t|
  {
    if t == [] {
      assert h + t == h;
    } else {
      var n := |t| - 1;
      InOrderGrows(xs, h, t[..n]);
      assert h + t == h + t[..n] + [t[n]];
      InOrderSnoc(xs, h + t[..n], t[n]);
    }
  }

  lemma {:induction false} InOrderJoins(xs: seq<Entry>, h: seq<Entry>, ys: seq<Entry>, t: seq<Entry>)
    requires InOrder(xs, h) && InOrder(ys, t)
    ensures InOrder(xs + ys, h + t)
    decreases |t|
  {
    if ys == [] {
      assert xs + ys == xs;
      InOrderGrows(xs, h, t);
    } else {
      var n, m := |t| - 1, |ys| - 1;
      assert h + t == h + t[..n] + [t[n]];
      assert (xs + ys)[..|xs| + m] == xs + ys[..m];
      InOrderSnoc(xs + ys, h + t[..n], t[n]);
      if InOrder(ys, t[..n]) {
        InOrderJoins(xs, h, ys, t[..n]);
      } else {
        InOrderJoins(xs, h, ys[..m], t[..n]);
      }
    }
  }

  /** The part of `xs` from `i` to `j`, when it is what a short history ends with. */
  lemma InOrderOfThree(a: Entry, b: Entry, c: Entry)
    ensures InOrder([c], [c]) && InOrder([b], [a, b]) && InOrder([a, b], [a, b]) && InOrder([a, c], [a, b, c])
  {
    assert [a, b, c][..2] == [a] + [b] && [a, b][..1] == [a] && [a, c][..1] == [a] && [a, b][..2] == [a, b];
    InOrderSnoc([a], [], a);
    InOrderSnoc([c], [], c);
    InOrderSnoc([b], [a], b);
    InOrderSnoc([a], [a], b);
    InOrderSnoc([a, b], [a], b);
    InOrderSnoc([a, c], [a] + [b], c);
  }

  /** What a step adds is the next part of the orderly end, if it takes it further. */
  lemma AddedReaches(s: State, e: Event)
    requires EffectsFit(s) && Enabled(s, e) && Reached(Step(s, e)) > Reached(s)
    ensures InOrder(ORDERLY_END[Reached(s)..Reached(Step(s, e))], Entries(e, Reaction(s, e)))
  {
    hide InOrder, Entries, Effects;
    StepEffects(s, e);
    EffectsOfEntries(s.history, e, Reaction(s, e));
    EffectsDiffer();
    EntriesOfTwo(e, LogReceived, ServerClose);
    EntriesOfTwo(e, LogComplete, Exit(0));
    EntriesOfTwo(e, DbShutdown, DbShutdown);
    var t, part := Entries(e, Reaction(s, e)), ORDERLY_END[Reached(s)..Reached(Step(s, e))];
    if e == Signal {
      assert t == [Happened(e), Did(LogReceived), Did(ServerClose)] && part == [Happened(e), Did(ServerClose)];
      InOrderOfThree(Happened(e), Did(LogReceived), Did(ServerClose));
    } else if e == Resume && s.phase.AwaitDb? {
      assert Reaction(s, e) == SUCCEEDED;
      assert t == [Happened(e), Did(LogComplete), Did(Exit(0))] && part == [Happened(e), Did(Exit(0))];
      InOrderOfThree(Happened(e), Did(LogComplete), Did(Exit(0)));
    } else if e == Resume {
      assert Reaction(s, e) == [DbShutdown];
      assert t == [Happened(e), Did(DbShutdown)] && part == [Did(DbShutdown)];
      InOrderOfThree(Happened(e), Did(DbShutdown), Did(DbShutdown));
    } else {
      assert t == [Happened(e)] && part == [Happened(e)];
      InOrderOfThree(Happened(e), Happened(e), Happened(e));
    }
  }

  /** Each step takes the orderly end further, or leaves it as far as it was, or gives it up. */
  lemma StepReaches(s: State, e: Event)
    requires EffectsFit(s) && Enabled(s, e) && InOrder(ORDERLY_END[..Reached(s)], s.history)
    ensures InOrder(ORDERLY_END[..Reached(Step(s, e))], Step(s, e).history)
  {
    hide InOrder, Entries, Reaction, Effects, EffectsFit, Enabled, Reached;
    var r, q, t := Reached(s), Reached(Step(s, e)), Entries(e, Reaction(s, e));
    if q > r {
      AddedReaches(s, e);
      InOrderJoins(ORDERLY_END[..r], s.history, ORDERLY_END[r..q], t);
      assert ORDERLY_END[..r] + ORDERLY_END[r..q] == ORDERLY_END[..q];
    } else {
      InOrderGrows(ORDERLY_END[..r], s.history, t);
      InOrderOfPrefix(ORDERLY_END[..r], q, s.history + t);
      assert ORDERLY_END[..r][..q] == ORDERLY_END[..q];
    }
  }

  lemma {:induction false} InOrderOfPrefix(xs: seq<Entry>, n: nat, h: seq<Entry>)
    requires InOrder(xs, h) && n <= |xs|
    ensures InOrder(xs[..n], h)
    decreases |h|
  {
    if n == |xs| {
      assert xs[..n] == xs;
    } else if n > 0 {
      var m := |h| - 1;
      assert h == h[..m] + [h[m]];
      if InOrder(xs, h[..m]) {
        InOrderOfPrefix(xs, n, h[..m]);
      } else {
        InOrderOfPrefix(xs[..|xs| - 1], n, h[..m]);
        assert xs[..|xs| - 1][..n] == xs[..n];
      }
      InOrderGrows(xs[..n], h[..m], [h[m]]);
    }
  }

  /** `y` still never follows `x` when `t` is added without `y`, or with no `x` so far. */
  lemma {:induction false} NeverFollows(x: Entry, y: Entry, h: seq<Entry>, t: seq<Entry>)
    requires !InOrder([x, y], h) && (y !in t || x !in h + t)
    ensures !InOrder([x, y], h + t)
    decreases |t|
  {
    if t == [] {
      assert h + t == h;
    } else {
      var n := |t| - 1;
      assert h + t == h + t[..n] + [t[n]];
      NeverFollows(x, y, h, t[..n]);
      InOrderSnoc([x, y], h + t[..n], t[n]);
      assert [x, y][..1] == [x];
      InOrderOfOne(x, h + t[..n]);
    }
  }

  lemma {:induction false} InOrderOfOne(x: Entry, h: seq<Entry>)
    ensures InOrder([x], h) <==> x in h
    decreases |h|
  {
    if h != [] {
      InOrderOfOne(x, h[..|h| - 1]);
      assert h == h[..|h| - 1] + [h[|h| - 1]];
    }
  }

  lemma StepCauses(s: State, e: Event)
    requires EffectsFit(s) && CausesFit(s) && Enabled(s, e)
    ensures CausesFit(Step(s, e))
  {
    hide InOrder, Entries, Effects;
    StepEffects(s, e);
    var t := Entries(e, Reaction(s, e));
    EffectsOfEntries(s.history, e, Reaction(s, e));
    EntriesHold(e, Reaction(s, e));
    ReturnIsFinal(s, e);
    DbStartsInTime(s, e);
    NeverFollows(Happened(Deadline), Did(DbShutdown), s.history, t);
    NoDbOutcomeYet(s, e);
    if Step(s, e).phase != Returned {
      NeverFollows(Happened(DbSettles(true)), Happened(Resume), s.history, t);
    }
  }

  lemma {:induction false} EntriesHold(e: Event, effects: seq<Effect>)
    ensures forall x :: Did(x) in Entries(e, effects) <==> x in effects
    ensures forall f :: Happened(f) in Entries(e, effects) <==> f == e
    decreases |effects|
  {
    if effects != [] {
      var n := |effects| - 1;
      EntriesHold(e, effects[..n]);
      assert effects == effects[..n] + [effects[n]];
    }
  }

  lemma DbStartsInTime(s: State, e: Event)
    requires EffectsFit(s) && CausesFit(s) && Enabled(s, e)
    ensures DbShutdown in Reaction(s, e) ==> e == Resume && Happened(Deadline) !in s.history
  {
    hide InOrder, Effects;
  }

  lemma NoDbOutcomeYet(s: State, e: Event)
    requires EffectsFit(s) && CausesFit(s) && Enabled(s, e)
    ensures e == Resume && Step(s, e).phase != Returned ==> Happened(DbSettles(true)) !in s.history
  {
    hide InOrder, Effects;
  }

  /**
   A closure that returned does nothing more; one that returns after a good database shutdown did
   so in time or succeeds.
   */
  lemma ReturnIsFinal(s: State, e: Event)
    requires EffectsFit(s) && CausesFit(s) && Enabled(s, e)
    ensures var n := Step(s, e);
      && (s.phase == Returned ==> Reaction(s, e) == [] && n.phase == Returned)
      && (s.phase == AwaitDb(Some(true)) && n.phase == Returned ==>
        n.timer == Fired || Effects(n.history) == CLOSED + SUCCEEDED)
  {
    EffectsOfEntries(s.history, e, Reaction(s, e));
  }

  // ----- over every run -----

  lemma {:induction false} RunFits(events: seq<Event>)
    requires Possible(events)
    ensures var s := Run(events); EffectsFit(s) && CausesFit(s) && InOrder(ORDERLY_END[..Reached(s)], s.history)
    decreases |events|
  {
    if events != [] {
      var n := |events| - 1;
      RunFits(events[..n]);
      StepEffects(Run(events[..n]), events[n]);
      StepCauses(Run(events[..n]), events[n]);
      StepReaches(Run(events[..n]), events[n]);
    }
  }

  /**
   Whatever happens in whatever order, the program does one of these six things: server close
   and database shutdown start at most once and in this order, and it exits at most once.
   */
  lemma OnlyTheseEffects(events: seq<Event>)
    requires Possible(events)
    ensures Effects(Run(events).history)
      in {[], STARTED, STARTED + FAILED, CLOSED, CLOSED + FAILED, CLOSED + SUCCEEDED}
  {
    RunFits(events);
  }

  /**
   Success is reported exactly when the database shutdown succeeded and was resumed with no
   deadline ever, and then everything before it happened in order.
   */
  lemma ExitsZeroIff(events: seq<Event>)
    requires Possible(events)
    ensures var h := Run(events).history;
      && (Exit(0) in Effects(h) <==>
            InOrder([Happened(DbSettles(true)), Happened(Resume)], h) && Happened(Deadline) !in h)
      && (Exit(0) in Effects(h) ==> InOrder(ORDERLY_END, h))
  {
    hide InOrder, Effects, Run, Possible;
    RunFits(events);
    EffectsDiffer();
    var s := Run(events);
    OutcomesIn(s.history);
    assert ORDERLY_END[..7] == ORDERLY_END;
    InOrderParts(s.history);
  }

  lemma OutcomesIn(h: seq<Entry>)
    ensures InOrder([Happened(DbSettles(true)), Happened(Resume)], h) ==> Happened(DbSettles(true)) in h
  {
    if InOrder([Happened(DbSettles(true)), Happened(Resume)], h) {
      InOrderOfPrefix([Happened(DbSettles(true)), Happened(Resume)], 1, h);
      InOrderOfOne(Happened(DbSettles(true)), h);
      assert [Happened(DbSettles(true)), Happened(Resume)][..1] == [Happened(DbSettles(true))];
    }
  }

  lemma InOrderParts(h: seq<Entry>)
    ensures InOrder(ORDERLY_END, h) ==> InOrder([Happened(DbSettles(true)), Happened(Resume)], h)
  {
    if InOrder(ORDERLY_END, h) {
      InOrderOfPrefix(ORDERLY_END, 6, h);
      InOrderOfSuffix(ORDERLY_END[..6], 4, h);
      assert ORDERLY_END[..6][4..] == [Happened(DbSettles(true)), Happened(Resume)];
    }
  }

  lemma {:induction false} InOrderOfSuffix(xs: seq<Entry>, n: nat, h: seq<Entry>)
    requires InOrder(xs, h) && n <= |xs|
    ensures InOrder(xs[n..], h)
    decreases |h|
  {
    if n < |xs| {
      var m := |h| - 1;
      assert h == h[..m] + [h[m]];
      InOrderSnoc(xs[n..], h[..m], h[m]);
      if InOrder(xs, h[..m]) {
        InOrderOfSuffix(xs, n, h[..m]);
      } else {
        InOrderOfSuffix(xs[..|xs| - 1], n, h[..m]);
        assert xs[..|xs| - 1][n..] == xs[n..][..|xs| - 1 - n];
      }
    }
  }

  /** A deadline that fired always forced the one exit, with code 1, and the database shutdown never starts after it. */
  lemma FiredDeadlineExitsOnce(events: seq<Event>)
    requires Possible(events) && Happened(Deadline) in Run(events).history
    ensures var h := Run(events).history;
      && (Effects(h) == STARTED + FAILED || Effects(h) == CLOSED + FAILED)
      && !InOrder([Happened(Deadline), Did(DbShutdown)], h)
  {
    hide InOrder, Effects, Run, Possible;
    RunFits(events);
  }

  /** After a signal the program has exited, or the deadline is still pending and would make it exit. */
  lemma DeadlineIsPending(events: seq<Event>)
    requires Possible(events) && Run(events).shuttingDown
    ensures var s := Run(events);
      || Exit(0) in Effects(s.history) || Exit(1) in Effects(s.history)
      || (Possible(events + [Deadline]) && Effects(Run(events + [Deadline]).history) == Effects(s.history) + FAILED)
  {
    hide Effects, InOrder, Run, CausesFit, Possible;
    RunFits(events);
    var s := Run(events);
    if s.terminal {
      EndedWithExit(s);
    } else {
      RunOneMore(events, Deadline);
      EffectsOfEntries(s.history, Deadline, FAILED);
    }
  }

  lemma RunOneMore(events: seq<Event>, e: Event)
    ensures Run(events + [e]) == Step(Run(events), e)
    ensures Possible(events + [e]) <==> Possible(events) && Enabled(Run(events), e)
  {
    assert (events + [e])[..|events|] == events;
  }

  lemma EndedWithExit(s: State)
    requires EffectsFit(s) && s.terminal
    ensures Exit(0) in Effects(s.history) || Exit(1) in Effects(s.history)
  {
    hide Effects;
    EffectsDiffer();
  }

  /** Two states that differ in what happened only, not in what was done or will be done. */
  predicate Alike(s: State, t: State) {
    s.(history := []) == t.(history := []) && Effects(s.history) == Effects(t.history)
  }

  lemma StepKeepsAlike(s: State, t: State, e: Event)
    requires Alike(s, t) && Enabled(s, e)
    ensures Enabled(t, e) && Alike(Step(s, e), Step(t, e))
  {
    EffectsOfEntries(s.history, e, Reaction(s, e));
    EffectsOfEntries(t.history, e, Reaction(t, e));
  }

  lemma SignalIgnored(s: State)
    requires s.shuttingDown
    ensures Enabled(s, Signal) && Alike(s, Step(s, Signal))
  {
    EffectsOfEntries(s.history, Signal, []);
    assert Effects(s.history) + [] == Effects(s.history);
  }

  /** Signals after the first change nothing: leaving one out, or adding one anywhere, gives the same run. */
  lemma {:induction false} RepeatedSignalIsNoOp(before: seq<Event>, after: seq<Event>)
    requires Run(before).shuttingDown && Possible(before + after)
    ensures Possible(before + [Signal] + after)
    ensures Alike(Run(before + after), Run(before + [Signal] + after))
    decreases |after|
  {
    hide Run, Possible, Step, Enabled, Alike;
    if after == [] {
      assert before + after == before && before + [Signal] + after == before + [Signal];
      RunOneMore(before, Signal);
      SignalIgnored(Run(before));
    } else {
      var n := |after| - 1;
      assert before + after == before + after[..n] + [after[n]];
      assert before + [Signal] + after == before + [Signal] + after[..n] + [after[n]];
      RunOneMore(before + after[..n], after[n]);
      RepeatedSignalIsNoOp(before, after[..n]);
      StepKeepsAlike(Run(before + after[..n]), Run(before + [Signal] + after[..n]), after[n]);
      RunOneMore(before + [Signal] + after[..n], after[n]);
    }
  }
}

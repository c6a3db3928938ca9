/** What the graceful shutdown does, told from what happened to it and nothing else. */
module ShutdownOutcome {
  import opened Prelude
  import opened GracefulShutdown

  predicate IsCallback(x: Entry) {
    x.Happened? && x.event.CloseCallback?
  }

  predicate NoCallback(h: seq<Entry>) {
    forall i | 0 <= i < |h| :: !IsCallback(h[i])
  }

  /** The first close callback had this outcome; any later one does not matter. */
  ghost predicate FirstCallback(h: seq<Entry>, ok: bool) {
    exists i :: 0 <= i < |h| && h[i] == Happened(CloseCallback(ok)) && NoCallback(h[..i])
  }

  /** Entry `j` is a continuation before which no deadline had fired. */
  predicate InTime(h: seq<Entry>, j: int) {
    0 <= j < |h| && h[j] == Happened(Resume) && Happened(Deadline) !in h[..j]
  }

  /** The outcome of closing the server was resumed in time. */
  ghost predicate CloseResumed(h: seq<Entry>, ok: bool) {
    exists j :: InTime(h, j) && FirstCallback(h[..j], ok)
  }

  /** The outcome of the database shutdown was resumed in time. */
  ghost predicate DbResumed(h: seq<Entry>, ok: bool) {
    exists j :: InTime(h, j) && Happened(DbSettles(ok)) in h[..j]
  }

  // ----- histories grow at the end -----

  lemma FirstCallbackSnoc(h: seq<Entry>, x: Entry, ok: bool)
    ensures NoCallback(h + [x]) <==> NoCallback(h) && !IsCallback(x)
    ensures FirstCallback(h + [x], ok) <==> FirstCallback(h, ok) || (NoCallback(h) && x == Happened(CloseCallback(ok)))
  {
    var more := h + [x];
    assert forall i | 0 <= i < |h| :: more[i] == h[i] && more[..i] == h[..i];
    assert more[|h|] == x && more[..|h|] == h;
    if FirstCallback(h, ok) {
      var i :| 0 <= i < |h| && h[i] == Happened(CloseCallback(ok)) && NoCallback(h[..i]);
      assert more[i] == h[i] && NoCallback(more[..i]);
    }
    if NoCallback(more) {
      forall i | 0 <= i < |h| ensures !IsCallback(h[i]) {
        assert !IsCallback(more[i]);
      }
    }
  }

  lemma CloseResumedSnoc(h: seq<Entry>, x: Entry, ok: bool)
    ensures CloseResumed(h + [x], ok) <==>
      CloseResumed(h, ok) || (x == Happened(Resume) && FirstCallback(h, ok) && Happened(Deadline) !in h)
  {
    var more := h + [x];
    assert forall j | 0 <= j < |h| :: more[j] == h[j] && more[..j] == h[..j];
    assert more[|h|] == x && more[..|h|] == h;
    hide FirstCallback;
    assert forall j | 0 <= j < |h| :: InTime(more, j) <==> InTime(h, j);
    if CloseResumed(h, ok) {
      var j :| InTime(h, j) && FirstCallback(h[..j], ok);
      assert InTime(more, j);
    }
    if x == Happened(Resume) && FirstCallback(h, ok) && Happened(Deadline) !in h {
      assert InTime(more, |h|);
    }
  }

  lemma DbResumedSnoc(h: seq<Entry>, x: Entry, ok: bool)
    ensures DbResumed(h + [x], ok) <==>
      DbResumed(h, ok) || (x == Happened(Resume) && Happened(DbSettles(ok)) in h && Happened(Deadline) !in h)
  {
    var more := h + [x];
    assert forall j | 0 <= j < |h| :: more[j] == h[j] && more[..j] == h[..j];
    assert more[|h|] == x && more[..|h|] == h;
    assert forall j | 0 <= j < |h| :: InTime(more, j) <==> InTime(h, j);
    if DbResumed(h, ok) {
      var j :| InTime(h, j) && Happened(DbSettles(ok)) in h[..j];
      assert InTime(more, j);
    }
    if x == Happened(Resume) && Happened(DbSettles(ok)) in h && Happened(Deadline) !in h {
      assert InTime(more, |h|);
    }
  }

  /** What a step adds to the story is its event; what the program does then adds nothing. */
  lemma {:induction false} StoryOfStep(h: seq<Entry>, e: Event, effects: seq<Effect>, ok: bool)
    ensures var more := h + Entries(e, effects);
      && (NoCallback(more) <==> NoCallback(h) && !e.CloseCallback?)
      && (FirstCallback(more, ok) <==> FirstCallback(h, ok) || (NoCallback(h) && e == CloseCallback(ok)))
      && (CloseResumed(more, ok) <==>
            CloseResumed(h, ok) || (e == Resume && FirstCallback(h, ok) && Happened(Deadline) !in h))
      && (DbResumed(more, ok) <==>
            DbResumed(h, ok) || (e == Resume && Happened(DbSettles(ok)) in h && Happened(Deadline) !in h))
    decreases |effects|
  {
    hide NoCallback, FirstCallback, CloseResumed, DbResumed;
    if effects == [] {
      assert Entries(e, effects) == [Happened(e)];
      FirstCallbackSnoc(h, Happened(e), ok);
      CloseResumedSnoc(h, Happened(e), ok);
      DbResumedSnoc(h, Happened(e), ok);
    } else {
      var n := |effects| - 1;
      var before := h + Entries(e, effects[..n]);
      StoryOfStep(h, e, effects[..n], ok);
      assert h + Entries(e, effects) == before + [Did(effects[n])];
      FirstCallbackSnoc(before, Did(effects[n]), ok);
      CloseResumedSnoc(before, Did(effects[n]), ok);
      DbResumedSnoc(before, Did(effects[n]), ok);
    }
  }

  // ----- where the closure stands tells the story, and the story tells where it stands -----

  ghost predicate CloseTold(s: State) {
    var h := s.history;
    && (s.phase == Idle <==> Happened(Signal) !in h)
    && (NoCallback(h) <==> s.phase == Idle || s.phase == AwaitClose(None))
    && (s.phase.AwaitClose? && s.phase.closed.Some? ==>
          FirstCallback(h, s.phase.closed.value) && !FirstCallback(h, !s.phase.closed.value))
    && (s.phase.AwaitDb? ==> FirstCallback(h, true) && !FirstCallback(h, false))
    && (NoCallback(h) ==> !FirstCallback(h, true) && !FirstCallback(h, false))
    && (CloseResumed(h, true) <==>
          Effects(h) == CLOSED || Effects(h) == CLOSED + FAILED || Effects(h) == CLOSED + SUCCEEDED)
    && (CloseResumed(h, false) <==> Effects(h) == STARTED + FAILED && Happened(Deadline) !in h)
  }

  ghost predicate DbTold(s: State) {
    var h := s.history;
    && (s.phase == Idle || s.phase.AwaitClose? || s.phase == AwaitDb(None) ==>
          Happened(DbSettles(true)) !in h && Happened(DbSettles(false)) !in h)
    && (s.phase.AwaitDb? && s.phase.ended.Some? ==>
          Happened(DbSettles(s.phase.ended.value)) in h && Happened(DbSettles(!s.phase.ended.value)) !in h)
    && (s.phase == Returned && (Effects(h) == CLOSED + FAILED || Effects(h) == CLOSED + SUCCEEDED) ==>
          Happened(DbSettles(true)) in h || Happened(DbSettles(false)) in h)
    && (DbResumed(h, true) <==> Effects(h) == CLOSED + SUCCEEDED)
    && (DbResumed(h, false) <==> Effects(h) == CLOSED + FAILED && Happened(Deadline) !in h)
  }

  lemma ListsDiffer()
    ensures |STARTED| == 2 && |CLOSED| == 3 && |FAILED| == |SUCCEEDED| == 2
    ensures CLOSED + FAILED != CLOSED + SUCCEEDED
    ensures STARTED + [DbShutdown] == CLOSED && [] + STARTED == STARTED
    ensures forall did: seq<Effect> :: did + [] == did
  {
    EffectsDiffer();
  }

  lemma StepEffectsAre(s: State, e: Event)
    ensures Effects(Step(s, e).history) == Effects(s.history) + Reaction(s, e)
    ensures forall f :: Happened(f) in Step(s, e).history <==> Happened(f) in s.history || f == e
  {
    hide Entries, Effects, Reaction;
    EffectsOfEntries(s.history, e, Reaction(s, e));
    EntriesHold(e, Reaction(s, e));
  }

  lemma StepIsTold(s: State, e: Event)
    requires EffectsFit(s) && CausesFit(s) && CloseTold(s) && Enabled(s, e)
    ensures CloseTold(Step(s, e))
  {
    hide InOrder, Effects, Entries, NoCallback, FirstCallback, CloseResumed, DbResumed;
    ListsDiffer();
    StepEffects(s, e);
    StepEffectsAre(s, e);
    StoryOfStep(s.history, e, Reaction(s, e), true);
    StoryOfStep(s.history, e, Reaction(s, e), false);
  }

  lemma DbStepIsTold(s: State, e: Event)
    requires EffectsFit(s) && CausesFit(s) && DbTold(s) && Enabled(s, e)
    ensures DbTold(Step(s, e))
  {
    hide InOrder, Effects, Entries, NoCallback, FirstCallback, CloseResumed, DbResumed;
    ListsDiffer();
    StepEffects(s, e);
    StepEffectsAre(s, e);
    StoryOfStep(s.history, e, Reaction(s, e), true);
    StoryOfStep(s.history, e, Reaction(s, e), false);
  }

  lemma {:induction false} RunIsTold(events: seq<Event>)
    requires Possible(events)
    ensures CloseTold(Run(events)) && DbTold(Run(events))
    decreases |events|
  {
    if events != [] {
      var n := |events| - 1;
      RunIsTold(events[..n]);
      RunFits(events[..n]);
      StepIsTold(Run(events[..n]), events[n]);
      DbStepIsTold(Run(events[..n]), events[n]);
    }
  }

  /**
   All that the program ever does, told from the events alone: nothing without a signal; with
   one it closes the server, and shuts the database down exactly when that succeeded and was
   resumed before any deadline; it exits with 0 exactly when that succeeded and was resumed in
   time, too, and with 1 exactly when either failed and was resumed in time, or the deadline
   fired.
   */
  lemma EffectsAreTold(events: seq<Event>)
    requires Possible(events)
    ensures var h := Run(events).history;
      Effects(h) ==
        if Happened(Signal) !in h then []
        else if CloseResumed(h, true) then
          if DbResumed(h, true) then [LogReceived, ServerClose, DbShutdown, LogComplete, Exit(0)]
          else if DbResumed(h, false) || Happened(Deadline) in h
            then [LogReceived, ServerClose, DbShutdown, LogError, Exit(1)]
          else [LogReceived, ServerClose, DbShutdown]
        else if CloseResumed(h, false) || Happened(Deadline) in h
          then [LogReceived, ServerClose, LogError, Exit(1)]
        else [LogReceived, ServerClose]
  {
    hide InOrder, Effects, CloseResumed, DbResumed, NoCallback, FirstCallback, Run, Possible;
    RunFits(events);
    RunIsTold(events);
    ListsDiffer();
    TimerTold(Run(events));
  }

  lemma TimerTold(s: State)
    requires EffectsFit(s) && CausesFit(s)
    ensures Happened(Deadline) in s.history ==>
      Effects(s.history) == STARTED + FAILED || Effects(s.history) == CLOSED + FAILED
  {
    hide Effects, InOrder;
  }

  // ----- what can happen -----

  /** The history keeps every event, in order. */
  function EventsIn(h: seq<Entry>): seq<Event> {
    if h == [] then [] else
      var last := h[|h| - 1];
      EventsIn(h[..|h| - 1]) + if last.Happened? then [last.event] else []
  }

  lemma {:induction false} EventsOfEntries(h: seq<Entry>, e: Event, effects: seq<Effect>)
    ensures EventsIn(h + Entries(e, effects)) == EventsIn(h) + [e]
    decreases |effects|
  {
    if effects == [] {
      assert Entries(e, effects) == [Happened(e)];
      assert (h + [Happened(e)])[..|h|] == h;
    } else {
      var n := |effects| - 1;
      var before := h + Entries(e, effects[..n]);
      EventsOfEntries(h, e, effects[..n]);
      assert h + Entries(e, effects) == before + [Did(effects[n])];
      assert (before + [Did(effects[n])])[..|before|] == before;
    }
  }

  lemma {:induction false} EventsAreRecorded(events: seq<Event>)
    ensures EventsIn(Run(events).history) == events
    decreases |events|
  {
    if events != [] {
      var n := |events| - 1;
      var s := Run(events[..n]);
      EventsAreRecorded(events[..n]);
      EventsOfStep(s, events[n]);
      hide EventsIn, Step;
      assert events == events[..n] + [events[n]];
    }
  }

  lemma EventsOfStep(s: State, e: Event)
    ensures EventsIn(Step(s, e).history) == EventsIn(s.history) + [e]
  {
    hide EventsIn, Entries, Reaction;
    EventsOfEntries(s.history, e, Reaction(s, e));
  }

  /**
   Which runs there are: signals at any time, close callbacks as soon as the server was asked
   to close, one outcome of the database shutdown once it was started, and the deadline until
   the program has exited.
   */
  lemma WhatCanHappen(events: seq<Event>, ok: bool)
    requires Possible(events)
    ensures var h := Run(events).history;
      && Possible(events + [Signal])
      && (Possible(events + [CloseCallback(ok)]) <==> ServerClose in Effects(h))
      && (Possible(events + [DbSettles(ok)]) <==>
            DbShutdown in Effects(h) && Happened(DbSettles(true)) !in h && Happened(DbSettles(false)) !in h)
      && (Possible(events + [Deadline]) <==>
            ServerClose in Effects(h) && Exit(0) !in Effects(h) && Exit(1) !in Effects(h))
  {
    hide InOrder, Effects, CloseResumed, DbResumed, NoCallback, FirstCallback, Run, Possible;
    RunFits(events);
    RunIsTold(events);
    ListsHold();
    RunOneMore(events, Signal);
    RunOneMore(events, CloseCallback(ok));
    RunOneMore(events, DbSettles(ok));
    RunOneMore(events, Deadline);
  }

  lemma ListsHold()
    ensures ServerClose in STARTED && ServerClose in CLOSED && ServerClose in STARTED + FAILED
    ensures ServerClose in CLOSED + FAILED && ServerClose in CLOSED + SUCCEEDED
    ensures DbShutdown !in STARTED && DbShutdown !in STARTED + FAILED
    ensures DbShutdown in CLOSED && DbShutdown in CLOSED + FAILED && DbShutdown in CLOSED + SUCCEEDED
    ensures forall code :: Exit(code) !in STARTED && Exit(code) !in CLOSED
    ensures Exit(1) in STARTED + FAILED && Exit(1) in CLOSED + FAILED && Exit(0) in CLOSED + SUCCEEDED
  {
    EffectsDiffer();
    assert STARTED[1] == ServerClose && CLOSED[2] == DbShutdown;
  }

  /** The orderly run is one of them, and so are both failures. */
  lemma EndsArePossible()
    ensures Possible([Signal, CloseCallback(true), Resume, DbSettles(true), Resume])
    ensures Possible([Signal, CloseCallback(true), Resume, DbSettles(false), Resume])
    ensures Possible([Signal, CloseCallback(false), Resume])
  {
    hide Possible, Run;
    NothingYet();
    RunOneMore([], Signal);
    assert [] + [Signal] == [Signal];
    forall ok
      ensures Possible([Signal, CloseCallback(ok), Resume])
      ensures Run([Signal, CloseCallback(ok), Resume]).phase == if ok then AwaitDb(None) else Returned
    {
      RunOneMore([Signal], CloseCallback(ok));
      assert [Signal] + [CloseCallback(ok)] == [Signal, CloseCallback(ok)];
      RunOneMore([Signal, CloseCallback(ok)], Resume);
      assert [Signal, CloseCallback(ok)] + [Resume] == [Signal, CloseCallback(ok), Resume];
    }
    var closed := [Signal, CloseCallback(true), Resume];
    forall ok ensures Possible([Signal, CloseCallback(true), Resume, DbSettles(ok), Resume]) {
      RunOneMore(closed, DbSettles(ok));
      RunOneMore(closed + [DbSettles(ok)], Resume);
      assert closed + [DbSettles(ok)] + [Resume] == [Signal, CloseCallback(true), Resume, DbSettles(ok), Resume];
    }
  }

  lemma NothingYet()
    ensures Possible([]) && Run([]) == INITIAL
  {
  }
}

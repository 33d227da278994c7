/**
 The Go client's session (session.go): Run, PartialRun.Run and NewPartialRun enter under a
 mutex and are counted by a wait group; Close holds the mutex while it waits for the count
 to drop.  The model is a state machine whose steps are the single atomic actions of any
 number of goroutines, interleaved in any way.
 */
module GoSession {
  import opened Options
  import opened Progress

  /** Where a goroutine is.  The three kinds of use share one protocol. */
  datatype Pc =
    // Run, PartialRun.Run, NewPartialRun
    | UseStart      // before mu.Lock()
    | UseLocked     // holds mu, about to look at s.c
    | UseCounted    // wg.Add(1) done, still holds mu
    | UseEntered    // mu released, about to pass s.c to the C API
    | UseInCall     // inside the C API
    | UseReturned   // back from it, wg.Done() still to come
    | UseDone(called: bool) // returned; turned away, with "session is closed", if it made no call
    // Close
    | CloseStart    // before mu.Lock()
    | CloseLocked   // holds mu, in wg.Wait()
    | CloseWaited   // the wait group was seen at zero
    | CloseInClose  // inside TF_CloseSession
    | CloseInDelete // TF_CloseSession succeeded, inside TF_DeleteSession
    | CloseDeleted  // about to set s.c to nil
    | CloseUnlock(ok: bool) // about to release mu
    | CloseDone(ok: bool)   // returned, with the error of TF_CloseSession if not ok

  /** The C object behind s.c. */
  datatype Session = Live | Closed | Deleted

  datatype State = State(
    mu: Option<Tid>,
    wg: nat,
    c: bool, // s.c is not nil
    session: Session,
    deletions: nat,
    threads: map<Tid, Pc>)

  predicate Init(s: State) {
    s == State(None, 0, true, Live, 0, map[])
  }

  predicate HoldsMutex(pc: Pc) {
    || pc.UseLocked? || pc.UseCounted? || pc.CloseLocked? || pc.CloseWaited?
    || pc.CloseInClose? || pc.CloseInDelete? || pc.CloseDeleted? || pc.CloseUnlock?
  }

  predicate IsCounted(pc: Pc) {
    pc.UseCounted? || pc.UseEntered? || pc.UseInCall? || pc.UseReturned?
  }

  /** Inside an API function that must have the session to itself. */
  predicate IsClosing(pc: Pc) {
    pc.CloseInClose? || pc.CloseInDelete? || pc.CloseDeleted?
  }

  /** Inside one of the three calls, the mutex released. */
  predicate IsInFlight(pc: Pc) {
    pc.UseEntered? || pc.UseInCall? || pc.UseReturned?
  }

  predicate IsDone(pc: Pc) {
    pc.UseDone? || pc.CloseDone?
  }

  function Counted(s: State): set<Tid> {
    set t | t in s.threads && IsCounted(s.threads[t])
  }

  // ---------------------------------------------------------------------------------------
  // Steps.

  /** A new call; finished goroutines are never reused. */
  predicate Spawn(s: State, s': State, t: Tid) {
    && t !in s.threads
    && (s' == s.(threads := s.threads[t := UseStart]) || s' == s.(threads := s.threads[t := CloseStart]))
  }

  /** One atomic action of goroutine t; false where it is blocked or done. */
  predicate Advance(s: State, s': State, t: Tid) {
    && t in s.threads
    && match s.threads[t]
       case UseStart => s.mu == None && s' == s.(mu := Some(t), threads := s.threads[t := UseLocked])
       case UseLocked =>
         if s.c then s' == s.(wg := s.wg + 1, threads := s.threads[t := UseCounted])
         else s' == s.(mu := None, threads := s.threads[t := UseDone(false)])
       case UseCounted => s' == s.(mu := None, threads := s.threads[t := UseEntered])
       case UseEntered => s' == s.(threads := s.threads[t := UseInCall])
       case UseInCall => s' == s.(threads := s.threads[t := UseReturned])
       case UseReturned => s.wg > 0 && s' == s.(wg := s.wg - 1, threads := s.threads[t := UseDone(true)])
       case UseDone(_) => false
       case CloseStart => s.mu == None && s' == s.(mu := Some(t), threads := s.threads[t := CloseLocked])
       case CloseLocked => s.wg == 0 && s' == s.(threads := s.threads[t := CloseWaited])
       case CloseWaited =>
         s' == s.(threads := s.threads[t := if s.c then CloseInClose else CloseUnlock(true)])
       case CloseInClose => CloseSucceeds(s, s', t) || CloseFails(s, s', t)
       case CloseInDelete =>
         s' == s.(session := Deleted, deletions := s.deletions + 1, threads := s.threads[t := CloseDeleted])
       case CloseDeleted => s' == s.(c := false, threads := s.threads[t := CloseUnlock(true)])
       case CloseUnlock(ok) => s' == s.(mu := None, threads := s.threads[t := CloseDone(ok)])
       case CloseDone(_) => false
  }

  predicate CloseSucceeds(s: State, s': State, t: Tid) {
    s' == s.(session := Closed, threads := s.threads[t := CloseInDelete])
  }

  /** TF_CloseSession reports an error: Close returns it and leaves s.c alone. */
  predicate CloseFails(s: State, s': State, t: Tid) {
    s' == s.(threads := s.threads[t := CloseUnlock(false)])
  }

  ghost predicate Next(s: State, s': State) {
    exists t :: Spawn(s, s', t) || Advance(s, s', t)
  }

  ghost predicate Run(trace: seq<State>) {
    && trace != [] && Init(trace[0])
    && forall i :: 0 <= i < |trace| - 1 ==> Next(trace[i], trace[i + 1])
  }

  // ---------------------------------------------------------------------------------------
  // The invariant.

  /** What Close has done so far agrees with the fields. */
  predicate Agrees(s: State, pc: Pc) {
    match pc
    case CloseInClose => s.c && s.session == Live
    case CloseInDelete => s.c && s.session == Closed
    case CloseDeleted => s.c && s.session == Deleted
    case _ => (s.c && s.session == Live) || (!s.c && s.session == Deleted)
  }

  /** The holder of the mutex is the one goroutine in a locked section. */
  ghost predicate LockInv(s: State) {
    && (forall t :: t in s.threads ==> (HoldsMutex(s.threads[t]) <==> s.mu == Some(t)))
    && (s.mu.Some? ==> s.mu.value in s.threads)
  }

  ghost predicate CountInv(s: State) {
    s.wg == |Counted(s)|
  }

  function HolderPc(s: State): Pc {
    if s.mu.Some? && s.mu.value in s.threads then s.threads[s.mu.value] else UseStart
  }

  ghost predicate SessionInv(s: State) {
    && (forall t :: t in s.threads && IsCounted(s.threads[t]) ==> s.c && s.session == Live)
    && (IsClosing(HolderPc(s)) || HolderPc(s).CloseWaited? ==> forall t :: t in s.threads ==> !IsCounted(s.threads[t]))
    && Agrees(s, HolderPc(s))
    && s.deletions == (if s.session == Deleted then 1 else 0)
  }

  ghost predicate Inv(s: State) {
    LockInv(s) && CountInv(s) && SessionInv(s)
  }

  lemma InitInv(s: State)
    requires Init(s)
    ensures Inv(s)
  {
    assert Counted(s) == {};
  }

  /** How the set of counted goroutines changes when t moves on. */
  lemma CountedAfter(s: State, s': State, t: Tid, pc: Pc)
    requires s'.threads == s.threads[t := pc]
    ensures Counted(s') == if IsCounted(pc) then Counted(s) + {t} else Counted(s) - {t}
  {
  }

  lemma AdvanceLock(s: State, s': State, t: Tid)
    requires LockInv(s) && Advance(s, s', t)
    ensures LockInv(s')
  {
  }

  /** A step moves one goroutine forward and keeps the wait group in line with it. */
  lemma AdvanceShape(s: State, s': State, t: Tid)
    requires Advance(s, s', t)
    ensures t in s.threads && t in s'.threads && s'.threads == s.threads[t := s'.threads[t]]
    ensures StepsLeft(s'.threads[t]) < StepsLeft(s.threads[t])
    ensures s'.wg - s.wg == (if IsCounted(s'.threads[t]) then 1 else 0) - (if IsCounted(s.threads[t]) then 1 else 0)
  {
  }

  lemma AdvanceCount(s: State, s': State, t: Tid)
    requires CountInv(s) && Advance(s, s', t)
    ensures CountInv(s')
  {
    hide Advance, IsCounted, StepsLeft;
    AdvanceShape(s, s', t);
    CountedAfter(s, s', t, s'.threads[t]);
    assert IsCounted(s.threads[t]) <==> t in Counted(s);
  }

  lemma AdvanceSession(s: State, s': State, t: Tid)
    requires Inv(s) && Advance(s, s', t)
    ensures SessionInv(s')
  {
    assert s.threads[t] == CloseLocked && s.wg == 0 ==> Counted(s) == {};
    assert forall u :: u in s.threads && IsCounted(s.threads[u]) ==> u in Counted(s);
  }

  lemma AdvanceInv(s: State, s': State, t: Tid)
    requires Inv(s) && Advance(s, s', t)
    ensures Inv(s')
  {
    hide *;
    AdvanceLock(s, s', t) by { InvParts(s); }
    AdvanceCount(s, s', t) by { InvParts(s); }
    AdvanceSession(s, s', t);
    InvFromParts(s');
  }

  lemma InvParts(s: State)
    requires Inv(s)
    ensures LockInv(s) && CountInv(s) && SessionInv(s)
  {
  }

  lemma InvFromParts(s: State)
    requires LockInv(s) && CountInv(s) && SessionInv(s)
    ensures Inv(s)
  {
  }

  lemma SpawnInv(s: State, s': State, t: Tid)
    requires Inv(s) && Spawn(s, s', t)
    ensures Inv(s')
  {
    assert CountInv(s') by {
      CountedAfter(s, s', t, s'.threads[t]);
      assert Counted(s') == Counted(s);
    }
    assert HolderPc(s') == HolderPc(s) && LockInv(s');
    hide Agrees, CountInv;
  }

  lemma {:induction false} RunInv(trace: seq<State>, i: nat)
    requires Run(trace) && i < |trace|
    ensures Inv(trace[i])
  {
    if i == 0 {
      InitInv(trace[0]);
    } else {
      RunInv(trace, i - 1);
      assert Next(trace[i - 1], trace[i - 1 + 1]);
      var t :| Spawn(trace[i - 1], trace[i], t) || Advance(trace[i - 1], trace[i], t);
      if Advance(trace[i - 1], trace[i], t) {
        AdvanceInv(trace[i - 1], trace[i], t);
      } else {
        SpawnInv(trace[i - 1], trace[i], t);
      }
    }
  }

  // ---------------------------------------------------------------------------------------
  // What the comments on Session promise.

  /** While a call is between entering and returning, the session is live and nobody closes it. */
  lemma InFlightSessionIsLive(trace: seq<State>, i: nat, t: Tid)
    requires Run(trace) && i < |trace|
    requires t in trace[i].threads && IsInFlight(trace[i].threads[t])
    ensures trace[i].c && trace[i].session == Live
    ensures forall u :: u in trace[i].threads ==> !IsClosing(trace[i].threads[u])
  {
    RunInv(trace, i);
    assert t in Counted(trace[i]);
  }

  lemma DeletedAtMostOnce(trace: seq<State>, i: nat)
    requires Run(trace) && i < |trace|
    ensures trace[i].deletions <= 1
    ensures trace[i].deletions == 1 <==> trace[i].session == Deleted
  {
    RunInv(trace, i);
  }

  /** Whenever nobody is inside Close, s.c is nil exactly when the C session is gone. */
  lemma HandleTellsTheTruth(trace: seq<State>, i: nat)
    requires Run(trace) && i < |trace|
    requires forall t :: t in trace[i].threads ==> !IsClosing(trace[i].threads[t])
    ensures trace[i].c <==> trace[i].session == Live
    ensures !trace[i].c <==> trace[i].session == Deleted
  {
    RunInv(trace, i);
  }

  /** TF_CloseSession may report an error; it reaches the caller and leaves the session usable. */
  lemma FailedCloseKeepsSession(trace: seq<State>, i: nat, s': State, t: Tid)
    requires Run(trace) && i < |trace|
    requires t in trace[i].threads && trace[i].threads[t] == CloseInClose && CloseFails(trace[i], s', t)
    ensures Advance(trace[i], s', t) && s'.c && s'.session == Live && s'.deletions == 0
    ensures var s'' := s'.(mu := None, threads := trace[i].threads[t := CloseDone(false)]); Advance(s', s'', t)
  {
    RunInv(trace, i);
  }

  lemma StaysClosed(s: State, s': State)
    requires Inv(s) && Next(s, s') && !s.c
    ensures !s'.c
  {
  }

  lemma NilMeans(s: State)
    requires Inv(s) && !s.c
    ensures s.session == Deleted
    ensures forall t :: t in s.threads ==> !IsInFlight(s.threads[t]) && !IsClosing(s.threads[t])
  {
  }

  /** Once s.c is nil it stays nil, so every later call is turned away and Close is a no-op. */
  lemma {:induction false} ClosedForGood(trace: seq<State>, i: nat, j: nat)
    requires Run(trace) && i <= j < |trace| && !trace[i].c
    ensures !trace[j].c && trace[j].session == Deleted
    ensures forall t :: t in trace[j].threads ==> !IsInFlight(trace[j].threads[t]) && !IsClosing(trace[j].threads[t])
    decreases j
  {
    hide Inv, Next, Init, IsInFlight, IsClosing;
    RunInv(trace, j);
    if i < j {
      ClosedForGood(trace, i, j - 1);
      RunInv(trace, j - 1);
      assert Next(trace[j - 1], trace[j - 1 + 1]);
      StaysClosed(trace[j - 1], trace[j]);
    }
    NilMeans(trace[j]);
  }

  // ---------------------------------------------------------------------------------------
  // What the outcome of a call tells.

  predicate Succeeded(pc: Pc) {
    (pc.CloseUnlock? || pc.CloseDone?) && pc.ok
  }

  /** s.c is nil exactly if some Close has succeeded, and nobody is turned away before that. */
  ghost predicate OutcomeInv(s: State) {
    && (!s.c <==> exists t :: t in s.threads && Succeeded(s.threads[t]))
    && (forall t :: t in s.threads && s.threads[t] == UseDone(false) ==> !s.c)
  }

  lemma AdvanceOutcome(s: State, s': State, t: Tid)
    requires OutcomeInv(s) && Advance(s, s', t)
    ensures OutcomeInv(s')
  {
    assert s.c && !s'.c ==> t in s'.threads && Succeeded(s'.threads[t]);
    if u :| u in s.threads && Succeeded(s.threads[u]) {
      assert u in s'.threads && Succeeded(s'.threads[u]);
    }
  }

  lemma SpawnOutcome(s: State, s': State, t: Tid)
    requires OutcomeInv(s) && Spawn(s, s', t)
    ensures OutcomeInv(s')
  {
    if u :| u in s.threads && Succeeded(s.threads[u]) {
      assert u in s'.threads && Succeeded(s'.threads[u]);
    }
  }

  lemma {:induction false} RunOutcome(trace: seq<State>, i: nat)
    requires Run(trace) && i < |trace|
    ensures OutcomeInv(trace[i])
  {
    hide OutcomeInv, Advance, Spawn;
    if i == 0 {
      assert OutcomeInv(trace[0]) by { InitOutcome(trace[0]); }
    } else {
      RunOutcome(trace, i - 1);
      assert Next(trace[i - 1], trace[i - 1 + 1]);
      var t :| Spawn(trace[i - 1], trace[i], t) || Advance(trace[i - 1], trace[i], t);
      if Advance(trace[i - 1], trace[i], t) {
        AdvanceOutcome(trace[i - 1], trace[i], t);
      } else {
        SpawnOutcome(trace[i - 1], trace[i], t);
      }
    }
  }

  lemma InitOutcome(s: State)
    requires Init(s)
    ensures OutcomeInv(s)
  {
  }

  /** From the return of a Close without an error on, the C session is deleted and s.c is nil. */
  lemma ClosedMeansDeleted(trace: seq<State>, i: nat, j: nat, t: Tid)
    requires Run(trace) && i <= j < |trace|
    requires t in trace[i].threads && trace[i].threads[t] == CloseDone(true)
    ensures !trace[j].c && trace[j].session == Deleted && trace[j].deletions == 1
  {
    hide Run, Inv;
    RunOutcome(trace, i);
    assert Succeeded(trace[i].threads[t]);
    ClosedForGood(trace, i, j);
    DeletedAtMostOnce(trace, j);
  }

  /** A call is turned away only if some Close has succeeded. */
  lemma TurnedAwayOnlyWhenClosed(trace: seq<State>, i: nat, t: Tid)
    requires Run(trace) && i < |trace|
    requires t in trace[i].threads && trace[i].threads[t] == UseDone(false)
    ensures trace[i].session == Deleted
    ensures exists u :: u in trace[i].threads && Succeeded(trace[i].threads[u])
  {
    hide Run;
    RunOutcome(trace, i);
    ClosedForGood(trace, i, i);
  }

  /** From s on, only t moves. */
  ghost predicate Alone(s: State, states: seq<State>, t: Tid) {
    && states != [] && states[0] == s
    && forall i :: 0 <= i < |states| - 1 ==> Advance(states[i], states[i + 1], t)
  }

  lemma AloneExtends(trace: seq<State>, states: seq<State>, t: Tid)
    requires Run(trace) && Alone(trace[|trace| - 1], states, t)
    ensures Run(trace + states[1..])
  {
    hide Advance, Spawn, Init;
    var all := trace + states[1..];
    forall i | 0 <= i < |all| - 1 ensures Next(all[i], all[i + 1]) {
      if i < |trace| - 1 {
        assert Next(trace[i], trace[i + 1]);
      } else {
        var k := i - (|trace| - 1);
        assert all[i] == states[k] && all[i + 1] == states[k + 1];
      }
    }
  }

  /** Any goroutine may make either call at any time. */
  lemma CallsCanStart(trace: seq<State>, t: Tid)
    requires Run(trace) && t !in trace[|trace| - 1].threads
    ensures var s := trace[|trace| - 1];
      && Run(trace + [s.(threads := s.threads[t := UseStart])])
      && Run(trace + [s.(threads := s.threads[t := CloseStart])])
  {
    hide Init, Advance;
    var s := trace[|trace| - 1];
    forall s' | Spawn(s, s', t) ensures Run(trace + [s']) {
      var all := trace + [s'];
      forall i | 0 <= i < |all| - 1 ensures Next(all[i], all[i + 1]) {
        if i < |trace| - 1 {
          assert Next(trace[i], trace[i + 1]);
        }
      }
    }
    assert Spawn(s, s.(threads := s.threads[t := UseStart]), t);
    assert Spawn(s, s.(threads := s.threads[t := CloseStart]), t);
  }

  /** A call that is made while s.c is set goes through to the C API and back. */
  lemma UseAlone(trace: seq<State>, t: Tid) returns (states: seq<State>)
    requires Run(trace)
    requires var s := trace[|trace| - 1]; s.mu == None && s.c && t in s.threads && s.threads[t] == UseStart
    ensures Alone(trace[|trace| - 1], states, t) && |states| == 7 && Run(trace + states[1..])
    ensures var inCall := states[4];
      && t in inCall.threads && inCall.threads[t] == UseInCall
      && inCall.session == Live && inCall.wg > 0 && inCall.mu == None
    ensures states[6] == states[0].(threads := states[0].threads[t := UseDone(true)])
  {
    RunInv(trace, |trace| - 1);
    hide Run;
    states := UseSteps(trace[|trace| - 1], t);
    AloneExtends(trace, states, t);
  }

  lemma UseSteps(s: State, t: Tid) returns (states: seq<State>)
    requires s.mu == None && s.c && t in s.threads && s.threads[t] == UseStart
    ensures Alone(s, states, t) && |states| == 7
    ensures states[4] == s.(wg := s.wg + 1, threads := s.threads[t := UseInCall])
    ensures states[6] == s.(threads := s.threads[t := UseDone(true)])
  {
    var locked := s.(mu := Some(t), threads := s.threads[t := UseLocked]);
    var counted := locked.(wg := s.wg + 1, threads := s.threads[t := UseCounted]);
    var entered := counted.(mu := None, threads := s.threads[t := UseEntered]);
    var called := entered.(threads := s.threads[t := UseInCall]);
    var returned := entered.(threads := s.threads[t := UseReturned]);
    states := [s, locked, counted, entered, called, returned, s.(threads := s.threads[t := UseDone(true)])];
  }

  /** After a successful Close a call is turned away. */
  lemma UseAloneWhenClosed(trace: seq<State>, t: Tid) returns (states: seq<State>)
    requires Run(trace)
    requires var s := trace[|trace| - 1]; s.mu == None && !s.c && t in s.threads && s.threads[t] == UseStart
    ensures Alone(trace[|trace| - 1], states, t) && Run(trace + states[1..])
    ensures states[|states| - 1] == states[0].(threads := states[0].threads[t := UseDone(false)])
  {
    var s := trace[|trace| - 1];
    var locked := s.(mu := Some(t), threads := s.threads[t := UseLocked]);
    states := [s, locked, s.(threads := s.threads[t := UseDone(false)])];
    hide Run;
    AloneExtends(trace, states, t);
  }

  /** With no call in flight a Close that meets no error returns without one, and the session is closed and deleted. */
  lemma CloseAlone(trace: seq<State>, t: Tid) returns (states: seq<State>)
    requires Run(trace)
    requires var s := trace[|trace| - 1]; s.mu == None && s.wg == 0 && t in s.threads && s.threads[t] == CloseStart
    ensures Alone(trace[|trace| - 1], states, t) && Run(trace + states[1..])
    ensures states[|states| - 1] == State(None, 0, false, Deleted, 1, states[0].threads[t := CloseDone(true)])
    ensures states[0].c ==> ThroughTheApi(states, t)
  {
    var s := trace[|trace| - 1];
    HandleTellsTheTruth(trace, |trace| - 1) by {
      RunInv(trace, |trace| - 1);
    }
    DeletedAtMostOnce(trace, |trace| - 1);
    hide Run;
    states := CloseSteps(s, t);
    AloneExtends(trace, states, t);
  }

  /** Inside TF_CloseSession, and then inside TF_DeleteSession. */
  predicate ThroughTheApi(states: seq<State>, t: Tid) {
    && |states| == 8
    && t in states[3].threads && states[3].threads[t] == CloseInClose
    && t in states[4].threads && states[4].threads[t] == CloseInDelete
  }

  lemma CloseSteps(s: State, t: Tid) returns (states: seq<State>)
    requires s.mu == None && s.wg == 0 && t in s.threads && s.threads[t] == CloseStart
    requires s.deletions == (if s.c then 0 else 1) && s.session == (if s.c then Live else Deleted)
    ensures Alone(s, states, t) && (s.c ==> ThroughTheApi(states, t))
    ensures states[|states| - 1] == State(None, 0, false, Deleted, 1, s.threads[t := CloseDone(true)])
  {
    var locked := s.(mu := Some(t), threads := s.threads[t := CloseLocked]);
    var waited := locked.(threads := s.threads[t := CloseWaited]);
    assert Advance(s, locked, t) && Advance(locked, waited, t);
    var last := State(None, 0, false, Deleted, 1, s.threads[t := CloseDone(true)]);
    var unlock := last.(mu := Some(t), threads := s.threads[t := CloseUnlock(true)]);
    assert Advance(unlock, last, t);
    if s.c {
      var closing, deleting, deleted := DeletingSteps(waited, unlock, t);
      states := [s, locked, waited, closing, deleting, deleted, unlock, last];
    } else {
      states := [s, locked, waited, unlock, last];
      assert Advance(waited, unlock, t);
    }
    hide Advance;
  }

  lemma DeletingSteps(waited: State, unlock: State, t: Tid) returns (closing: State, deleting: State, deleted: State)
    requires t in waited.threads && waited.threads[t] == CloseWaited && waited.c
    requires unlock == waited.(c := false, session := Deleted, deletions := waited.deletions + 1,
                               threads := waited.threads[t := CloseUnlock(true)])
    ensures Advance(waited, closing, t) && Advance(closing, deleting, t)
    ensures Advance(deleting, deleted, t) && Advance(deleted, unlock, t)
    ensures t in closing.threads && closing.threads[t] == CloseInClose
    ensures t in deleting.threads && deleting.threads[t] == CloseInDelete
  {
    var threads := waited.threads;
    closing := waited.(threads := threads[t := CloseInClose]);
    deleting := closing.(session := Closed, threads := threads[t := CloseInDelete]);
    deleted := deleting.(session := Deleted, deletions := waited.deletions + 1, threads := threads[t := CloseDeleted]);
  }

  // ---------------------------------------------------------------------------------------
  // Progress: some goroutine can always move, and without new calls all of them finish.

  /** No deadlock: as long as a call is unfinished, some goroutine has a step to take. */
  lemma NoDeadlock(trace: seq<State>, i: nat, t: Tid)
    requires Run(trace) && i < |trace|
    requires t in trace[i].threads && !IsDone(trace[i].threads[t])
    ensures exists s', u :: Advance(trace[i], s', u)
  {
    var u := Mover(trace, i, t);
  }

  /** Some goroutine can take its next step, with TF_CloseSession meeting no error. */
  lemma Mover(trace: seq<State>, i: nat, t: Tid) returns (u: Tid)
    requires Run(trace) && i < |trace|
    requires t in trace[i].threads && !IsDone(trace[i].threads[t])
    ensures u in trace[i].threads && Advance(trace[i], Moved(trace[i], u), u)
  {
    RunInv(trace, i);
    var s := trace[i];
    u := t;
    if s.mu.Some? {
      u := s.mu.value;
      if s.threads[u] == CloseLocked && s.wg > 0 {
        assert Counted(s) != {};
        u :| u in Counted(s);
        assert s.threads[u] != UseCounted;
      }
    }
    if s.threads[u] == UseReturned {
      assert u in Counted(s);
    }
  }

  /** The next state of a goroutine that is not blocked. */
  function Moved(s: State, t: Tid): State
    requires t in s.threads
  {
    match s.threads[t]
    case UseStart => s.(mu := Some(t), threads := s.threads[t := UseLocked])
    case UseLocked =>
      if s.c then s.(wg := s.wg + 1, threads := s.threads[t := UseCounted])
      else s.(mu := None, threads := s.threads[t := UseDone(false)])
    case UseCounted => s.(mu := None, threads := s.threads[t := UseEntered])
    case UseEntered => s.(threads := s.threads[t := UseInCall])
    case UseInCall => s.(threads := s.threads[t := UseReturned])
    case UseReturned => if s.wg > 0 then s.(wg := s.wg - 1, threads := s.threads[t := UseDone(true)]) else s
    case CloseStart => s.(mu := Some(t), threads := s.threads[t := CloseLocked])
    case CloseLocked => s.(threads := s.threads[t := CloseWaited])
    case CloseWaited => s.(threads := s.threads[t := if s.c then CloseInClose else CloseUnlock(true)])
    case CloseInClose => s.(session := Closed, threads := s.threads[t := CloseInDelete])
    case CloseInDelete =>
      s.(session := Deleted, deletions := s.deletions + 1, threads := s.threads[t := CloseDeleted])
    case CloseDeleted => s.(c := false, threads := s.threads[t := CloseUnlock(true)])
    case CloseUnlock(ok) => s.(mu := None, threads := s.threads[t := CloseDone(ok)])
    case _ => s
  }

  /** Steps a goroutine may still take. */
  function StepsLeft(pc: Pc): nat {
    match pc
    case UseStart => 6
    case UseLocked => 5
    case UseCounted => 4
    case UseEntered => 3
    case UseInCall => 2
    case UseReturned => 1
    case UseDone(_) => 0
    case CloseStart => 7
    case CloseLocked => 6
    case CloseWaited => 5
    case CloseInClose => 4
    case CloseInDelete => 3
    case CloseDeleted => 2
    case CloseUnlock(_) => 1
    case CloseDone(_) => 0
  }

  ghost function Work(threads: map<Tid, Pc>): nat {
    Total(map t | t in threads :: StepsLeft(threads[t]))
  }

  /** Every step of a goroutine uses up work, so without new calls every run ends. */
  lemma AdvanceUsesWork(s: State, s': State, t: Tid)
    requires Advance(s, s', t)
    ensures Work(s'.threads) < Work(s.threads)
  {
    hide Advance, StepsLeft, Total;
    AdvanceShape(s, s', t);
    TotalDrops(map u | u in s.threads :: StepsLeft(s.threads[u]),
               map u | u in s'.threads :: StepsLeft(s'.threads[u]), t);
  }

  /** A Close to which TF_CloseSession has reported no error. */
  predicate Unrefused(pc: Pc) {
    || pc.CloseStart? || pc.CloseLocked? || pc.CloseWaited?
    || pc.CloseInClose? || pc.CloseInDelete? || pc.CloseDeleted? || Succeeded(pc)
  }

  lemma MovedKeepsUnrefused(s: State, u: Tid, t: Tid)
    requires u in s.threads && t in s.threads && Unrefused(s.threads[t])
    ensures t in Moved(s, u).threads && Unrefused(Moved(s, u).threads[t])
  {
  }

  /**
   From any reachable state, running only what was started leads to all calls finished; if
   TF_CloseSession reports no further error, every Close then has succeeded.
   */
  lemma {:induction false} EveryCallCanFinish(trace: seq<State>) returns (more: seq<State>)
    requires Run(trace)
    ensures Run(trace + more)
    ensures var first, last := trace[|trace| - 1], (trace + more)[|trace + more| - 1];
      && last.threads.Keys == first.threads.Keys
      && (forall t :: t in last.threads ==> IsDone(last.threads[t]))
      && forall t :: t in first.threads && Unrefused(first.threads[t]) ==> last.threads[t] == CloseDone(true)
    decreases Work(trace[|trace| - 1].threads)
  {
    hide Advance, Work, Init, Moved;
    var s := trace[|trace| - 1];
    if t :| t in s.threads && !IsDone(s.threads[t]) {
      var u := Mover(trace, |trace| - 1, t);
      var s' := Moved(s, u);
      AdvanceUsesWork(s, s', u);
      AdvanceShape(s, s', u);
      forall v | v in s.threads && Unrefused(s.threads[v]) ensures Unrefused(s'.threads[v]) {
        MovedKeepsUnrefused(s, u, v);
      }
      hide IsDone, Unrefused;
      var longer := trace + [s'];
      assert Next(s, s');
      assert forall i :: 0 <= i < |longer| - 1 ==> Next(longer[i], longer[i + 1]);
      more := EveryCallCanFinish(longer);
      more := [s'] + more;
      assert trace + more == longer + more[1..];
    } else {
      more := [];
      assert trace + more == trace;
    }
  }
}

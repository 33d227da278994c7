/**
 Which calls on a graph are safe (c_api.cc), whatever the client does: a state is endangered
 exactly if threads can go on, without any new call, to free the graph while something still
 refers to it.  Runs in which no call leads to such a state are safe, and all calls finish.
 */
module GraphSafety {
  import opened GraphLifetime
  import opened Options
  import opened Progress

  // ---------------------------------------------------------------------------------------
  // What holds in every run.

  /** Once deletion is requested and no session is counted, somebody frees the graph or has freed it. */
  ghost predicate Owned(s: State) {
    Zero(s) ==> Freers(s) != {} || s.frees >= 1
  }

  ghost predicate Base(s: State) {
    LockInv(s) && CountInv(s) && Owned(s)
  }

  lemma AdvanceBase(s: State, s': State, t: Tid)
    requires Base(s) && Advance(s, s', t)
    ensures Base(s')
  {
    hide Advance, Follows, WillFree, LockInv, CountInv;
    AdvanceLock(s, s', t);
    AdvanceCount(s, s', t);
    AdvanceEffect(s, s', t);
    FreersAfter(s, s', t);
    if Zero(s') && !Zero(s) {
      NotYetZero(s, s', t);
    }
  }

  lemma SpawnBase(s: State, s': State, t: Tid, pc: Pc)
    requires Base(s) && Spawn(s, s', t, pc)
    ensures Base(s')
  {
    hide Spawn, LockInv, CountInv, HoldsMutex, WillFree, Requested, IsCounted, UsesSession;
    SpawnLock(s, s', t, pc);
    SpawnCount(s, s', t, pc);
    SpawnEffect(s, s', t, pc);
    assert Freers(s) <= Freers(s');
  }

  lemma InitBase(s: State)
    requires Init(s)
    ensures Base(s)
  {
    InitInv(s);
  }

  lemma {:induction false} RunBase(trace: seq<State>, rule: bool, i: nat)
    requires Run(trace, rule) && i < |trace|
    ensures Base(trace[i])
  {
    hide Init, Base, Advance, Spawn;
    if i == 0 {
      InitBase(trace[0]);
    } else {
      RunBase(trace, rule, i - 1);
      var s, s' := trace[i - 1], trace[i];
      assert Next(s, trace[i - 1 + 1], rule);
      if t :| Advance(s, s', t) {
        AdvanceBase(s, s', t);
      } else {
        var t, pc :| Spawn(s, s', t, pc);
        SpawnBase(s, s', t, pc);
      }
    }
  }

  // ---------------------------------------------------------------------------------------
  // Endangered states.

  predicate Refers(pc: Pc) {
    Touches(pc) || WillFree(pc)
  }

  ghost predicate Referred(s: State) {
    Counted(s) != {} || exists t :: t in s.threads && Refers(s.threads[t])
  }

  /** The graph is freed, and a session or a call still refers to it, or a call will free it again. */
  ghost predicate Dangling(s: State) {
    s.frees >= 1 && Referred(s)
  }

  /** A call that will touch the graph and is neither counted nor in the middle of its turn. */
  predicate Waiting(pc: Pc) {
    pc.DeleteStart? || pc.NewStart? || pc.NewMade?
  }

  /** A call that is about to leave a session with the client. */
  predicate Lasting(pc: Pc) {
    pc.NewLocked? || pc.NewUnlock? || pc.NewReturn?
  }

  predicate Deleting(pc: Pc) {
    pc.DeleteStart? || pc.DeleteLocked?
  }

  /** All sessions that are counted are on their way out. */
  ghost predicate Unheld(s: State) {
    s.sessions == {} && forall t :: t in s.threads ==> !Lasting(s.threads[t])
  }

  /** Call g waits while a different call deletes the graph. */
  ghost predicate Overtaken(s: State, g: Tid) {
    && g in s.threads && Waiting(s.threads[g])
    && (s.deleteRequested || exists d :: d in s.threads && d != g && Deleting(s.threads[d]))
  }

  ghost predicate OtherRefers(s: State, f: Tid) {
    Counted(s) != {} || exists g :: g in s.threads && g != f && Refers(s.threads[g])
  }

  /** Before the graph is freed: something else refers to it, or can be overtaken by its deletion. */
  ghost predicate Endangered(s: State) {
    if s.frees >= 1 then Referred(s)
    else if Freers(s) != {} then exists f :: f in Freers(s) && OtherRefers(s, f)
    else Unheld(s) && exists g :: Overtaken(s, g)
  }

  /** Without any new call, threads can go on to a dangling state. */
  ghost predicate CanDangle(s: State) {
    exists more: seq<State> :: Continues(s, more) && Dangling(more[|more| - 1])
  }

  ghost predicate Continues(s: State, more: seq<State>) {
    && more != [] && more[0] == s
    && forall i :: 0 <= i < |more| - 1 ==> Moves(more[i], more[i + 1])
  }

  ghost predicate Moves(s: State, s': State) {
    exists t :: Advance(s, s', t)
  }

  // ---------------------------------------------------------------------------------------
  // A state that is not endangered stays so until the next call.

  lemma FollowsBack(was: Pc, now: Pc)
    requires Follows(was, now)
    ensures (Refers(now) ==> Refers(was)) && (Waiting(now) ==> Waiting(was)) && (Deleting(now) ==> Deleting(was))
    ensures Lasting(was) && !Lasting(now) ==> was.NewReturn?
    ensures IsCounted(now) && !IsCounted(was) ==> Refers(was) && was.NewLocked? && !WillFree(was)
    ensures WillFree(was) && !WillFree(now) ==> !Refers(now)
    ensures was.DeleteLocked? ==> Deleting(was) && !Waiting(now)
    ensures Waiting(was) ==> Refers(was)
  {
  }

  /** What refers to the graph after a step referred to it before. */
  lemma ReferredBack(s: State, s': State, t: Tid)
    requires CountInv(s) && Advance(s, s', t) && Referred(s')
    ensures Referred(s)
  {
    hide Advance, Follows, Refers, IsCounted, Lasting, Waiting, Deleting, WillFree, Touches, UsesSession, Counted;
    AdvanceEffect(s, s', t);
    FollowsBack(s.threads[t], s'.threads[t]);
    FollowsCounts(s.threads[t], s'.threads[t]);
    CountedAfter(s, s', t);
  }

  /** The step that frees the graph. */
  lemma EndangeredBeforeFree(s: State, s': State, t: Tid)
    requires Base(s) && Advance(s, s', t) && s.frees == 0 && s'.frees >= 1 && Referred(s')
    ensures t in Freers(s) && OtherRefers(s, t)
  {
    hide Advance, Follows, Refers, IsCounted, Lasting, Waiting, Deleting, WillFree, Touches, UsesSession, Counted;
    hide LockInv, Owned;
    AdvanceEffect(s, s', t);
    FollowsBack(s.threads[t], s'.threads[t]);
    FollowsCounts(s.threads[t], s'.threads[t]);
    CountedAfter(s, s', t);
  }

  /** A step before that, while somebody is about to free it. */
  lemma EndangeredWhileFreeing(s: State, s': State, t: Tid, f: Tid, f': Tid)
    requires Base(s) && Advance(s, s', t) && s.frees == 0 && s'.frees == 0 && f in Freers(s)
    requires f' in Freers(s') && OtherRefers(s', f')
    ensures OtherRefers(s, f)
  {
    hide Advance, Follows, Refers, IsCounted, Lasting, Waiting, Deleting, WillFree, Touches, UsesSession, Counted;
    hide LockInv, Owned;
    AdvanceEffect(s, s', t);
    FollowsBack(s.threads[t], s'.threads[t]);
    FollowsCounts(s.threads[t], s'.threads[t]);
    CountedAfter(s, s', t);
    FreerRefers(s', f');
    if Counted(s') == {} {
      var g: Tid :| g in s'.threads && g != f' && Refers(s'.threads[g]);
      var h := if g != f then g else f';
      assert h != f && h in s.threads && Refers(s.threads[h]);
    } else if Counted(s) == {} {
      assert t != f && Refers(s.threads[t]);
    }
  }

  lemma FreerRefers(s: State, f: Tid)
    requires f in Freers(s)
    ensures f in s.threads && Refers(s.threads[f]) && WillFree(s.threads[f])
  {
  }

  lemma OnlyWaits(pc: Pc)
    requires Refers(pc) && !HoldsMutex(pc) && !IsCounted(pc) && !WillFree(pc)
    ensures Waiting(pc) || (pc.UseStart? && UsesSession(pc, pc.session))
  {
  }

  lemma LastingShows(pc: Pc)
    requires Lasting(pc)
    ensures HoldsMutex(pc) || IsCounted(pc)
  {
  }

  /** The step that decides to free it. */
  lemma EndangeredBeforeDecision(s: State, s': State, t: Tid, f: Tid)
    requires Base(s) && Advance(s, s', t) && Freers(s) == {} && f in Freers(s') && OtherRefers(s', f)
    ensures Unheld(s) && exists g :: Overtaken(s, g)
  {
    hide Advance, Follows, Refers, IsCounted, Lasting, Waiting, Deleting, WillFree, Touches, UsesSession, Owned;
    hide HoldsMutex;
    AdvanceDecision(s, s', t, f);
    var g: Tid :| g in s'.threads && g != f && Refers(s'.threads[g]);
    assert s.threads[g] == s'.threads[g] && g !in Freers(s) && g !in Counted(s');
    OnlyWaits(s.threads[g]);
    assert Waiting(s.threads[g]) by {
      assert forall k :: UsesSession(s.threads[g], k) ==> k in s.sessions;
    }
    assert s.deleteRequested || (t != g && Deleting(s.threads[t]));
    assert Overtaken(s, g);
    forall u | u in s.threads ensures !Lasting(s.threads[u]) {
      assert u != t ==> s'.threads[u] == s.threads[u] && u !in Counted(s');
      if Lasting(s.threads[u]) {
        LastingShows(s.threads[u]);
      }
    }
  }

  lemma AdvanceDecision(s: State, s': State, t: Tid, f: Tid)
    requires Base(s) && Advance(s, s', t) && Freers(s) == {} && f in Freers(s')
    ensures f == t && t in s.threads && s'.threads == s.threads[t := s'.threads[t]] && s'.sessions == s.sessions
    ensures s.threads[t].DeleteLocked? || (s.threads[t].DropLocked? && s.deleteRequested)
    ensures Counted(s') == {} && CountInv(s') && s.sessions == {}
    ensures HoldsMutex(s.threads[t]) && Deleting(s.threads[t]) == s.threads[t].DeleteLocked? && !Lasting(s.threads[t])
  {
    hide Advance, Follows, WillFree, IsDelete, IsNew, Requested, UsesSession, Touches, IsCounted, LockInv, Owned;
    AdvanceEffect(s, s', t);
    FollowsKeeps(s.threads[t], s'.threads[t]);
    FreersAfter(s, s', t);
    AdvanceCount(s, s', t);
    assert Counted(s') == {};
    assert s'.sessions <= Counted(s');
  }

  /** Any step before a decision. */
  lemma EndangeredBeforehand(s: State, s': State, t: Tid)
    requires Base(s) && Advance(s, s', t) && Unheld(s') && exists g :: Overtaken(s', g)
    ensures Unheld(s) && exists g :: Overtaken(s, g)
  {
    hide Advance, Follows, Refers, IsCounted, Lasting, Waiting, Deleting, WillFree, Touches, UsesSession, Counted;
    hide LockInv, Owned, CountInv;
    AdvanceEffect(s, s', t);
    FollowsBack(s.threads[t], s'.threads[t]);
    var g :| Overtaken(s', g);
    assert Overtaken(s, g) by {
      if s'.deleteRequested {
        assert s.deleteRequested || (Deleting(s.threads[t]) && t != g);
      }
    }
    forall u | u in s.threads ensures !Lasting(s.threads[u]) {
      assert u in s'.threads && !Lasting(s'.threads[u]);
    }
  }

  lemma EndangeredBack(s: State, s': State, t: Tid)
    requires Base(s) && Advance(s, s', t) && Endangered(s')
    ensures Endangered(s)
  {
    hide Advance, Follows, OtherRefers, Referred, Unheld, Overtaken, CountInv, LockInv, Owned, WillFree;
    AdvanceEffect(s, s', t);
    FreersAfter(s, s', t);
    if s.frees >= 1 {
      ReferredBack(s, s', t) by { assert CountInv(s); }
    } else if s'.frees >= 1 {
      EndangeredBeforeFree(s, s', t);
    } else if f :| f in Freers(s) {
      assert Freers(s') != {};
      var f' :| f' in Freers(s') && OtherRefers(s', f');
      EndangeredWhileFreeing(s, s', t, f, f');
    } else if Freers(s') != {} {
      var f' :| f' in Freers(s') && OtherRefers(s', f');
      EndangeredBeforeDecision(s, s', t, f');
    } else {
      EndangeredBeforehand(s, s', t);
    }
  }

  lemma {:induction false} DanglingBack(more: seq<State>)
    requires more != [] && Base(more[0]) && Continues(more[0], more) && Dangling(more[|more| - 1])
    ensures Endangered(more[0])
    decreases |more|
  {
    hide Base, Advance, Referred, Unheld, Overtaken, OtherRefers;
    if |more| > 1 {
      assert Moves(more[0], more[0 + 1]);
      var t :| Advance(more[0], more[1], t);
      AdvanceBase(more[0], more[1], t);
      var rest := more[1..];
      assert rest[0] == more[1] && rest[|rest| - 1] == more[|more| - 1];
      forall i | 0 <= i < |rest| - 1 ensures Moves(rest[i], rest[i + 1]) {
        assert Moves(more[i + 1], more[i + 1 + 1]);
      }
      DanglingBack(rest);
      EndangeredBack(more[0], more[1], t);
    }
  }

  // ---------------------------------------------------------------------------------------
  // From an endangered state the threads can go on to a dangling one.

  /** The next state of a thread that is not blocked. */
  function Moved(s: State, t: Tid): State
    requires t in s.threads
  {
    match s.threads[t]
    case DeleteStart => Locked(s, t, DeleteLocked)
    case DeleteLocked =>
      s.(deleteRequested := true, threads := s.threads[t := DeleteUnlock(s.numSessions == 0)])
    case DeleteUnlock(del) => Unlocked(s, t, DeleteFree(del))
    case DeleteFree(del) => Freed(s, t, del, DeleteDone)
    case NewStart => s.(threads := s.threads[t := NewMade])
    case NewMade => Locked(s, t, NewLocked)
    case NewLocked => s.(numSessions := s.numSessions + 1, threads := s.threads[t := NewUnlock])
    case NewUnlock => Unlocked(s, t, NewReturn)
    case NewReturn => s.(sessions := s.sessions + {t}, threads := s.threads[t := NewDone])
    case DropStart => Locked(s, t, DropLocked)
    case DropLocked =>
      s.(numSessions := s.numSessions - 1,
         threads := s.threads[t := DropUnlock(s.deleteRequested && s.numSessions - 1 == 0)])
    case DropUnlock(del) => Unlocked(s, t, DropFree(del))
    case DropFree(del) => Freed(s, t, del, DropSession)
    case DropSession => s.(threads := s.threads[t := DropDone])
    case UseStart(k) => Locked(s, t, UseLocked(k))
    case UseLocked(_) => Unlocked(s, t, UseDone)
    case _ => s
  }

  function Locked(s: State, t: Tid, pc: Pc): State {
    s.(mu := Some(t), threads := s.threads[t := pc])
  }

  function Unlocked(s: State, t: Tid, pc: Pc): State {
    s.(mu := None, threads := s.threads[t := pc])
  }

  function Freed(s: State, t: Tid, del: bool, pc: Pc): State {
    s.(frees := if del then s.frees + 1 else s.frees, threads := s.threads[t := pc])
  }

  /** A thread that is not done and does not have to wait for the mutex can move. */
  lemma CanMove(s: State, t: Tid)
    requires t in s.threads && !IsDone(s.threads[t])
    requires s.mu == None || HoldsMutex(s.threads[t])
    ensures Advance(s, Moved(s, t), t)
  {
  }

  /** So can a thread that has released the mutex. */
  lemma FreerCanMove(s: State, t: Tid)
    requires t in Freers(s)
    ensures Advance(s, Moved(s, t), t)
    ensures var now := Moved(s, t).threads[t];
      if HoldsMutex(s.threads[t]) then WillFree(now) && !HoldsMutex(now) && Moved(s, t).frees == s.frees
      else Moved(s, t).frees == s.frees + 1
    ensures Counted(Moved(s, t)) == Counted(s)
  {
  }

  lemma OtherStays(s: State, s': State, f: Tid)
    requires OtherRefers(s, f) && f in s'.threads && s'.threads == s.threads[f := s'.threads[f]]
    requires Counted(s') == Counted(s)
    ensures OtherRefers(s', f) && Referred(s')
  {
    hide Refers, Counted;
    if Counted(s) == {} {
      var g: Tid :| g in s.threads && g != f && Refers(s.threads[g]);
      assert g in s'.threads && Refers(s'.threads[g]);
    }
  }

  /** Once something else refers to it, the thread that will free the graph can do so at once. */
  lemma FreesUnderIt(s: State, f: Tid) returns (more: seq<State>)
    requires f in Freers(s) && OtherRefers(s, f)
    ensures Continues(s, more) && Dangling(more[|more| - 1])
  {
    hide Advance, Refers, WillFree, HoldsMutex, Moved, Counted, OtherRefers, Referred;
    FreerCanMove(s, f);
    var s1 := Moved(s, f);
    AdvanceEffect(s, s1, f);
    OtherStays(s, s1, f);
    assert Moves(s, s1);
    if HoldsMutex(s.threads[f]) {
      FreerCanMove(s1, f);
      var s2 := Moved(s1, f);
      AdvanceEffect(s1, s2, f);
      OtherStays(s1, s2, f);
      assert Moves(s1, s2);
      more := [s, s1, s2];
    } else {
      more := [s, s1];
    }
  }

  /** The thread that moves next while call g keeps waiting. */
  lemma NextMover(s: State, g: Tid) returns (t: Tid)
    requires Base(s) && s.frees == 0 && Freers(s) == {} && Unheld(s) && Overtaken(s, g)
    ensures t in s.threads && t != g && !IsDone(s.threads[t]) && (s.mu == None || HoldsMutex(s.threads[t]))
    ensures !s.threads[t].NewStart? && !s.threads[t].NewMade?
  {
    if s.mu.Some? {
      t := s.mu.value;
    } else if d: Tid :| d in s.threads && d != g && s.threads[d].DeleteStart? {
      t := d;
    } else if p: Tid :| p in s.threads && s.threads[p].DropStart? {
      t := p;
    } else {
      NobodyIsLeft(s, g);
    }
  }

  /** Without a mover all sessions are gone and deletion has been requested. */
  lemma NobodyIsLeft(s: State, g: Tid)
    requires LockInv(s) && CountInv(s) && Unheld(s) && Overtaken(s, g) && s.mu == None
    requires forall t :: t in s.threads && t != g ==> !s.threads[t].DeleteStart?
    requires forall t :: t in s.threads ==> !s.threads[t].DropStart?
    ensures Zero(s)
  {
    assert Counted(s) == {};
    assert forall d :: d in s.threads && Deleting(s.threads[d]) ==> HoldsMutex(s.threads[d]) || d == g;
  }

  /** Its step does not help g. */
  lemma StillOvertaken(s: State, s': State, t: Tid, g: Tid)
    requires Advance(s, s', t) && t != g && s.frees == 0 && Freers(s) == {} && Unheld(s) && Overtaken(s, g)
    requires !s.threads[t].NewStart? && !s.threads[t].NewMade?
    ensures s'.frees == 0 && Unheld(s') && Overtaken(s', g)
  {
    hide Advance, WillFree, Touches, Waiting, IsCounted, HoldsMutex;
    AdvanceEffect(s, s', t);
    FreersAfter(s, s', t);
    if !s'.deleteRequested {
      var d :| d in s.threads && d != g && Deleting(s.threads[d]);
      assert Deleting(s'.threads[d]);
    }
  }

  ghost function Work(threads: map<Tid, Pc>): nat {
    Total(map t | t in threads :: StepsLeft(threads[t]))
  }

  function StepsLeft(pc: Pc): nat {
    match pc
    case DeleteStart => 4
    case DeleteLocked => 3
    case DeleteUnlock(_) => 2
    case DeleteFree(_) => 1
    case NewStart => 5
    case NewMade => 4
    case NewLocked => 3
    case NewUnlock => 2
    case NewReturn => 1
    case DropStart => 5
    case DropLocked => 4
    case DropUnlock(_) => 3
    case DropFree(_) => 2
    case DropSession => 1
    case UseStart(_) => 2
    case UseLocked(_) => 1
    case _ => 0
  }

  lemma FollowsUsesStep(was: Pc, now: Pc)
    requires Follows(was, now)
    ensures StepsLeft(now) < StepsLeft(was)
  {
  }

  /** Every step of a thread uses up work, so without new calls every run ends. */
  lemma AdvanceUsesWork(s: State, s': State, t: Tid)
    requires Advance(s, s', t)
    ensures Work(s'.threads) < Work(s.threads)
  {
    hide Advance, StepsLeft, Total;
    AdvanceEffect(s, s', t);
    FollowsUsesStep(s.threads[t], s'.threads[t]);
    TotalDrops(map u | u in s.threads :: StepsLeft(s.threads[u]),
               map u | u in s'.threads :: StepsLeft(s'.threads[u]), t);
  }

  lemma Prepend(s: State, s': State, t: Tid, more: seq<State>)
    requires Advance(s, s', t) && Continues(s', more)
    ensures Continues(s, [s] + more)
  {
    hide Advance;
    var all := [s] + more;
    forall i | 0 <= i < |all| - 1 ensures Moves(all[i], all[i + 1]) {
      if i > 0 {
        assert all[i] == more[i - 1] && all[i + 1] == more[i - 1 + 1];
      }
    }
  }

  /** While g waits the others run, until the graph is freed under it. */
  lemma {:induction false} OvertakesIt(s: State, g: Tid) returns (more: seq<State>)
    requires Base(s) && s.frees == 0 && Unheld(s) && Overtaken(s, g)
    ensures Continues(s, more) && Dangling(more[|more| - 1])
    decreases Work(s.threads)
  {
    hide Base, Advance, Unheld, Work, Moved, OtherRefers;
    if f :| f in Freers(s) {
      WaitingRefers(s, f, g);
      more := FreesUnderIt(s, f);
    } else {
      assert Freers(s) == {};
      var t := NextMover(s, g);
      CanMove(s, t);
      var s' := Moved(s, t);
      AdvanceBase(s, s', t);
      AdvanceUsesWork(s, s', t);
      StillOvertaken(s, s', t, g);
      var rest := OvertakesIt(s', g);
      Prepend(s, s', t, rest);
      more := [s] + rest;
    }
  }

  lemma WaitingRefers(s: State, f: Tid, g: Tid)
    requires f in Freers(s) && Overtaken(s, g)
    ensures OtherRefers(s, f)
  {
    assert f != g && Refers(s.threads[g]);
  }

  lemma EndangeredCanDangle(s: State)
    requires Base(s) && Endangered(s)
    ensures CanDangle(s)
  {
    hide Base, Referred, Unheld, Overtaken, OtherRefers, Moves;
    if s.frees >= 1 {
      assert Continues(s, [s]);
    } else if Freers(s) != {} {
      var f :| f in Freers(s) && OtherRefers(s, f);
      var more := FreesUnderIt(s, f);
    } else {
      var g :| Overtaken(s, g);
      var more := OvertakesIt(s, g);
    }
  }

  /** In every run of any clients: endangered means that without a further call things can go wrong. */
  lemma EndangeredExactly(trace: seq<State>, rule: bool, i: nat)
    requires Run(trace, rule) && i < |trace|
    ensures Endangered(trace[i]) <==> CanDangle(trace[i])
  {
    hide Base, Endangered, Dangling;
    RunBase(trace, rule, i);
    if Endangered(trace[i]) {
      EndangeredCanDangle(trace[i]);
    } else if CanDangle(trace[i]) {
      var more: seq<State> :| Continues(trace[i], more) && Dangling(more[|more| - 1]);
      DanglingBack(more);
    }
  }

  // ---------------------------------------------------------------------------------------
  // Safe runs.

  /** No call is made that leads to an endangered state; nothing else is asked of the client. */
  ghost predicate Careful(trace: seq<State>) {
    && Run(trace, false)
    && forall i :: 0 <= i < |trace| - 1 ==> Moves(trace[i], trace[i + 1]) || !Endangered(trace[i + 1])
  }

  /** Then the graph is never freed while anything refers to it. */
  lemma {:induction false} CarefulRunsAreSafe(trace: seq<State>, i: nat)
    requires Careful(trace) && i < |trace|
    ensures !Endangered(trace[i]) && !Dangling(trace[i])
  {
    hide Base, Advance, Spawn, Init, Overtaken, OtherRefers;
    if i == 0 {
      InitCalm(trace[0]);
    } else {
      CarefulRunsAreSafe(trace, i - 1);
      RunBase(trace, false, i - 1);
      var s, s' := trace[i - 1], trace[i];
      assert Moves(s, trace[i - 1 + 1]) || !Endangered(trace[i - 1 + 1]);
      if Endangered(s') {
        var t :| Advance(s, s', t);
        EndangeredBack(s, s', t);
      }
    }
  }

  lemma InitCalm(s: State)
    requires Init(s)
    ensures !Endangered(s)
  {
    assert Counted(s) == {} && Freers(s) == {};
  }

  /** The client rule is one way to be careful ... */
  lemma RuleIsCareful(trace: seq<State>, i: nat)
    requires Run(trace, true) && i < |trace|
    ensures !Endangered(trace[i])
  {
    hide Run, LockInv, WillFree, Touches, IsDelete, IsNew;
    RunInv(trace, i);
    InvCalm(trace[i]);
  }

  lemma AtMostOne(set_: set<Tid>, f: Tid, g: Tid)
    requires |set_| <= 1 && f in set_ && g in set_
    ensures f == g
  {
    var rest := set_ - {f};
    assert |rest| == 0;
  }

  lemma InvCalm(s: State)
    requires Inv(s)
    ensures !Endangered(s)
  {
    hide LockInv, RuleInv, CountInv, Touches, WillFree, Unheld, Overtaken;
    if Zero(s) {
      assert Counted(s) == {} by { assert CountInv(s); CountedIsNumSessions(s); }
      forall g | g in s.threads && Refers(s.threads[g]) ensures g in Freers(s) {
      }
      forall f, g | f in Freers(s) && g in s.threads && Refers(s.threads[g]) ensures f == g {
        AtMostOne(Freers(s), f, g);
      }
      assert forall f :: f in Freers(s) ==> !OtherRefers(s, f);
      assert s.frees >= 1 ==> Freers(s) == {};
    } else {
      assert Freers(s) == {};
      NobodyIsOvertaken(s);
    }
  }

  lemma CountedIsNumSessions(s: State)
    requires CountInv(s)
    ensures s.numSessions == |Counted(s)|
  {
  }

  lemma NobodyIsOvertaken(s: State)
    requires RuleInv(s)
    ensures forall g :: !Overtaken(s, g)
  {
  }

  /** ... but not the only one: while the client keeps a session, further requests and new sessions are harmless. */
  lemma HeldSessionIsEnough(trace: seq<State>, i: nat, s': State, t: Tid, pc: Pc)
    requires Run(trace, false) && i < |trace| && !Endangered(trace[i]) && trace[i].sessions != {}
    requires Spawn(trace[i], s', t, pc) && (pc == DeleteStart || pc == NewStart)
    ensures !CanDangle(s')
  {
    hide Run, Base, Advance, Dangling, Overtaken, Refers, IsCounted;
    var s := trace[i];
    assert s.sessions <= Counted(s);
    assert s.frees == 0 && Freers(s) == {} && Freers(s') == {};
    assert !Endangered(s');
    RunBase(trace, false, i);
    SpawnBase(s, s', t, pc);
    if CanDangle(s') {
      var more: seq<State> :| Continues(s', more) && Dangling(more[|more| - 1]);
      DanglingBack(more);
    }
  }

  // ---------------------------------------------------------------------------------------
  // Unsafe runs: what goes wrong where the client rule is broken.

  /** State of a graph without sessions, with two calls. */
  function Two(mu: Option<Tid>, requested: bool, frees: nat, first: Pc, second: Pc): State {
    State(mu, 0, requested, frees, {}, map[0 := first, 1 := second])
  }

  function One(mu: Option<Tid>, requested: bool, frees: nat, first: Pc): State {
    State(mu, 0, requested, frees, {}, map[0 := first])
  }

  /** A session made while the graph is deleted ends up about to lock the mutex of a freed graph. */
  lemma OverlapIsUnsafe() returns (trace: seq<State>)
    ensures Run(trace, false)
    ensures var last := trace[|trace| - 1];
      Dangling(last) && 0 in last.threads && last.threads[0] == NewMade && Touches(last.threads[0])
  {
    var a, b := One(None, false, 0, NewStart), One(None, false, 0, NewMade);
    var c := Two(None, false, 0, NewMade, DeleteStart);
    var d := Two(Some(1), false, 0, NewMade, DeleteLocked);
    var e := Two(Some(1), true, 0, NewMade, DeleteUnlock(true));
    var f := Two(None, true, 0, NewMade, DeleteFree(true));
    var g := Two(None, true, 1, NewMade, DeleteDone);
    trace := [State(None, 0, false, 0, {}, map[]), a, b, c, d, e, f, g];
    assert Spawn(trace[0], a, 0, NewStart) && Advance(a, b, 0);
    assert Spawn(b, c, 1, DeleteStart) && Advance(c, d, 1);
    assert Advance(d, e, 1) && Advance(e, f, 1) && Advance(f, g, 1);
    assert forall i :: 0 <= i < |trace| - 1 ==> Next(trace[i], trace[i + 1], false);
    assert Refers(g.threads[0]);
  }

  /** The graph deleted with no session left. */
  lemma Deletion() returns (trace: seq<State>)
    ensures Run(trace, false) && trace[|trace| - 1] == One(None, true, 1, DeleteDone)
  {
    var a, b := One(None, false, 0, DeleteStart), One(Some(0), false, 0, DeleteLocked);
    var c, d := One(Some(0), true, 0, DeleteUnlock(true)), One(None, true, 0, DeleteFree(true));
    var e := One(None, true, 1, DeleteDone);
    trace := [State(None, 0, false, 0, {}, map[]), a, b, c, d, e];
    assert Spawn(trace[0], a, 0, DeleteStart) && Advance(a, b, 0) && Advance(b, c, 0);
    assert Advance(c, d, 0) && Advance(d, e, 0);
    assert forall i :: 0 <= i < |trace| - 1 ==> Next(trace[i], trace[i + 1], false);
  }

  /** So does a call made after that: a new session, or a second request to delete. */
  lemma LaterCallIsUnsafe(pc: Pc) returns (trace: seq<State>)
    requires pc == NewStart || pc == DeleteStart
    ensures Run(trace, false)
    ensures var last := trace[|trace| - 1];
      Dangling(last) && last.threads == map[0 := DeleteDone, 1 := pc] && Touches(pc)
  {
    var before := Deletion();
    var s, s' := One(None, true, 1, DeleteDone), Two(None, true, 1, DeleteDone, pc);
    trace := before + [s'];
    assert Spawn(s, s', 1, pc) && Next(s, s', false);
    forall i | 0 <= i < |trace| - 1 ensures Next(trace[i], trace[i + 1], false) {
      if i < |before| - 1 {
        assert Next(before[i], before[i + 1], false);
      }
    }
    assert Refers(s'.threads[1]);
  }

  /** Two requests at the same time end the same way: one frees the graph before the other has its turn. */
  lemma TwoRequestsAreUnsafe() returns (trace: seq<State>)
    ensures Run(trace, false)
    ensures var last := trace[|trace| - 1];
      Dangling(last) && last.threads == map[0 := DeleteDone, 1 := DeleteStart]
  {
    var a, b := One(None, false, 0, DeleteStart), Two(None, false, 0, DeleteStart, DeleteStart);
    var c := Two(Some(0), false, 0, DeleteLocked, DeleteStart);
    var d := Two(Some(0), true, 0, DeleteUnlock(true), DeleteStart);
    var e := Two(None, true, 0, DeleteFree(true), DeleteStart);
    var f := Two(None, true, 1, DeleteDone, DeleteStart);
    trace := [State(None, 0, false, 0, {}, map[]), a, b, c, d, e, f];
    assert Spawn(trace[0], a, 0, DeleteStart) && Spawn(a, b, 1, DeleteStart);
    assert Advance(b, c, 0) && Advance(c, d, 0) && Advance(d, e, 0) && Advance(e, f, 0);
    assert forall i :: 0 <= i < |trace| - 1 ==> Next(trace[i], trace[i + 1], false);
    assert Refers(f.threads[1]);
  }

  // ---------------------------------------------------------------------------------------
  // Progress.

  /** No deadlock: as long as a call is unfinished, some thread has a step to take. */
  lemma NoDeadlock(trace: seq<State>, rule: bool, i: nat, t: Tid)
    requires Run(trace, rule) && i < |trace|
    requires t in trace[i].threads && !IsDone(trace[i].threads[t])
    ensures exists s', u :: Advance(trace[i], s', u)
  {
    hide Run, CountInv, Owned, Advance, Moved;
    RunBase(trace, rule, i);
    var s := trace[i];
    var mover := if s.mu.Some? then s.mu.value else t;
    CanMove(s, mover);
  }

  /** From any reachable state, running only what was started leads to all calls finished. */
  lemma {:induction false} EveryCallCanFinish(trace: seq<State>, rule: bool) returns (more: seq<State>)
    requires Run(trace, rule)
    ensures Run(trace + more, rule)
    ensures var last := (trace + more)[|trace + more| - 1];
      last.threads.Keys == trace[|trace| - 1].threads.Keys && forall t :: t in last.threads ==> IsDone(last.threads[t])
    decreases Work(trace[|trace| - 1].threads)
  {
    hide Advance, Work, Init, IsDone, Moved, Spawn;
    var s := trace[|trace| - 1];
    if t :| t in s.threads && !IsDone(s.threads[t]) {
      NoDeadlock(trace, rule, |trace| - 1, t);
      var s', u :| Advance(s, s', u);
      AdvanceUsesWork(s, s', u);
      AdvanceEffect(s, s', u);
      var longer := trace + [s'];
      assert Next(s, s', rule);
      assert forall i :: 0 <= i < |longer| - 1 ==> Next(longer[i], longer[i + 1], rule);
      more := EveryCallCanFinish(longer, rule);
      more := [s'] + more;
      assert trace + more == longer + more[1..];
    } else {
      more := [];
      assert trace + more == trace;
    }
  }
}

/**
 Who frees a graph of the C API (c_api.cc): TF_DeleteGraph, TF_NewSession, TF_DeleteSession
 and uses of the graph through a session, as the single actions of any number of threads,
 interleaved in any way.
 */
module GraphLifetime {
  import opened Options
  import opened Progress

  /** Where a thread is.  A session is named after the call that made it. */
  datatype Pc =
    // TF_DeleteGraph
    | DeleteStart             // before mu.lock()
    | DeleteLocked            // about to set delete_requested
    | DeleteUnlock(del: bool) // about to release mu
    | DeleteFree(del: bool)   // about to free the graph, or not
    | DeleteDone
    // TF_NewSession
    | NewStart                // about to make the session itself
    | NewMade                 // made, before mu.lock()
    | NewLocked               // about to count it
    | NewUnlock               // about to release mu
    | NewReturn               // about to hand it to the client
    | NewDone
    // TF_DeleteSession
    | DropStart
    | DropLocked              // about to uncount it
    | DropUnlock(del: bool)
    | DropFree(del: bool)
    | DropSession             // about to free the session
    | DropDone
    // any call that works on the graph of a session, under the graph's mutex
    | UseStart(session: Tid)
    | UseLocked(session: Tid)
    | UseDone

  datatype State = State(
    mu: Option<Tid>,
    numSessions: int,
    deleteRequested: bool,
    frees: nat,
    sessions: set<Tid>, // handles in the hands of the client
    threads: map<Tid, Pc>)

  predicate Init(s: State) {
    s == State(None, 0, false, 0, {}, map[])
  }

  predicate HoldsMutex(pc: Pc) {
    || pc.DeleteLocked? || pc.DeleteUnlock? || pc.NewLocked? || pc.NewUnlock?
    || pc.DropLocked? || pc.DropUnlock? || pc.UseLocked?
  }

  /** Still to touch the graph or its mutex. */
  predicate Touches(pc: Pc) {
    HoldsMutex(pc) || pc.DeleteStart? || pc.NewStart? || pc.NewMade? || pc.DropStart? || pc.UseStart?
  }

  predicate IsDone(pc: Pc) {
    pc.DeleteDone? || pc.NewDone? || pc.DropDone? || pc.UseDone?
  }

  /** Counted in num_sessions on behalf of a session that the client does not hold. */
  predicate IsCounted(pc: Pc) {
    pc.NewUnlock? || pc.NewReturn? || pc.DropStart? || pc.DropLocked?
  }

  /** Has decided to free the graph and has not done so yet. */
  predicate WillFree(pc: Pc) {
    (pc.DeleteUnlock? || pc.DeleteFree? || pc.DropUnlock? || pc.DropFree?) && pc.del
  }

  predicate IsNew(pc: Pc) {
    pc.NewStart? || pc.NewMade? || pc.NewLocked? || pc.NewUnlock? || pc.NewReturn?
  }

  predicate IsDelete(pc: Pc) {
    pc.DeleteStart? || pc.DeleteLocked? || pc.DeleteUnlock? || pc.DeleteFree? || pc.DeleteDone?
  }

  // ---------------------------------------------------------------------------------------
  // Steps.

  /** A new call.  Only a session in the client's hands can be used, or given up for good. */
  ghost predicate Spawn(s: State, s': State, t: Tid, pc: Pc) {
    && t !in s.threads && s'.threads == s.threads[t := pc]
    && match pc
       case DeleteStart => s' == s.(threads := s'.threads)
       case NewStart => s' == s.(threads := s'.threads)
       case DropStart => exists k :: GivesUp(s, s', k)
       case UseStart(k) => k in s.sessions && s' == s.(threads := s'.threads)
       case _ => false
  }

  predicate GivesUp(s: State, s': State, k: Tid) {
    && k in s.sessions && (forall t :: t in s.threads ==> !UsesSession(s.threads[t], k))
    && s' == s.(threads := s'.threads, sessions := s.sessions - {k})
  }

  predicate UsesSession(pc: Pc, k: Tid) {
    (pc.UseStart? || pc.UseLocked?) && pc.session == k
  }

  /** Deletion is requested once, and no session is created after that or at the same time. */
  predicate ClientRule(s: State, pc: Pc) {
    match pc
    case DeleteStart => forall t :: t in s.threads ==> !IsNew(s.threads[t]) && !IsDelete(s.threads[t])
    case NewStart => forall t :: t in s.threads ==> !IsDelete(s.threads[t])
    case _ => true
  }

  /** One action of thread t; false where it is blocked or done. */
  predicate Advance(s: State, s': State, t: Tid) {
    && t in s.threads
    && match s.threads[t]
       case DeleteStart => Lock(s, s', t, DeleteLocked)
       case DeleteLocked =>
         s' == s.(deleteRequested := true, threads := s.threads[t := DeleteUnlock(s.numSessions == 0)])
       case DeleteUnlock(del) => Unlock(s, s', t, DeleteFree(del))
       case DeleteFree(del) => Free(s, s', t, del, DeleteDone)
       case NewStart => MoveTo(s, s', t, NewMade) || MoveTo(s, s', t, NewDone) // made, or failed
       case NewMade => Lock(s, s', t, NewLocked)
       case NewLocked => s' == s.(numSessions := s.numSessions + 1, threads := s.threads[t := NewUnlock])
       case NewUnlock => Unlock(s, s', t, NewReturn)
       case NewReturn => s' == s.(sessions := s.sessions + {t}, threads := s.threads[t := NewDone])
       case DropStart => Lock(s, s', t, DropLocked)
       case DropLocked =>
         s' == s.(numSessions := s.numSessions - 1,
                  threads := s.threads[t := DropUnlock(s.deleteRequested && s.numSessions - 1 == 0)])
       case DropUnlock(del) => Unlock(s, s', t, DropFree(del))
       case DropFree(del) => Free(s, s', t, del, DropSession)
       case DropSession => MoveTo(s, s', t, DropDone)
       case UseStart(k) => Lock(s, s', t, UseLocked(k))
       case UseLocked(k) => Unlock(s, s', t, UseDone)
       case _ => false
  }

  predicate MoveTo(s: State, s': State, t: Tid, pc: Pc) {
    s' == s.(threads := s.threads[t := pc])
  }

  predicate Lock(s: State, s': State, t: Tid, pc: Pc) {
    s.mu == None && s' == s.(mu := Some(t), threads := s.threads[t := pc])
  }

  predicate Unlock(s: State, s': State, t: Tid, pc: Pc) {
    s' == s.(mu := None, threads := s.threads[t := pc])
  }

  predicate Free(s: State, s': State, t: Tid, del: bool, pc: Pc) {
    s' == s.(frees := if del then s.frees + 1 else s.frees, threads := s.threads[t := pc])
  }

  ghost predicate Next(s: State, s': State, rule: bool) {
    || (exists t, pc :: Spawn(s, s', t, pc) && (rule ==> ClientRule(s, pc)))
    || (exists t :: Advance(s, s', t))
  }

  /** Runs of any clients, or of clients that keep the rule. */
  ghost predicate Run(trace: seq<State>, rule: bool) {
    && trace != [] && Init(trace[0])
    && forall i :: 0 <= i < |trace| - 1 ==> Next(trace[i], trace[i + 1], rule)
  }

  // ---------------------------------------------------------------------------------------
  // The invariant.

  function Counted(s: State): set<Tid> {
    s.sessions + set t | t in s.threads && IsCounted(s.threads[t])
  }

  function Freers(s: State): set<Tid> {
    set t | t in s.threads && WillFree(s.threads[t])
  }

  ghost predicate LockInv(s: State) {
    && (forall t :: t in s.threads ==> (HoldsMutex(s.threads[t]) <==> s.mu == Some(t)))
    && (s.mu.Some? ==> s.mu.value in s.threads)
  }

  /** num_sessions counts the sessions that the client holds or that a call is responsible for. */
  ghost predicate CountInv(s: State) {
    && s.numSessions == |Counted(s)|
    && (forall k :: k in s.sessions ==> k in s.threads && s.threads[k] == NewDone)
    && (forall t, k :: t in s.threads && UsesSession(s.threads[t], k) ==> k in s.sessions)
  }

  /** Deletion is requested once and no new session is under way from then on. */
  ghost predicate RuleInv(s: State) {
    && (forall t, u :: t in s.threads && u in s.threads && IsDelete(s.threads[t]) && IsDelete(s.threads[u]) ==> t == u)
    && (forall t, u :: t in s.threads && u in s.threads && IsDelete(s.threads[t]) ==> !IsNew(s.threads[u]))
    && (s.deleteRequested <==> exists t :: t in s.threads && Requested(s.threads[t]))
  }

  predicate Requested(pc: Pc) {
    pc.DeleteUnlock? || pc.DeleteFree? || pc.DeleteDone?
  }

  /** Somebody frees the graph exactly when deletion is requested and the last session is gone. */
  ghost predicate FreeInv(s: State) {
    && |Freers(s)| + s.frees == (if s.deleteRequested && s.numSessions == 0 then 1 else 0)
    && (s.deleteRequested && s.numSessions == 0 ==>
          forall t :: t in s.threads && Touches(s.threads[t]) ==> WillFree(s.threads[t]))
  }

  ghost predicate Inv(s: State) {
    LockInv(s) && CountInv(s) && RuleInv(s) && FreeInv(s)
  }

  lemma InitInv(s: State)
    requires Init(s)
    ensures Inv(s)
  {
    assert Counted(s) == {} && Freers(s) == {};
  }

  lemma AdvanceLock(s: State, s': State, t: Tid)
    requires LockInv(s) && Advance(s, s', t)
    ensures LockInv(s')
  {
  }

  predicate Zero(s: State) {
    s.deleteRequested && s.numSessions == 0
  }

  /** The successors of each place. */
  predicate Follows(was: Pc, now: Pc) {
    match was
    case DeleteStart => now == DeleteLocked
    case DeleteLocked => now.DeleteUnlock?
    case DeleteUnlock(del) => now == DeleteFree(del)
    case DeleteFree(_) => now == DeleteDone
    case NewStart => now == NewMade || now == NewDone
    case NewMade => now == NewLocked
    case NewLocked => now == NewUnlock
    case NewUnlock => now == NewReturn
    case NewReturn => now == NewDone
    case DropStart => now == DropLocked
    case DropLocked => now.DropUnlock?
    case DropUnlock(del) => now == DropFree(del)
    case DropFree(_) => now == DropSession
    case DropSession => now == DropDone
    case UseStart(k) => now == UseLocked(k)
    case UseLocked(_) => now == UseDone
    case _ => false
  }

  /** What a step changes, read off the places before and after it. */
  lemma AdvanceEffect(s: State, s': State, t: Tid)
    requires Advance(s, s', t)
    ensures t in s.threads && t in s'.threads && s'.threads == s.threads[t := s'.threads[t]]
    ensures Follows(s.threads[t], s'.threads[t])
    ensures s'.deleteRequested == (s.deleteRequested || s.threads[t].DeleteLocked?)
    ensures s'.sessions == if s.threads[t].NewReturn? then s.sessions + {t} else s.sessions
    ensures s'.numSessions == s.numSessions + (if s.threads[t].NewLocked? then 1 else 0)
                                            - (if s.threads[t].DropLocked? then 1 else 0)
    ensures s'.frees == s.frees + (if WillFree(s.threads[t]) && !WillFree(s'.threads[t]) then 1 else 0)
    ensures s.threads[t].DeleteLocked? || s.threads[t].DropLocked? ==> (WillFree(s'.threads[t]) <==> Zero(s'))
  {
  }

  lemma FollowsKeeps(was: Pc, now: Pc)
    requires Follows(was, now)
    ensures was != NewDone && (Touches(now) ==> Touches(was))
    ensures (IsDelete(now) <==> IsDelete(was)) && (IsNew(now) ==> IsNew(was))
    ensures Requested(now) <==> Requested(was) || was.DeleteLocked?
    ensures WillFree(was) ==> !Touches(now)
    ensures WillFree(now) && !WillFree(was) ==> (was.DeleteLocked? || was.DropLocked?) && HoldsMutex(now)
    ensures forall k :: UsesSession(now, k) ==> UsesSession(was, k)
  {
  }

  lemma FollowsCounts(was: Pc, now: Pc)
    requires Follows(was, now)
    ensures if was.NewLocked? then IsCounted(now) && !IsCounted(was)
            else if was.NewReturn? then IsCounted(was) && !IsCounted(now) && now == NewDone
            else if was.DropLocked? then IsCounted(was) && !IsCounted(now)
            else IsCounted(now) <==> IsCounted(was)
  {
  }

  lemma AdvanceCount(s: State, s': State, t: Tid)
    requires CountInv(s) && Advance(s, s', t)
    ensures CountInv(s')
  {
    hide Advance, Follows, UsesSession, Touches, IsCounted, IsNew, IsDelete, Requested, WillFree, Counted;
    AdvanceEffect(s, s', t);
    FollowsKeeps(s.threads[t], s'.threads[t]);
    assert t !in s.sessions;
    CountMoves(s, s', t);
  }

  lemma CountMoves(s: State, s': State, t: Tid)
    requires Advance(s, s', t) && t !in s.sessions && s.numSessions == |Counted(s)|
    ensures s'.numSessions == |Counted(s')|
  {
    hide Advance, Follows, IsCounted, Counted;
    AdvanceEffect(s, s', t);
    FollowsCounts(s.threads[t], s'.threads[t]);
    CountedAfter(s, s', t);
  }

  lemma CountedAfter(s: State, s': State, t: Tid)
    requires t in s.threads && t in s'.threads && s'.threads == s.threads[t := s'.threads[t]] && t !in s.sessions
    requires s'.sessions == s.sessions || (s'.sessions == s.sessions + {t} && IsCounted(s.threads[t]))
    ensures Counted(s') == if t in s'.sessions || IsCounted(s'.threads[t]) then Counted(s) + {t} else Counted(s) - {t}
    ensures t in Counted(s) <==> IsCounted(s.threads[t])
  {
  }

  lemma AdvanceRule(s: State, s': State, t: Tid)
    requires RuleInv(s) && Advance(s, s', t)
    ensures RuleInv(s')
  {
    hide Advance, Follows, IsDelete, IsNew, Touches, UsesSession, Requested;
    AdvanceEffect(s, s', t);
    FollowsKeeps(s.threads[t], s'.threads[t]);
    if s.deleteRequested {
      var d :| d in s.threads && Requested(s.threads[d]);
      assert Requested(s'.threads[d]);
    }
  }

  /** With no session counted, only a thread that will free the graph may still touch it. */
  lemma NobodyElse(s: State, t: Tid)
    requires LockInv(s) && CountInv(s) && RuleInv(s) && Zero(s) && t in s.threads
    requires WillFree(s.threads[t]) && HoldsMutex(s.threads[t])
    ensures forall u :: u in s.threads && Touches(s.threads[u]) ==> WillFree(s.threads[u])
  {
    assert Counted(s) == {};
    var d :| d in s.threads && Requested(s.threads[d]);
    assert IsDelete(s.threads[d]);
    forall u | u in s.threads && Touches(s.threads[u]) ensures u == t {
      assert u !in Counted(s) && !IsNew(s.threads[u]);
      assert IsDelete(s.threads[u]) ==> u == d;
      assert HoldsMutex(s.threads[u]) ==> u == t;
      assert forall k :: UsesSession(s.threads[u], k) ==> k in Counted(s);
      assert s.threads[u].UseStart? ==> UsesSession(s.threads[u], s.threads[u].session);
    }
  }

  lemma FreersAfter(s: State, s': State, t: Tid)
    requires t in s.threads && t in s'.threads && s'.threads == s.threads[t := s'.threads[t]]
    ensures Freers(s') == if WillFree(s'.threads[t]) then Freers(s) + {t} else Freers(s) - {t}
    ensures WillFree(s.threads[t]) <==> t in Freers(s)
  {
  }

  lemma AdvanceFree(s: State, s': State, t: Tid)
    requires Inv(s) && Advance(s, s', t) && LockInv(s') && CountInv(s') && RuleInv(s')
    ensures FreeInv(s')
  {
    hide Advance, Follows, Touches, WillFree, IsDelete, IsNew, Requested, UsesSession, HoldsMutex;
    hide LockInv, CountInv, RuleInv;
    AdvanceEffect(s, s', t);
    FollowsKeeps(s.threads[t], s'.threads[t]);
    FreersAfter(s, s', t);
    if Zero(s) {
      StaysZero(s, s', t);
    } else {
      assert Freers(s) == {};
      NotYetZero(s, s', t);
      if Zero(s') {
        NobodyElse(s', t);
      }
    }
  }

  /** Once nothing is counted and deletion is requested, it stays so. */
  lemma StaysZero(s: State, s': State, t: Tid)
    requires CountInv(s) && RuleInv(s) && Advance(s, s', t) && Zero(s)
    ensures Zero(s') && !s.threads[t].DeleteLocked? && !s.threads[t].DropLocked?
  {
    hide Advance, Follows, Touches, WillFree, UsesSession;
    AdvanceEffect(s, s', t);
    assert Counted(s) == {};
    assert t !in Counted(s);
    var d :| d in s.threads && Requested(s.threads[d]);
    assert IsDelete(s.threads[d]);
  }

  lemma NotYetZero(s: State, s': State, t: Tid)
    requires CountInv(s) && Advance(s, s', t) && !Zero(s)
    ensures s.frees == s'.frees || WillFree(s.threads[t])
    ensures Zero(s') ==> s.threads[t].DeleteLocked? || s.threads[t].DropLocked?
  {
    hide Advance, Follows, Touches, WillFree, UsesSession;
    AdvanceEffect(s, s', t);
  }

  lemma SpawnEffect(s: State, s': State, t: Tid, pc: Pc)
    requires Spawn(s, s', t, pc)
    ensures t !in s.threads && s' == s.(threads := s.threads[t := pc], sessions := s'.sessions)
    ensures !HoldsMutex(pc) && !WillFree(pc) && !Requested(pc) && (IsCounted(pc) <==> pc == DropStart)
    ensures pc == DropStart ==> exists k :: GivesUp(s, s', k)
    ensures pc != DropStart ==> s'.sessions == s.sessions
    ensures forall k :: UsesSession(pc, k) ==> k in s'.sessions
  {
  }

  lemma SpawnCount(s: State, s': State, t: Tid, pc: Pc)
    requires CountInv(s) && Spawn(s, s', t, pc)
    ensures CountInv(s')
  {
    hide Spawn, HoldsMutex, WillFree, Requested, IsCounted, Counted, UsesSession;
    SpawnEffect(s, s', t, pc);
    assert t !in s.sessions;
    if pc == DropStart {
      var k :| GivesUp(s, s', k);
      SpawnDrops(s, s', t, k);
    } else {
      SpawnKeeps(s, s', t, pc);
    }
  }

  lemma SpawnDrops(s: State, s': State, t: Tid, k: Tid)
    requires t !in s.threads && s'.threads == s.threads[t := DropStart]
    requires k in s.sessions && k in s.threads && s.threads[k] == NewDone && s'.sessions == s.sessions - {k}
    requires t !in s.sessions
    ensures k in Counted(s) && t !in Counted(s) && Counted(s') == (Counted(s) - {k}) + {t}
  {
    assert !IsCounted(NewDone) && IsCounted(DropStart);
    hide IsCounted;
  }

  lemma SpawnKeeps(s: State, s': State, t: Tid, pc: Pc)
    requires t !in s.threads && s'.threads == s.threads[t := pc] && !IsCounted(pc) && s'.sessions == s.sessions
    ensures Counted(s') == Counted(s)
  {
  }

  lemma SpawnRule(s: State, s': State, t: Tid, pc: Pc)
    requires RuleInv(s) && Spawn(s, s', t, pc) && ClientRule(s, pc)
    ensures RuleInv(s')
  {
    hide Touches, Counted;
    if s.deleteRequested {
      var d :| d in s.threads && Requested(s.threads[d]);
      assert Requested(s'.threads[d]);
    }
  }

  lemma SpawnFree(s: State, s': State, t: Tid, pc: Pc)
    requires CountInv(s) && RuleInv(s) && FreeInv(s) && Spawn(s, s', t, pc) && ClientRule(s, pc)
    ensures FreeInv(s')
  {
    hide Spawn, ClientRule, RuleInv, CountInv, WillFree, Touches;
    SpawnEffect(s, s', t, pc);
    assert Freers(s') == Freers(s);
    NoCallsAfterwards(s, s', t, pc);
  }

  /** No call that could touch the graph is made once it is to be freed. */
  lemma NoCallsAfterwards(s: State, s': State, t: Tid, pc: Pc)
    requires CountInv(s) && RuleInv(s) && Spawn(s, s', t, pc) && ClientRule(s, pc)
    ensures !Zero(s)
  {
    if s.deleteRequested {
      var d :| d in s.threads && Requested(s.threads[d]);
      assert IsDelete(s.threads[d]);
      assert s.sessions <= Counted(s);
      assert s.numSessions == 0 ==> Counted(s) == {};
    }
  }

  lemma NextInv(s: State, s': State)
    requires Inv(s) && Next(s, s', true)
    ensures Inv(s')
  {
    hide Advance, Spawn, ClientRule, LockInv, CountInv, RuleInv, FreeInv;
    if t :| Advance(s, s', t) {
      AdvanceLock(s, s', t);
      AdvanceCount(s, s', t);
      AdvanceRule(s, s', t);
      AdvanceFree(s, s', t);
    } else {
      var t, pc :| Spawn(s, s', t, pc) && ClientRule(s, pc);
      SpawnLock(s, s', t, pc);
      SpawnCount(s, s', t, pc);
      SpawnRule(s, s', t, pc);
      SpawnFree(s, s', t, pc);
    }
  }

  lemma SpawnLock(s: State, s': State, t: Tid, pc: Pc)
    requires LockInv(s) && Spawn(s, s', t, pc)
    ensures LockInv(s')
  {
  }

  lemma {:induction false} RunInv(trace: seq<State>, i: nat)
    requires Run(trace, true) && i < |trace|
    ensures Inv(trace[i])
  {
    hide Init, Inv, Next;
    if i == 0 {
      InitInv(trace[0]);
    } else {
      RunInv(trace, i - 1);
      assert Next(trace[i - 1], trace[i - 1 + 1], true);
      NextInv(trace[i - 1], trace[i]);
    }
  }

  // ---------------------------------------------------------------------------------------
  // What the comments on TF_Graph promise.

  lemma FreedAtMostOnce(trace: seq<State>, i: nat)
    requires Run(trace, true) && i < |trace|
    ensures trace[i].frees <= 1
  {
    RunInv(trace, i);
  }

  /** As long as the client holds a session, or any call will still touch the graph, it is there. */
  lemma NeverFreedInUse(trace: seq<State>, i: nat)
    requires Run(trace, true) && i < |trace|
    requires trace[i].sessions != {} || exists t :: t in trace[i].threads && Touches(trace[i].threads[t])
    ensures trace[i].frees == 0
  {
    RunInv(trace, i);
    var s := trace[i];
    if s.sessions != {} {
      assert Counted(s) != {};
    } else {
      var t :| t in s.threads && Touches(s.threads[t]);
      if Zero(s) {
        assert t in Freers(s);
      }
    }
  }

  lemma DoneMeans(pc: Pc)
    requires IsDone(pc)
    ensures !IsCounted(pc) && !WillFree(pc) && (Requested(pc) <==> pc == DeleteDone)
  {
  }

  /** When all calls have finished it is freed exactly if deletion was requested and no session is left. */
  lemma FreedWhenFinished(trace: seq<State>, i: nat)
    requires Run(trace, true) && i < |trace|
    requires forall t :: t in trace[i].threads ==> IsDone(trace[i].threads[t])
    ensures trace[i].frees
         == if trace[i].sessions == {} && exists t :: t in trace[i].threads && trace[i].threads[t] == DeleteDone
            then 1 else 0
  {
    hide Run, IsDone, IsCounted, WillFree, Requested, LockInv;
    RunInv(trace, i);
    var s := trace[i];
    forall t | t in s.threads
      ensures !IsCounted(s.threads[t]) && !WillFree(s.threads[t])
      ensures Requested(s.threads[t]) <==> s.threads[t] == DeleteDone
    {
      DoneMeans(s.threads[t]);
    }
    assert Freers(s) == {} && Counted(s) == s.sessions;
  }
}

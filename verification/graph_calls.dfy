/**
 What each call on a graph does when no other thread moves meanwhile (c_api.cc), from any
 state that any clients can reach.
 */
module GraphCalls {
  import opened GraphLifetime
  import opened Options
  import opened Progress

  /** t makes the call pc, and then only t moves. */
  ghost predicate Alone(s: State, states: seq<State>, t: Tid, pc: Pc) {
    && states != [] && Spawn(s, states[0], t, pc)
    && forall i :: 0 <= i < |states| - 1 ==> Advance(states[i], states[i + 1], t)
  }

  lemma AloneExtends(trace: seq<State>, states: seq<State>, t: Tid, pc: Pc)
    requires Run(trace, false) && Alone(trace[|trace| - 1], states, t, pc)
    ensures Run(trace + states, false)
  {
    hide Advance, Spawn, Init;
    var all := trace + states;
    forall i | 0 <= i < |all| - 1 ensures Next(all[i], all[i + 1], false) {
      if i < |trace| - 1 {
        assert Next(trace[i], trace[i + 1], false);
      } else if i == |trace| - 1 {
        assert Spawn(all[i], all[i + 1], t, pc);
      } else {
        var k := i - |trace|;
        assert all[i] == states[k] && all[i + 1] == states[k + 1];
      }
    }
  }

  /** A new session is counted and handed to the client; the call may also fail and change nothing. */
  lemma NewAlone(trace: seq<State>, t: Tid) returns (made: seq<State>, failed: seq<State>)
    requires Run(trace, false)
    requires trace[|trace| - 1].mu == None && t !in trace[|trace| - 1].threads
    ensures made != [] && Run(trace + made, false) && failed != [] && Run(trace + failed, false)
    ensures var s := trace[|trace| - 1];
      && made[|made| - 1]
         == s.(numSessions := s.numSessions + 1, sessions := s.sessions + {t}, threads := s.threads[t := NewDone])
      && failed[|failed| - 1] == s.(threads := s.threads[t := NewDone])
  {
    var s := trace[|trace| - 1];
    made, failed := NewSteps(s, t);
    hide Run, Alone;
    AloneExtends(trace, made, t, NewStart);
    AloneExtends(trace, failed, t, NewStart);
  }

  lemma NewSteps(s: State, t: Tid) returns (made: seq<State>, failed: seq<State>)
    requires s.mu == None && t !in s.threads
    ensures Alone(s, made, t, NewStart) && Alone(s, failed, t, NewStart)
    ensures made[|made| - 1]
         == s.(numSessions := s.numSessions + 1, sessions := s.sessions + {t}, threads := s.threads[t := NewDone])
    ensures failed[|failed| - 1] == s.(threads := s.threads[t := NewDone])
  {
    var n := s.numSessions + 1;
    var a, b := s.(threads := s.threads[t := NewStart]), s.(threads := s.threads[t := NewMade]);
    var c := s.(mu := Some(t), threads := s.threads[t := NewLocked]);
    var d := s.(mu := Some(t), numSessions := n, threads := s.threads[t := NewUnlock]);
    var e := s.(numSessions := n, threads := s.threads[t := NewReturn]);
    var f := e.(sessions := s.sessions + {t}, threads := s.threads[t := NewDone]);
    var g := s.(threads := s.threads[t := NewDone]);
    assert Spawn(s, a, t, NewStart) && Advance(a, g, t);
    NewCounts(s, t, a, b, c, d, e, f);
    made, failed := [a, b, c, d, e, f], [a, g];
    hide Advance, Spawn;
  }

  lemma NewCounts(s: State, t: Tid, a: State, b: State, c: State, d: State, e: State, f: State)
    requires s.mu == None && a == s.(threads := s.threads[t := NewStart]) && b == s.(threads := s.threads[t := NewMade])
    requires c == s.(mu := Some(t), threads := s.threads[t := NewLocked])
    requires d == s.(mu := Some(t), numSessions := s.numSessions + 1, threads := s.threads[t := NewUnlock])
    requires e == s.(numSessions := s.numSessions + 1, threads := s.threads[t := NewReturn])
    requires f == e.(sessions := s.sessions + {t}, threads := s.threads[t := NewDone])
    ensures Advance(a, b, t) && Advance(b, c, t) && Advance(c, d, t) && Advance(d, e, t) && Advance(e, f, t)
  {
  }

  /** A session given up is no longer counted; the last one takes a graph to be deleted with it. */
  lemma DropAlone(trace: seq<State>, k: Tid, t: Tid) returns (states: seq<State>)
    requires Run(trace, false)
    requires var s := trace[|trace| - 1];
      && s.mu == None && t !in s.threads && k in s.sessions
      && forall u :: u in s.threads ==> !UsesSession(s.threads[u], k)
    ensures states != [] && Run(trace + states, false)
    ensures var s := trace[|trace| - 1]; var last := s.deleteRequested && s.numSessions == 1;
      states[|states| - 1]
      == State(None, s.numSessions - 1, s.deleteRequested, if last then s.frees + 1 else s.frees,
               s.sessions - {k}, s.threads[t := DropDone])
  {
    states := DropSteps(trace[|trace| - 1], k, t);
    hide Run, Alone;
    AloneExtends(trace, states, t, DropStart);
  }

  lemma DropSteps(s: State, k: Tid, t: Tid) returns (states: seq<State>)
    requires s.mu == None && t !in s.threads && k in s.sessions
    requires forall u :: u in s.threads ==> !UsesSession(s.threads[u], k)
    ensures Alone(s, states, t, DropStart)
    ensures var last := s.deleteRequested && s.numSessions == 1;
      states[|states| - 1]
      == State(None, s.numSessions - 1, s.deleteRequested, if last then s.frees + 1 else s.frees,
               s.sessions - {k}, s.threads[t := DropDone])
  {
    var a := s.(sessions := s.sessions - {k}, threads := s.threads[t := DropStart]);
    assert Spawn(s, a, t, DropStart) by { assert GivesUp(s, a, k); }
    hide Spawn, Advance;
    states := DroppingSteps(a, t);
  }

  lemma DroppingSteps(s: State, t: Tid) returns (states: seq<State>)
    requires s.mu == None && t in s.threads && s.threads[t] == DropStart
    ensures states != [] && states[0] == s
    ensures forall i :: 0 <= i < |states| - 1 ==> Advance(states[i], states[i + 1], t)
    ensures var last := s.deleteRequested && s.numSessions == 1;
      states[|states| - 1]
      == s.(numSessions := s.numSessions - 1, frees := if last then s.frees + 1 else s.frees,
            threads := s.threads[t := DropDone])
  {
    var n, last := s.numSessions - 1, s.deleteRequested && s.numSessions == 1;
    var b := s.(mu := Some(t), threads := s.threads[t := DropLocked]);
    var c := b.(numSessions := n, threads := s.threads[t := DropUnlock(last)]);
    var d := c.(mu := None, threads := s.threads[t := DropFree(last)]);
    var e := d.(frees := if last then s.frees + 1 else s.frees, threads := s.threads[t := DropSession]);
    var f := e.(threads := s.threads[t := DropDone]);
    assert Advance(s, b, t) && Advance(b, c, t);
    assert Advance(c, d, t) && Advance(d, e, t) && Advance(e, f, t);
    states := [s, b, c, d, e, f];
    hide Advance;
  }

  /** A request to delete is noted, and carried out at once if no session is counted. */
  lemma DeleteAlone(trace: seq<State>, t: Tid) returns (states: seq<State>)
    requires Run(trace, false)
    requires trace[|trace| - 1].mu == None && t !in trace[|trace| - 1].threads
    ensures states != [] && Run(trace + states, false)
    ensures var s := trace[|trace| - 1];
      states[|states| - 1]
      == State(None, s.numSessions, true, if s.numSessions == 0 then s.frees + 1 else s.frees,
               s.sessions, s.threads[t := DeleteDone])
  {
    states := DeleteSteps(trace[|trace| - 1], t);
    hide Run, Alone;
    AloneExtends(trace, states, t, DeleteStart);
  }

  lemma DeleteSteps(s: State, t: Tid) returns (states: seq<State>)
    requires s.mu == None && t !in s.threads
    ensures Alone(s, states, t, DeleteStart)
    ensures states[|states| - 1]
         == State(None, s.numSessions, true, if s.numSessions == 0 then s.frees + 1 else s.frees,
                  s.sessions, s.threads[t := DeleteDone])
  {
    var del := s.numSessions == 0;
    var a := s.(threads := s.threads[t := DeleteStart]);
    var b := s.(mu := Some(t), threads := s.threads[t := DeleteLocked]);
    var c := b.(deleteRequested := true, threads := s.threads[t := DeleteUnlock(del)]);
    var d := c.(mu := None, threads := s.threads[t := DeleteFree(del)]);
    var e := d.(frees := if del then s.frees + 1 else s.frees, threads := s.threads[t := DeleteDone]);
    assert Spawn(s, a, t, DeleteStart) && Advance(a, b, t) && Advance(b, c, t);
    assert Advance(c, d, t) && Advance(d, e, t);
    states := [a, b, c, d, e];
    hide Advance, Spawn;
  }

  /** Work on the graph through a session that the client holds changes none of this. */
  lemma UseAlone(trace: seq<State>, k: Tid, t: Tid) returns (states: seq<State>)
    requires Run(trace, false)
    requires var s := trace[|trace| - 1]; s.mu == None && t !in s.threads && k in s.sessions
    ensures states != [] && Run(trace + states, false)
    ensures states[|states| - 1] == trace[|trace| - 1].(threads := trace[|trace| - 1].threads[t := UseDone])
  {
    var s := trace[|trace| - 1];
    var a := s.(threads := s.threads[t := UseStart(k)]);
    var b := s.(mu := Some(t), threads := s.threads[t := UseLocked(k)]);
    var c := s.(threads := s.threads[t := UseDone]);
    assert Spawn(s, a, t, UseStart(k)) && Advance(a, b, t) && Advance(b, c, t);
    states := [a, b, c];
    hide Run, Advance, Spawn;
    AloneExtends(trace, states, t, UseStart(k));
  }
}

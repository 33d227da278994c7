/** Threads that take finitely many steps: the total of the steps left. */
module Progress {

  type Tid = nat

  ghost function Total(left: map<Tid, nat>): nat
    decreases |left|
  {
    if left == map[] then 0
    else
      var t :| t in left;
      left[t] + Total(left - {t})
  }

  lemma {:induction false} TotalWithout(left: map<Tid, nat>, t: Tid)
    requires t in left
    ensures Total(left) == left[t] + Total(left - {t})
    decreases |left|
  {
    var u :| u in left && Total(left) == left[u] + Total(left - {u});
    if u != t {
      TotalWithout(left - {u}, t);
      TotalWithout(left - {t}, u);
      assert left - {u} - {t} == left - {t} - {u};
    }
  }

  /** If one thread has fewer steps left and the others as many as before, the total is smaller. */
  lemma TotalDrops(left: map<Tid, nat>, left': map<Tid, nat>, t: Tid)
    requires t in left && t in left' && left' == left[t := left'[t]] && left'[t] < left[t]
    ensures Total(left') < Total(left)
  {
    hide Total;
    TotalWithout(left, t);
    TotalWithout(left', t);
    assert left - {t} == left' - {t};
  }
}

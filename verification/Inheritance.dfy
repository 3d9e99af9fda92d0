/** One pass of the propagation loop of `task_pri_change`, on the graph `boost` that maps each
    task to the task it lends its priority to. Task `c` moves to priority `p`; `o` is the task
    `c` lends to. Cycles in `boost` are allowed. */
module Inheritance {
  import opened Lists
  import opened RunQueues
  import opened KernelState

  ghost predicate Broken(state: seq<TaskState>, prio: seq<nat>, bprio: seq<nat>,
                         boost: seq<Option<Tid>>, c: Tid, p: nat) {
    && InheritOk(state, prio, bprio, boost, Some(c))
    && c < |state|
    && IsLive(state[c])
    && IsInherited(prio, bprio, boost, c, p)
    && boost[c] != Some(c)
  }

  lemma BrokenBounds(state: seq<TaskState>, prio: seq<nat>, bprio: seq<nat>,
                     boost: seq<Option<Tid>>, c: Tid, p: nat)
    requires Broken(state, prio, bprio, boost, c, p)
    ensures c < |state| == |prio| == |boost| && IsLive(state[c])
  {
  }

  /** Nobody borrows from `c`: moving `c` restores the equation everywhere. */
  lemma EndsAtSink(state: seq<TaskState>, prio: seq<nat>, bprio: seq<nat>,
                   boost: seq<Option<Tid>>, c: Tid, p: nat)
    requires Broken(state, prio, bprio, boost, c, p) && boost[c] == None
    ensures InheritOk(state, prio[c := p], bprio, boost, None)
  {
    OthersKeep(state, prio, bprio, boost, c, p, None);
  }

  /** `c` already runs at the priority it should. */
  lemma AlreadySettled(state: seq<TaskState>, prio: seq<nat>, bprio: seq<nat>,
                       boost: seq<Option<Tid>>, c: Tid)
    requires c < |prio| && Broken(state, prio, bprio, boost, c, prio[c])
    ensures InheritOk(state, prio, bprio, boost, None)
  {
  }

  /** Moving `c` only disturbs the task that `c` lends to. */
  lemma OthersKeep(state: seq<TaskState>, prio: seq<nat>, bprio: seq<nat>,
                   boost: seq<Option<Tid>>, c: Tid, p: nat, o: Option<Tid>)
    requires Broken(state, prio, bprio, boost, c, p) && boost[c] == o
    ensures InheritOk(state, prio[c := p], bprio, boost, o)
  {
    var prio' := prio[c := p];
    forall t | 0 <= t < |state| && IsLive(state[t]) && o != Some(t)
      ensures IsInherited(prio', bprio, boost, t, prio'[t])
    {
      assert forall w :: 0 <= w < |boost| && boost[w] == Some(t) ==> w != c && prio'[w] == prio[w];
      if t == c {
        SameLenders(prio, prio', bprio, boost, t, p);
      } else {
        SameLenders(prio, prio', bprio, boost, t, prio[t]);
      }
    }
  }

  lemma SameLenders(prio: seq<nat>, prio': seq<nat>, bprio: seq<nat>, boost: seq<Option<Tid>>, t: Tid, p: nat)
    requires |prio| == |prio'| == |bprio| == |boost| && t < |prio|
    requires forall w :: 0 <= w < |boost| && boost[w] == Some(t) ==> prio'[w] == prio[w]
    requires IsInherited(prio, bprio, boost, t, p)
    ensures IsInherited(prio', bprio, boost, t, p)
  {
    if p != bprio[t] {
      var w :| 0 <= w < |boost| && boost[w] == Some(t) && prio[w] == p;
      assert prio'[w] == p;
    }
  }

  /** Raising: the borrower either already runs at least as high, or must move to `p` itself. */
  lemma RaisePass(state: seq<TaskState>, prio: seq<nat>, bprio: seq<nat>,
                  boost: seq<Option<Tid>>, c: Tid, p: nat, o: Tid)
    requires Broken(state, prio, bprio, boost, c, p) && p <= prio[c]
    requires boost[c] == Some(o) && o < |state| && IsLive(state[o])
    ensures prio[o] <= p ==> InheritOk(state, prio[c := p], bprio, boost, None)
    ensures prio[o] > p ==>
              && InheritOk(state, prio[c := p], bprio, boost, Some(o))
              && IsInherited(prio[c := p], bprio, boost, o, p)
  {
    var prio' := prio[c := p];
    OthersKeep(state, prio, bprio, boost, c, p, Some(o));
    assert IsInherited(prio, bprio, boost, o, prio[o]);
    if prio[o] <= p {
      if prio[o] != bprio[o] {
        var w :| 0 <= w < |boost| && boost[w] == Some(o) && prio[w] == prio[o];
        assert prio'[w] == prio[o];
      }
      assert IsInherited(prio', bprio, boost, o, prio'[o]);
    } else {
      assert boost[c] == Some(o) && prio'[c] == p;
    }
  }

  /** Lowering: a borrower above the old priority of `c` is not affected; one at that priority
      must be looked at again. */
  lemma LowerPass(state: seq<TaskState>, prio: seq<nat>, bprio: seq<nat>,
                  boost: seq<Option<Tid>>, c: Tid, p: nat, o: Tid)
    requires Broken(state, prio, bprio, boost, c, p) && p > prio[c]
    requires boost[c] == Some(o) && o < |state| && IsLive(state[o])
    ensures prio[o] <= prio[c]
    ensures prio[o] != prio[c] ==> InheritOk(state, prio[c := p], bprio, boost, None)
    ensures InheritOk(state, prio[c := p], bprio, boost, Some(o))
  {
    var prio' := prio[c := p];
    OthersKeep(state, prio, bprio, boost, c, p, Some(o));
    assert IsInherited(prio, bprio, boost, o, prio[o]);
    if prio[o] != prio[c] {
      if prio[o] != bprio[o] {
        var w :| 0 <= w < |boost| && boost[w] == Some(o) && prio[w] == prio[o];
        assert prio'[w] == prio[o];
      }
      assert IsInherited(prio', bprio, boost, o, prio'[o]);
    }
  }

  /** ... and what that look finds is never above the borrower's present priority. */
  lemma LowerOnlyDown(state: seq<TaskState>, prio: seq<nat>, bprio: seq<nat>,
                      boost: seq<Option<Tid>>, c: Tid, p: nat, o: Tid, q: nat)
    requires Broken(state, prio, bprio, boost, c, p) && p > prio[c]
    requires boost[c] == Some(o) && o < |state| && IsLive(state[o])
    requires IsInherited(prio[c := p], bprio, boost, o, q)
    ensures prio[o] <= q
  {
    assert IsInherited(prio, bprio, boost, o, prio[o]);
  }

  /** At most one value satisfies the equation. */
  lemma InheritedUnique(prio: seq<nat>, bprio: seq<nat>, boost: seq<Option<Tid>>, t: Tid, p: nat, q: nat)
    requires |prio| == |bprio| == |boost| && t < |prio|
    requires IsInherited(prio, bprio, boost, t, p) && IsInherited(prio, bprio, boost, t, q)
    ensures p == q
  {
  }

  /** Tasks at or below the priority of `o` may start to lend to `o`. */
  lemma LendersJoin(state: seq<TaskState>, prio: seq<nat>, bprio: seq<nat>,
                    boost: seq<Option<Tid>>, boost': seq<Option<Tid>>, o: Tid)
    requires InheritOk(state, prio, bprio, boost, None) && |boost'| == |boost| && o < |state|
    requires forall u :: 0 <= u < |boost| ==>
               boost'[u] == boost[u] || (boost[u] == None && boost'[u] == Some(o) && prio[o] <= prio[u])
    ensures InheritOk(state, prio, bprio, boost', None)
  {
    forall t | 0 <= t < |state| && IsLive(state[t])
      ensures IsInherited(prio, bprio, boost', t, prio[t])
    {
      assert IsInherited(prio, bprio, boost, t, prio[t]);
      if prio[t] != bprio[t] {
        var w :| 0 <= w < |boost| && boost[w] == Some(t) && prio[w] == prio[t];
        assert boost'[w] == Some(t);
      }
    }
  }

  /** Tasks that stop lending to `o` only disturb `o`, and only if one ran at its priority. */
  lemma LendersLeave(state: seq<TaskState>, prio: seq<nat>, bprio: seq<nat>,
                     boost: seq<Option<Tid>>, boost': seq<Option<Tid>>, o: Tid)
    requires InheritOk(state, prio, bprio, boost, None) && |boost'| == |boost| && o < |state|
    requires forall u :: 0 <= u < |boost| ==>
               boost'[u] == boost[u] || (boost[u] == Some(o) && boost'[u] == None)
    ensures InheritOk(state, prio, bprio, boost', Some(o))
    ensures (forall u :: 0 <= u < |boost| && boost'[u] != boost[u] ==> prio[u] != prio[o]) ==>
              InheritOk(state, prio, bprio, boost', None)
  {
    forall t | 0 <= t < |state| && IsLive(state[t])
      ensures t != o ==> IsInherited(prio, bprio, boost', t, prio[t])
      ensures (forall u :: 0 <= u < |boost| && boost'[u] != boost[u] ==> prio[u] != prio[o]) ==>
                IsInherited(prio, bprio, boost', t, prio[t])
    {
      assert IsInherited(prio, bprio, boost, t, prio[t]);
      if prio[t] != bprio[t] {
        var w :| 0 <= w < |boost| && boost[w] == Some(t) && prio[w] == prio[t];
        assert boost'[w] == Some(t) || t == o;
      }
    }
  }

  lemma InheritStates(state: seq<TaskState>, state': seq<TaskState>, prio: seq<nat>, bprio: seq<nat>,
                      boost: seq<Option<Tid>>, except: Option<Tid>)
    requires InheritOk(state, prio, bprio, boost, except) && |state'| == |state|
    requires forall t :: 0 <= t < |state| && IsLive(state'[t]) ==> IsLive(state[t])
    ensures InheritOk(state', prio, bprio, boost, except)
  {
  }

  /** A base priority only matters to its own task. */
  lemma InheritRebase(state: seq<TaskState>, prio: seq<nat>, bprio: seq<nat>,
                      boost: seq<Option<Tid>>, t: Tid, b: nat)
    requires InheritOk(state, prio, bprio, boost, None) && t < |state|
    ensures InheritOk(state, prio, bprio[t := b], boost, Some(t))
  {
    forall u | 0 <= u < |state| && IsLive(state[u]) && u != t
      ensures IsInherited(prio, bprio[t := b], boost, u, prio[u])
    {
      assert IsInherited(prio, bprio, boost, u, prio[u]);
    }
  }

  /** A mutex without lenders and a new live task with none satisfy the equation at the base. */
  lemma InheritFresh(state: seq<TaskState>, prio: seq<nat>, bprio: seq<nat>,
                     boost: seq<Option<Tid>>, t: Tid, s: TaskState, p: nat)
    requires InheritOk(state, prio, bprio, boost, None) && t < |state|
    requires forall w :: 0 <= w < |boost| ==> boost[w] != Some(t)
    requires boost[t] == None
    ensures InheritOk(state[t := s], prio[t := p], bprio[t := p], boost, None)
  {
    var state', prio', bprio' := state[t := s], prio[t := p], bprio[t := p];
    forall u | 0 <= u < |state| && IsLive(state'[u])
      ensures IsInherited(prio', bprio', boost, u, prio'[u])
    {
      if u != t {
        assert IsInherited(prio, bprio, boost, u, prio[u]);
        if prio[u] != bprio[u] {
          var w :| 0 <= w < |boost| && boost[w] == Some(u) && prio[w] == prio[u];
          assert w != t;
        }
      }
    }
  }

  /** A more urgent task about to lend to `o` leaves one repair to do, at `o`. */
  lemma NewLender(state: seq<TaskState>, prio: seq<nat>, bprio: seq<nat>, boost: seq<Option<Tid>>, t: Tid, o: Tid)
    requires InheritOk(state, prio, bprio, boost, None)
    requires t < |state| && o < |state| && t != o && IsLive(state[o])
    requires boost[t] == None && boost[o] != Some(o) && prio[t] < prio[o]
    ensures Broken(state, prio, bprio, boost[t := Some(o)], o, prio[t])
  {
    var boost' := boost[t := Some(o)];
    forall u | 0 <= u < |state| && IsLive(state[u]) && u != o
      ensures IsInherited(prio, bprio, boost', u, prio[u])
    {
      assert IsInherited(prio, bprio, boost, u, prio[u]);
      if prio[u] != bprio[u] {
        var w :| 0 <= w < |boost| && boost[w] == Some(u) && prio[w] == prio[u];
        assert boost'[w] == Some(u);
      }
    }
    assert IsInherited(prio, bprio, boost, o, prio[o]);
    assert boost'[t] == Some(o);
  }

  // ----- chains of waiting tasks -----

  /** In `n` steps from waiting task to owner, `w` leads to `t`. */
  ghost predicate Reaches(boost: seq<Option<Tid>>, w: Tid, t: Tid, n: nat)
    decreases n
  {
    if n == 0 then w == t
    else w < |boost| && boost[w].Some? && Reaches(boost, boost[w].value, t, n - 1)
  }

  ghost predicate WaitsFor(boost: seq<Option<Tid>>, w: Tid, t: Tid) { exists n: nat :: Reaches(boost, w, t, n) }

  /** Nobody waits for itself, directly or through others. */
  ghost predicate NoCycle(boost: seq<Option<Tid>>) {
    forall t: Tid, n: nat :: n > 0 ==> !Reaches(boost, t, t, n)
  }

  /** Lending only goes to live tasks. */
  ghost predicate LendersLive(state: seq<TaskState>, boost: seq<Option<Tid>>) {
    forall w :: 0 <= w < |boost| && boost[w].Some? ==> boost[w].value < |state| && IsLive(state[boost[w].value])
  }

  /** Nobody runs less urgently than the base priority of a task that waits for it, however indirectly. */
  lemma {:induction false} ChainBelow(state: seq<TaskState>, prio: seq<nat>, bprio: seq<nat>, boost: seq<Option<Tid>>, w: Tid, t: Tid, n: nat)
    requires InheritOk(state, prio, bprio, boost, None) && LendersLive(state, boost) && w < |state| && IsLive(state[w])
    requires Reaches(boost, w, t, n)
    ensures t < |state| && prio[t] <= prio[w] <= bprio[w]
    decreases n
  {
    assert IsInherited(prio, bprio, boost, w, prio[w]);
    if n > 0 {
      var u := boost[w].value;
      assert IsInherited(prio, bprio, boost, u, prio[u]);
      ChainBelow(state, prio, bprio, boost, u, t, n - 1);
    }
  }

  lemma {:induction false} ReachOneMore(boost: seq<Option<Tid>>, v: Tid, t: Tid, w: Tid, n: nat)
    requires Reaches(boost, v, t, n) && w < |boost| && boost[w] == Some(v)
    ensures Reaches(boost, w, t, n + 1)
  {
  }

  /** Without cycles some task that waits for `t`, however indirectly, or `t` itself, has the priority of `t` as its base
      priority. `left` are the tasks the search has not met. */
  lemma Attained(state: seq<TaskState>, prio: seq<nat>, bprio: seq<nat>, boost: seq<Option<Tid>>, v: Tid, t: Tid, n: nat, left: set<Tid>)
    returns (w: Tid, m: nat)
    requires InheritOk(state, prio, bprio, boost, None) && NoCycle(boost)
    requires forall u :: 0 <= u < |boost| && boost[u].Some? ==> IsLive(state[u])
    requires v < |state| && IsLive(state[v]) && Reaches(boost, v, t, n)
    requires forall u :: 0 <= u < |boost| && u !in left ==> WaitsFor(boost, v, u)
    ensures w < |state| && IsLive(state[w]) && Reaches(boost, w, t, m) && bprio[w] == prio[v]
    decreases |left|
  {
    assert IsInherited(prio, bprio, boost, v, prio[v]);
    if prio[v] == bprio[v] {
      return v, n;
    }
    var u :| 0 <= u < |boost| && boost[u] == Some(v) && prio[u] == prio[v];
    if u !in left {
      var k: nat :| Reaches(boost, v, u, k);
      ReachOneMore(boost, v, u, u, k);
    }
    assert u in left;
    ReachOneMore(boost, v, t, u, n);
    forall x | 0 <= x < |boost| && x !in left - {u} ensures WaitsFor(boost, u, x) {
      if x == u {
        assert Reaches(boost, u, u, 0);
      } else {
        var k: nat :| Reaches(boost, v, x, k);
        ReachOneMore(boost, v, x, u, k);
      }
    }
    w, m := Attained(state, prio, bprio, boost, u, t, n + 1, left - {u});
  }

  ghost function Below(n: nat): (r: set<Tid>)
    ensures forall u :: u in r <==> 0 <= u < n
  {
    if n == 0 then {} else Below(n - 1) + {n - 1}
  }

  /** While nobody waits in a cycle, a live task runs at exactly the least base priority of all tasks that
      wait for it, directly or through others, itself included. */
  lemma LeastOfAllWaiting(state: seq<TaskState>, prio: seq<nat>, bprio: seq<nat>, boost: seq<Option<Tid>>, t: Tid)
    requires InheritOk(state, prio, bprio, boost, None) && LendersLive(state, boost) && NoCycle(boost)
    requires forall u :: 0 <= u < |boost| && boost[u].Some? ==> IsLive(state[u])
    requires t < |state| && IsLive(state[t])
    ensures forall w :: 0 <= w < |state| && IsLive(state[w]) && WaitsFor(boost, w, t) ==> prio[t] <= bprio[w]
    ensures exists w :: 0 <= w < |state| && IsLive(state[w]) && WaitsFor(boost, w, t) && prio[t] == bprio[w]
  {
    forall w | 0 <= w < |state| && IsLive(state[w]) && WaitsFor(boost, w, t) ensures prio[t] <= bprio[w] {
      var n: nat :| Reaches(boost, w, t, n);
      ChainBelow(state, prio, bprio, boost, w, t, n);
    }
    var all := Below(|boost|) - {t};
    assert Reaches(boost, t, t, 0);
    var w, m := Attained(state, prio, bprio, boost, t, t, 0, all);
    assert WaitsFor(boost, w, t);
  }

  /** On a cycle a priority can sustain itself: two tasks that wait for each other run at 1, though
      neither base priority is below 5. */
  lemma CycleSustains()
    ensures
      var state, prio, bprio, boost := [Pend, Pend], [1, 1], [5, 5], [Some(1), Some(0)];
      InheritOk(state, prio, bprio, boost, None) && LendersLive(state, boost) && !NoCycle(boost)
  {
    var state, prio, bprio, boost: seq<Option<Tid>> := [Pend, Pend], [1, 1], [5, 5], [Some(1), Some(0)];
    assert IsInherited(prio, bprio, boost, 0, 1) by { assert boost[1] == Some(0) && prio[1] == 1; }
    assert IsInherited(prio, bprio, boost, 1, 1) by { assert boost[0] == Some(1) && prio[0] == 1; }
    assert Reaches(boost, 0, 0, 0);
    assert Reaches(boost, 1, 0, 1);
    assert Reaches(boost, 0, 0, 2);
  }
}

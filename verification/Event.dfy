/** Event flag groups of k_event.c. A word of flags is the set of its bit numbers, so `x & y`, `x | y` and
    `x & ~y` are intersection, union and difference. */
module Events {
  type Tid = nat
  type Flags = set<nat>

  /** A task blocked on an event: `pend_flags` and the two bits of `pend_option`. */
  datatype Waiter = Waiter(task: Tid, flags: Flags, all: bool, clear: bool)

  /** Are all, or is one, of the wanted flags set? */
  predicate Met(w: Waiter, flags: Flags) {
    if w.all then flags * w.flags == w.flags else flags * w.flags != {}
  }

  function Chosen(ws: seq<Waiter>, flags: Flags, met: bool): (r: seq<Waiter>)
    ensures forall w :: w in r <==> w in ws && Met(w, flags) == met
  {
    if ws == [] then []
    else
      var rest := Chosen(ws[1..], flags, met);
      assert forall w :: w in ws <==> w == ws[0] || w in ws[1..];
      if Met(ws[0], flags) == met then
        assert forall w :: w in [ws[0]] + rest <==> w == ws[0] || w in rest;
        [ws[0]] + rest
      else rest
  }

  lemma {:induction false} ChosenSnoc(ws: seq<Waiter>, w: Waiter, flags: Flags, met: bool)
    ensures Chosen(ws + [w], flags, met) == Chosen(ws, flags, met) + if Met(w, flags) == met then [w] else []
  {
    if ws == [] {
      assert ws + [w] == [w];
    } else {
      assert (ws + [w])[1..] == ws[1..] + [w];
      ChosenSnoc(ws[1..], w, flags, met);
    }
  }

  /** Clearing flags never satisfies a condition. */
  lemma FewerFlags(w: Waiter, flags: Flags, fewer: Flags)
    requires !Met(w, flags) && fewer <= flags
    ensures !Met(w, fewer)
  {
    assert fewer * w.flags <= flags * w.flags <= w.flags;
  }

  lemma MetIs(w: Waiter, flags: Flags)
    ensures Met(w, flags) <==> if w.all then w.flags <= flags else exists f :: f in w.flags && f in flags
  {
    if w.all {
      assert w.flags <= flags ==> flags * w.flags == w.flags;
      assert flags * w.flags == w.flags ==> w.flags <= flags;
    } else {
      assert forall f :: f in w.flags && f in flags ==> f in flags * w.flags;
      if flags * w.flags != {} {
        var f :| f in flags * w.flags;
        assert f in w.flags && f in flags;
      }
    }
  }

  /** What is left of the flags once the tasks woken have had what they ask to be cleared. */
  ghost predicate Left(flags: Flags, seen: Flags, woken: seq<Waiter>) {
    forall f :: f in flags <==> f in seen && forall w :: w in woken && w.clear ==> f !in w.flags
  }

  lemma LeftMore(flags: Flags, seen: Flags, woken: seq<Waiter>, w: Waiter)
    requires Left(flags, seen, woken)
    ensures Left(if w.clear then flags - w.flags else flags, seen, woken + [w])
  {
    assert forall x :: x in woken + [w] <==> x in woken || x == w;
  }

  lemma ChosenPlain(ws: seq<Waiter>, seen: Flags, flags: Flags)
    requires flags <= seen
    ensures forall w :: w in Chosen(ws, seen, true) ==> if w.all then w.flags <= seen else exists f :: f in w.flags && f in seen
    ensures forall w :: w in Chosen(ws, seen, false) ==> if w.all then !(w.flags <= seen) else forall f :: f in w.flags ==> f !in seen
    ensures forall w :: w in Chosen(ws, seen, false) ==> !Met(w, flags)
  {
    hide Met, Chosen;
    forall w | w in ws
      ensures Met(w, seen) <==> if w.all then w.flags <= seen else exists f :: f in w.flags && f in seen
      ensures !Met(w, seen) ==> !Met(w, flags)
    {
      MetIs(w, seen);
      if !Met(w, seen) { FewerFlags(w, seen, flags); }
    }
  }

  lemma AllLeft(flags: Flags)
    ensures Left(flags, flags, [])
  {
  }

  lemma LeftIs(flags: Flags, seen: Flags, woken: seq<Waiter>)
    requires Left(flags, seen, woken)
    ensures flags <= seen && forall f :: f in flags <==> f in seen && forall w :: w in woken && w.clear ==> f !in w.flags
  {
  }

  lemma NoneChosen(flags: Flags)
    ensures Chosen([], flags, true) == [] && Chosen([], flags, false) == []
  {
  }

  /** A list whose entry `i` has gone to the place `at`. */
  function Moved<T>(s: seq<T>, i: nat, at: nat): seq<T>
    requires i < |s|
  {
    var rest := s[..i] + s[i + 1..];
    if at < |rest| then rest[..at] + [s[i]] + rest[at..] else rest + [s[i]]
  }

  lemma MovedSame<T>(s: seq<T>, i: nat, at: nat)
    requires i < |s|
    ensures multiset(Moved(s, i, at)) == multiset(s) && |Moved(s, i, at)| == |s|
    ensures at < |s| ==> Moved(s, i, at)[at] == s[i]
    ensures forall x :: x in Moved(s, i, at) ==> x in multiset(s)
  {
    var rest := s[..i] + s[i + 1..];
    assert s == s[..i] + [s[i]] + s[i + 1..];
    if at < |rest| { assert rest == rest[..at] + rest[at..]; }
    assert multiset(Moved(s, i, at)) == multiset(rest) + multiset{s[i]};
    assert forall x :: x in Moved(s, i, at) ==> x in multiset(Moved(s, i, at));
  }

  datatype Result = Success | NoPendWait | SchedDisabled | Pended

  class Event {
    var flags: Flags
    var waiters: seq<Waiter>

    /** No blocked task has its condition satisfied. */
    ghost predicate Inv()
      reads this
    {
      forall w :: w in waiters ==> !Met(w, flags)
    }

    constructor (flags: Flags)
      ensures Inv() && this.flags == flags && waiters == []
    {
      this.flags, waiters := flags, [];
    }

    /** `krhino_event_get`, up to the point where the caller blocks. */
    method Get(w: Waiter, wait: bool, schedLocked: bool, at: nat) returns (r: Result, actual: Flags)
      requires Inv()
      modifies this
      ensures Inv()
      ensures
        var met := if w.all then w.flags <= old(flags) else exists f :: f in w.flags && f in old(flags);
        r == if met then Success else if !wait then NoPendWait else if schedLocked then SchedDisabled else Pended
      ensures r == Success ==> actual == old(flags)
      ensures flags == if r == Success && w.clear then old(flags) - w.flags else old(flags)
      ensures r != Pended ==> waiters == old(waiters)
      ensures r == Pended ==>
                var i := if at <= old(|waiters|) then at else old(|waiters|);
                waiters == old(waiters)[..i] + [w] + old(waiters)[i..]
    {
      hide Met;
      MetIs(w, flags);
      actual := {};
      if Met(w, flags) {
        actual := flags;
        if w.clear {
          forall x | x in waiters ensures !Met(x, flags - w.flags) { FewerFlags(x, flags, flags - w.flags); }
          flags := flags - w.flags;
        }
        return Success, actual;
      }
      if !wait {
        return NoPendWait, actual;
      }
      if schedLocked {
        return SchedDisabled, actual;
      }
      var i := if at <= |waiters| then at else |waiters|;
      assert forall x :: x in waiters[..i] + [w] + waiters[i..] ==> x in waiters || x == w;
      waiters := waiters[..i] + [w] + waiters[i..];
      return Pended, actual;
    }

    /** `event_set` with the AND option: only clears. */
    method Clear(mask: Flags)
      requires Inv()
      modifies this
      ensures Inv() && flags == old(flags) * mask && waiters == old(waiters)
    {
      forall x | x in waiters ensures !Met(x, flags * mask) { FewerFlags(x, flags, flags * mask); }
      flags := flags * mask;
    }

    /** `event_set` with the OR option: wakes, in list order, exactly the waiters whose condition
        holds of the flags as set, which they are told, and clears what those ask for. */
    method Set(more: Flags) returns (woken: seq<Waiter>, seen: Flags)
      requires Inv()
      modifies this
      ensures Inv() && seen == old(flags) + more
      ensures woken == Chosen(old(waiters), seen, true) && waiters == Chosen(old(waiters), seen, false)
      ensures forall w :: w in woken ==> if w.all then w.flags <= seen else exists f :: f in w.flags && f in seen
      ensures forall w :: w in waiters ==> if w.all then !(w.flags <= seen) else forall f :: f in w.flags ==> f !in seen
      ensures forall f :: f in flags <==> f in seen && forall w :: w in woken && w.clear ==> f !in w.flags
    {
      hide Met, Chosen, Left;
      flags := flags + more;
      var cur := flags;
      seen := cur;
      woken := [];
      var before := waiters;
      var kept := [];
      NoneChosen(cur);
      AllLeft(cur);
      for i := 0 to |before|
        invariant woken == Chosen(before[..i], cur, true) && kept == Chosen(before[..i], cur, false)
        invariant Left(flags, cur, woken)
        invariant waiters == kept + before[i..]
      {
        var w := before[i];
        assert before[..i + 1] == before[..i] + [w];
        ChosenSnoc(before[..i], w, cur, true);
        ChosenSnoc(before[..i], w, cur, false);
        if Met(w, cur) {
          LeftMore(flags, cur, woken, w);
          waiters := kept + before[i + 1..];
          woken := woken + [w];
          if w.clear {
            flags := flags - w.flags;
          }
        } else {
          kept := kept + [w];
          assert kept + before[i + 1..] == waiters;
        }
      }
      assert before[..|before|] == before;
      LeftIs(flags, cur, woken);
      ChosenPlain(before, cur, flags);
    }

    /** Two gets that clear the same flags, with no set in between, do not both succeed. */
    method GetTwice(w: Waiter, w': Waiter, wait: bool, locked: bool) returns (r: Result, r': Result)
      requires Inv() && w.clear && w.flags != {} && w'.flags == w.flags
      modifies this
      ensures Inv() && !(r == Success && r' == Success)
    {
      hide Met;
      var got;
      r, got := Get(w, wait, locked, 0);
      r', got := Get(w', wait, locked, 0);
    }

    /** A timeout, an abort or a deletion takes a waiter off the list. */
    method Leave(i: nat)
      requires Inv()
      modifies this
      ensures Inv() && flags == old(flags)
      ensures waiters == if i < |old(waiters)| then old(waiters)[..i] + old(waiters)[i + 1..] else old(waiters)
    {
      if i < |waiters| {
        waiters := waiters[..i] + waiters[i + 1..];
      }
    }

    /** A change of priority gives a waiter another place. */
    method Move(i: nat, at: nat)
      requires Inv()
      modifies this
      ensures Inv() && flags == old(flags) && multiset(waiters) == multiset(old(waiters))
      ensures |waiters| == old(|waiters|) && (i < |waiters| && at < |waiters| ==> waiters[at] == old(waiters)[i])
    {
      hide Met, Moved;
      if i < |waiters| {
        MovedSame(waiters, i, at);
        forall w | w in Moved(waiters, i, at) ensures !Met(w, flags) { assert w in multiset(waiters); }
        waiters := Moved(waiters, i, at);
      }
    }

    /** Any run of gets, sets, clears, departures and changes of priority: nobody is left waiting for flags that are set. */
    method Run(steps: seq<Step>)
      requires Inv()
      modifies this
      ensures Inv()
    {
      hide Met;
      for k := 0 to |steps|
        invariant Inv()
      {
        match steps[k] {
          case Getting(w, wait, locked, at) => var _, _ := Get(w, wait, locked, at);
          case Setting(more) => var _, _ := Set(more);
          case Clearing(mask) => Clear(mask);
          case Leaving(i) => Leave(i);
          case Moving(i, at) => Move(i, at);
        }
      }
    }
  }

  datatype Step =
    | Getting(w: Waiter, wait: bool, schedLocked: bool, at: nat)
    | Setting(more: Flags)
    | Clearing(mask: Flags)
    | Leaving(i: nat)
    | Moving(i: nat, at: nat)
}

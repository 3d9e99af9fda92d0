/** The `mutex_list` pointers of k_mutex.c: they spell out the mutex lists of live tasks and, wherever
    one starts, they end. */
module MutexChains {
  import opened Lists
  import opened RunQueues
  import opened KernelState

  // ----- walks along mutex pointers -----

  /** Following the pointers from `first` visits `walk` and ends. */
  ghost predicate Walks(link: seq<Option<Oid>>, first: Option<Oid>, walk: seq<Oid>)
    decreases |walk|
  {
    if walk == [] then first == None
    else first == Some(walk[0]) && walk[0] < |link| && Walks(link, link[walk[0]], walk[1..])
  }

  lemma {:induction false} WalkUnique(link: seq<Option<Oid>>, first: Option<Oid>, w: seq<Oid>, w': seq<Oid>)
    requires Walks(link, first, w) && Walks(link, first, w')
    ensures w == w'
    decreases |w|
  {
    if w != [] && w' != [] {
      WalkUnique(link, link[w[0]], w[1..], w'[1..]);
      assert w == [w[0]] + w[1..] && w' == [w'[0]] + w'[1..];
    }
  }

  lemma {:induction false} WalkFrom(link: seq<Option<Oid>>, first: Option<Oid>, w: seq<Oid>, j: nat)
    requires Walks(link, first, w) && j < |w|
    ensures Walks(link, Some(w[j]), w[j..])
    decreases |w|
  {
    if j > 0 {
      WalkFrom(link, link[w[0]], w[1..], j - 1);
      assert w[1..][j - 1..] == w[j..];
    } else {
      assert w[0..] == w;
    }
  }

  /** A walk that ends visits nothing twice. */
  lemma {:induction false} WalkDistinct(link: seq<Option<Oid>>, first: Option<Oid>, w: seq<Oid>)
    requires Walks(link, first, w)
    ensures NoDup(w) && forall m :: m in w ==> m < |link|
    decreases |w|
  {
    if w != [] {
      WalkDistinct(link, link[w[0]], w[1..]);
      if w[0] in w[1..] {
        var j :| 0 <= j < |w[1..]| && w[1..][j] == w[0];
        WalkFrom(link, first, w, j + 1);
        WalkUnique(link, first, w, w[j + 1..]);
      }
      assert forall m :: m in w ==> m == w[0] || m in w[1..];
    }
  }

  lemma WalkNext(link: seq<Option<Oid>>, first: Option<Oid>, w: seq<Oid>)
    requires Walks(link, first, w) && first.Some?
    ensures w != [] && first == Some(w[0]) && w[0] < |link| && Walks(link, link[w[0]], w[1..])
  {
  }

  lemma WalkEnd(link: seq<Option<Oid>>, first: Option<Oid>, w: seq<Oid>)
    requires Walks(link, first, w) && first.None?
    ensures w == []
  {
  }

  lemma {:induction false} WalkFrame(link: seq<Option<Oid>>, first: Option<Oid>, w: seq<Oid>, m: Oid, n: Option<Oid>)
    requires Walks(link, first, w) && m !in w && m < |link|
    ensures Walks(link[m := n], first, w)
    decreases |w|
  {
    if w != [] {
      WalkFrame(link, link[w[0]], w[1..], m, n);
    }
  }

  // ----- a walk over a list that is out of date -----

  /** Nobody waits for the mutexes of a walk. */
  ghost predicate NoneWaits(waiters: seq<seq<Tid>>, walk: seq<Oid>) {
    forall m :: m in walk ==> m < |waiters| && waiters[m] == []
  }

  lemma NoneWaitsMore(waiters: seq<seq<Tid>>, walk: seq<Oid>, m: Oid)
    requires m < |waiters|
    ensures NoneWaits(waiters, walk + [m]) <==> NoneWaits(waiters, walk) && waiters[m] == []
  {
    assert m in walk + [m] && forall q :: q in walk ==> q in walk + [m];
  }

  /** Nobody holds them either. */
  ghost predicate Idle(owner: seq<Option<Tid>>, waiters: seq<seq<Tid>>, walk: seq<Oid>) {
    NoneWaits(waiters, walk) && forall m :: m in walk ==> m < |owner| && owner[m] == None
  }

  /** Handing on what nobody waits for changes nothing iff nobody holds it. */
  lemma HandedIdle(owner: seq<Option<Tid>>, owner': seq<Option<Tid>>, waiters: seq<seq<Tid>>, walk: seq<Oid>)
    requires HandedOn(owner, owner', waiters, walk, [])
    requires forall m :: m in walk ==> m < |waiters|
    ensures NoneWaits(waiters, walk) ==> (owner' == owner <==> Idle(owner, waiters, walk))
  {
    if NoneWaits(waiters, walk) && owner' == owner {
      forall m | m in walk ensures owner[m] == None { assert owner'[m] == FirstWaiter(waiters[m]); }
    }
  }

  lemma WalkStart(link: seq<Option<Oid>>, first: Option<Oid>, walk: seq<Oid>, w: seq<seq<Tid>>)
    requires Walks(link, first, walk) && |w| == |link|
    ensures NoDup(walk) && SameAt(walk[0..], w, w) && SameAt(walk, w, w) && NoneWaits(w, walk[..0])
    ensures forall m :: m in walk ==> m < |w|
  {
    WalkDistinct(link, first, walk);
    assert forall i :: 0 <= i < |walk| ==> walk[i] in walk;
    assert walk[0..] == walk;
  }

  // ----- mutex lists as chains of pointers -----

  /** The head pointer of a mutex list. */
  function First(ms: seq<Oid>): Option<Oid> { if ms == [] then None else Some(ms[0]) }

  ghost predicate Ends(link: seq<Option<Oid>>, first: Option<Oid>) { exists w :: Walks(link, first, w) }

  /** The mutexes on the way from `first`, which ends. */
  ghost function Trail(link: seq<Option<Oid>>, first: Option<Oid>): (w: seq<Oid>)
    requires Ends(link, first)
    ensures Walks(link, first, w)
  {
    var w :| Walks(link, first, w);
    w
  }

  /** Every way along the pointers ends, also from mutexes that are on nobody's list any more. */
  ghost predicate AllEnd(link: seq<Option<Oid>>) {
    forall m :: 0 <= m < |link| ==> Ends(link, Some(m))
  }

  /** Does `t` own the mutex its list begins with? Tasks that have died do not. */
  ghost predicate Holding(kind: seq<Kind>, owner: seq<Option<Tid>>, mutexList: seq<seq<Oid>>, t: Tid)
    requires t < |mutexList|
  {
    mutexList[t] != [] && mutexList[t][0] < |kind| && mutexList[t][0] < |owner|
    && kind[mutexList[t][0]] == Mutex && owner[mutexList[t][0]] == Some(t)
  }

  /** The pointers spell out the mutex list of `t`, all of which it owns. */
  ghost predicate Spelt(kind: seq<Kind>, owner: seq<Option<Tid>>, mutexList: seq<seq<Oid>>, link: seq<Option<Oid>>, t: Tid)
    requires t < |mutexList|
  {
    && Walks(link, First(mutexList[t]), mutexList[t])
    && forall m :: m in mutexList[t] ==> m < |kind| && m < |owner| && kind[m] == Mutex && owner[m] == Some(t)
  }

  /** The pointers spell out the mutex lists of their owners, and wherever one starts they end. */
  ghost predicate Chained(kind: seq<Kind>, owner: seq<Option<Tid>>, mutexList: seq<seq<Oid>>, link: seq<Option<Oid>>) {
    && |kind| == |owner| == |link| && AllEnd(link)
    && (forall t :: 0 <= t < |mutexList| ==> mutexList[t] == [] || mutexList[t][0] < |link|)
    && (forall t :: 0 <= t < |mutexList| && Holding(kind, owner, mutexList, t) ==> Spelt(kind, owner, mutexList, link, t))
  }

  /** Turning a pointer of `m` to a way that ends without `m` keeps all ways ending. */
  lemma {:induction false} Redirect(link: seq<Option<Oid>>, first: Option<Oid>, w: seq<Oid>, m: Oid, n: Option<Oid>, v: seq<Oid>)
    returns (w': seq<Oid>)
    requires Walks(link, first, w) && Walks(link, n, v) && m !in v && m < |link|
    ensures Walks(link[m := n], first, w')
    decreases |w|
  {
    if w == [] {
      return [];
    }
    if w[0] == m {
      WalkFrame(link, n, v, m, n);
      w' := [m] + v;
      assert w'[1..] == v;
    } else {
      var rest := Redirect(link, link[w[0]], w[1..], m, n, v);
      w' := [w[0]] + rest;
      assert w'[1..] == rest;
    }
  }

  lemma AllEndSet(link: seq<Option<Oid>>, m: Oid, n: Option<Oid>, v: seq<Oid>)
    requires AllEnd(link) && Walks(link, n, v) && m !in v && m < |link|
    ensures AllEnd(link[m := n])
  {
    hide Walks;
    forall x | 0 <= x < |link| ensures Ends(link[m := n], Some(x)) {
      var w' := Redirect(link, Some(x), Trail(link, Some(x)), m, n, v);
    }
  }

  lemma WalkFirst(link: seq<Option<Oid>>, first: Option<Oid>, w: seq<Oid>)
    requires Walks(link, first, w)
    ensures first == First(w)
  {
  }

  /** Taking the entry `i` out of a list that the pointers spell out. */
  lemma {:induction false} CutWalk(link: seq<Option<Oid>>, ms: seq<Oid>, i: nat)
    requires Walks(link, First(ms), ms) && 0 < i < |ms|
    ensures ms[i - 1] < |link| && ms[i] < |link|
    ensures Walks(link[ms[i - 1] := link[ms[i]]], First(ms), ms[..i] + ms[i + 1..])
    decreases i
  {
    WalkDistinct(link, First(ms), ms);
    assert ms[i] in ms && ms[i - 1] in ms;
    var link', ms' := link[ms[i - 1] := link[ms[i]]], ms[..i] + ms[i + 1..];
    WalkFirst(link, link[ms[0]], ms[1..]);
    if i == 1 {
      var b := ms[1..][1..];
      assert b == ms[2..] && ms'[1..] == b;
      assert ms[0] !in b by { assert forall x :: x in b ==> x in ms[1..]; }
      WalkFrame(link, link[ms[1]], b, ms[0], link[ms[1]]);
    } else {
      CutWalk(link, ms[1..], i - 1);
      assert ms'[1..] == ms[1..][..i - 1] + ms[1..][i..];
      assert ms[1..][i - 2] == ms[i - 1] && ms[1..][i - 1] == ms[i];
      LaterDiffers(ms, i - 1);
    }
  }

  lemma {:induction false} LaterDiffers(ms: seq<Oid>, i: nat)
    requires NoDup(ms) && 0 < i < |ms|
    ensures ms[i] != ms[0]
  {
    assert ms[1..][i - 1] == ms[i];
  }

  /** What follows the entry `i`. */
  lemma WalkAfter(link: seq<Option<Oid>>, ms: seq<Oid>, i: nat)
    requires Walks(link, First(ms), ms) && i < |ms|
    ensures ms[i] < |link| && Walks(link, link[ms[i]], ms[i + 1..]) && NoDup(ms)
  {
    WalkDistinct(link, First(ms), ms);
    WalkFrom(link, First(ms), ms, i);
    assert ms[i..][1..] == ms[i + 1..];
  }

  /** The pointers after entry `i` of `ms` has been taken out. */
  function CutLink(link: seq<Option<Oid>>, ms: seq<Oid>, i: nat): (r: seq<Option<Oid>>)
    requires i < |ms| && AllBelow(ms, |link|)
    ensures |r| == |link|
  {
    if i == 0 then link else link[ms[i - 1] := link[ms[i]]]
  }

  lemma CutSpelt(link: seq<Option<Oid>>, ms: seq<Oid>, i: nat)
    requires Walks(link, First(ms), ms) && i < |ms| && AllEnd(link)
    ensures AllBelow(ms, |link|) && AllEnd(CutLink(link, ms, i))
    ensures Walks(CutLink(link, ms, i), First(ms[..i] + ms[i + 1..]), ms[..i] + ms[i + 1..])
  {
    WalkDistinct(link, First(ms), ms);
    assert forall k :: 0 <= k < |ms| ==> ms[k] in ms;
    var ms' := ms[..i] + ms[i + 1..];
    WalkAfter(link, ms, i);
    if i == 0 {
      assert ms' == ms[1..];
      WalkFirst(link, link[ms[0]], ms[1..]);
    } else {
      CutWalk(link, ms, i);
      WalkFirst(CutLink(link, ms, i), First(ms), ms');
      NotLater(ms, i - 1, i + 1);
      AllEndSet(link, ms[i - 1], link[ms[i]], ms[i + 1..]);
    }
  }

  lemma {:induction false} NotLater(ms: seq<Oid>, i: nat, j: nat)
    requires NoDup(ms) && i < j <= |ms|
    ensures ms[i] !in ms[j..]
  {
    if i == 0 {
      assert forall x :: x in ms[j..] ==> x in ms[1..];
    } else {
      NotLater(ms[1..], i - 1, j - 1);
      assert ms[1..][j - 1..] == ms[j..];
    }
  }

  // ----- how calls keep the chains -----

  /** `m` comes off the list of `t`; whoever still holds it does so outside of `kind'`. */
  lemma ChainCut(kind: seq<Kind>, owner: seq<Option<Tid>>, mutexList: seq<seq<Oid>>, link: seq<Option<Oid>>, t: Tid, i: nat)
    requires Chained(kind, owner, mutexList, link) && t < |mutexList| && i < |mutexList[t]| && Holding(kind, owner, mutexList, t)
    ensures
      var ms := mutexList[t];
      && AllBelow(ms, |link|) && ms[i] < |kind|
      && Chained(kind[ms[i] := NoObj], owner, mutexList[t := ms[..i] + ms[i + 1..]], CutLink(link, ms, i))
  {
    hide Walks, AllEnd, CutLink;
    var ms := mutexList[t];
    assert Spelt(kind, owner, mutexList, link, t);
    CutSpelt(link, ms, i);
    assert ms[i] in ms;
    var kind', lists', link' := kind[ms[i] := NoObj], mutexList[t := ms[..i] + ms[i + 1..]], CutLink(link, ms, i);
    forall u | 0 <= u < |lists'| && Holding(kind', owner, lists', u) ensures Spelt(kind', owner, lists', link', u) {
      if u == t {
        WalkAfter(link, ms, i);
        NotTwice(ms, i);
      } else {
        assert Spelt(kind, owner, mutexList, link, u);
        CutElsewhere(link, ms, i, mutexList[u]);
      }
    }
  }

  lemma NotTwice(ms: seq<Oid>, i: nat)
    requires NoDup(ms) && i < |ms|
    ensures ms[i] !in ms[..i] + ms[i + 1..]
  {
    NotLater(ms, i, i + 1);
    forall k | 0 <= k < i ensures ms[k] != ms[i] {
      NotLater(ms, k, i);
      assert ms[i..][0] == ms[i];
    }
  }

  lemma CutElsewhere(link: seq<Option<Oid>>, ms: seq<Oid>, i: nat, other: seq<Oid>)
    requires AllBelow(ms, |link|) && i < |ms| && Walks(link, First(other), other) && forall m :: m in ms ==> m !in other
    ensures Walks(CutLink(link, ms, i), First(other), other)
  {
    if i > 0 {
      assert ms[i - 1] in ms;
      WalkFrame(link, First(other), other, ms[i - 1], link[ms[i]]);
    }
  }

  /** `m`, on no list that counts, goes to the head of the list of `t`. */
  lemma ChainGive(kind: seq<Kind>, owner: seq<Option<Tid>>, mutexList: seq<seq<Oid>>, link: seq<Option<Oid>>, m: Oid, t: Tid)
    requires Chained(kind, owner, mutexList, link) && m < |kind| && kind[m] != Mutex && t < |mutexList|
    requires mutexList[t] == [] || Holding(kind, owner, mutexList, t)
    ensures Chained(kind[m := Mutex], owner[m := Some(t)], mutexList[t := [m] + mutexList[t]], link[m := First(mutexList[t])])
  {
    hide Walks, AllEnd;
    var ms, first := mutexList[t], First(mutexList[t]);
    var kind', owner', lists', link' := kind[m := Mutex], owner[m := Some(t)], mutexList[t := [m] + ms], link[m := first];
    if ms != [] {
      assert Spelt(kind, owner, mutexList, link, t);
    } else {
      EmptyWalk(link);
    }
    AllEndSet(link, m, first, ms);
    forall u | 0 <= u < |lists'| && Holding(kind', owner', lists', u) ensures Spelt(kind', owner', lists', link', u) {
      if u == t {
        WalkFrame(link, first, ms, m, first);
        ConsWalk(link', m, ms);
      } else {
        assert Spelt(kind, owner, mutexList, link, u);
        WalkFrame(link, First(mutexList[u]), mutexList[u], m, first);
      }
    }
  }

  lemma EmptyWalk(link: seq<Option<Oid>>)
    ensures Walks(link, None, [])
  {
  }

  lemma ConsWalk(link: seq<Option<Oid>>, m: Oid, ms: seq<Oid>)
    requires m < |link| && Walks(link, First(ms), ms) && link[m] == First(ms)
    ensures Walks(link, Some(m), [m] + ms) && First([m] + ms) == Some(m)
  {
    assert ([m] + ms)[1..] == ms;
  }

  /** `m`, on no list that counts, becomes or stays free; its pointer may be cleared. */
  lemma ChainFree(kind: seq<Kind>, owner: seq<Option<Tid>>, mutexList: seq<seq<Oid>>, link: seq<Option<Oid>>, m: Oid)
    requires Chained(kind, owner, mutexList, link) && m < |kind| && kind[m] != Mutex
    ensures Chained(kind[m := Mutex], owner[m := None], mutexList, link)
    ensures Chained(kind[m := Mutex], owner[m := None], mutexList, link[m := None])
  {
    hide Walks, AllEnd;
    EmptyWalk(link);
    AllEndSet(link, m, None, []);
    var kind', owner' := kind[m := Mutex], owner[m := None];
    forall u | 0 <= u < |mutexList| && Holding(kind', owner', mutexList, u)
      ensures Spelt(kind', owner', mutexList, link, u) && Spelt(kind', owner', mutexList, link[m := None], u)
    {
      assert Spelt(kind, owner, mutexList, link, u);
      WalkFrame(link, First(mutexList[u]), mutexList[u], m, None);
    }
  }

  /** A mutex that is on no list that counts, or no mutex, may be of any kind but a mutex. */
  lemma ChainHide(kind: seq<Kind>, owner: seq<Option<Tid>>, mutexList: seq<seq<Oid>>, link: seq<Option<Oid>>, m: Oid, k: Kind)
    requires Chained(kind, owner, mutexList, link) && m < |kind| && k != Mutex && (kind[m] != Mutex || owner[m] == None)
    ensures Chained(kind[m := k], owner, mutexList, link)
  {
    hide Walks, AllEnd;
    var kind' := kind[m := k];
    forall u | 0 <= u < |mutexList| && Holding(kind', owner, mutexList, u) ensures Spelt(kind', owner, mutexList, link, u) {
      assert Spelt(kind, owner, mutexList, link, u);
    }
  }

  /** A free mutex goes to the head of the list of `t`. */
  lemma ChainTake(kind: seq<Kind>, owner: seq<Option<Tid>>, mutexList: seq<seq<Oid>>, link: seq<Option<Oid>>, m: Oid, t: Tid)
    requires Chained(kind, owner, mutexList, link) && m < |kind| && kind[m] == Mutex && owner[m] == None && t < |mutexList|
    requires mutexList[t] == [] || Holding(kind, owner, mutexList, t)
    ensures Chained(kind, owner[m := Some(t)], mutexList[t := [m] + mutexList[t]], link[m := First(mutexList[t])])
  {
    hide Chained;
    SameSizes(kind, owner, mutexList, link);
    ChainHide(kind, owner, mutexList, link, m, NoObj);
    ChainGive(kind[m := NoObj], owner, mutexList, link, m, t);
    assert kind[m := NoObj][m := Mutex] == kind;
  }

  lemma SameSizes(kind: seq<Kind>, owner: seq<Option<Tid>>, mutexList: seq<seq<Oid>>, link: seq<Option<Oid>>)
    requires Chained(kind, owner, mutexList, link)
    ensures |kind| == |owner| == |link|
  {
  }

  /** What `mutex_pri_look` does to the list `ms` of a task that gives up `rel`. */
  ghost predicate Cut(link: seq<Option<Oid>>, link': seq<Option<Oid>>, ms: seq<Oid>, ms': seq<Oid>, rel: Option<Oid>) {
    if rel.Some? && rel.value in ms then
      && AllBelow(ms, |link|)
      && exists i :: 0 <= i < |ms| && ms[i] == rel.value && link' == CutLink(link, ms, i) && ms' == ms[..i] + ms[i + 1..]
    else
      link' == link && ms' == ms
  }

  lemma CutMade(link: seq<Option<Oid>>, ms: seq<Oid>, i: nat)
    requires i < |ms| && AllBelow(ms, |link|)
    ensures Cut(link, if i > 0 then link[ms[i - 1] := link[ms[i]]] else link, ms, ms[..i] + ms[i + 1..], Some(ms[i]))
  {
    assert CutLink(link, ms, i) == if i > 0 then link[ms[i - 1] := link[ms[i]]] else link;
  }

  lemma CutNothing(link: seq<Option<Oid>>, ms: seq<Oid>, rel: Option<Oid>)
    requires rel.Some? ==> rel.value !in ms
    ensures Cut(link, link, ms, ms, rel)
  {
  }

  lemma ChainLook(kind: seq<Kind>, owner: seq<Option<Tid>>, mutexList: seq<seq<Oid>>, link: seq<Option<Oid>>,
                  mutexList': seq<seq<Oid>>, link': seq<Option<Oid>>, t: Tid, m: Oid)
    requires m < |kind| && kind[m] == NoObj && Chained(kind[m := Mutex], owner, mutexList, link) && t < |mutexList| && m in mutexList[t]
    requires Holding(kind[m := Mutex], owner, mutexList, t) && |mutexList'| == |mutexList|
    requires mutexList' == mutexList[t := mutexList'[t]] && Cut(link, link', mutexList[t], mutexList'[t], Some(m))
    ensures Chained(kind, owner, mutexList', link')
  {
    hide Chained, Holding, CutLink;
    var ms := mutexList[t];
    var i :| 0 <= i < |ms| && ms[i] == m && link' == CutLink(link, ms, i) && mutexList'[t] == ms[..i] + ms[i + 1..];
    ChainCut(kind[m := Mutex], owner, mutexList, link, t, i);
    assert kind[m := Mutex][m := NoObj] == kind;
  }

  lemma ChainStart(kind: seq<Kind>, owner: seq<Option<Tid>>, mutexList: seq<seq<Oid>>, link: seq<Option<Oid>>)
    requires |kind| == |owner| == |link| && forall m :: 0 <= m < |link| ==> link[m] == None
    requires forall t :: 0 <= t < |mutexList| ==> mutexList[t] == []
    ensures Chained(kind, owner, mutexList, link)
  {
    forall m | 0 <= m < |link| ensures Ends(link, Some(m)) {
      assert [m][1..] == [];
      assert Walks(link, Some(m), [m]);
    }
  }

  /** A task starts without mutexes. */
  lemma ChainBirth(kind: seq<Kind>, owner: seq<Option<Tid>>, mutexList: seq<seq<Oid>>, link: seq<Option<Oid>>, t: Tid)
    requires Chained(kind, owner, mutexList, link) && t < |mutexList|
    ensures Chained(kind, owner, mutexList[t := []], link)
  {
    hide Walks, AllEnd;
    var lists' := mutexList[t := []];
    forall u | 0 <= u < |lists'| && Holding(kind, owner, lists', u) ensures Spelt(kind, owner, lists', link, u) {
      assert Spelt(kind, owner, mutexList, link, u);
    }
  }

  /** The list of a dying task does not count any more once its mutexes are out of `kind'`. */
  lemma ChainDying(kind: seq<Kind>, kind': seq<Kind>, owner: seq<Option<Tid>>, mutexList: seq<seq<Oid>>, link: seq<Option<Oid>>, d: Tid)
    requires Chained(kind, owner, mutexList, link) && d < |mutexList| && |kind'| == |kind|
    requires forall m :: 0 <= m < |kind| ==> kind'[m] == if m in mutexList[d] then NoObj else kind[m]
    requires mutexList[d] == [] || Holding(kind, owner, mutexList, d)
    ensures Chained(kind', owner, mutexList, link)
  {
    hide Walks, AllEnd;
    forall u | 0 <= u < |mutexList| && Holding(kind', owner, mutexList, u) ensures Spelt(kind', owner, mutexList, link, u) {
      assert Spelt(kind, owner, mutexList, link, u);
      if mutexList[d] != [] { assert Spelt(kind, owner, mutexList, link, d); }
    }
  }

  /** The stale list of a task leads somewhere and ends. */
  lemma TrailEnds(kind: seq<Kind>, owner: seq<Option<Tid>>, mutexList: seq<seq<Oid>>, link: seq<Option<Oid>>, t: Tid)
    requires Chained(kind, owner, mutexList, link) && t < |mutexList|
    ensures Ends(link, First(mutexList[t]))
  {
    EmptyWalk(link);
  }

  /** A live task holds what is on its list. */
  lemma LiveHolds(state: seq<TaskState>, kind: seq<Kind>, policy: seq<Policy>, owner: seq<Option<Tid>>,
                  mutexList: seq<seq<Oid>>, waiters: seq<seq<Tid>>, t: Tid)
    requires MutexOk(state, kind, policy, owner, mutexList, waiters) && t < |state| && IsLive(state[t])
    ensures mutexList[t] == [] || Holding(kind, owner, mutexList, t)
  {
    if mutexList[t] != [] { assert mutexList[t][0] in mutexList[t]; }
  }
}

/** Sequence facts shared by the models: the kernel's intrusive `klist_t` lists are
    sequences here, so unlinking a node is `Without` and insertion is concatenation. */
module Lists {

  datatype Option<+T> = None | Some(value: T)

  predicate NoDup(s: seq<nat>) {
    s == [] || (s[0] !in s[1..] && NoDup(s[1..]))
  }

  lemma NoDupCons(x: nat, s: seq<nat>)
    requires NoDup(s) && x !in s
    ensures NoDup([x] + s)
  {
    assert ([x] + s)[1..] == s;
  }

  lemma {:induction false} NoDupSnoc(s: seq<nat>, x: nat)
    requires NoDup(s) && x !in s
    ensures NoDup(s + [x])
  {
    if s != [] {
      NoDupSnoc(s[1..], x);
      assert (s + [x])[1..] == s[1..] + [x];
    }
  }

  lemma {:induction false} NoDupRotate(s: seq<nat>)
    requires NoDup(s) && s != []
    ensures NoDup(s[1..] + [s[0]])
  {
    NoDupSnoc(s[1..], s[0]);
  }

  /** The list after `klist_rm` of the node `x`. */
  function Without(s: seq<nat>, x: nat): (r: seq<nat>)
    ensures forall y :: y in r <==> y in s && y != x
    ensures |r| <= |s|
    ensures NoDup(s) ==> NoDup(r)
    ensures x !in s ==> r == s
  {
    if s == [] then []
    else if s[0] == x then Without(s[1..], x)
    else
      var rest := Without(s[1..], x);
      assert forall y :: y in [s[0]] + rest <==> y == s[0] || y in rest;
      assert ([s[0]] + rest)[1..] == rest;
      [s[0]] + rest
  }

  lemma {:induction false} WithoutAt(s: seq<nat>, i: nat)
    requires i < |s| && NoDup(s)
    ensures Without(s, s[i]) == s[..i] + s[i + 1..]
  {
    assert s[..i] + ([s[i]] + s[i + 1..]) == s;
    WithoutLater(s[..i], s[i], s[i + 1..]);
  }

  lemma {:induction false} WithoutLater(a: seq<nat>, x: nat, b: seq<nat>)
    requires NoDup(a + ([x] + b))
    ensures Without(a + ([x] + b), x) == a + b
  {
    var s := a + ([x] + b);
    if a == [] {
      assert s[1..] == b;
    } else {
      assert s[1..] == a[1..] + ([x] + b);
      assert s[1..][|a| - 1] == x;
      WithoutLater(a[1..], x, b);
      assert a + b == [a[0]] + (a[1..] + b);
    }
  }

  /** Room left below a bound `hi`, or above zero when `up`, summed over a priority vector:
      the termination measure of priority propagation. */
  ghost function Room(s: seq<nat>, hi: nat, up: bool): nat {
    if s == [] then 0
    else (if up then s[0] else if s[0] < hi then hi - s[0] else 0) + Room(s[1..], hi, up)
  }

  lemma {:induction false} RoomShrinks(s: seq<nat>, i: nat, v: nat, hi: nat, up: bool)
    requires i < |s| && s[i] < hi && v < hi
    requires if up then v < s[i] else v > s[i]
    ensures Room(s[i := v], hi, up) < Room(s, hi, up)
  {
    if i == 0 {
      assert s[0 := v][1..] == s[1..];
    } else {
      RoomShrinks(s[1..], i - 1, v, hi, up);
      assert s[i := v][1..] == s[1..][i - 1 := v];
    }
  }

  // ----- lists sorted by a key -----

  predicate AllBelow(s: seq<nat>, n: nat) {
    forall i :: 0 <= i < |s| ==> s[i] < n
  }

  /** `s` is in ascending order of key. */
  ghost predicate SortedBy(key: seq<nat>, s: seq<nat>)
    requires AllBelow(s, |key|)
  {
    s == [] || ((forall u :: u in s ==> key[s[0]] <= key[u]) && SortedBy(key, s[1..]))
  }

  /** Insertion before the first element with a strictly greater key. */
  function InsertByKey(key: seq<nat>, s: seq<nat>, t: nat): (r: seq<nat>)
    requires t < |key| && AllBelow(s, |key|)
    ensures forall u :: u in r <==> u in s || u == t
    ensures |r| == |s| + 1 && AllBelow(r, |key|)
  {
    if s == [] || key[s[0]] > key[t] then
      [t] + s
    else
      var rest := InsertByKey(key, s[1..], t);
      assert forall u :: u in s <==> u == s[0] || u in s[1..];
      [s[0]] + rest
  }

  lemma {:induction false} InsertSorted(key: seq<nat>, s: seq<nat>, t: nat)
    requires t < |key| && AllBelow(s, |key|)
    requires SortedBy(key, s)
    ensures SortedBy(key, InsertByKey(key, s, t))
  {
    var r := InsertByKey(key, s, t);
    if s == [] || key[s[0]] > key[t] {
      assert r[1..] == s;
    } else {
      InsertSorted(key, s[1..], t);
      assert r[1..] == InsertByKey(key, s[1..], t);
    }
  }

  lemma {:induction false} InsertNoDup(key: seq<nat>, s: seq<nat>, t: nat)
    requires t < |key| && AllBelow(s, |key|)
    requires NoDup(s) && t !in s
    ensures NoDup(InsertByKey(key, s, t))
  {
    if s == [] || key[s[0]] > key[t] {
      NoDupCons(t, s);
    } else {
      InsertNoDup(key, s[1..], t);
      NoDupCons(s[0], InsertByKey(key, s[1..], t));
    }
  }

  /** Insertion at the place the insertion loop stops at. */
  lemma {:induction false} InsertAt(key: seq<nat>, s: seq<nat>, t: nat, i: nat)
    requires t < |key| && AllBelow(s, |key|)
    requires i <= |s|
    requires forall j :: 0 <= j < i ==> key[s[j]] <= key[t]
    requires i < |s| ==> key[s[i]] > key[t]
    ensures InsertByKey(key, s, t) == s[..i] + [t] + s[i..]
  {
    if i > 0 {
      InsertAt(key, s[1..], t, i - 1);
      assert s[..i] == [s[0]] + s[1..][..i - 1];
      assert s[i..] == s[1..][i - 1..];
    } else {
      assert s[..0] + [t] + s[0..] == [t] + s;
    }
  }

  lemma {:induction false} WithoutSorted(key: seq<nat>, s: seq<nat>, t: nat)
    requires AllBelow(s, |key|)
    requires SortedBy(key, s)
    ensures AllBelow(Without(s, t), |key|) && SortedBy(key, Without(s, t))
  {
    if s != [] {
      WithoutSorted(key, s[1..], t);
      assert s[0] != t ==> Without(s, t)[1..] == Without(s[1..], t);
    }
  }

  /** Sortedness of a list only depends on the keys of its members. */
  lemma {:induction false} SortedFrame(key: seq<nat>, key': seq<nat>, s: seq<nat>)
    requires AllBelow(s, |key|) && AllBelow(s, |key'|)
    requires forall u :: u in s ==> key[u] == key'[u]
    requires SortedBy(key, s)
    ensures SortedBy(key', s)
  {
    if s != [] {
      SortedFrame(key, key', s[1..]);
    }
  }
}

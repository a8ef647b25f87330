/** The list behind the download cache: names in the order they were last used. */
module RecencyList {
  import opened Sequences

  const KEEP_LRU := 5

  // ---------- the list ----------

  function Without<T(==)>(l: seq<T>, name: T): seq<T> {
    if l == [] then []
    else Without(l[..|l| - 1], name) + (if l[|l| - 1] == name then [] else [l[|l| - 1]])
  }

  function ToFront<T(==)>(l: seq<T>, name: T): seq<T> {
    [name] + Without(l, name)
  }

  // One touch; `stuck` is whether the directory to evict could not be removed.
  function Touched<T(==)>(l: seq<T>, name: T, stuck: bool): seq<T> {
    var t := ToFront(l, name);
    if |t| <= KEEP_LRU || stuck then t else t[..|t| - 1]
  }

  lemma WithoutSnoc<T(!new)>(l: seq<T>, x: T, name: T)
    ensures Without(l + [x], name) == if x == name then Without(l, name) else Without(l, name) + [x]
  {
    assert (l + [x])[..|l|] == l;
  }

  lemma {:induction false} WithoutMembers<T(!new)>(l: seq<T>, name: T)
    ensures forall x :: x in Without(l, name) <==> x in l && x != name
  {
    if l != [] {
      var n := |l| - 1;
      WithoutMembers(l[..n], name);
      assert l == l[..n] + [l[n]];
    }
  }

  // x stands before y somewhere in the list.
  ghost predicate Precedes<T>(l: seq<T>, x: T, y: T) {
    exists p, q :: 0 <= p < q < |l| && l[p] == x && l[q] == y
  }

  ghost predicate InOrderOf<T>(r: seq<T>, l: seq<T>) {
    forall i, j :: 0 <= i < j < |r| ==> Precedes(l, r[i], r[j])
  }

  // Taking a name out moves no other past another.
  lemma {:induction false} WithoutInOrder<T(!new)>(l: seq<T>, name: T)
    ensures InOrderOf(Without(l, name), l)
  {
    if l != [] {
      var n := |l| - 1;
      var before, r := Without(l[..n], name), Without(l, name);
      WithoutInOrder(l[..n], name);
      WithoutMembers(l[..n], name);
      forall i, j | 0 <= i < j < |r| ensures Precedes(l, r[i], r[j]) {
        if j < |before| {
          assert r[i] == before[i] && r[j] == before[j];
          assert Precedes(l[..n], before[i], before[j]);
          var p, q :| 0 <= p < q < n && l[..n][p] == r[i] && l[..n][q] == r[j];
          assert l[p] == r[i] && l[q] == r[j];
        } else {
          assert r[i] in before;
          var p :| 0 <= p < n && l[..n][p] == r[i];
          assert l[p] == r[i] && l[n] == r[j];
        }
      }
    }
  }

  lemma {:induction false} WithoutAbsent<T(!new)>(l: seq<T>, name: T)
    requires name !in l
    ensures Without(l, name) == l
  {
    if l != [] {
      var n := |l| - 1;
      WithoutAbsent(l[..n], name);
      assert l == l[..n] + [l[n]] && l[n] in l;
    }
  }

  lemma {:induction false} WithoutDistinct<T(!new)>(l: seq<T>, name: T)
    requires Distinct(l)
    ensures Distinct(Without(l, name)) && |Without(l, name)| == |l| - (if name in l then 1 else 0)
  {
    if l != [] {
      var n := |l| - 1;
      var rest := Without(l[..n], name);
      WithoutDistinct(l[..n], name);
      WithoutMembers(l[..n], name);
      assert l == l[..n] + [l[n]];
      if l[n] != name {
        forall i | 0 <= i < |rest| ensures rest[i] != l[n] {
          assert rest[i] in rest;
        }
      }
    }
  }

  lemma WithoutProperties<T(!new)>(l: seq<T>, name: T)
    ensures forall x :: x in Without(l, name) <==> x in l && x != name
    ensures name !in l ==> Without(l, name) == l
    ensures Distinct(l) ==> Distinct(Without(l, name)) && |Without(l, name)| == |l| - (if name in l then 1 else 0)
  {
    WithoutMembers(l, name);
    if name !in l { WithoutAbsent(l, name); }
    if Distinct(l) { WithoutDistinct(l, name); }
  }

  lemma {:induction false} WithoutConcat<T(!new)>(a: seq<T>, b: seq<T>, name: T)
    ensures Without(a + b, name) == Without(a, name) + Without(b, name)
  {
    if b == [] {
      assert a + b == a;
    } else {
      WithoutConcat(a, b[..|b| - 1], name);
      assert (a + b)[..|a + b| - 1] == a + b[..|b| - 1];
    }
  }

  // Removing the only occurrence, by index, is removing the name.
  lemma WithoutAt<T(!new)>(l: seq<T>, i: nat)
    requires i < |l| && Distinct(l)
    ensures Without(l, l[i]) == l[..i] + l[i + 1..]
  {
    var a, b := l[..i], l[i + 1..];
    assert l == (a + [l[i]]) + b;
    WithoutConcat(a + [l[i]], b, l[i]);
    WithoutSnoc(a, l[i], l[i]);
    WithoutAbsent(a, l[i]);
    WithoutAbsent(b, l[i]);
  }

  // What removing the first occurrence leaves.
  function WithoutFirst<T(==)>(l: seq<T>, name: T): seq<T> {
    if l == [] then [] else if l[0] == name then l[1..] else [l[0]] + WithoutFirst(l[1..], name)
  }

  lemma {:induction false} WithoutFirstAt<T(!new)>(l: seq<T>, i: nat)
    requires i < |l| && l[i] !in l[..i]
    ensures WithoutFirst(l, l[i]) == l[..i] + l[i + 1..]
  {
    if i > 0 {
      assert l[0] in l[..i];
      assert l[1..][..i - 1] == l[..i][1..];
      WithoutFirstAt(l[1..], i - 1);
      assert l[..i] + l[i + 1..] == [l[0]] + (l[1..][..i - 1] + l[1..][i..]);
    }
  }

  lemma {:induction false} WithoutFirstMembers<T(!new)>(l: seq<T>, name: T)
    ensures forall x :: x in WithoutFirst(l, name) ==> x in l
    ensures forall x :: x in l && x != name ==> x in WithoutFirst(l, name)
    ensures name !in l ==> WithoutFirst(l, name) == l
  {
    if l != [] {
      WithoutFirstMembers(l[1..], name);
      assert l == [l[0]] + l[1..];
    }
  }

  // On a list without duplicates the two removals are the same.
  lemma WithoutFirstDistinct<T(!new)>(l: seq<T>, name: T)
    requires Distinct(l)
    ensures WithoutFirst(l, name) == Without(l, name)
  {
    if name in l {
      var i :| 0 <= i < |l| && l[i] == name;
      assert name !in l[..i];
      WithoutFirstAt(l, i);
      WithoutAt(l, i);
    } else {
      WithoutFirstMembers(l, name);
      WithoutAbsent(l, name);
    }
  }

  // ---------- the history of touches ----------

  datatype Touch<+T> = Touch(name: T, stuck: bool)

  function AllTouched<T(==)>(h: seq<Touch<T>>): seq<T> {
    if h == [] then []
    else Touched(AllTouched(h[..|h| - 1]), h[|h| - 1].name, h[|h| - 1].stuck)
  }

  // The distinct names touched, the most recently touched first.
  function Recent<T(==)>(h: seq<Touch<T>>): seq<T> {
    if h == [] then [] else ToFront(Recent(h[..|h| - 1]), h[|h| - 1].name)
  }

  function Failures<T(==)>(h: seq<Touch<T>>): nat {
    if h == [] then 0 else Failures(h[..|h| - 1]) + (if h[|h| - 1].stuck then 1 else 0)
  }

  // When name was last touched; -1 if never.
  function LastTouch<T(==)>(h: seq<Touch<T>>, name: T): int {
    if h == [] then -1
    else if h[|h| - 1].name == name then |h| - 1
    else LastTouch(h[..|h| - 1], name)
  }

  ghost predicate Descending<T>(h: seq<Touch<T>>, l: seq<T>) {
    forall i, j :: 0 <= i < j < |l| ==> LastTouch(h, l[i]) > LastTouch(h, l[j])
  }

  lemma {:induction false} LastTouchInRange<T(!new)>(h: seq<Touch<T>>, name: T)
    ensures -1 <= LastTouch(h, name) < |h|
  {
    if h != [] {
      LastTouchInRange(h[..|h| - 1], name);
    }
  }

  lemma {:induction false} WithoutKeepsOrder<T(!new)>(h: seq<Touch<T>>, l: seq<T>, name: T)
    requires Descending(h, l)
    ensures Descending(h, Without(l, name))
  {
    if l != [] {
      var n := |l| - 1;
      WithoutKeepsOrder(h, l[..n], name);
      WithoutMembers(l[..n], name);
      var rest := Without(l[..n], name);
      forall i | 0 <= i < |rest| ensures LastTouch(h, rest[i]) > LastTouch(h, l[n]) {
        assert rest[i] in rest;
        assert rest[i] in l[..n];
        var k :| 0 <= k < n && l[k] == rest[i];
      }
    }
  }

  // Putting the name just touched in front keeps the order of last touches.
  lemma FrontKeepsOrder<T(!new)>(h: seq<Touch<T>>, t: Touch<T>, l: seq<T>)
    requires Descending(h, l)
    ensures Descending(h + [t], ToFront(l, t.name))
  {
    var rest, h' := Without(l, t.name), h + [t];
    WithoutKeepsOrder(h, l, t.name);
    WithoutMembers(l, t.name);
    assert h'[..|h|] == h;
    forall x | x in rest ensures LastTouch(h', x) == LastTouch(h, x) < |h| {
      LastTouchInRange(h, x);
    }
    var all := ToFront(l, t.name);
    assert LastTouch(h', t.name) == |h|;
    forall i, j | 0 <= i < j < |all| ensures LastTouch(h', all[i]) > LastTouch(h', all[j]) {
      assert all[j] == rest[j - 1] && rest[j - 1] in rest;
      if i > 0 {
        assert all[i] == rest[i - 1] && rest[i - 1] in rest;
        assert LastTouch(h, rest[i - 1]) > LastTouch(h, rest[j - 1]);
      }
    }
  }

  // Recent lists exactly the names ever touched, each once, in the order of their last touch.
  lemma {:induction false} RecentIsByLastTouch<T(!new)>(h: seq<Touch<T>>)
    ensures Distinct(Recent(h)) && Descending(h, Recent(h))
    ensures forall x :: x in Recent(h) <==> LastTouch(h, x) >= 0
  {
    if h != [] {
      var n := |h| - 1;
      var before, name := Recent(h[..n]), h[n].name;
      RecentIsByLastTouch(h[..n]);
      WithoutProperties(before, name);
      FrontKeepsOrder(h[..n], h[n], before);
      assert h == h[..n] + [h[n]];
      forall x ensures x in Recent(h) <==> LastTouch(h, x) >= 0 {
        assert x in Recent(h) <==> x == name || x in before;
      }
      FrontDistinct(before, name);
    }
  }

  lemma FrontDistinct<T(!new)>(l: seq<T>, name: T)
    requires Distinct(l)
    ensures Distinct(ToFront(l, name))
    ensures forall x :: x in ToFront(l, name) <==> x in l || x == name
  {
    WithoutProperties(l, name);
    var rest := Without(l, name);
    assert forall i :: 0 <= i < |rest| ==> rest[i] in rest;
    assert ToFront(l, name)[0] == name;
    assert forall x :: x in ToFront(l, name) <==> x == name || x in rest;
  }

  // Moving a name to the front of a prefix is moving it to the front of the whole.
  lemma FrontOfPrefix<T(!new)>(r: seq<T>, k: nat, name: T)
    requires k <= |r| && Distinct(r)
    ensures var t, u := ToFront(r[..k], name), ToFront(r, name);
            && |t| == (if name in r[..k] then k else k + 1) && |t| <= |u| && t == u[..|t|]
            && (k == |r| ==> t == u)
  {
    var l, tail := r[..k], r[k..];
    assert r == l + tail;
    assert Distinct(l);
    WithoutConcat(l, tail, name);
    WithoutDistinct(l, name);
    FrontOfConcat(name, Without(l, name), Without(tail, name));
    assert k == |r| ==> tail == [];
  }

  lemma FrontOfConcat<T>(name: T, a: seq<T>, b: seq<T>)
    ensures var t, u := [name] + a, [name] + (a + b); |t| <= |u| && t == u[..|t|] && (b == [] ==> t == u)
  {
    assert [name] + (a + b) == [name] + a + b;
  }

  // Whatever evictions fail, the list is the |list| most recently touched names, newest first. It is
  // never shorter than five names if that many were touched, and longer only by failed evictions.
  lemma {:induction false} ListIsMostRecent<T(!new)>(h: seq<Touch<T>>)
    ensures var l := AllTouched(h);
            && |l| <= |Recent(h)| && l == Recent(h)[..|l|]
            && (|l| >= 5 || l == Recent(h))
            && |l| <= 5 + Failures(h)
  {
    if h != [] {
      var n := |h| - 1;
      ListIsMostRecent(h[..n]);
      RecentIsByLastTouch(h[..n]);
      TouchedPrefix(Recent(h[..n]), |AllTouched(h[..n])|, h[n].name, h[n].stuck);
    }
  }

  lemma TouchedPrefix<T(!new)>(r: seq<T>, k: nat, name: T, stuck: bool)
    requires k <= |r| && Distinct(r) && (k >= KEEP_LRU || k == |r|)
    ensures var t, u := Touched(r[..k], name, stuck), ToFront(r, name);
            && |t| <= |u| && t == u[..|t|] && (|t| >= KEEP_LRU || t == u)
            && (|t| <= KEEP_LRU || |t| <= k || (stuck && |t| <= k + 1))
  {
    FrontOfPrefix(r, k, name);
    var t, u := ToFront(r[..k], name), ToFront(r, name);
    assert u[..|t|][..|t| - 1] == u[..|t| - 1];
  }

  // With every eviction succeeding, exactly the five most recently touched names (or all there are).
  lemma FiveMostRecent<T(!new)>(h: seq<Touch<T>>)
    requires Failures(h) == 0
    ensures AllTouched(h) == if |Recent(h)| <= 5 then Recent(h) else Recent(h)[..5]
  {
    ListIsMostRecent(h);
  }

  // The name just touched is first in the list, so it is never the one evicted.
  lemma JustTouchedStays<T(!new)>(l: seq<T>, name: T, stuck: bool)
    requires Distinct(l)
    ensures var t := Touched(l, name, stuck);
            Distinct(t) && t[0] == name && (forall x :: x in t ==> x in l || x == name)
  {
    FrontDistinct(l, name);
    var t := ToFront(l, name);
    assert forall x :: x in t[..|t| - 1] ==> x in t;
  }
}

/** Sorting by a byte-string key (`sort_unstable_by`, `sort_unstable`), and what it finds out about repeated keys. */
module Sorting {
  import opened Bytes

  function Keys<T>(s: seq<T>, key: T -> seq<Byte>): (ks: seq<seq<Byte>>)
    ensures |ks| == |s| && forall i :: 0 <= i < |s| ==> ks[i] == key(s[i])
  {
    seq(|s|, i requires 0 <= i < |s| => key(s[i]))
  }

  ghost predicate Ascending(ks: seq<seq<Byte>>) {
    forall i, j :: 0 <= i < j < |ks| ==> AtMost(ks[i], ks[j])
  }

  function Inserted<T>(s: seq<T>, x: T, key: T -> seq<Byte>): seq<T> {
    if s == [] || AtMost(key(x), key(s[0])) then [x] + s
    else [s[0]] + Inserted(s[1..], x, key)
  }

  function Sorted<T>(s: seq<T>, key: T -> seq<Byte>): seq<T> {
    if s == [] then [] else Inserted(Sorted(s[1..], key), s[0], key)
  }

  ghost predicate InOrder<T>(s: seq<T>, key: T -> seq<Byte>) {
    forall i, j :: 0 <= i < j < |s| ==> AtMost(key(s[i]), key(s[j]))
  }

  lemma InOrderMeans<T>(s: seq<T>, key: T -> seq<Byte>)
    ensures InOrder(s, key) <==> Ascending(Keys(s, key))
  {
    hide AtMost;
    var ks := Keys(s, key);
    if Ascending(ks) {
      forall i, j | 0 <= i < j < |s| ensures AtMost(key(s[i]), key(s[j])) { assert AtMost(ks[i], ks[j]); }
    }
  }

  lemma InFront<T>(s: seq<T>, x: T, key: T -> seq<Byte>)
    requires InOrder(s, key) && (s == [] || AtMost(key(x), key(s[0])))
    ensures InOrder([x] + s, key)
  {
    hide AtMost;
    forall i, j | 0 <= i < j < |s| + 1 ensures AtMost(key(([x] + s)[i]), key(([x] + s)[j])) {
      if i == 0 && j > 1 { AtMostIsTransitive(key(x), key(s[0]), key(s[j - 1])); }
    }
  }

  lemma LeadsOn<T>(s: seq<T>, x: T, u: seq<T>, key: T -> seq<Byte>)
    requires s != [] && InOrder(s, key) && AtMost(key(s[0]), key(x)) && multiset(u) == multiset(s[1..]) + multiset{x}
    ensures u == [] || AtMost(key(s[0]), key(u[0]))
  {
    hide AtMost;
    if u != [] {
      assert u[0] in multiset(u);
      if u[0] != x {
        assert u[0] in s[1..];
        var i :| 0 <= i < |s[1..]| && s[1..][i] == u[0];
        assert AtMost(key(s[0]), key(s[i + 1]));
      }
    }
  }

  lemma {:induction false} InsertedIs<T>(s: seq<T>, x: T, key: T -> seq<Byte>)
    requires InOrder(s, key)
    ensures multiset(Inserted(s, x, key)) == multiset(s) + multiset{x} && InOrder(Inserted(s, x, key), key)
  {
    hide AtMost, InOrder;
    if s == [] || AtMost(key(x), key(s[0])) {
      InFront(s, x, key);
    } else {
      assert s == [s[0]] + s[1..];
      AtMostIsTotal(key(x), key(s[0]));
      TailInOrder(s, key);
      InsertedIs(s[1..], x, key);
      LeadsOn(s, x, Inserted(s[1..], x, key), key);
      InFront(Inserted(s[1..], x, key), s[0], key);
    }
  }

  lemma TailInOrder<T>(s: seq<T>, key: T -> seq<Byte>)
    requires s != [] && InOrder(s, key)
    ensures InOrder(s[1..], key)
  {
  }

  lemma {:induction false} SortedInOrder<T>(s: seq<T>, key: T -> seq<Byte>)
    ensures multiset(Sorted(s, key)) == multiset(s) && InOrder(Sorted(s, key), key)
  {
    if s != [] {
      hide InOrder;
      SortedInOrder(s[1..], key);
      InsertedIs(Sorted(s[1..], key), s[0], key);
      assert s == [s[0]] + s[1..];
    }
  }

  lemma SortedIs<T>(s: seq<T>, key: T -> seq<Byte>)
    ensures multiset(Sorted(s, key)) == multiset(s) && Ascending(Keys(Sorted(s, key), key))
  {
    SortedInOrder(s, key);
    InOrderMeans(Sorted(s, key), key);
  }

  lemma SameHead<T>(s: seq<T>, t: seq<T>, key: T -> seq<Byte>)
    requires multiset(s) == multiset(t) && Ascending(Keys(s, key)) && Ascending(Keys(t, key)) && s != [] && t != []
    requires forall x, y :: x in s && y in s && key(x) == key(y) ==> x == y
    ensures s[0] == t[0]
  {
    hide *;
    LeastFirst(s, t, key);
    LeastFirst(t, s, key);
    AtMostIsAntisymmetric(key(s[0]), key(t[0]));
    assert t[0] in multiset(s);
  }

  lemma SameTail<T>(s: seq<T>, t: seq<T>, key: T -> seq<Byte>)
    requires multiset(s) == multiset(t) && Ascending(Keys(s, key)) && Ascending(Keys(t, key)) && s != [] && t != []
    requires s[0] == t[0]
    ensures multiset(s[1..]) == multiset(t[1..]) && Ascending(Keys(s[1..], key)) && Ascending(Keys(t[1..], key))
    ensures forall x :: x in s[1..] ==> x in s
  {
    hide *;
    TailAscends(s, key);
    TailAscends(t, key);
    TailWithout(s);
    TailWithout(t);
  }

  /** Where keys tell elements apart, there is one ascending arrangement. */
  lemma {:induction false} OneArrangement<T>(s: seq<T>, t: seq<T>, key: T -> seq<Byte>)
    requires multiset(s) == multiset(t) && Ascending(Keys(s, key)) && Ascending(Keys(t, key))
    requires forall x, y :: x in s && y in s && key(x) == key(y) ==> x == y
    ensures s == t
  {
    hide *;
    SameLength(s, t);
    if s != [] {
      SameHead(s, t, key);
      SameTail(s, t, key);
      OneArrangement(s[1..], t[1..], key);
      assert s == [s[0]] + s[1..] && t == [t[0]] + t[1..];
    }
  }

  lemma SameLength<T>(s: seq<T>, t: seq<T>)
    requires multiset(s) == multiset(t)
    ensures |s| == |t|
  {
    assert |multiset(s)| == |multiset(t)|;
  }

  lemma TailWithout<T>(s: seq<T>)
    requires s != []
    ensures multiset(s[1..]) == multiset(s) - multiset{s[0]}
  {
    assert s == [s[0]] + s[1..];
  }

  lemma LeastFirst<T>(s: seq<T>, t: seq<T>, key: T -> seq<Byte>)
    requires multiset(s) == multiset(t) && Ascending(Keys(s, key)) && s != [] && t != []
    ensures AtMost(key(s[0]), key(t[0]))
  {
    assert t[0] in multiset(s);
    var j :| 0 <= j < |s| && s[j] == t[0];
    assert AtMost(Keys(s, key)[0], Keys(s, key)[j]) || j == 0;
    AtMostIsTotal(key(s[0]), key(s[0]));
  }

  function Without<T>(s: seq<T>, i: nat): (r: seq<T>)
    requires i < |s|
    ensures |r| == |s| - 1
  {
    s[..i] + s[i + 1..]
  }

  lemma WithoutAt<T>(s: seq<T>, i: nat)
    requires i < |s|
    ensures multiset(Without(s, i)) == multiset(s) - multiset{s[i]}
    ensures multiset(s) == multiset(Without(s, i)) + multiset{s[i]}
  {
    assert s == s[..i] + ([s[i]] + s[i + 1..]);
    assert multiset(s) == multiset(s[..i]) + multiset([s[i]] + s[i + 1..]);
  }

  lemma TailAscends<T>(s: seq<T>, key: T -> seq<Byte>)
    requires s != [] && Ascending(Keys(s, key))
    ensures Ascending(Keys(s[1..], key))
  {
    assert forall i :: 0 <= i < |s| - 1 ==> Keys(s[1..], key)[i] == Keys(s, key)[i + 1];
  }

  /** Rearranging the elements rearranges the keys. */
  lemma {:induction false} KeysPermute<T>(s: seq<T>, t: seq<T>, key: T -> seq<Byte>)
    requires multiset(s) == multiset(t)
    ensures multiset(Keys(s, key)) == multiset(Keys(t, key))
    decreases |s|
  {
    hide *;
    SameLength(s, t);
    if s == [] {
      assert s == t;
    } else {
      assert s[0] in multiset(t);
      var i :| 0 <= i < |t| && t[i] == s[0];
      WithoutAt(s, 0);
      WithoutAt(t, i);
      KeysPermute(Without(s, 0), Without(t, i), key);
      KeysWithout(s, 0, key);
      KeysWithout(t, i, key);
    }
  }

  lemma KeysWithout<T>(s: seq<T>, i: nat, key: T -> seq<Byte>)
    requires i < |s|
    ensures multiset(Keys(s, key)) == multiset(Keys(Without(s, i), key)) + multiset{key(s[i])}
  {
    WithoutAt(Keys(s, key), i);
    assert Keys(Without(s, i), key) == Keys(s, key)[..i] + Keys(s, key)[i + 1..];
  }

  // ---- repeated keys

  ghost predicate Distinct(ks: seq<seq<Byte>>) {
    forall i, j :: 0 <= i < j < |ks| ==> ks[i] != ks[j]
  }

  /** `k` is the least key that occurs more than once. */
  ghost predicate LeastTwice(ks: seq<seq<Byte>>, k: seq<Byte>) {
    multiset(ks)[k] >= 2 && forall j :: multiset(ks)[j] >= 2 ==> AtMost(k, j)
  }

  lemma LeastTwiceIsOne(ks: seq<seq<Byte>>, j: seq<Byte>, k: seq<Byte>)
    requires LeastTwice(ks, j) && LeastTwice(ks, k)
    ensures j == k
  {
    AtMostIsAntisymmetric(j, k);
  }

  lemma {:induction false} TwicePlaces<T>(s: seq<T>, x: T) returns (i: nat, j: nat)
    requires multiset(s)[x] >= 2
    ensures i < j < |s| && s[i] == x == s[j]
  {
    assert s == [s[0]] + s[1..];
    if s[0] == x {
      assert x in multiset(s[1..]);
      i, j := 0, 1;
      var at :| 0 <= at < |s[1..]| && s[1..][at] == x;
      j := at + 1;
    } else {
      assert multiset(s)[x] == multiset(s[1..])[x];
      i, j := TwicePlaces(s[1..], x);
      i, j := i + 1, j + 1;
    }
  }

  lemma PlacesTwice<T>(s: seq<T>, i: nat, j: nat)
    requires i < j < |s| && s[i] == s[j]
    ensures multiset(s)[s[i]] >= 2
  {
    assert s == s[..j] + [s[j]] + s[j + 1..];
    assert s[i] in s[..j];
  }

  /** Keys are distinct exactly when none occurs twice. */
  lemma DistinctMeansOnce(ks: seq<seq<Byte>>)
    ensures Distinct(ks) <==> forall k :: multiset(ks)[k] < 2
  {
    if !Distinct(ks) {
      var i, j :| 0 <= i < j < |ks| && ks[i] == ks[j];
      PlacesTwice(ks, i, j);
    }
    forall k | multiset(ks)[k] >= 2 ensures !Distinct(ks) {
      var i, j := TwicePlaces(ks, k);
    }
  }

  /** In ascending order, the first key seen before is the least that occurs twice. */
  lemma FirstRepeatIsLeast(ks: seq<seq<Byte>>, i: nat)
    requires Ascending(ks) && i < |ks| && ks[i] in ks[..i] && forall a, b :: 0 <= a < b < i ==> ks[a] != ks[b]
    ensures LeastTwice(ks, ks[i])
  {
    var h :| 0 <= h < i && ks[..i][h] == ks[i];
    PlacesTwice(ks, h, i);
    forall k | multiset(ks)[k] >= 2 ensures AtMost(ks[i], k) {
      var a, b := TwicePlaces(ks, k);
      if b == i { AtMostIsTotal(k, k); }
    }
  }
}

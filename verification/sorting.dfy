/** Descending sort by an integer key, as Python's `sorted(..., key=k,
    reverse=True)` and a MongoDB `.sort(field, -1)` produce. Elements with
    equal keys keep their input order (Python's sort is stable). */
module Sorting {

  predicate SortedDesc<T>(s: seq<T>, key: T -> int) {
    forall i, j :: 0 <= i < j < |s| ==> key(s[i]) >= key(s[j])
  }

  /** Inserts `x` after every element whose key is at least `key(x)`. */
  function InsertDesc<T(==)>(x: T, s: seq<T>, key: T -> int): (r: seq<T>)
    requires SortedDesc(s, key)
    ensures SortedDesc(r, key)
    ensures multiset(r) == multiset(s) + multiset{x}
  {
    if |s| == 0 then [x]
    else if key(s[0]) >= key(x) then
      var rest := InsertDesc(x, s[1..], key);
      assert s == [s[0]] + s[1..];
      HeadDominates(s[0], x, s[1..], rest, key);
      [s[0]] + rest
    else
      [x] + s
  }

  lemma HeadDominates<T>(h: T, x: T, tail: seq<T>, rest: seq<T>, key: T -> int)
    requires SortedDesc([h] + tail, key) && key(h) >= key(x)
    requires SortedDesc(rest, key) && multiset(rest) == multiset(tail) + multiset{x}
    ensures SortedDesc([h] + rest, key)
  {
    forall j | 0 <= j < |rest| ensures key(h) >= key(rest[j]) {
      assert rest[j] in multiset(rest);
      if rest[j] != x {
        assert rest[j] in multiset(tail);
        var t :| 0 <= t < |tail| && tail[t] == rest[j];
        assert ([h] + tail)[t + 1] == tail[t] && ([h] + tail)[0] == h;
      }
    }
  }

  /** Insertion sort: a descending permutation of `s`. */
  function SortDesc<T(==)>(s: seq<T>, key: T -> int): (r: seq<T>)
    ensures SortedDesc(r, key)
    ensures multiset(r) == multiset(s)
  {
    if |s| == 0 then []
    else
      assert s == s[..|s| - 1] + [s[|s| - 1]];
      InsertDesc(s[|s| - 1], SortDesc(s[..|s| - 1], key), key)
  }

  /** Sorting keeps the length and only holds elements of the input. */
  lemma SortDescKeeps<T>(s: seq<T>, key: T -> int)
    ensures |SortDesc(s, key)| == |s|
    ensures forall x | x in SortDesc(s, key) :: x in s
    ensures forall x | x in s :: x in SortDesc(s, key)
  {
    var r := SortDesc(s, key);
    assert |r| == |multiset(r)| == |multiset(s)| == |s|;
    forall x | x in r ensures x in s {
      assert x in multiset(r);
    }
    forall x | x in s ensures x in r {
      assert x in multiset(s);
    }
  }

  /** A prefix of a descending sequence is descending. */
  lemma SortedPrefix<T>(s: seq<T>, n: nat, key: T -> int)
    requires SortedDesc(s, key) && n <= |s|
    ensures SortedDesc(s[..n], key)
  {
    assert forall i | 0 <= i < n :: s[..n][i] == s[i];
  }

  /** The first `n` elements of a descending sequence are at least as large
      as every element left after them. */
  lemma TopOfSorted<T>(s: seq<T>, n: nat, key: T -> int)
    requires SortedDesc(s, key) && n <= |s|
    ensures forall x, y | x in s[..n] && y in s && y !in s[..n] :: key(x) >= key(y)
  {
    forall x, y | x in s[..n] && y in s && y !in s[..n] ensures key(x) >= key(y) {
      var i :| 0 <= i < n && s[..n][i] == x;
      assert s == s[..n] + s[n..];
      var j :| 0 <= j < |s| - n && s[n..][j] == y;
      assert s[i] == x && s[n + j] == y;
    }
  }

  /** The elements of `s` whose key is `k`, in their order in `s`. */
  function WithKey<T>(s: seq<T>, key: T -> int, k: int): seq<T> {
    if |s| == 0 then []
    else (if key(s[0]) == k then [s[0]] else []) + WithKey(s[1..], key, k)
  }

  lemma WithKeyCons<T>(x: T, t: seq<T>, key: T -> int, k: int)
    ensures WithKey([x] + t, key, k) == (if key(x) == k then [x] else []) + WithKey(t, key, k)
  {
    assert ([x] + t)[0] == x && ([x] + t)[1..] == t;
  }

  lemma {:induction false} WithKeyAppend<T>(a: seq<T>, b: seq<T>, key: T -> int, k: int)
    ensures WithKey(a + b, key, k) == WithKey(a, key, k) + WithKey(b, key, k)
  {
    if |a| == 0 {
      assert a + b == b;
    } else {
      var h := if key(a[0]) == k then [a[0]] else [];
      assert a == [a[0]] + a[1..] && a + b == [a[0]] + (a[1..] + b);
      WithKeyCons(a[0], a[1..] + b, key, k);
      WithKeyCons(a[0], a[1..], key, k);
      WithKeyAppend(a[1..], b, key, k);
      assert h + (WithKey(a[1..], key, k) + WithKey(b, key, k))
          == (h + WithKey(a[1..], key, k)) + WithKey(b, key, k);
    }
  }

  lemma {:induction false} WithKeyNone<T>(s: seq<T>, key: T -> int, k: int)
    requires forall i | 0 <= i < |s| :: key(s[i]) != k
    ensures WithKey(s, key, k) == []
  {
    if |s| > 0 {
      assert forall i | 0 <= i < |s[1..]| :: s[1..][i] == s[i + 1];
      WithKeyNone(s[1..], key, k);
    }
  }

  /** The first element of key `k` heads the elements of key `k`. */
  lemma {:induction false} WithKeyFirst<T>(s: seq<T>, key: T -> int, k: int, j: nat)
    requires j < |s| && key(s[j]) == k
    requires forall i | 0 <= i < j :: key(s[i]) != k
    ensures |WithKey(s, key, k)| > 0 && WithKey(s, key, k)[0] == s[j]
  {
    if j > 0 {
      assert forall i | 0 <= i < j - 1 :: s[1..][i] == s[i + 1];
      WithKeyFirst(s[1..], key, k, j - 1);
    }
  }

  /** Inserting `x` puts it after every element of its key already there. */
  lemma {:induction false} InsertStable<T>(x: T, s: seq<T>, key: T -> int, k: int)
    requires SortedDesc(s, key)
    ensures WithKey(InsertDesc(x, s, key), key, k) == WithKey(s, key, k) + WithKey([x], key, k)
  {
    if |s| == 0 {
      assert InsertDesc(x, s, key) == [x];
    } else if key(s[0]) >= key(x) {
      assert SortedDesc(s[1..], key) by {
        assert forall i | 0 <= i < |s| - 1 :: s[1..][i] == s[i + 1];
      }
      var rest := InsertDesc(x, s[1..], key);
      var h := if key(s[0]) == k then [s[0]] else [];
      assert InsertDesc(x, s, key) == [s[0]] + rest;
      InsertStable(x, s[1..], key, k);
      WithKeyCons(s[0], rest, key, k);
      assert s == [s[0]] + s[1..];
      WithKeyCons(s[0], s[1..], key, k);
      assert h + (WithKey(s[1..], key, k) + WithKey([x], key, k))
          == (h + WithKey(s[1..], key, k)) + WithKey([x], key, k);
    } else {
      InsertBefore(x, s, key, k);
    }
  }

  lemma InsertBefore<T>(x: T, s: seq<T>, key: T -> int, k: int)
    requires SortedDesc(s, key) && |s| > 0 && key(s[0]) < key(x)
    ensures WithKey(InsertDesc(x, s, key), key, k) == WithKey(s, key, k) + WithKey([x], key, k)
  {
    assert InsertDesc(x, s, key) == [x] + s;
    WithKeyAppend([x], s, key, k);
    if key(x) == k {
      WithKeyNone(s, key, k);
    } else {
      assert WithKey([x], key, k) == [];
    }
  }

  /** The sort is stable: the elements of any one key keep their input
      order. */
  lemma {:induction false} SortDescStable<T>(s: seq<T>, key: T -> int, k: int)
    ensures WithKey(SortDesc(s, key), key, k) == WithKey(s, key, k)
  {
    if |s| > 0 {
      var init, last := s[..|s| - 1], s[|s| - 1];
      SortDescStable(init, key, k);
      InsertStable(last, SortDesc(init, key), key, k);
      assert s == init + [last];
      WithKeyAppend(init, [last], key, k);
    }
  }

  /** The head of the sorted sequence is the first element of highest key. */
  lemma SortedHead<T>(s: seq<T>, key: T -> int, j: nat)
    requires j < |s|
    requires forall i | 0 <= i < |s| :: key(s[i]) <= key(s[j])
    requires forall i | 0 <= i < j :: key(s[i]) < key(s[j])
    ensures |SortDesc(s, key)| > 0 && SortDesc(s, key)[0] == s[j]
  {
    var r := SortDesc(s, key);
    var m := key(s[j]);
    SortDescKeeps(s, key);
    assert r[0] in s;
    assert key(r[0]) == m by {
      assert s[j] in r;
      var t :| 0 <= t < |r| && r[t] == s[j];
    }
    WithKeyFirst(r, key, m, 0);
    WithKeyFirst(s, key, m, j);
    SortDescStable(s, key, m);
  }
}

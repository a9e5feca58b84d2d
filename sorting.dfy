/** `List.sort` with a comparator that orders by a real key, largest first
    (`Double.compare(key(b), key(a))`). Java's list sort is stable, so elements with
    equal keys keep their relative order; the insertion below puts an element in
    front of every later element whose key is not larger, which is that order. */
module Sorting {

  ghost predicate SortedDesc<T>(s: seq<T>, key: T -> real)
  {
    forall i, j :: 0 <= i < j < |s| ==> key(s[j]) <= key(s[i])
  }

  /** Putting in front of a sorted list an element whose key is not smaller than the
      list's head keeps it sorted. */
  lemma SortedCons<T>(y: T, s: seq<T>, key: T -> real)
    requires SortedDesc(s, key) && (|s| > 0 ==> key(s[0]) <= key(y))
    ensures SortedDesc([y] + s, key)
  {
    var r := [y] + s;
    forall i, j | 0 <= i < j < |r| ensures key(r[j]) <= key(r[i]) {
      if i > 0 {
        assert r[i] == s[i - 1] && r[j] == s[j - 1];
      } else if j > 1 {
        assert key(s[j - 1]) <= key(s[0]);
      }
    }
  }

  /** Inserts `x` before the first element whose key is not larger than its own. */
  function InsertDesc<T>(x: T, s: seq<T>, key: T -> real): (r: seq<T>)
    ensures |r| == |s| + 1 && (r[0] == x || (|s| > 0 && r[0] == s[0]))
    decreases |s|
  {
    if s == [] || key(s[0]) <= key(x) then [x] + s
    else [s[0]] + InsertDesc(x, s[1..], key)
  }

  lemma {:induction false} InsertDescSorted<T>(x: T, s: seq<T>, key: T -> real)
    requires SortedDesc(s, key)
    ensures SortedDesc(InsertDesc(x, s, key), key)
    decreases |s|
  {
    if s == [] || key(s[0]) <= key(x) {
      SortedCons(x, s, key);
    } else {
      var rest := InsertDesc(x, s[1..], key);
      assert SortedDesc(s[1..], key) by {
        forall i, j | 0 <= i < j < |s[1..]| ensures key(s[1..][j]) <= key(s[1..][i]) {
          assert s[1..][i] == s[i + 1] && s[1..][j] == s[j + 1];
        }
      }
      InsertDescSorted(x, s[1..], key);
      assert key(rest[0]) <= key(s[0]) by {
        if rest[0] != x {
          assert rest[0] == s[1];
        }
      }
      SortedCons(s[0], rest, key);
    }
  }

  lemma {:induction false} InsertDescPermutes<T>(x: T, s: seq<T>, key: T -> real)
    ensures multiset(InsertDesc(x, s, key)) == multiset(s) + multiset{x}
    decreases |s|
  {
    if s != [] && key(x) < key(s[0]) {
      assert s == [s[0]] + s[1..];
      InsertDescPermutes(x, s[1..], key);
    }
  }

  /** Insertion sort on the key, largest first. */
  function SortDesc<T>(s: seq<T>, key: T -> real): (r: seq<T>)
    ensures |r| == |s|
    decreases |s|
  {
    if s == [] then [] else InsertDesc(s[0], SortDesc(s[1..], key), key)
  }

  lemma {:induction false} SortDescSorted<T>(s: seq<T>, key: T -> real)
    ensures SortedDesc(SortDesc(s, key), key)
    decreases |s|
  {
    if s != [] {
      SortDescSorted(s[1..], key);
      InsertDescSorted(s[0], SortDesc(s[1..], key), key);
    }
  }

  lemma {:induction false} SortDescPermutes<T>(s: seq<T>, key: T -> real)
    ensures multiset(SortDesc(s, key)) == multiset(s)
    decreases |s|
  {
    if s != [] {
      assert s == [s[0]] + s[1..];
      SortDescPermutes(s[1..], key);
      InsertDescPermutes(s[0], SortDesc(s[1..], key), key);
    }
  }

  /** The head of a sorted, non-empty list carries the largest key of the input. */
  lemma HeadIsMaximal<T>(s: seq<T>, key: T -> real)
    requires |s| > 0
    ensures |SortDesc(s, key)| == |s|
    ensures forall x :: x in s ==> key(x) <= key(SortDesc(s, key)[0])
  {
    var r := SortDesc(s, key);
    SortDescSorted(s, key);
    SortDescPermutes(s, key);
    forall x | x in s ensures key(x) <= key(r[0]) {
      assert x in multiset(s);
      assert x in multiset(r);
      var j :| 0 <= j < |r| && r[j] == x;
      if j > 0 {
        assert key(r[j]) <= key(r[0]);
      }
    }
  }

  /** The sort is stable at the head: it is the first element of the input with the
      largest key, so every element before it has a strictly smaller key. */
  lemma {:induction false} HeadIsFirstMaximal<T>(s: seq<T>, key: T -> real)
    requires |s| > 0
    ensures exists i :: 0 <= i < |s| && s[i] == SortDesc(s, key)[0] &&
              forall j :: 0 <= j < i ==> key(s[j]) < key(s[i])
    decreases |s|
  {
    var rest := SortDesc(s[1..], key);
    if rest == [] || key(rest[0]) <= key(s[0]) {
      assert s[0] == SortDesc(s, key)[0];
    } else {
      HeadIsFirstMaximal(s[1..], key);
      var i :| 0 <= i < |s[1..]| && s[1..][i] == rest[0] &&
               forall j :: 0 <= j < i ==> key(s[1..][j]) < key(s[1..][i]);
      assert SortDesc(s, key)[0] == rest[0];
      forall j | 0 <= j < i + 1 ensures key(s[j]) < key(s[i + 1]) {
        if j > 0 {
          assert s[j] == s[1..][j - 1];
        }
      }
    }
  }

  /** Insertion puts `x` behind the leading elements with a strictly larger key and
      leaves the others in their order. */
  lemma {:induction false} InsertDescSplits<T>(x: T, s: seq<T>, key: T -> real) returns (m: nat)
    ensures m <= |s| && InsertDesc(x, s, key) == s[..m] + [x] + s[m..]
    ensures forall l :: 0 <= l < m ==> key(x) < key(s[l])
    decreases |s|
  {
    if s == [] || key(s[0]) <= key(x) {
      m := 0;
    } else {
      var m' := InsertDescSplits(x, s[1..], key);
      m := m' + 1;
      assert s[..m] == [s[0]] + s[1..][..m'];
      assert s[m..] == s[1..][m'..];
      forall l | 0 <= l < m ensures key(x) < key(s[l]) {
        if l > 0 {
          assert s[l] == s[1..][l - 1];
        }
      }
    }
  }

  /** Sorting a non-empty list inserts its head into the sorted tail at some
      position `m`: the elements before it are those of the sorted tail with a
      strictly larger key, the ones after it are the rest of the sorted tail. */
  lemma SortDescCons<T>(s: seq<T>, key: T -> real) returns (m: nat)
    requires |s| > 0
    ensures m <= |SortDesc(s[1..], key)| && SortDesc(s, key)[m] == s[0]
    ensures forall a :: 0 <= a < m ==>
              SortDesc(s, key)[a] == SortDesc(s[1..], key)[a] && key(s[0]) < key(SortDesc(s[1..], key)[a])
    ensures forall a :: m < a < |s| ==> SortDesc(s, key)[a] == SortDesc(s[1..], key)[a - 1]
  {
    var r := SortDesc(s[1..], key);
    m := InsertDescSplits(s[0], r, key);
    assert SortDesc(s, key) == r[..m] + [s[0]] + r[m..];
  }

  /** The sort is stable: of two elements of a list without repeats that have equal
      keys, the one earlier in the input is earlier in the result. */
  lemma {:induction false} SortDescStable<T>(s: seq<T>, key: T -> real, i: nat, j: nat, p: nat, q: nat)
    requires Distinct(s) && i < j < |s| && key(s[i]) == key(s[j])
    requires p < |SortDesc(s, key)| && q < |SortDesc(s, key)|
    requires SortDesc(s, key)[p] == s[i] && SortDesc(s, key)[q] == s[j]
    ensures p < q
    decreases |s|
  {
    var tail := s[1..];
    assert Distinct(tail) by {
      forall a, b | 0 <= a < b < |tail| ensures tail[a] != tail[b] {
        assert tail[a] == s[a + 1] && tail[b] == s[b + 1];
      }
    }
    var m := SortDescCons(s, key);
    var r := SortDesc(tail, key);
    SortDescKeepsElements(tail, key);
    assert s[0] !in r by {
      forall a | 0 <= a < |tail| ensures tail[a] != s[0] {
        assert tail[a] == s[a + 1];
      }
    }
    assert s[j] != s[0] && s[j] == tail[j - 1];
    if i == 0 {
      assert p == m;
    } else {
      assert s[i] != s[0] && s[i] == tail[i - 1];
      assert p != m && q != m;
      var p0 := if p < m then p else p - 1;
      var q0 := if q < m then q else q - 1;
      assert r[p0] == tail[i - 1] && r[q0] == tail[j - 1];
      SortDescStable(tail, key, i - 1, j - 1, p0, q0);
    }
  }

  ghost predicate Distinct<T>(s: seq<T>)
  {
    forall i, j :: 0 <= i < j < |s| ==> s[i] != s[j]
  }

  lemma {:induction false} DistinctCountsAtMostOne<T>(s: seq<T>, x: T)
    requires Distinct(s)
    ensures multiset(s)[x] <= 1
    decreases |s|
  {
    if s != [] {
      assert s == [s[0]] + s[1..];
      DistinctCountsAtMostOne(s[1..], x);
      if s[0] == x {
        forall j | 0 <= j < |s[1..]| ensures s[1..][j] != x {
          assert s[1..][j] == s[j + 1];
        }
      }
    }
  }

  lemma RepeatCountsTwice<T>(s: seq<T>, i: nat, j: nat)
    requires i < j < |s| && s[i] == s[j]
    ensures multiset(s)[s[i]] >= 2
  {
    assert s == s[..j] + s[j..];
    assert s[..j][i] == s[i];
    assert s[j..][0] == s[i];
  }

  /** Two lists without repeats and without a common element join into one without
      repeats. */
  lemma DistinctConcat<T>(a: seq<T>, b: seq<T>)
    requires Distinct(a) && Distinct(b) && forall x :: x in b ==> x !in a
    ensures Distinct(a + b)
  {
    var c := a + b;
    forall i, j | 0 <= i < j < |c| ensures c[i] != c[j] {
      if j >= |a| {
        assert c[j] == b[j - |a|];
        if i < |a| {
          assert c[i] == a[i] && b[j - |a|] in b;
        } else {
          assert c[i] == b[i - |a|];
        }
      }
    }
  }

  /** Sorting neither drops, adds nor duplicates an element. */
  lemma SortDescKeepsElements<T>(s: seq<T>, key: T -> real)
    requires Distinct(s)
    ensures Distinct(SortDesc(s, key))
    ensures forall x :: x in SortDesc(s, key) <==> x in s
  {
    var r := SortDesc(s, key);
    SortDescPermutes(s, key);
    forall x ensures x in r <==> x in s {
      assert x in r <==> x in multiset(r);
      assert x in s <==> x in multiset(s);
    }
    forall i, j | 0 <= i < j < |r| ensures r[i] != r[j] {
      if r[i] == r[j] {
        RepeatCountsTwice(r, i, j);
        DistinctCountsAtMostOne(s, r[i]);
      }
    }
  }
}

/** Small value types and list operations shared by the models of the individual components. */
module Common {

  datatype Option<+T> = None | Some(value: T)

  /** An unsigned 8-bit value (C# `byte`). */
  type byte = x: int | 0 <= x < 256

  /** An unsigned 16-bit value (C# `ushort`). */
  type ushort = x: int | 0 <= x < 65536

  /** `(byte)x` in an unchecked C# context: the low eight bits, for negative `x` too. */
  function ToByte(x: int): (b: byte)
    ensures 0 <= x < 256 ==> b == x
    ensures (b - x) % 256 == 0
  {
    x % 256
  }

  /** No element occurs twice. */
  predicate NoDups<T(==)>(s: seq<T>)
  {
    forall i, j :: 0 <= i < j < |s| ==> s[i] != s[j]
  }

  /** Index of the first occurrence of `x` in `s`. */
  function IndexOf<T(==)>(s: seq<T>, x: T): (i: nat)
    requires x in s
    ensures i < |s| && s[i] == x
    ensures forall j :: 0 <= j < i ==> s[j] != x
  {
    if s[0] == x then 0 else 1 + IndexOf(s[1..], x)
  }

  /** `List<T>.Remove(x)`: deletes the first occurrence of `x`, if there is one. */
  function RemoveFirst<T(==)>(s: seq<T>, x: T): seq<T>
  {
    if x in s then s[..IndexOf(s, x)] + s[IndexOf(s, x) + 1..] else s
  }

  /** Deleting position `i` shifts every later element down by one. */
  lemma DeleteAt<T>(s: seq<T>, i: nat)
    requires i < |s|
    ensures |s[..i] + s[i + 1..]| == |s| - 1
    ensures forall k :: 0 <= k < i ==> (s[..i] + s[i + 1..])[k] == s[k]
    ensures forall k :: i < k < |s| ==> (s[..i] + s[i + 1..])[k - 1] == s[k]
  {
  }

  /** Deleting position `i` keeps exactly the elements at the other positions. */
  lemma DeleteAtMembers<T>(s: seq<T>, i: nat, y: T)
    requires i < |s|
    ensures y in s[..i] + s[i + 1..] <==> exists k :: 0 <= k < |s| && k != i && s[k] == y
  {
    var r := s[..i] + s[i + 1..];
    DeleteAt(s, i);
    if y in r {
      var k :| 0 <= k < |r| && r[k] == y;
      var k' := if k < i then k else k + 1;
      assert s[k'] == y && k' != i;
    }
    if exists k :: 0 <= k < |s| && k != i && s[k] == y {
      var k :| 0 <= k < |s| && k != i && s[k] == y;
      var k' := if k < i then k else k - 1;
      assert r[k'] == y;
    }
  }

  /** Deleting a position of a duplicate-free list leaves it duplicate-free. */
  lemma DeleteAtNoDups<T>(s: seq<T>, i: nat)
    requires i < |s| && NoDups(s)
    ensures NoDups(s[..i] + s[i + 1..])
  {
    var r := s[..i] + s[i + 1..];
    DeleteAt(s, i);
    forall a, b | 0 <= a < b < |r| ensures r[a] != r[b] {
      var a' := if a < i then a else a + 1;
      var b' := if b < i then b else b + 1;
      assert r[a] == s[a'] && r[b] == s[b'] && a' < b';
    }
  }

  /** On a duplicate-free list, `RemoveFirst` removes `x` completely and keeps every other element. */
  lemma RemoveFirstNoDups<T>(s: seq<T>, x: T)
    requires NoDups(s)
    ensures NoDups(RemoveFirst(s, x))
    ensures forall y :: y in RemoveFirst(s, x) <==> y in s && y != x
    ensures |RemoveFirst(s, x)| == if x in s then |s| - 1 else |s|
  {
    if x in s {
      var i := IndexOf(s, x);
      DeleteAt(s, i);
      DeleteAtNoDups(s, i);
      forall y ensures y in RemoveFirst(s, x) <==> y in s && y != x {
        DeleteAtMembers(s, i, y);
      }
    }
  }

  /** Dropping the last element of a duplicate-free list: the rest is duplicate-free and lacks it. */
  lemma NoDupsInit<T>(s: seq<T>)
    requires s != [] && NoDups(s)
    ensures NoDups(s[..|s| - 1]) && s[|s| - 1] !in s[..|s| - 1]
  {
    var init := s[..|s| - 1];
    forall a, b | 0 <= a < b < |init| ensures init[a] != init[b] {
      assert init[a] == s[a] && init[b] == s[b];
    }
  }

  /** `RemoveFirst` looks at the head, then at the rest. */
  lemma RemoveFirstCons<T>(s: seq<T>, x: T)
    requires s != []
    ensures RemoveFirst(s, x) == if s[0] == x then s[1..] else [s[0]] + RemoveFirst(s[1..], x)
  {
    if s[0] == x {
      assert IndexOf(s, x) == 0;
    } else if x in s {
      var i := IndexOf(s, x);
      assert x in s[1..] by {
        assert s[i] == x && i > 0 && s[1..][i - 1] == x;
      }
      assert i == 1 + IndexOf(s[1..], x);
      assert s[..i] == [s[0]] + s[1..][..i - 1];
      assert s[i + 1..] == s[1..][i..];
    } else {
      assert x !in s[1..];
    }
  }

  /**
   * On a duplicate-free list, `RemoveFirst(s, x)` is the list of the elements other than `x`, in
   * their original order.
   */
  lemma {:induction false} RemoveFirstIsFilter<T>(s: seq<T>, x: T, p: T -> bool)
    requires NoDups(s)
    requires forall y :: p(y) == (y != x)
    ensures RemoveFirst(s, x) == Filter(s, p)
  {
    if s != [] {
      RemoveFirstCons(s, x);
      assert NoDups(s[1..]) by {
        forall i, j | 0 <= i < j < |s[1..]| ensures s[1..][i] != s[1..][j] {
          assert s[1..][i] == s[i + 1] && s[1..][j] == s[j + 1];
        }
      }
      if s[0] == x {
        assert forall k :: 0 <= k < |s[1..]| ==> p(s[1..][k]) by {
          forall k | 0 <= k < |s[1..]| ensures p(s[1..][k]) {
            assert s[1..][k] == s[k + 1] && s[0] != s[k + 1];
          }
        }
        FilterKeepsAll(s[1..], p);
      } else {
        RemoveFirstIsFilter(s[1..], x, p);
      }
    }
  }

  /** Filtering with a test every element passes changes nothing. */
  lemma {:induction false} FilterKeepsAll<T>(s: seq<T>, p: T -> bool)
    requires forall k :: 0 <= k < |s| ==> p(s[k])
    ensures Filter(s, p) == s
  {
    if s != [] {
      assert forall k :: 0 <= k < |s[1..]| ==> p(s[1..][k]) by {
        forall k | 0 <= k < |s[1..]| ensures p(s[1..][k]) {
          assert s[1..][k] == s[k + 1];
        }
      }
      FilterKeepsAll(s[1..], p);
    }
  }

  /** The elements of `s` that satisfy `p`, in their original order (LINQ `Where`). */
  function Filter<T>(s: seq<T>, p: T -> bool): (r: seq<T>)
    ensures |r| <= |s|
    ensures forall k :: 0 <= k < |r| ==> r[k] in s && p(r[k])
    ensures forall k :: 0 <= k < |s| && p(s[k]) ==> s[k] in r
  {
    if s == [] then []
    else if p(s[0]) then [s[0]] + Filter(s[1..], p)
    else Filter(s[1..], p)
  }

  /** Where a kept element comes from: position `k` of `Filter(s, p)` is some position of `s`. */
  lemma {:induction false} FilterSource<T>(s: seq<T>, p: T -> bool, k: nat) returns (a: nat)
    requires k < |Filter(s, p)|
    ensures a < |s| && s[a] == Filter(s, p)[k]
  {
    var t := s[1..];
    if p(s[0]) {
      assert Filter(s, p) == [s[0]] + Filter(t, p);
      if k == 0 {
        a := 0;
      } else {
        var a' := FilterSource(t, p, k - 1);
        a := a' + 1;
      }
    } else {
      assert Filter(s, p) == Filter(t, p);
      var a' := FilterSource(t, p, k);
      a := a' + 1;
    }
  }

  /** `Filter` keeps the original order: two kept elements occur in `s` in the same order. */
  lemma {:induction false} FilterKeepsOrder<T>(s: seq<T>, p: T -> bool, i: nat, j: nat) returns (a: nat, b: nat)
    requires i < j < |Filter(s, p)|
    ensures a < b < |s| && s[a] == Filter(s, p)[i] && s[b] == Filter(s, p)[j]
  {
    var t := s[1..];
    if p(s[0]) {
      assert Filter(s, p) == [s[0]] + Filter(t, p);
      if i == 0 {
        var b' := FilterSource(t, p, j - 1);
        a, b := 0, b' + 1;
      } else {
        var a', b' := FilterKeepsOrder(t, p, i - 1, j - 1);
        a, b := a' + 1, b' + 1;
      }
    } else {
      assert Filter(s, p) == Filter(t, p);
      var a', b' := FilterKeepsOrder(t, p, i, j);
      a, b := a' + 1, b' + 1;
    }
  }

  /** Filtering a list with one more element at the end. */
  lemma {:induction false} FilterSnoc<T>(s: seq<T>, x: T, p: T -> bool)
    ensures Filter(s + [x], p) == Filter(s, p) + (if p(x) then [x] else [])
  {
    if s != [] {
      assert (s + [x])[1..] == s[1..] + [x];
      FilterSnoc(s[1..], x, p);
    }
  }

  /** Filtering keeps a strictly increasing list strictly increasing. */
  lemma {:induction false} FilterIncreasing(s: seq<int>, p: int -> bool)
    requires StrictlyIncreasing(s)
    ensures StrictlyIncreasing(Filter(s, p))
  {
    if s != [] {
      var t := s[1..];
      assert StrictlyIncreasing(t) by {
        forall i, j | 0 <= i < j < |t| ensures t[i] < t[j] {
          assert t[i] == s[i + 1] && t[j] == s[j + 1];
        }
      }
      FilterIncreasing(t, p);
      var r := Filter(t, p);
      forall k | 0 <= k < |r| ensures s[0] < r[k] {
        var j :| 0 <= j < |t| && t[j] == r[k];
        assert s[0] < s[j + 1];
      }
    }
  }

  /** The ascending integers `lo, lo + 1, ..., hi - 1` (`Enumerable.Range(lo, hi - lo)`). */
  function Range(lo: int, hi: int): (r: seq<int>)
    decreases hi - lo
    ensures |r| == if lo <= hi then hi - lo else 0
    ensures forall k :: 0 <= k < |r| ==> r[k] == lo + k
  {
    if lo >= hi then [] else [lo] + Range(lo + 1, hi)
  }

  /** Strictly increasing integers: each occurs once, in ascending order. */
  predicate StrictlyIncreasing(s: seq<int>)
  {
    forall i, j :: 0 <= i < j < |s| ==> s[i] < s[j]
  }

  /** Appending a number above every element keeps a list strictly increasing. */
  lemma IncreasingSnoc(s: seq<int>, x: int)
    requires StrictlyIncreasing(s) && forall e :: e in s ==> e < x
    ensures StrictlyIncreasing(s + [x])
  {
    var t := s + [x];
    forall i, j | 0 <= i < j < |t| ensures t[i] < t[j] {
      if j == |s| {
        assert t[i] == s[i] && s[i] in s;
      } else {
        assert t[i] == s[i] && t[j] == s[j];
      }
    }
  }

  /** `string.Join(sep, xs)`. */
  function Join(xs: seq<string>, sep: string): (r: string)
    ensures |xs| == 1 ==> r == xs[0]
  {
    if xs == [] then "" else if |xs| == 1 then xs[0] else xs[0] + sep + Join(xs[1..], sep)
  }

  /** `count` copies of `c` (`new string(c, count)`). */
  function Repeat(c: char, count: nat): (r: string)
    ensures |r| == count
    ensures forall k :: 0 <= k < count ==> r[k] == c
  {
    if count == 0 then "" else [c] + Repeat(c, count - 1)
  }
}

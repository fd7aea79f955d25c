/** Vocabulary shared by the models: optional values, ordered sequences of integers,
    and the sorted list of a finite set (Python's `sorted`). */
module Common {

  datatype Option<+T> = None | Some(value: T)

  type Byte = b: int | 0 <= b < 256
  type Bytes = seq<Byte>

  /** One shot of a load plan: when (milliseconds), what, and under which marker. */
  datatype Task = Task(timestamp: int, missile: Bytes, marker: Bytes)

  /** Later entries are strictly larger. */
  ghost predicate Increasing(s: seq<int>) {
    forall i, j :: 0 <= i < j < |s| ==> s[i] < s[j]
  }

  ghost predicate NonDecreasing(s: seq<int>) {
    forall i, j :: 0 <= i < j < |s| ==> s[i] <= s[j]
  }

  function Min(a: int, b: int): int { if a < b then a else b }

  function Max(a: int, b: int): int { if a < b then b else a }

  lemma NonEmpty(s: set<int>)
    ensures s == {} || exists x :: x in s
  {
    if forall x :: x !in s {
      assert s == {};
    }
  }

  ghost predicate IsLeast(keys: set<int>, least: int) {
    least in keys && forall k | k in keys :: least <= k
  }

  lemma LeastOfMore(keys: set<int>, k: int, least: int)
    requires k in keys && IsLeast(keys - {k}, least)
    ensures IsLeast(keys, if k < least then k else least)
  {
    forall j | j in keys ensures k <= j || least <= j {
      assert j == k || j in keys - {k};
    }
  }

  lemma OnlyKey(keys: set<int>, k: int)
    requires k in keys && keys - {k} == {}
    ensures IsLeast(keys, k)
  {
    forall j | j in keys ensures k <= j {
      assert j != k ==> j in keys - {k};
    }
  }

  lemma {:induction false} HasMinimum(keys: set<int>)
    requires keys != {}
    ensures exists least :: IsLeast(keys, least)
    decreases |keys|
  {
    hide IsLeast;
    NonEmpty(keys);
    var k :| k in keys;
    if keys - {k} == {} {
      OnlyKey(keys, k);
    } else {
      HasMinimum(keys - {k});
      var least :| IsLeast(keys - {k}, least);
      LeastOfMore(keys, k, least);
    }
  }

  /** The smallest key of a non-empty set. */
  function Least(keys: set<int>): (least: int)
    requires keys != {}
    ensures least in keys && forall k | k in keys :: least <= k
  {
    HasMinimum(keys);
    var least :| least in keys && forall k | k in keys :: least <= k;
    least
  }

  ghost predicate Sorts(s: seq<int>, keys: set<int>) {
    Increasing(s) && |s| == |keys| && forall k :: k in s <==> k in keys
  }

  lemma {:induction false} CanSort(keys: set<int>)
    ensures exists s :: Sorts(s, keys)
    decreases |keys|
  {
    if keys == {} {
      assert Sorts([], keys);
    } else {
      var least := Least(keys);
      CanSort(keys - {least});
      var rest :| Sorts(rest, keys - {least});
      var s := [least] + rest;
      forall i, j | 0 <= i < j < |s| ensures s[i] < s[j] {
        assert s[j] == rest[j - 1] && rest[j - 1] in rest;
        assert 0 < i ==> s[i] == rest[i - 1];
      }
      assert Sorts(s, keys);
    }
  }

  /** `sorted(keys)`: every key once, in increasing order. */
  ghost function Sorted(keys: set<int>): (s: seq<int>)
    ensures Sorts(s, keys)
  {
    CanSort(keys);
    var s :| Sorts(s, keys);
    s
  }

  method SortKeys(keys: set<int>) returns (s: seq<int>)
    ensures s == Sorted(keys)
  {
    s := [];
    var rest := keys;
    while rest != {}
      invariant rest <= keys && Increasing(s) && |s| + |rest| == |keys|
      invariant forall k :: k in s <==> k in keys - rest
      invariant forall k, j | k in s && j in rest :: k < j
      decreases |rest|
    {
      var least := Least(rest);
      forall i | 0 <= i < |s| ensures s[i] < least {
        assert s[i] in s;
      }
      s := s + [least];
      rest := rest - {least};
    }
    IncreasingUnique(s, Sorted(keys));
  }

  /** A strictly increasing list is determined by its elements. */
  lemma {:induction false} IncreasingUnique(a: seq<int>, b: seq<int>)
    requires Increasing(a) && Increasing(b)
    requires forall k :: k in a <==> k in b
    ensures a == b
  {
    if a == [] {
      assert forall i | 0 <= i < |b| :: b[i] in a;
    } else {
      assert a[0] in a && a[0] in b;
      assert b[0] in b && b[0] in a;
      assert a[0] == b[0];
      forall k ensures k in a[1..] <==> k in b[1..] {
        if k in a[1..] { assert k in a; }
        if k in b[1..] { assert k in b; }
      }
      IncreasingUnique(a[1..], b[1..]);
      assert a == [a[0]] + a[1..] && b == [b[0]] + b[1..];
    }
  }

  lemma MulOrder(a: nat, b: nat, c: nat)
    requires a <= b
    ensures a * c <= b * c
  {
  }

  lemma DivideExactly(i: nat, r: nat, n: nat)
    requires r < n
    ensures (i * n + r) / n == i && (i * n + r) % n == r
  {
    var q := (i * n + r) / n;
    if q < i {
      MulOrder(q + 1, i, n);
    }
    if q > i {
      MulOrder(i + 1, q, n);
    }
  }

  /** The parts one after another. */
  function Flatten<T>(parts: seq<seq<T>>): seq<T> {
    if parts == [] then [] else Flatten(parts[..|parts| - 1]) + parts[|parts| - 1]
  }

  lemma FlattenOfMore<T>(parts: seq<seq<T>>, last: seq<T>)
    ensures Flatten(parts + [last]) == Flatten(parts) + last
  {
    assert (parts + [last])[..|parts|] == parts;
  }

  /** `n` times the same value. */
  function Repeat(value: int, n: nat): (s: seq<int>)
    ensures |s| == n && forall i | 0 <= i < n :: s[i] == value
  {
    seq(n, _ => value)
  }

  lemma Associate<T>(a: seq<T>, b: seq<T>, c: seq<T>)
    ensures a + (b + c) == (a + b) + c
  {
  }

  lemma CancelOne<T>(m: multiset<T>, n: multiset<T>, x: T)
    ensures m + multiset{x} == n + multiset{x} ==> m == n
    ensures m + multiset{x} <= n + multiset{x} ==> m <= n
  {
    if m + multiset{x} == n + multiset{x} {
      forall y: T ensures m[y] == n[y] {
        assert (m + multiset{x})[y] == (n + multiset{x})[y];
      }
    }
    if m + multiset{x} <= n + multiset{x} {
      forall y: T ensures m[y] <= n[y] {
        assert (m + multiset{x})[y] <= (n + multiset{x})[y];
      }
    }
  }

  /** One element taken out of a list. */
  lemma Without<T>(s: seq<T>, i: nat)
    requires i < |s|
    ensures s == s[..i] + [s[i]] + s[i + 1..]
    ensures multiset(s) == multiset(s[..i] + s[i + 1..]) + multiset{s[i]}
  {
    var a, b := s[..i], s[i + 1..];
    assert s == a + [s[i]] + b;
    assert multiset(a + b) == multiset(a) + multiset(b);
  }
}

/** utils.rs, `is_larger_than_median`: a median test done by counting. */
module Median {
  import opened Bytes
  import opened Structs

  function Insert(x: u32, s: seq<u32>): seq<u32> {
    if s == [] || x <= s[0] then [x] + s else [s[0]] + Insert(x, s[1..])
  }

  function Sorted(s: seq<u32>): seq<u32> {
    if s == [] then [] else Insert(s[0], Sorted(s[1..]))
  }

  ghost predicate Ascending(s: seq<u32>) {
    s == [] || (AtLeast(s[0], s[1..]) && Ascending(s[1..]))
  }

  ghost predicate AtLeast(x: u32, s: seq<u32>) {
    forall y :: y in multiset(s) ==> x <= y
  }

  /** The sixth of the eleven timestamps in ascending order. */
  function MedianOf(window: Window, additional: u32): u32 {
    SortedIsPermutation(window + [additional]);
    Sorted(window + [additional])[5]
  }

  lemma {:induction false} InsertKeeps(x: u32, s: seq<u32>)
    requires Ascending(s)
    ensures Ascending(Insert(x, s))
    ensures multiset(Insert(x, s)) == multiset{x} + multiset(s)
    ensures |Insert(x, s)| == |s| + 1
  {
    if s != [] {
      assert multiset(s) == multiset{s[0]} + multiset(s[1..]) by { assert s == [s[0]] + s[1..]; }
      if x > s[0] {
        InsertKeeps(x, s[1..]);
      }
    }
  }

  lemma {:induction false} SortedIsPermutation(s: seq<u32>)
    ensures Ascending(Sorted(s))
    ensures multiset(Sorted(s)) == multiset(s)
    ensures |Sorted(s)| == |s|
  {
    if s != [] {
      SortedIsPermutation(s[1..]);
      InsertKeeps(s[0], Sorted(s[1..]));
      assert s == [s[0]] + s[1..];
    }
  }

  /** How many elements lie below x. */
  ghost function CountBelow(s: seq<u32>, x: u32): nat {
    if s == [] then 0 else (if s[0] < x then 1 else 0) + CountBelow(s[1..], x)
  }

  lemma {:induction false} CountBelowConcat(a: seq<u32>, b: seq<u32>, x: u32)
    ensures CountBelow(a + b, x) == CountBelow(a, x) + CountBelow(b, x)
  {
    if a == [] {
      assert a + b == b;
    } else {
      CountBelowConcat(a[1..], b, x);
      assert (a + b)[1..] == a[1..] + b;
    }
  }

  lemma {:induction false} CountBelowInsert(y: u32, s: seq<u32>, x: u32)
    ensures CountBelow(Insert(y, s), x) == (if y < x then 1 else 0) + CountBelow(s, x)
  {
    if s == [] || y <= s[0] {
      assert ([y] + s)[1..] == s;
    } else {
      CountBelowInsert(y, s[1..], x);
      assert ([s[0]] + Insert(y, s[1..]))[1..] == Insert(y, s[1..]);
    }
  }

  lemma {:induction false} CountBelowSorted(s: seq<u32>, x: u32)
    ensures CountBelow(Sorted(s), x) == CountBelow(s, x)
  {
    if s != [] {
      CountBelowSorted(s[1..], x);
      CountBelowInsert(s[0], Sorted(s[1..]), x);
    }
  }

  lemma {:induction false} NoneBelow(s: seq<u32>, x: u32)
    requires AtLeast(x, s)
    ensures CountBelow(s, x) == 0
    ensures forall i :: 0 <= i < |s| ==> s[i] >= x
  {
    forall i | 0 <= i < |s|
      ensures s[i] >= x
    {
      assert s[i] in multiset(s);
    }
    if s != [] {
      assert forall y :: y in multiset(s[1..]) ==> y in multiset(s) by { assert s == [s[0]] + s[1..]; }
      NoneBelow(s[1..], x);
    }
  }

  lemma {:induction false} RankOfAscending(s: seq<u32>, k: nat, x: u32)
    requires k < |s| && Ascending(s)
    ensures x > s[k] <==> CountBelow(s, x) > k
  {
    if s[0] >= x {
      NoneBelow(s[1..], x);
      assert k > 0 ==> s[k] == s[1..][k - 1];
    } else if k > 0 {
      RankOfAscending(s[1..], k - 1, x);
    }
  }

  /** Beating element k of the sorted sequence is beating more than k elements of the original. */
  lemma RankByCounting(s: seq<u32>, k: nat, x: u32)
    requires k < |s|
    ensures |Sorted(s)| == |s|
    ensures x > Sorted(s)[k] <==> CountBelow(s, x) > k
  {
    SortedIsPermutation(s);
    CountBelowSorted(s, x);
    RankOfAscending(Sorted(s), k, x);
  }

  /** Beating the median of the eleven is beating at least six of them. */
  lemma BeatsMedianExactly(window: Window, additional: u32, x: u32)
    ensures x > MedianOf(window, additional) <==> CountBelow(window + [additional], x) >= 6
  {
    RankByCounting(window + [additional], 5, x);
  }

  lemma CountBelowSnoc(s: seq<u32>, y: u32, x: u32)
    ensures CountBelow(s + [y], x) == CountBelow(s, x) + (if y < x then 1 else 0)
  {
    CountBelowConcat(s, [y], x);
  }

  method IsLargerThanMedian(arr: Window, additional: u32, currTimestamp: u32) returns (r: bool)
    ensures r <==> currTimestamp > MedianOf(arr, additional)
  {
    var amt := 0;
    for i := 0 to 10
      invariant amt == CountBelow(arr[..i], currTimestamp)
    {
      CountBelowSnoc(arr[..i], arr[i], currTimestamp);
      assert arr[..i + 1] == arr[..i] + [arr[i]];
      if currTimestamp > arr[i] {
        amt := amt + 1;
      }
    }
    if currTimestamp > additional {
      amt := amt + 1;
    }
    assert arr[..10] == arr;
    CountBelowSnoc(arr, additional, currTimestamp);
    BeatsMedianExactly(arr, additional, currTimestamp);
    r := amt > 5;
  }
}

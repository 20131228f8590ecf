/**
 Lists of times, and how many of them lie in an interval.
 */
module Times {
  import opened Text

  ghost predicate Ascending(times: seq<int>) {
    forall i, j :: 0 <= i <= j < |times| ==> times[i] <= times[j]
  }

  /** How many of the times lie in `lo..hi`, without `hi`. */
  function Count(times: seq<int>, lo: int, hi: int): nat {
    if times == [] then 0
    else Count(times[..|times| - 1], lo, hi) + if lo <= times[|times| - 1] < hi then 1 else 0
  }

  lemma CountSnoc(times: seq<int>, t: int, lo: int, hi: int)
    ensures Count(times + [t], lo, hi) == Count(times, lo, hi) + if lo <= t < hi then 1 else 0
  {
    assert (times + [t])[..|times|] == times;
  }

  lemma {:induction false} CountConcat(a: seq<int>, b: seq<int>, lo: int, hi: int)
    ensures Count(a + b, lo, hi) == Count(a, lo, hi) + Count(b, lo, hi)
    decreases |b|
  {
    if b == [] {
      assert a + b == a;
    } else {
      var init, last := b[..|b| - 1], b[|b| - 1];
      SplitLast(b);
      Associate(a, init, [last]);
      CountConcat(a, init, lo, hi);
      CountSnoc(a + init, last, lo, hi);
      CountSnoc(init, last, lo, hi);
    }
  }

  lemma {:induction false} CountAll(times: seq<int>, lo: int, hi: int)
    requires forall t :: t in times ==> lo <= t < hi
    ensures Count(times, lo, hi) == |times|
  {
    if times != [] {
      var init, last := FrontMembers(times);
      CountAll(init, lo, hi);
    }
  }

  lemma {:induction false} CountNone(times: seq<int>, lo: int, hi: int)
    requires forall t :: t in times ==> !(lo <= t < hi)
    ensures Count(times, lo, hi) == 0
  {
    if times != [] {
      var init, last := FrontMembers(times);
      CountNone(init, lo, hi);
    }
  }

  lemma {:induction false} CountWider(times: seq<int>, lo: int, hi: int, lo2: int, hi2: int)
    requires forall t :: t in times && lo <= t < hi ==> lo2 <= t < hi2
    ensures Count(times, lo, hi) <= Count(times, lo2, hi2)
  {
    if times != [] {
      var init, last := FrontMembers(times);
      CountWider(init, lo, hi, lo2, hi2);
    }
  }

  lemma {:induction false} CountSplit(times: seq<int>, lo: int, mid: int, hi: int)
    requires lo <= mid <= hi
    ensures Count(times, lo, hi) == Count(times, lo, mid) + Count(times, mid, hi)
  {
    if times != [] {
      CountSplit(times[..|times| - 1], lo, mid, hi);
    }
  }
}

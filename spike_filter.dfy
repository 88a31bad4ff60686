/** `Naturalspeech2.remove_spikes`: a median filter of odd width over a `[1, 1, T]`
    signal whose edges are padded by repeating the first and last sample. The filter only
    compares samples, so samples are integers here. */
module SpikeFilter {
  import opened Wrappers

  /** The two assertions of `remove_spikes`. */
  datatype SpikeError = NotThreeDimensional | EvenWindow

  predicate Sorted(s: seq<int>) {
    forall i, j :: 0 <= i < j < |s| ==> s[i] <= s[j]
  }

  function Insert(x: int, s: seq<int>): (r: seq<int>)
    requires Sorted(s)
    ensures |r| == |s| + 1
    ensures r[0] == x || (s != [] && r[0] == s[0])
    ensures Sorted(r) && multiset(r) == multiset(s) + multiset{x}
  {
    if s == [] then [x]
    else if x <= s[0] then
      SortedCons(x, s);
      [x] + s
    else
      SortedTail(s);
      var rest := Insert(x, s[1..]);
      assert |s| > 1 ==> s[0] <= s[1];
      SortedCons(s[0], rest);
      assert s == [s[0]] + s[1..];
      [s[0]] + rest
  }

  /** A sample no larger than the head of a sorted sequence can be put in front of it. */
  lemma SortedCons(y: int, t: seq<int>)
    requires Sorted(t) && (t == [] || y <= t[0])
    ensures Sorted([y] + t)
  {
  }

  /** Insertion sort, the reference for "the sorted window". */
  function Sort(s: seq<int>): (r: seq<int>)
    ensures |r| == |s|
    ensures Sorted(r) && multiset(r) == multiset(s)
  {
    if s == [] then []
    else
      assert s == [s[0]] + s[1..];
      Insert(s[0], Sort(s[1..]))
  }

  /** Two sorted arrangements of the same samples are the same sequence. */
  lemma {:induction false} SortedUnique(a: seq<int>, b: seq<int>)
    requires Sorted(a) && Sorted(b) && multiset(a) == multiset(b)
    ensures a == b
  {
    if a != [] {
      HeadIsLeast(b, a[0]);
      HeadIsLeast(a, b[0]);
      var a', b' := a[1..], b[1..];
      TailsAgree(a, b);
      SortedTail(a);
      SortedTail(b);
      SortedUnique(a', b');
      assert a == [a[0]] + a';
      assert b == [b[0]] + b';
    }
  }

  lemma SortedTail(s: seq<int>)
    requires Sorted(s) && s != []
    ensures Sorted(s[1..])
  {
  }

  /** The head of a sorted sequence is at most each of its samples. */
  lemma HeadIsLeast(s: seq<int>, x: int)
    requires Sorted(s) && x in multiset(s)
    ensures s != [] && s[0] <= x
  {
  }

  /** Taking the same head off two arrangements of the same samples leaves arrangements
      of the same samples. */
  lemma TailsAgree(a: seq<int>, b: seq<int>)
    requires a != [] && b != [] && a[0] == b[0] && multiset(a) == multiset(b)
    ensures multiset(a[1..]) == multiset(b[1..])
  {
    assert a == [a[0]] + a[1..];
    assert b == [b[0]] + b[1..];
    assert multiset(a) == multiset{a[0]} + multiset(a[1..]);
    assert multiset(b) == multiset{a[0]} + multiset(b[1..]);
    forall x ensures multiset(a[1..])[x] == multiset(b[1..])[x] {
      assert multiset(a)[x] == multiset{a[0]}[x] + multiset(a[1..])[x];
      assert multiset(b)[x] == multiset{a[0]}[x] + multiset(b[1..])[x];
    }
  }

  /** torch's `median` of an odd-length window: its middle element once sorted. */
  function Median(w: seq<int>): (m: int)
    requires |w| % 2 == 1
    ensures m in w
  {
    assert Sort(w)[|w| / 2] in multiset(Sort(w));
    Sort(w)[|w| / 2]
  }

  /** The median does not depend on how the window is sorted, and it is one of the window's samples. */
  lemma MedianIsMiddleOfSorted(w: seq<int>, s: seq<int>)
    requires |w| % 2 == 1 && Sorted(s) && multiset(s) == multiset(w)
    ensures |s| == |w| && Median(w) == s[|w| / 2]
    ensures Median(w) in multiset(w)
  {
    assert |s| == |w| by { assert |multiset(s)| == |s| && |multiset(w)| == |w|; }
    SortedUnique(s, Sort(w));
    assert Median(w) in multiset(s);
  }

  /** An index of the padded signal moved back into `[0, n - 1]`. */
  function Clamp(p: int, n: nat): (q: nat)
    requires n > 0
    ensures q < n
    ensures 0 <= p < n ==> q == p
  {
    if p < 0 then 0 else if p >= n then n - 1 else p
  }

  /** `x[clamp(i - k)], ..., x[clamp(i + k)]`, the `2k + 1` samples around `i`. */
  function Window(x: seq<int>, i: nat, k: nat): (w: seq<int>)
    requires |x| > 0
    ensures |w| == 2 * k + 1 && |w| % 2 == 1
    ensures forall j :: 0 <= j < |w| ==> w[j] == x[Clamp(i - k + j, |x|)]
  {
    seq(2 * k + 1, j requires 0 <= j < 2 * k + 1 => x[Clamp(i - k + j, |x|)])
  }

  /** The specification of the filter: sample `i` becomes the median of its window. */
  function MedianFilter(x: seq<int>, k: nat): (y: seq<int>)
    ensures |y| == |x|
  {
    seq(|x|, i requires 0 <= i < |x| => Median(Window(x, i, k)))
  }

  /** `F.pad(x, (k, k), mode='replicate')`. */
  function ReplicatePad(x: seq<int>, k: nat): (p: seq<int>)
    requires |x| > 0
    ensures |p| == |x| + 2 * k
    ensures forall q :: 0 <= q < |p| ==> p[q] == x[Clamp(q - k, |x|)]
  {
    seq(k, _ => x[0]) + x + seq(k, _ => x[|x| - 1])
  }

  lemma PaddedWindow(x: seq<int>, k: nat, i: nat)
    requires |x| > 0 && i < |x|
    ensures ReplicatePad(x, k)[i..i + 2 * k + 1] == Window(x, i, k)
  {
  }

  /** `remove_spikes(tensor, window_size)` with the tensor given by its number of
      dimensions and its `[0, 0, :]` signal. */
  method RemoveSpikes(rank: nat, x: seq<int>, windowSize: nat) returns (r: Result<seq<int>, SpikeError>)
    ensures rank != 3 ==> r == Failure(NotThreeDimensional)
    ensures rank == 3 && windowSize % 2 == 0 ==> r == Failure(EvenWindow)
    ensures rank == 3 && windowSize % 2 == 1 ==> r == Success(MedianFilter(x, windowSize / 2))
  {
    if rank != 3 {
      return Failure(NotThreeDimensional);
    }
    if windowSize % 2 != 1 {
      return Failure(EvenWindow);
    }
    var k := windowSize / 2;
    var n := |x|;
    if n == 0 {
      return Success([]);
    }
    var padded := ReplicatePad(x, k);
    var result := new int[n](_ => 0);
    assert windowSize == 2 * k + 1;
    for i := 0 to n
      invariant forall j :: 0 <= j < i ==> result[j] == Median(Window(x, j, k))
    {
      PaddedWindow(x, k, i);
      var w := padded[i..i + windowSize];
      assert w == Window(x, i, k);
      result[i] := Median(w);
    }
    assert result[..] == MedianFilter(x, k);
    return Success(result[..]);
  }

  /** A window of width 1 leaves the signal unchanged. */
  lemma WidthOneIsIdentity(x: seq<int>)
    ensures MedianFilter(x, 0) == x
  {
  }

  /** Every filtered sample is a sample of the input: the filter never invents values. */
  lemma FilterKeepsInputValues(x: seq<int>, k: nat, i: nat)
    requires i < |x|
    ensures exists j :: 0 <= j < |x| && x[j] == MedianFilter(x, k)[i]
  {
    var w := Window(x, i, k);
    MedianIsMiddleOfSorted(w, Sort(w));
    assert Median(w) in w;
    var p :| 0 <= p < |w| && w[p] == Median(w);
    assert x[Clamp(i - k + p, |x|)] == Median(w);
  }

  /** A constant signal is left unchanged. */
  lemma ConstantSignalIsFixed(x: seq<int>, k: nat, v: int)
    requires forall i :: 0 <= i < |x| ==> x[i] == v
    ensures MedianFilter(x, k) == x
  {
  }
}

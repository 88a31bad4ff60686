/** The two torch tensor operations the prompt bookkeeping relies on, stated on nested
    sequences: `masked_select`, which flattens the selected elements in row-major order,
    and `view(b, c, -1)`, which reshapes a flat tensor into `b x c` rows of equal length. */
module TensorOps {
  import opened Wrappers

  /** `x` is a `[b, c, t]` tensor. */
  predicate Shaped3<T>(x: seq<seq<seq<T>>>, b: nat, c: nat, t: nat) {
    |x| == b && forall i :: 0 <= i < b ==> |x[i]| == c && forall k :: 0 <= k < c ==> |x[i][k]| == t
  }

  /** `x` and `m` have the same nested shape. */
  predicate SameShape<T, U>(x: seq<seq<seq<T>>>, m: seq<seq<seq<U>>>) {
    |x| == |m| && forall i :: 0 <= i < |x| ==>
      |x[i]| == |m[i]| && forall k :: 0 <= k < |x[i]| ==> |x[i][k]| == |m[i][k]|
  }

  function Concat<T>(ss: seq<seq<T>>): seq<T> {
    if ss == [] then [] else ss[0] + Concat(ss[1..])
  }

  lemma {:induction false} ConcatUniformLength<T>(ss: seq<seq<T>>, len: nat)
    requires forall k :: 0 <= k < |ss| ==> |ss[k]| == len
    ensures |Concat(ss)| == |ss| * len
  {
    if ss != [] {
      ConcatUniformLength(ss[1..], len);
    }
  }

  /** Splits `s` into `n` consecutive pieces of length `len`. */
  function Chunks<T>(s: seq<T>, n: nat, len: nat): (r: seq<seq<T>>)
    requires |s| == n * len
    ensures |r| == n && forall k :: 0 <= k < n ==> |r[k]| == len
  {
    if n == 0 then [] else [s[..len]] + Chunks(s[len..], n - 1, len)
  }

  lemma {:induction false} ChunksAt<T>(s: seq<T>, n: nat, len: nat, k: nat, j: nat)
    requires |s| == n * len && k < n && j < len
    ensures k * len + j < |s| && Chunks(s, n, len)[k][j] == s[k * len + j]
  {
    if k > 0 {
      ChunksAt(s[len..], n - 1, len, k - 1, j);
      assert (k - 1) * len + j + len == k * len + j;
    }
  }

  lemma {:induction false} ChunksOfConcat<T>(ss: seq<seq<T>>, len: nat)
    requires forall k :: 0 <= k < |ss| ==> |ss[k]| == len
    ensures |Concat(ss)| == |ss| * len
    ensures Chunks(Concat(ss), |ss|, len) == ss
  {
    ConcatUniformLength(ss, len);
    if ss != [] {
      ChunksOfConcat(ss[1..], len);
      var flat := Concat(ss);
      assert flat == ss[0] + Concat(ss[1..]);
      assert flat[..len] == ss[0];
      assert flat[len..] == Concat(ss[1..]);
      assert ss == [ss[0]] + ss[1..];
    }
  }

  /** The elements of `xs` whose mask entry is true, in their order. */
  function SelectRow<T>(xs: seq<T>, ms: seq<bool>): (r: seq<T>)
    requires |xs| == |ms|
  {
    if xs == [] then [] else (if ms[0] then [xs[0]] else []) + SelectRow(xs[1..], ms[1..])
  }

  /** An all-true row mask selects the whole row, an all-false one nothing. */
  lemma {:induction false} SelectRowAllOrNone<T>(xs: seq<T>, ms: seq<bool>)
    requires |xs| == |ms|
    ensures (forall p :: 0 <= p < |ms| ==> ms[p]) ==> SelectRow(xs, ms) == xs
    ensures (forall p :: 0 <= p < |ms| ==> !ms[p]) ==> SelectRow(xs, ms) == []
  {
    if xs != [] {
      assert forall p :: 0 <= p < |ms| - 1 ==> ms[1..][p] == ms[p + 1];
      SelectRowAllOrNone(xs[1..], ms[1..]);
      assert xs == [xs[0]] + xs[1..];
    }
  }

  /** All elements of a `[b, c, t]` tensor in row-major order, as `flatten()`. */
  function Flatten<T>(x: seq<seq<seq<T>>>): seq<T> {
    Concat(seq(|x|, i requires 0 <= i < |x| => Concat(x[i])))
  }

  /** `x.masked_select(m)` for a mask of the same shape as `x`: the selected elements in
      row-major order; an all-true mask selects the whole flattened tensor and an
      all-false mask selects nothing. */
  function MaskedSelect<T>(x: seq<seq<seq<T>>>, m: seq<seq<seq<bool>>>): (r: seq<T>)
    requires SameShape(x, m)
    ensures (forall i, k, p :: 0 <= i < |m| && 0 <= k < |m[i]| && 0 <= p < |m[i][k]| ==> m[i][k][p]) ==>
              r == Flatten(x)
    ensures (forall i, k, p :: 0 <= i < |m| && 0 <= k < |m[i]| && 0 <= p < |m[i][k]| ==> !m[i][k][p]) ==>
              r == []
  {
    var rows := seq(|x|, i requires 0 <= i < |x| =>
      Concat(seq(|x[i]|, k requires 0 <= k < |x[i]| => SelectRow(x[i][k], m[i][k]))));
    SelectAllOrNone(x, m, rows);
    Concat(rows)
  }

  lemma SelectAllOrNone<T>(x: seq<seq<seq<T>>>, m: seq<seq<seq<bool>>>, rows: seq<seq<T>>)
    requires SameShape(x, m)
    requires rows == seq(|x|, i requires 0 <= i < |x| =>
      Concat(seq(|x[i]|, k requires 0 <= k < |x[i]| => SelectRow(x[i][k], m[i][k]))))
    ensures (forall i, k, p :: 0 <= i < |m| && 0 <= k < |m[i]| && 0 <= p < |m[i][k]| ==> m[i][k][p]) ==>
              Concat(rows) == Flatten(x)
    ensures (forall i, k, p :: 0 <= i < |m| && 0 <= k < |m[i]| && 0 <= p < |m[i][k]| ==> !m[i][k][p]) ==>
              Concat(rows) == []
  {
    if forall i, k, p :: 0 <= i < |m| && 0 <= k < |m[i]| && 0 <= p < |m[i][k]| ==> m[i][k][p] {
      forall i | 0 <= i < |x| ensures rows[i] == Concat(x[i]) {
        forall k | 0 <= k < |x[i]| {
          SelectRowAllOrNone(x[i][k], m[i][k]);
        }
        assert seq(|x[i]|, k requires 0 <= k < |x[i]| => SelectRow(x[i][k], m[i][k])) == x[i];
      }
      assert rows == seq(|x|, i requires 0 <= i < |x| => Concat(x[i]));
    }
    if forall i, k, p :: 0 <= i < |m| && 0 <= k < |m[i]| && 0 <= p < |m[i][k]| ==> !m[i][k][p] {
      forall i | 0 <= i < |x| ensures rows[i] == [] {
        forall k | 0 <= k < |x[i]| {
          SelectRowAllOrNone(x[i][k], m[i][k]);
        }
        ConcatOfEmpties(seq(|x[i]|, k requires 0 <= k < |x[i]| => SelectRow(x[i][k], m[i][k])));
      }
      ConcatOfEmpties(rows);
    }
  }

  lemma {:induction false} ConcatOfEmpties<T>(ss: seq<seq<T>>)
    requires forall k :: 0 <= k < |ss| ==> ss[k] == []
    ensures Concat(ss) == []
  {
    if ss != [] {
      ConcatOfEmpties(ss[1..]);
    }
  }

  /** `flat.view(b, c, -1)`: torch refuses a shape whose known dimensions are zero or do
      not divide the number of elements. */
  function View3<T>(flat: seq<T>, b: nat, c: nat): (r: Option<seq<seq<seq<T>>>>)
    ensures r.Some? <==> b > 0 && c > 0 && |flat| % (b * c) == 0
    ensures r.Some? ==> Shaped3(r.value, b, c, |flat| / (b * c))
  {
    if b == 0 || c == 0 || |flat| % (b * c) != 0 then None
    else
      var t := |flat| / (b * c);
      assert |flat| == b * (c * t);
      var rows := Chunks(flat, b, c * t);
      Some(seq(b, i requires 0 <= i < b => Chunks(rows[i], c, t)))
  }

  /** The view is row-major: entry `[i][k][j]` is element `(i * c + k) * t + j` of the flat tensor. */
  lemma View3RowMajor<T>(flat: seq<T>, b: nat, c: nat, t: nat, i: nat, k: nat, j: nat)
    requires View3(flat, b, c).Some? && t == |flat| / (b * c)
    requires i < b && k < c && j < t
    ensures (i * c + k) * t + j < |flat|
    ensures View3(flat, b, c).value[i][k][j] == flat[(i * c + k) * t + j]
  {
    ViewSize(|flat|, b, c, t);
    var rows := Chunks(flat, b, c * t);
    assert View3(flat, b, c).value[i] == Chunks(rows[i], c, t);
    ChunksAt(rows[i], c, t, k, j);
    IndexInBlock(k, c, t, j);
    ChunksAt(flat, b, c * t, i, k * t + j);
    BlockIndex(i, c, k, t, j);
  }

  lemma ViewSize(n: nat, b: nat, c: nat, t: nat)
    requires b > 0 && c > 0 && n % (b * c) == 0 && t == n / (b * c)
    ensures n == b * (c * t)
  {
    assert n == (b * c) * t;
  }

  lemma BlockIndex(i: nat, c: nat, k: nat, t: nat, j: nat)
    ensures i * (c * t) + (k * t + j) == (i * c + k) * t + j
  {
    assert i * (c * t) == (i * c) * t;
    assert (i * c + k) * t == (i * c) * t + k * t;
  }

  lemma IndexInBlock(k: nat, c: nat, t: nat, j: nat)
    requires k < c && j < t
    ensures k * t + j < c * t
  {
    assert (k + 1) * t <= c * t by {
      MulMonotone(k + 1, c, t);
    }
  }

  lemma {:induction false} MulMonotone(x: nat, y: nat, t: nat)
    requires x <= y
    ensures x * t <= y * t
  {
    if x < y {
      MulMonotone(x, y - 1, t);
      assert (y - 1) * t + t == y * t;
    }
  }
}

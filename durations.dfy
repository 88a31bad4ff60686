/** Duration and length bookkeeping around the alignment helpers: the attention mask of
    `_forward_aligner` and `generate_attn`, durations as row sums of the hard alignment,
    `out_len` and the decoder length of `generate_attn`. The alignment itself comes from
    `maximum_path` (and the expansion map from `generate_path`), neither part of this
    model; what they are assumed to deliver is stated as `HardAlignment`. */
module Durations {

  function Sum(xs: seq<int>): int {
    if xs == [] then 0 else Sum(xs[..|xs| - 1]) + xs[|xs| - 1]
  }

  /** A 0/1 mask over `n` positions that is 1 exactly on the first `len` of them, as
      `sequence_mask` produces for a length. */
  predicate IsLengthMask(mask: seq<int>, len: nat) {
    forall t :: 0 <= t < |mask| ==> mask[t] == if t < len then 1 else 0
  }

  /** `unsqueeze(x_mask, -1) * unsqueeze(y_mask, 2)` for one utterance: the outer product
      of the phoneme mask and the frame mask. */
  function AttnMask(xMask: seq<int>, yMask: seq<int>): (m: seq<seq<int>>)
    requires forall i :: 0 <= i < |xMask| ==> xMask[i] == 0 || xMask[i] == 1
    requires forall j :: 0 <= j < |yMask| ==> yMask[j] == 0 || yMask[j] == 1
    ensures |m| == |xMask| && forall i :: 0 <= i < |m| ==> |m[i]| == |yMask|
    ensures forall i, j :: 0 <= i < |xMask| && 0 <= j < |yMask| ==>
              (m[i][j] == 1 <==> xMask[i] == 1 && yMask[j] == 1) && (m[i][j] == 0 || m[i][j] == 1)
  {
    seq(|xMask|, i requires 0 <= i < |xMask| => seq(|yMask|, j requires 0 <= j < |yMask| => xMask[i] * yMask[j]))
  }

  /** With masks built from lengths, the attention mask is 1 exactly on the valid
      `x_len x y_len` sub-rectangle. */
  lemma AttnMaskOfLengths(xMask: seq<int>, xLen: nat, yMask: seq<int>, yLen: nat)
    requires IsLengthMask(xMask, xLen) && IsLengthMask(yMask, yLen)
    ensures forall i, j :: 0 <= i < |xMask| && 0 <= j < |yMask| ==>
              AttnMask(xMask, yMask)[i][j] == if i < xLen && j < yLen then 1 else 0
  {
  }

  predicate Rectangular(mas: seq<seq<int>>, frames: nat) {
    forall i :: 0 <= i < |mas| ==> |mas[i]| == frames
  }

  predicate Binary(mas: seq<seq<int>>) {
    forall i, j :: 0 <= i < |mas| && 0 <= j < |mas[i]| ==> mas[i][j] == 0 || mas[i][j] == 1
  }

  /** Frame `j` of every phoneme's row. */
  function Column(mas: seq<seq<int>>, frames: nat, j: nat): (col: seq<int>)
    requires Rectangular(mas, frames) && j < frames
    ensures |col| == |mas| && forall i :: 0 <= i < |mas| ==> col[i] == mas[i][j]
  {
    seq(|mas|, i requires 0 <= i < |mas| => mas[i][j])
  }

  /** How many phonemes frame `j` is assigned to. */
  function ColumnSum(mas: seq<seq<int>>, frames: nat, j: nat): int
    requires Rectangular(mas, frames) && j < frames
  {
    Sum(Column(mas, frames, j))
  }

  /** What `maximum_path` delivers for one utterance: a `[T_en, T_de]` 0/1 matrix that
      assigns every valid frame (`j < y_len`) to exactly one phoneme and no padding frame
      to any. */
  predicate HardAlignment(mas: seq<seq<int>>, frames: nat, yLen: nat) {
    && yLen <= frames
    && Rectangular(mas, frames)
    && Binary(mas)
    && forall j :: 0 <= j < frames ==> ColumnSum(mas, frames, j) == if j < yLen then 1 else 0
  }

  /** `torch.sum(alignment_mas, -1)`: duration of phoneme `i` is the sum of its row. */
  function Durations(mas: seq<seq<int>>): (d: seq<int>)
    ensures |d| == |mas|
    ensures Binary(mas) ==> forall i :: 0 <= i < |mas| ==> 0 <= d[i] <= |mas[i]|
  {
    BinaryRowsBounds(mas);
    seq(|mas|, i requires 0 <= i < |mas| => Sum(mas[i]))
  }

  lemma BinaryRowsBounds(mas: seq<seq<int>>)
    ensures Binary(mas) ==> forall i :: 0 <= i < |mas| ==> 0 <= Sum(mas[i]) <= |mas[i]|
  {
    forall i | 0 <= i < |mas| {
      BinarySumBounds(mas[i]);
    }
  }

  lemma {:induction false} BinarySumBounds(row: seq<int>)
    ensures (forall j :: 0 <= j < |row| ==> row[j] == 0 || row[j] == 1) ==> 0 <= Sum(row) <= |row|
  {
    if row != [] {
      BinarySumBounds(row[..|row| - 1]);
    }
  }

  /** The frames a 0/1 row assigns to its phoneme. */
  function AssignedFrames(row: seq<int>): set<nat> {
    set j: nat | j < |row| && row[j] == 1
  }

  /** Phoneme `i`'s duration is the number of frames `j` with `alignment_mas[i][j] == 1`. */
  lemma DurationCountsFrames(mas: seq<seq<int>>, i: nat)
    requires Binary(mas) && i < |mas|
    ensures Durations(mas)[i] == |AssignedFrames(mas[i])|
  {
    SumCountsOnes(mas[i]);
  }

  lemma {:induction false} SumCountsOnes(row: seq<int>)
    requires forall j :: 0 <= j < |row| ==> row[j] == 0 || row[j] == 1
    ensures Sum(row) == |AssignedFrames(row)|
  {
    if row != [] {
      var n := |row| - 1;
      var init := row[..n];
      SumCountsOnes(init);
      if row[n] == 1 {
        assert AssignedFrames(row) == AssignedFrames(init) + {n};
      } else {
        assert AssignedFrames(row) == AssignedFrames(init);
      }
    }
  }

  /** Durations of a hard alignment add up to the number of valid frames. */
  lemma DurationsSumToFrames(mas: seq<seq<int>>, frames: nat, yLen: nat)
    requires HardAlignment(mas, frames, yLen)
    ensures Sum(Durations(mas)) == yLen
  {
    RowsEqualColumns(mas, frames);
    assert ColumnSums(mas, frames) == seq(frames, j requires 0 <= j < frames => if j < yLen then 1 else 0);
    SumOfPrefixIndicator(frames, yLen);
  }

  lemma {:induction false} SumOfPrefixIndicator(n: nat, len: nat)
    requires len <= n
    ensures Sum(seq(n, j requires 0 <= j < n => if j < len then 1 else 0)) == len
  {
    if n > 0 {
      var s := seq(n, j requires 0 <= j < n => if j < len then 1 else 0);
      if len == n {
        SumOfPrefixIndicator(n - 1, len - 1);
        assert s[..n - 1] == seq(n - 1, j requires 0 <= j < n - 1 => if j < len - 1 then 1 else 0);
      } else {
        SumOfPrefixIndicator(n - 1, len);
        assert s[..n - 1] == seq(n - 1, j requires 0 <= j < n - 1 => if j < len then 1 else 0);
      }
    }
  }

  /** The column sums of a `[n, frames]` matrix, one per frame. */
  function ColumnSums(mas: seq<seq<int>>, frames: nat): seq<int>
    requires Rectangular(mas, frames)
  {
    seq(frames, j requires 0 <= j < frames => ColumnSum(mas, frames, j))
  }

  /** Summing all entries by rows or by columns gives the same total. */
  lemma {:induction false} RowsEqualColumns(mas: seq<seq<int>>, frames: nat)
    requires Rectangular(mas, frames)
    ensures Sum(Durations(mas)) == Sum(ColumnSums(mas, frames))
    decreases frames
  {
    if frames == 0 {
      assert forall i :: 0 <= i < |mas| ==> mas[i] == [];
      AllZero(Durations(mas));
    } else {
      var f := frames - 1;
      var init := seq(|mas|, i requires 0 <= i < |mas| => mas[i][..f]);
      var last := seq(|mas|, i requires 0 <= i < |mas| => mas[i][f]);
      RowsEqualColumns(init, f);
      RowSumsSplit(mas, init, last, f);
      ColumnSumsSplit(mas, init, last, f);
    }
  }

  /** Dropping the last frame takes its entry off every row sum. */
  lemma RowSumsSplit(mas: seq<seq<int>>, init: seq<seq<int>>, last: seq<int>, f: nat)
    requires Rectangular(mas, f + 1) && |init| == |last| == |mas|
    requires forall i :: 0 <= i < |mas| ==> init[i] == mas[i][..f] && last[i] == mas[i][f]
    ensures Sum(Durations(mas)) == Sum(Durations(init)) + Sum(last)
  {
    forall i | 0 <= i < |mas| ensures Durations(mas)[i] == Durations(init)[i] + last[i] {
      assert mas[i][..|mas[i]| - 1] == init[i];
    }
    SumPointwise(Durations(mas), Durations(init), last);
  }

  /** Dropping the last frame drops the last column sum and keeps the others. */
  lemma ColumnSumsSplit(mas: seq<seq<int>>, init: seq<seq<int>>, last: seq<int>, f: nat)
    requires Rectangular(mas, f + 1) && |init| == |last| == |mas|
    requires forall i :: 0 <= i < |mas| ==> init[i] == mas[i][..f] && last[i] == mas[i][f]
    ensures Rectangular(init, f)
    ensures Sum(ColumnSums(mas, f + 1)) == Sum(ColumnSums(init, f)) + Sum(last)
  {
    PrefixColumns(mas, init, f);
    LastColumn(mas, last, f);
    SumSplitLast(ColumnSums(mas, f + 1), ColumnSums(init, f), Sum(last));
  }

  lemma PrefixColumns(mas: seq<seq<int>>, init: seq<seq<int>>, f: nat)
    requires Rectangular(mas, f + 1) && |init| == |mas|
    requires forall i :: 0 <= i < |mas| ==> init[i] == mas[i][..f]
    ensures Rectangular(init, f) && ColumnSums(mas, f + 1)[..f] == ColumnSums(init, f)
  {
    var cols := ColumnSums(mas, f + 1);
    var initCols := ColumnSums(init, f);
    forall j | 0 <= j < f ensures cols[j] == initCols[j] {
      SameColumn(mas, init, f, j);
    }
  }

  lemma LastColumn(mas: seq<seq<int>>, last: seq<int>, f: nat)
    requires Rectangular(mas, f + 1) && |last| == |mas|
    requires forall i :: 0 <= i < |mas| ==> last[i] == mas[i][f]
    ensures ColumnSums(mas, f + 1)[f] == Sum(last)
  {
    assert Column(mas, f + 1, f) == last;
  }

  lemma SumSplitLast(s: seq<int>, init: seq<int>, last: int)
    requires |s| > 0 && s[..|s| - 1] == init && s[|s| - 1] == last
    ensures Sum(s) == Sum(init) + last
  {
  }

  lemma SameColumn(mas: seq<seq<int>>, init: seq<seq<int>>, f: nat, j: nat)
    requires Rectangular(mas, f + 1) && |init| == |mas| && j < f
    requires forall i :: 0 <= i < |mas| ==> init[i] == mas[i][..f]
    ensures Rectangular(init, f) && Column(mas, f + 1, j) == Column(init, f, j)
  {
  }

  lemma {:induction false} AllZero(xs: seq<int>)
    requires forall i :: 0 <= i < |xs| ==> xs[i] == 0
    ensures Sum(xs) == 0
  {
    if xs != [] {
      AllZero(xs[..|xs| - 1]);
    }
  }

  lemma {:induction false} SumPointwise(s: seq<int>, a: seq<int>, b: seq<int>)
    requires |s| == |a| == |b|
    requires forall i :: 0 <= i < |s| ==> s[i] == a[i] + b[i]
    ensures Sum(s) == Sum(a) + Sum(b)
  {
    if s != [] {
      var n := |s| - 1;
      SumPointwise(s[..n], a[..n], b[..n]);
    }
  }

  /** `out_len = duration.sum() + 1` per utterance, in training from the alignment and in
      inference from the rounded predicted durations (which the source does not clamp). */
  function OutLen(durations: seq<int>): (len: int)
    ensures (forall k :: 0 <= k < |durations| ==> durations[k] >= 0) ==> len >= 1
  {
    NonNegativeSum(durations);
    Sum(durations) + 1
  }

  lemma {:induction false} NonNegativeSum(xs: seq<int>)
    ensures (forall k :: 0 <= k < |xs| ==> xs[k] >= 0) ==> Sum(xs) >= 0
  {
    if xs != [] {
      NonNegativeSum(xs[..|xs| - 1]);
    }
  }

  /** In training `out_len` is one more than the utterance's valid frame count. */
  lemma OutLenOfAlignment(mas: seq<seq<int>>, frames: nat, yLen: nat)
    requires HardAlignment(mas, frames, yLen)
    ensures OutLen(Durations(mas)) == yLen + 1
  {
    DurationsSumToFrames(mas, frames, yLen);
  }

  /** `torch.stack([duration.sum() + 1 for duration in alignment_hard])`. */
  function OutLens(batch: seq<seq<int>>): (lens: seq<int>)
    ensures |lens| == |batch|
    ensures forall b :: 0 <= b < |batch| ==> lens[b] == Sum(batch[b]) + 1
    ensures forall b :: 0 <= b < |batch| && (forall k :: 0 <= k < |batch[b]| ==> batch[b][k] >= 0) ==> lens[b] >= 1
  {
    seq(|batch|, b requires 0 <= b < |batch| => OutLen(batch[b]))
  }

  /** In training every utterance's `out_len` is its valid frame count plus one. */
  lemma OutLensOfAlignments(mas: seq<seq<seq<int>>>, frames: nat, yLens: seq<nat>)
    requires |yLens| == |mas|
    requires forall b :: 0 <= b < |mas| ==> HardAlignment(mas[b], frames, yLens[b])
    ensures var lens := OutLens(seq(|mas|, b requires 0 <= b < |mas| => Durations(mas[b])));
            |lens| == |mas| && forall b :: 0 <= b < |mas| ==> lens[b] == yLens[b] + 1
  {
    forall b | 0 <= b < |mas| {
      OutLenOfAlignment(mas[b], frames, yLens[b]);
    }
  }

  /** The decoder length of `generate_attn` when no frame mask is given:
      `y_lengths = dr.sum(1)` with every length below 1 replaced by 1. */
  function DecoderLength(dr: seq<int>): (len: int)
    ensures len >= 1 && len >= Sum(dr)
    ensures Sum(dr) >= 1 ==> len == Sum(dr)
    ensures Sum(dr) < 1 ==> len == 1
  {
    var total := Sum(dr);
    if total < 1 then 1 else total
  }

  /** `y_lengths` for a batch: the clamped duration sum of every utterance. */
  function DecoderLengths(drs: seq<seq<int>>): (lens: seq<int>)
    ensures |lens| == |drs|
    ensures forall b :: 0 <= b < |drs| ==>
              lens[b] >= 1 && lens[b] >= Sum(drs[b]) && (Sum(drs[b]) >= 1 ==> lens[b] == Sum(drs[b]))
              && (Sum(drs[b]) < 1 ==> lens[b] == 1)
  {
    seq(|drs|, b requires 0 <= b < |drs| => DecoderLength(drs[b]))
  }
}

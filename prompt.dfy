/** The prompt bookkeeping of `Naturalspeech2.forward` and `train_step`: the standardised
    segment size, the mask that is false exactly on each row's prompt segment, and the
    removal of those frames with `masked_select(...).view(B, C, -1)`. The start indices
    come from `rand_segments`, which is not part of this model; they are parameters. */
module PromptSegment {
  import opened Wrappers
  import opened TensorOps

  /** `p_size` is drawn by `random.randint(base - 16, base + 16)`, both ends included. */
  predicate IsPromptDraw(base: nat, pSize: nat) {
    base - 16 <= pSize <= base + 16
  }

  function Min(xs: seq<nat>): (m: nat)
    requires |xs| > 0
    ensures forall i :: 0 <= i < |xs| ==> m <= xs[i]
    ensures exists i :: 0 <= i < |xs| && xs[i] == m
  {
    if |xs| == 1 then xs[0]
    else
      var rest := Min(xs[1..]);
      assert forall i :: 1 <= i < |xs| ==> xs[i] == xs[1..][i - 1];
      if xs[0] <= rest then xs[0] else rest
  }

  /** `seg_size_std`: the drawn size when every latent sequence is longer than it, and
      otherwise half the shortest length (`int(min * 0.5)`, rounded down). */
  function SegmentSize(pSize: nat, latentLengths: seq<nat>): (seg: nat)
    requires |latentLengths| > 0
    ensures seg <= pSize
    ensures forall i :: 0 <= i < |latentLengths| ==> seg <= latentLengths[i]
    ensures Min(latentLengths) > pSize ==> seg == pSize
    ensures Min(latentLengths) <= pSize ==> 2 * seg <= Min(latentLengths) <= 2 * seg + 1
  {
    var shortest := Min(latentLengths);
    if shortest > pSize then pSize else shortest / 2
  }

  /** Whatever `p_size` is drawn, the size stays within the draw window's upper end and
      is never zero once the shortest sequence has two frames and the window starts above zero. */
  lemma SegmentSizeBounds(base: nat, pSize: nat, latentLengths: seq<nat>)
    requires |latentLengths| > 0 && IsPromptDraw(base, pSize)
    ensures SegmentSize(pSize, latentLengths) <= base + 16
    ensures base > 16 && Min(latentLengths) >= 2 ==> SegmentSize(pSize, latentLengths) >= 1
  {
  }

  /** Frame `t` lies in the segment `[start : start + seg]`; a slice past the end of the
      frame axis is cut there, which the bound `t < T` of every use expresses. */
  predicate InSegment(start: nat, seg: nat, t: nat) {
    start <= t < start + seg
  }

  /** The remaining mask as a value: `[b, c, t]`, false exactly on row `i`'s segment. */
  function RemainingMask(b: nat, c: nat, t: nat, starts: seq<nat>, seg: nat): (m: seq<seq<seq<bool>>>)
    requires |starts| == b
    ensures Shaped3(m, b, c, t)
    ensures forall i, k, p :: 0 <= i < b && 0 <= k < c && 0 <= p < t ==>
              (m[i][k][p] <==> !(starts[i] <= p < starts[i] + seg))
  {
    seq(b, i requires 0 <= i < b =>
      seq(c, _ => seq(t, p requires 0 <= p < t => !InSegment(starts[i], seg, p))))
  }

  /** `remaining_mask = ones_like(latents)` followed by the loop that zeroes
      `remaining_mask[i, :, starts[i] : starts[i] + seg]` for every row. */
  method BuildRemainingMask(b: nat, c: nat, t: nat, starts: seq<nat>, seg: nat)
    returns (mask: array3<bool>)
    requires |starts| == b
    ensures mask.Length0 == b && mask.Length1 == c && mask.Length2 == t
    ensures forall i, k, p :: 0 <= i < b && 0 <= k < c && 0 <= p < t ==>
              (mask[i, k, p] <==> !(starts[i] <= p < starts[i] + seg))
    ensures forall i, k, p :: 0 <= i < b && 0 <= k < c && 0 <= p < t ==>
              mask[i, k, p] == RemainingMask(b, c, t, starts, seg)[i][k][p]
  {
    mask := new bool[b, c, t]((_, _, _) => true);
    for i := 0 to b
      invariant forall r, k, p :: 0 <= r < i && 0 <= k < c && 0 <= p < t ==>
                  (mask[r, k, p] <==> !InSegment(starts[r], seg, p))
      invariant forall r, k, p :: i <= r < b && 0 <= k < c && 0 <= p < t ==> mask[r, k, p]
    {
      ZeroSegment(mask, i, starts[i], seg);
    }
  }

  /** One iteration of that loop: only row `i` changes, and in it only the frames of the segment. */
  method ZeroSegment(mask: array3<bool>, i: nat, start: nat, seg: nat)
    requires i < mask.Length0
    modifies mask
    ensures forall r, k, p :: 0 <= r < mask.Length0 && 0 <= k < mask.Length1 && 0 <= p < mask.Length2 ==>
              mask[r, k, p] == if r == i && InSegment(start, seg, p) then false else old(mask[r, k, p])
  {
    forall k, p | 0 <= k < mask.Length1 && start <= p < start + seg && p < mask.Length2 {
      mask[i, k, p] := false;
    }
  }

  /** A mask row that is false exactly on `[lo, hi)` selects the frames before and after it. */
  lemma {:induction false} SelectOutside<T>(xs: seq<T>, ms: seq<bool>, lo: nat, hi: nat)
    requires |xs| == |ms| && lo <= hi <= |xs|
    requires forall p :: 0 <= p < |ms| ==> (ms[p] <==> !(lo <= p < hi))
    ensures SelectRow(xs, ms) == xs[..lo] + xs[hi..]
  {
    if xs != [] {
      var lo', hi' := if lo > 0 then lo - 1 else 0, if hi > 0 then hi - 1 else 0;
      assert forall p :: 0 <= p < |ms[1..]| ==> (ms[1..][p] <==> !(lo' <= p < hi')) by {
        forall p | 0 <= p < |ms[1..]| ensures ms[1..][p] <==> !(lo' <= p < hi') {
          assert ms[1..][p] == ms[p + 1];
        }
      }
      SelectOutside(xs[1..], ms[1..], lo', hi');
      assert SelectRow(xs, ms) == (if ms[0] then [xs[0]] else []) + SelectRow(xs[1..], ms[1..]);
      if lo > 0 {
        assert ms[0];
        assert xs[..lo] == [xs[0]] + xs[1..][..lo'];
        assert xs[hi..] == xs[1..][hi'..];
      } else if hi > 0 {
        assert !ms[0];
        assert xs[hi..] == xs[1..][hi'..];
      } else {
        assert ms[0];
        assert xs == [xs[0]] + xs[1..];
      }
    }
  }

  /** Each row and channel with its prompt segment cut out. */
  function WithoutSegments<T>(x: seq<seq<seq<T>>>, b: nat, c: nat, t: nat, starts: seq<nat>, seg: nat): (y: seq<seq<seq<T>>>)
    requires Shaped3(x, b, c, t) && |starts| == b && seg <= t
    requires forall i :: 0 <= i < b ==> starts[i] + seg <= t
    ensures Shaped3(y, b, c, t - seg)
  {
    seq(b, i requires 0 <= i < b =>
      seq(c, k requires 0 <= k < c => x[i][k][..starts[i]] + x[i][k][starts[i] + seg..]))
  }

  /** `x.masked_select(remaining_mask).view(B, C, -1)`, used on the diffusion estimate and
      on the latents: when every segment fits in the frame axis, the result keeps, per row
      and channel and in order, exactly the frames outside the segment, `T - seg` of them. */
  lemma RemoveSegmentColumns<T>(x: seq<seq<seq<T>>>, b: nat, c: nat, t: nat, starts: seq<nat>, seg: nat)
    requires Shaped3(x, b, c, t) && b > 0 && c > 0 && |starts| == b && seg <= t
    requires forall i :: 0 <= i < b ==> starts[i] + seg <= t
    ensures SameShape(x, RemainingMask(b, c, t, starts, seg))
    ensures View3(MaskedSelect(x, RemainingMask(b, c, t, starts, seg)), b, c)
            == Some(WithoutSegments(x, b, c, t, starts, seg))
  {
    var m := RemainingMask(b, c, t, starts, seg);
    var y := WithoutSegments(x, b, c, t, starts, seg);
    var len := t - seg;
    var rows := seq(b, i requires 0 <= i < b =>
      Concat(seq(c, k requires 0 <= k < c => SelectRow(x[i][k], m[i][k]))));
    forall i | 0 <= i < b
      ensures rows[i] == Concat(y[i]) && |rows[i]| == c * len && Chunks(rows[i], c, len) == y[i]
    {
      RowWithoutSegment(x, b, c, t, starts, seg, i);
    }
    var flat := MaskedSelect(x, m);
    assert seq(|x|, i requires 0 <= i < |x| =>
      Concat(seq(|x[i]|, k requires 0 <= k < |x[i]| => SelectRow(x[i][k], m[i][k])))) == rows;
    assert flat == Concat(rows);
    ChunksOfConcat(rows, c * len);
    assert |flat| == b * (c * len);
    ExactView(|flat|, b, c, len);
    assert Chunks(flat, b, c * len) == rows;
    var v := seq(b, i requires 0 <= i < b => Chunks(Chunks(flat, b, c * len)[i], c, len));
    assert v == y;
  }

  /** Row `i` of the selection: its channels with the segment cut out, concatenated. */
  lemma RowWithoutSegment<T>(x: seq<seq<seq<T>>>, b: nat, c: nat, t: nat, starts: seq<nat>, seg: nat, i: nat)
    requires Shaped3(x, b, c, t) && |starts| == b && seg <= t && i < b
    requires forall i :: 0 <= i < b ==> starts[i] + seg <= t
    ensures var m := RemainingMask(b, c, t, starts, seg);
            var y := WithoutSegments(x, b, c, t, starts, seg);
            var row := Concat(seq(c, k requires 0 <= k < c => SelectRow(x[i][k], m[i][k])));
            row == Concat(y[i]) && |row| == c * (t - seg) && Chunks(row, c, t - seg) == y[i]
  {
    var m := RemainingMask(b, c, t, starts, seg);
    var y := WithoutSegments(x, b, c, t, starts, seg);
    var pieces := seq(c, k requires 0 <= k < c => SelectRow(x[i][k], m[i][k]));
    forall k | 0 <= k < c ensures pieces[k] == y[i][k] {
      SelectOutside(x[i][k], m[i][k], starts[i], starts[i] + seg);
    }
    assert pieces == y[i];
    ChunksOfConcat(y[i], t - seg);
  }

  lemma ExactView(n: nat, b: nat, c: nat, len: nat)
    requires b > 0 && c > 0 && n == b * (c * len)
    ensures n % (b * c) == 0 && n / (b * c) == len
  {
    assert n == (b * c) * len;
    DivMulExact(b * c, len);
  }

  lemma DivMulExact(m: nat, len: nat)
    requires m > 0
    ensures (m * len) % m == 0 && (m * len) / m == len
  {
    var n := m * len;
    var q, r := n / m, n % m;
    assert n == m * q + r && 0 <= r < m;
    assert m * (len - q) == r;
    if len - q >= 1 {
      MulMonotone(1, len - q, m);
      assert false;
    } else if len - q <= -1 {
      MulMonotone(1, q - len, m);
      assert false;
    }
  }
}

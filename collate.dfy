/** Batch collation of `Naturalspeech2Dataset.collate_fn`: token ids and waveforms of the
    items of a batch are copied into preallocated buffers that start out filled with the
    pad id, one row per item, in the order of the batch. */
module Collation {

  /** What collation reads of one dataset item: its token ids and its (single-channel) samples. */
  datatype Item = Item(tokenIds: seq<int>, wav: seq<real>)

  /** The largest length among `rows`, as Python's `max` over the row lengths. */
  function MaxLen<T>(rows: seq<seq<T>>): (m: nat)
    requires |rows| > 0
    ensures forall i :: 0 <= i < |rows| ==> |rows[i]| <= m
    ensures exists i :: 0 <= i < |rows| && |rows[i]| == m
  {
    if |rows| == 1 then |rows[0]|
    else
      var rest := MaxLen(rows[1..]);
      assert forall i :: 1 <= i < |rows| ==> rows[i] == rows[1..][i - 1];
      if |rows[0]| >= rest then |rows[0]| else rest
  }

  function TokenRows(batch: seq<Item>): (rows: seq<seq<int>>)
    ensures |rows| == |batch|
    ensures forall i :: 0 <= i < |batch| ==> rows[i] == batch[i].tokenIds
  {
    seq(|batch|, i requires 0 <= i < |batch| => batch[i].tokenIds)
  }

  function WavRows(batch: seq<Item>): (rows: seq<seq<real>>)
    ensures |rows| == |batch|
    ensures forall i :: 0 <= i < |batch| ==> rows[i] == batch[i].wav
  {
    seq(|batch|, i requires 0 <= i < |batch| => batch[i].wav)
  }

  /** `collate_fn`: the token buffer is `B x max_text_len` and the waveform buffer
      `B x max_wav_len` (its channel axis of size 1 is dropped); both start as the pad id
      and row `i` receives item `i`'s tokens and samples as a prefix. The descending sort
      of the waveform lengths only supplies the number of rows, so the rows keep the
      order of the batch. */
  method CollateFn(batch: seq<Item>, padId: int)
    returns (tokens: array2<int>, tokenLens: seq<nat>, wav: array2<real>, wavLens: seq<nat>)
    requires |batch| > 0
    ensures |tokenLens| == |batch| && |wavLens| == |batch|
    ensures forall i :: 0 <= i < |batch| ==> tokenLens[i] == |batch[i].tokenIds| && wavLens[i] == |batch[i].wav|
    ensures tokens.Length0 == |batch| && tokens.Length1 == MaxLen(TokenRows(batch))
    ensures wav.Length0 == |batch| && wav.Length1 == MaxLen(WavRows(batch))
    ensures forall i, j :: 0 <= i < tokens.Length0 && 0 <= j < tokens.Length1 ==>
              tokens[i, j] == if j < |batch[i].tokenIds| then batch[i].tokenIds[j] else padId
    ensures forall i, j :: 0 <= i < wav.Length0 && 0 <= j < wav.Length1 ==>
              wav[i, j] == if j < |batch[i].wav| then batch[i].wav[j] else padId as real
  {
    var b := |batch|;
    var maxText := MaxLen(TokenRows(batch));
    var maxWav := MaxLen(WavRows(batch));
    tokenLens := seq(b, i requires 0 <= i < b => |batch[i].tokenIds|);
    wavLens := seq(b, i requires 0 <= i < b => |batch[i].wav|);
    tokens := new int[b, maxText]((_, _) => padId);
    wav := new real[b, maxWav]((_, _) => padId as real);
    FillRows(tokens, TokenRows(batch), padId);
    FillRows(wav, WavRows(batch), padId as real);
  }

  /** The copy loop of `collate_fn` over one buffer that is still all padding: afterwards
      row `i` holds `rows[i]` followed by padding. */
  method FillRows<T>(buf: array2<T>, rows: seq<seq<T>>, pad: T)
    requires buf.Length0 == |rows|
    requires forall i :: 0 <= i < |rows| ==> |rows[i]| <= buf.Length1
    requires forall r, j :: 0 <= r < buf.Length0 && 0 <= j < buf.Length1 ==> buf[r, j] == pad
    modifies buf
    ensures forall r, j :: 0 <= r < buf.Length0 && 0 <= j < buf.Length1 ==>
              buf[r, j] == if j < |rows[r]| then rows[r][j] else pad
  {
    for i := 0 to |rows|
      invariant forall r, j :: 0 <= r < i && 0 <= j < buf.Length1 ==>
                  buf[r, j] == if j < |rows[r]| then rows[r][j] else pad
      invariant forall r, j :: i <= r < |rows| && 0 <= j < buf.Length1 ==> buf[r, j] == pad
    {
      WriteRowPrefix(buf, i, rows[i]);
    }
  }

  /** The slice assignment `buf[i, :len(row)] = row`: row `i` gets `row` as a prefix and
      every other entry stays as it was. */
  method WriteRowPrefix<T>(buf: array2<T>, i: nat, row: seq<T>)
    requires i < buf.Length0 && |row| <= buf.Length1
    modifies buf
    ensures forall r, j :: 0 <= r < buf.Length0 && 0 <= j < buf.Length1 ==>
              buf[r, j] == if r == i && j < |row| then row[j] else old(buf[r, j])
  {
    forall j | 0 <= j < |row| {
      buf[i, j] := row[j];
    }
  }
}

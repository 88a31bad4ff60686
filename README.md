# NaturalSpeech2 bookkeeping model

This project models, in Dafny, the integer and array bookkeeping of the NaturalSpeech2
text-to-speech model in `TTS/tts/models/naturalspeech2.py`. That code sits around the
alignment, segmentation and masking helpers the file imports from `TTS.tts.utils.helpers`.
The model covers:

- **Batch collation.** `collate_fn` fills preallocated token and waveform buffers with the
  pad id. It then copies each item into its row prefix (`Collation`).
- **Prompt segment bookkeeping.** This part of `forward` and `train_step` picks the
  standardised segment size and builds the `remaining_mask`, which is false exactly on
  each row's prompt segment. `masked_select(...).view(B, C, -1)` then removes those frames
  (`TensorOps`, `PromptSegment`).
- **Duration and length bookkeeping.** This covers the attention mask as an outer product
  of the two masks, durations as row sums of the hard alignment, `out_len`, and the
  decoder length clamp of `generate_attn` (`Durations`).
- **`format_batch` and the length equalisation of `format_batch_on_device`.** Both rewrite
  entries of the batch dictionary in place, so they are methods of a `Batch` class
  (`BatchFormat`).
- **`remove_spikes`.** This is a median filter of odd width with edge replication
  (`SpikeFilter`).
- **`Naturalspeech2Characters`.** This covers the grapheme concatenation and
  `_create_vocab` (`Characters`).
- **The counting part of `get_attribute_balancer_weights`** (`AttributeBalancer`).
- **The test-sentence dispatch of `get_aux_input_from_test_sentences`** (`AuxInput`).

The imported helpers are treated as black boxes:

- `rand_segments` supplies the segment start indices. They are a parameter, with the
  guarantee that each segment fits in the frame axis.
- `maximum_path` supplies the hard alignment. What it is assumed to produce is the
  predicate `Durations.HardAlignment`: a 0/1 matrix that assigns each valid frame to
  exactly one phoneme.
- `sequence_mask` masks are described by `Durations.IsLengthMask`.
- The drawn `p_size` is a parameter within the `randint` window
  (`PromptSegment.IsPromptDraw`).

The model follows the code in these places, which a reader might not expect:

- At inference the predicted durations are only rounded. They are not clamped at zero,
  so `OutLen` only promises `>= 1` for non-negative durations.
- A single segment size is used for the whole batch. When the shortest latent sequence is
  not longer than `p_size`, the size is half of that shortest length, rounded down. This
  can be 0, with no minimum of 1.
- The waveform buffer is padded with the token pad id, not with zeros.
- The latent/mel length mismatch is always fixed by zero-padding. There is no tolerance
  above which it is fatal.

## Model

| member | source | states |
|---|---|---|
| `Collation.CollateFn` | TTS/tts/models/naturalspeech2.py:342-400 | buffers are `B x max_len`; row `i` holds item `i`'s tokens (samples) followed by the pad id out to the batch maximum, rows in batch order; the lengths returned are the item lengths |
| `Collation.MaxLen` | TTS/tts/models/naturalspeech2.py:364 | the batch maximum length bounds every row and is the length of some row |
| `Collation.FillRows` | TTS/tts/models/naturalspeech2.py:380-386 | the copy loop over a buffer that starts as all padding leaves row `i` holding `rows[i]` followed by the pad value |
| `Collation.WriteRowPrefix` | TTS/tts/models/naturalspeech2.py:383 | the slice assignment writes `row` into the prefix of row `i` and changes nothing else |
| `TensorOps.MaskedSelect` | TTS/tts/models/naturalspeech2.py:815 | `masked_select` with an all-true mask gives the whole tensor flattened in row-major order, and with an all-false mask nothing (also used at line 943) |
| `TensorOps.View3` | TTS/tts/models/naturalspeech2.py:815 | `view(b, c, -1)` succeeds iff `b, c > 0` and `b*c` divides the element count, and then has shape `[b, c, n/(b*c)]` |
| `TensorOps.View3RowMajor` | TTS/tts/models/naturalspeech2.py:815 | the view is row-major: entry `[i][k][j]` is flat element `(i*c + k)*t + j` |
| `PromptSegment.Min` | TTS/tts/models/naturalspeech2.py:777 | `torch.min` of the latent lengths is at most every length and is one of them |
| `PromptSegment.SegmentSize` | TTS/tts/models/naturalspeech2.py:777-780 | the size is at most `p_size` and at most every latent length; it is `p_size` when the minimum exceeds `p_size`, else `floor(min/2)` |
| `PromptSegment.SegmentSizeBounds` | TTS/tts/models/naturalspeech2.py:776-780 | for a draw from `[base-16, base+16]` the size is at most `base+16`, and at least 1 when `base > 16` and every length is at least 2 |
| `PromptSegment.RemainingMask` | TTS/tts/models/naturalspeech2.py:786-788 | the mask has shape `[B, C, T]` and entry `[i][c][t]` is false iff `idx_i <= t < idx_i + seg` |
| `PromptSegment.BuildRemainingMask` | TTS/tts/models/naturalspeech2.py:786-788 | the mask built from all-true by the per-row loop is false exactly on each row's segment (slice cut at `T`) and equals `RemainingMask` |
| `PromptSegment.ZeroSegment` | TTS/tts/models/naturalspeech2.py:788 | one loop iteration clears only row `i`'s segment frames, for every channel, and leaves all other entries unchanged |
| `PromptSegment.SelectOutside` | TTS/tts/models/naturalspeech2.py:815 | a row mask false exactly on `[lo, hi)` selects `x[..lo] + x[hi..]` |
| `PromptSegment.RemoveSegmentColumns` | TTS/tts/models/naturalspeech2.py:815 | when every `idx_i + seg <= T`, `masked_select(remaining_mask).view(B, C, -1)` is, per row and channel, `x[..idx_i] + x[idx_i+seg..]`, of length `T - seg` and in order (used again on the latents at line 943) |
| `Durations.AttnMask` | TTS/tts/models/naturalspeech2.py:710 | the attention mask is `[T_en, T_de]`, 0/1, and 1 iff both the phoneme and the frame are valid |
| `Durations.AttnMaskOfLengths` | TTS/tts/models/naturalspeech2.py:739 | with length masks the attention mask is 1 exactly on the `x_len x y_len` sub-rectangle |
| `Durations.Durations` | TTS/tts/models/naturalspeech2.py:716 | one duration per phoneme; for a 0/1 alignment each lies between 0 and the frame count |
| `Durations.DurationCountsFrames` | TTS/tts/models/naturalspeech2.py:716 | phoneme `i`'s duration is the number of frames `j` with `alignment_mas[i][j] = 1` |
| `Durations.DurationsSumToFrames` | TTS/tts/models/naturalspeech2.py:716 | the durations of a hard alignment add up to the number of valid frames |
| `Durations.OutLen` | TTS/tts/models/naturalspeech2.py:804-807 | `out_len = sum + 1` is at least 1 whenever the durations are non-negative |
| `Durations.OutLenOfAlignment` | TTS/tts/models/naturalspeech2.py:804-807 | in training `out_len` equals the valid frame count plus one |
| `Durations.OutLens` | TTS/tts/models/naturalspeech2.py:897-900 | one `out_len` per utterance, in batch order: each is its duration sum plus one, and at least 1 when its durations are non-negative |
| `Durations.OutLensOfAlignments` | TTS/tts/models/naturalspeech2.py:804-807 | when every utterance's alignment is a hard alignment, the batch of `out_len` values is the valid frame counts plus one, utterance by utterance |
| `Durations.DecoderLength` | TTS/tts/models/naturalspeech2.py:736-737 | the decoder length is `max(1, sum)`: at least 1 and at least the duration sum, equal to the sum whenever the sum is at least 1, and exactly 1 when the sum is below 1 |
| `Durations.DecoderLengths` | TTS/tts/models/naturalspeech2.py:736-737 | every utterance's `y_lengths` entry is `max(1, sum)` of its durations: the sum when it is at least 1, and exactly 1 otherwise |
| `SpikeFilter.RemoveSpikes` | TTS/tts/models/naturalspeech2.py:842-858 | rejects a non-3-D tensor, then an even window; otherwise it returns a signal of the same length whose sample `i` is the median of the clamped window `x[clamp(i-k)] .. x[clamp(i+k)]`, `k = w // 2` |
| `SpikeFilter.ReplicatePad` | TTS/tts/models/naturalspeech2.py:851 | replicate padding has length `T + 2k` and position `q` holds `x[clamp(q - k)]` |
| `SpikeFilter.PaddedWindow` | TTS/tts/models/naturalspeech2.py:856 | the slice `padded[i : i + w]` is exactly the clamped window around `i` |
| `SpikeFilter.Median` | TTS/tts/models/naturalspeech2.py:856 | the median of an odd-length window is one of its samples |
| `SpikeFilter.MedianIsMiddleOfSorted` | TTS/tts/models/naturalspeech2.py:856 | the median is the middle element of any sorted arrangement of the window, and is one of its samples |
| `SpikeFilter.WidthOneIsIdentity` | TTS/tts/models/naturalspeech2.py:842-858 | a window of width 1 leaves the signal unchanged |
| `SpikeFilter.FilterKeepsInputValues` | TTS/tts/models/naturalspeech2.py:856 | every output sample is some input sample |
| `SpikeFilter.ConstantSignalIsFixed` | TTS/tts/models/naturalspeech2.py:856 | a constant signal is left unchanged |
| `Characters.Graphemes` | TTS/tts/models/naturalspeech2.py:1324-1325 | the phoneme characters, when given, are appended to the graphemes |
| `Characters.Symbols` | TTS/tts/models/naturalspeech2.py:1329 | `list(s)` has one single-character entry per character, in order |
| `Characters.CreateVocab` | TTS/tts/models/naturalspeech2.py:1328-1332 | the vocabulary is `[pad] + punctuations + characters + [blank]`, of length `2 + |p| + |c|`, starting with pad and ending with blank; `id_to_char[i] = vocab[i]`; `char_to_id` has exactly the vocabulary's symbols as keys |
| `Characters.Enumerate` | TTS/tts/models/naturalspeech2.py:1330 | the dict comprehension maps each symbol to an index holding it with no later index holding it, i.e. its last index |
| `Characters.IndexToSymbol` | TTS/tts/models/naturalspeech2.py:1332 | the inverse table has keys `0 .. |vocab|-1` and maps `i` to `vocab[i]` |
| `Characters.IdsRoundTrip` | TTS/tts/models/naturalspeech2.py:1330-1332 | for every symbol `c` of the vocabulary, `id_to_char[char_to_id[c]] = c`, with `char_to_id[c]` the last index of `c` |
| `Characters.PadIdIsZero` | TTS/tts/models/naturalspeech2.py:1329-1330 | the pad symbol's id is 0 iff it occurs nowhere else in the vocabulary |
| `AttributeBalancer.Unique` | TTS/tts/models/naturalspeech2.py:238 | `np.unique` gives the distinct names, strictly increasing in code-point order |
| `AttributeBalancer.IndexOf` | TTS/tts/models/naturalspeech2.py:239 | `list.index` gives the first position holding the name |
| `AttributeBalancer.Count` | TTS/tts/models/naturalspeech2.py:240 | a name's count is at most the number of samples, and at least 1 for a name that occurs |
| `AttributeBalancer.Inverse` | TTS/tts/models/naturalspeech2.py:241 | `1.0 / attr_count` of a count of at least 1 lies in `(0, 1]` and times the count gives 1 |
| `AttributeBalancer.CountAttributes` | TTS/tts/models/naturalspeech2.py:237-242 | `attr_count[k]` counts the `k`-th distinct name (at least 1), and sample `i`'s weight is `1 / count(name_i)` |
| `AttributeBalancer.EachNameWeighsOne` | TTS/tts/models/naturalspeech2.py:240-242 | before normalisation the samples of each name weigh 1 in total |
| `AttributeBalancer.Multipliers` | TTS/tts/models/naturalspeech2.py:244-249 | the assertion passes iff every multiplier key is a known name; each sample then gets its name's multiplier or 1.0 |
| `BatchFormat.NameIds` | TTS/tts/models/naturalspeech2.py:1095 | the ids map each name through the table in order, and the lookup fails iff some name is missing, naming the first missing one |
| `BatchFormat.LookupIds` | TTS/tts/models/naturalspeech2.py:1094-1098 | there are no ids without a manager or with an empty table; otherwise the lookup succeeds iff every name is in the table, the ids are the table's values in name order, and a failure names the first missing name |
| `BatchFormat.Batch.FormatBatch` | TTS/tts/models/naturalspeech2.py:1089-1107 | languages are looked up before speakers; a missing name leaves the batch unchanged, otherwise both id entries are replaced |
| `BatchFormat.PadFrames` | TTS/tts/models/naturalspeech2.py:1145 | zero padding on the last axis keeps existing frames and appends `extra` zero frames |
| `BatchFormat.Batch.EqualizeLengths` | TTS/tts/models/naturalspeech2.py:1143-1150 | afterwards latents and mel both have `max(T_lat, T_mel)` frames; the shorter one is zero-padded and the other is unchanged, so the equality assertion holds |
| `AuxInput.AuxInputFromTestSentence` | TTS/tts/models/naturalspeech2.py:1027-1038 | a string gives the text; a list of one gives the text; a list of two gives text and voice prompt; any other list gives neither |

## Left out

- The imported helpers are not part of this model: `maximum_path`, `generate_path`,
  `average_over_durations`, `rand_segments`, `segment` and `sequence_mask` are defined in
  `TTS/tts/utils/helpers.py`, `prepare_data` in `TTS/tts/utils/data.py` and `f0_to_coarse`
  in `TTS/utils/audio/numpy_transforms.py`, all outside this model; what the model needs
  from them is a hypothesis or a parameter.
- Neural components are learned floating-point layers or foreign library calls, so they
  are left out. These are the encoders, predictors, aligner network, diffusion model,
  codec, embeddings and the einsum expansion in `expand_encodings`.
- Feature extraction is floating-point signal processing with process-wide caches, so it
  is left out. This covers STFT, mel spectrograms and their caches.
- The remaining floating-point code is left out:
  - the pitch mel-scale transform and its inverse;
  - `min_max_scaler`;
  - the balancer's L2 normalisation and the product of weights and multipliers;
  - `token_rel_lens` / `wav_rel_lens`;
  - the `int(T * rel)` length derivation and the mask multiplication that zeroes padding
    frames;
  - the NaN assertion on the soft alignment.
- `random.randint` is replaced by the drawn value as a parameter.
- PromptSegment.IsPromptDraw: a negative draw, possible only when the configured base is
  below 16, is not modelled, because `p_size` is a natural number here.
- Dataset I/O is left out: `__getitem__`, the `lengths` property, the pitch data
  preparation in `collate_fn`, samplers, loaders, distributed synchronisation, logging,
  plotting, `test_run` and checkpoint loading.
- Collation.CollateFn requires a non-empty batch, because the source indexes `batch[0]`
  and takes a `max` over the items. The waveform's channel axis of size 1 is dropped.
- SpikeFilter.RemoveSpikes filters only the `[0, 0, :]` signal, whose shape the function
  documents as `[1, 1, T]`. For a 3-D input with more rows or channels, the source leaves
  the other entries zero; the model does not represent them. A negative window width is
  not modelled, because the width is a natural number here. An empty signal gives an
  empty result; torch's behaviour when replicate-padding a length-0 signal is not
  modelled.
- AttributeBalancer.CountAttributes: the weights are exact reals. The float64 rounding of `1.0 / attr_count` and its cast to float32 are not modelled, so `EachNameWeighsOne`'s total of exactly 1 holds only in exact arithmetic.
- AttributeBalancer.Multipliers reports an unknown multiplier key without naming it,
  because the model takes the multiplier dictionary as a map without key order.
- Characters.CreateVocab takes the stored punctuations and characters as inputs, because
  how `BaseCharacters` normalises them is not part of this model.
- `_freeze_layers`, prints and hard-coded device and codec paths are wiring, so they are
  left out.

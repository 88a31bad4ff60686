/** The two methods that rewrite entries of the batch dictionary in place:
    `format_batch`, which maps language and speaker names to ids, and the length
    equalisation of `format_batch_on_device`, which right-pads the shorter of the latent
    and mel tensors with zero frames. The codec encoder and the spectrogram computation
    that produce those tensors are not part of this model; their results are fields. */
module BatchFormat {
  import opened Wrappers

  /** A name missing from a manager's `name_to_id` table (Python raises `KeyError`). */
  datatype FormatError = UnknownName(name: string)

  /** `[name_to_id[n] for n in names]`, failing on the first name the table lacks. */
  function NameIds(nameToId: map<string, int>, names: seq<string>): (r: Result<seq<int>, FormatError>)
    ensures r.Success? <==> forall i :: 0 <= i < |names| ==> names[i] in nameToId
    ensures r.Success? ==> |r.value| == |names| && forall i :: 0 <= i < |names| ==> r.value[i] == nameToId[names[i]]
    ensures r.Failure? ==>
              exists i :: (0 <= i < |names| && names[i] == r.error.name && names[i] !in nameToId &&
                           forall j :: 0 <= j < i ==> names[j] in nameToId)
  {
    if names == [] then Success([])
    else if names[0] !in nameToId then Failure(UnknownName(names[0]))
    else
      match NameIds(nameToId, names[1..])
      case Failure(e) =>
        assert forall i :: 1 <= i < |names| ==> names[i] == names[1..][i - 1];
        Failure(e)
      case Success(rest) =>
        assert forall i :: 1 <= i < |names| ==> names[i] == names[1..][i - 1];
        Success([nameToId[names[0]]] + rest)
  }

  /** The ids for one kind of name: none without a manager or with an empty table. */
  function LookupIds(manager: Option<map<string, int>>, names: seq<string>): (r: Result<Option<seq<int>>, FormatError>)
    ensures (manager.None? || manager.value == map[]) ==> r == Success(None)
    ensures manager.Some? && manager.value != map[] ==>
              (r.Success? <==> forall i :: 0 <= i < |names| ==> names[i] in manager.value)
    ensures manager.Some? && manager.value != map[] && r.Success? ==>
              r.value.Some? && |r.value.value| == |names| &&
              forall i :: 0 <= i < |names| ==> r.value.value[i] == manager.value[names[i]]
    ensures r.Failure? ==>
              manager.Some? &&
              exists i :: (0 <= i < |names| && names[i] == r.error.name && names[i] !in manager.value &&
                           forall j :: 0 <= j < i ==> names[j] in manager.value)
  {
    if manager.None? || manager.value == map[] then Success(None)
    else
      match NameIds(manager.value, names)
      case Success(ids) => Success(Some(ids))
      case Failure(e) => Failure(e)
  }

  /** Every innermost row of `x` has `frames` entries. */
  predicate HasFrames(x: seq<seq<seq<real>>>, frames: nat) {
    forall i, c :: 0 <= i < |x| && 0 <= c < |x[i]| ==> |x[i][c]| == frames
  }

  /** `F.pad(x, (0, extra), mode='constant', value=0)` on the last axis. */
  function PadFrames(x: seq<seq<seq<real>>>, frames: nat, extra: nat): (y: seq<seq<seq<real>>>)
    requires HasFrames(x, frames)
    ensures HasFrames(y, frames + extra)
    ensures |y| == |x| && forall i :: 0 <= i < |x| ==> |y[i]| == |x[i]|
    ensures forall i, c, t :: 0 <= i < |x| && 0 <= c < |x[i]| && 0 <= t < frames ==> y[i][c][t] == x[i][c][t]
    ensures forall i, c, t :: 0 <= i < |x| && 0 <= c < |x[i]| && frames <= t < frames + extra ==> y[i][c][t] == 0.0
  {
    seq(|x|, i requires 0 <= i < |x| =>
      seq(|x[i]|, c requires 0 <= c < |x[i]| => x[i][c] + seq(extra, _ => 0.0)))
  }

  /** Padding by nothing changes nothing. */
  lemma PadByZeroIsIdentity(x: seq<seq<seq<real>>>, frames: nat)
    requires HasFrames(x, frames)
    ensures PadFrames(x, frames, 0) == x
  {
    forall i | 0 <= i < |x| ensures PadFrames(x, frames, 0)[i] == x[i] {
      forall c | 0 <= c < |x[i]| ensures PadFrames(x, frames, 0)[i][c] == x[i][c] {
        assert x[i][c] + seq(0, _ => 0.0) == x[i][c];
      }
    }
  }

  /** The entries of the batch dictionary these two methods read and write. */
  class Batch {
    var languageNames: seq<string>
    var speakerNames: seq<string>
    var languageIds: Option<seq<int>>
    var speakerIds: Option<seq<int>>
    var latents: seq<seq<seq<real>>>
    var latentFrames: nat
    var mel: seq<seq<seq<real>>>
    var melFrames: nat

    /** The frame counts are the tensors' last dimension. */
    ghost predicate Valid()
      reads this
    {
      HasFrames(latents, latentFrames) && HasFrames(mel, melFrames)
    }

    constructor (languageNames: seq<string>, speakerNames: seq<string>,
                 latents: seq<seq<seq<real>>>, latentFrames: nat,
                 mel: seq<seq<seq<real>>>, melFrames: nat)
      requires HasFrames(latents, latentFrames) && HasFrames(mel, melFrames)
      ensures Valid()
      ensures this.languageNames == languageNames && this.speakerNames == speakerNames
      ensures languageIds == None && speakerIds == None
      ensures this.latents == latents && this.latentFrames == latentFrames
      ensures this.mel == mel && this.melFrames == melFrames
    {
      this.languageNames, this.speakerNames := languageNames, speakerNames;
      languageIds, speakerIds := None, None;
      this.latents, this.latentFrames := latents, latentFrames;
      this.mel, this.melFrames := mel, melFrames;
    }

    /** `format_batch`: language ids first, then speaker ids; a missing name raises
        before either entry is written, otherwise both entries are replaced. */
    method FormatBatch(languages: Option<map<string, int>>, speakers: Option<map<string, int>>)
      returns (err: Option<FormatError>)
      modifies this`languageIds, this`speakerIds
      ensures LookupIds(languages, languageNames).Failure? ==>
                err == Some(LookupIds(languages, languageNames).error)
                && languageIds == old(languageIds) && speakerIds == old(speakerIds)
      ensures LookupIds(languages, languageNames).Success? && LookupIds(speakers, speakerNames).Failure? ==>
                err == Some(LookupIds(speakers, speakerNames).error)
                && languageIds == old(languageIds) && speakerIds == old(speakerIds)
      ensures LookupIds(languages, languageNames).Success? && LookupIds(speakers, speakerNames).Success? ==>
                err == None
                && languageIds == LookupIds(languages, languageNames).value
                && speakerIds == LookupIds(speakers, speakerNames).value
    {
      var lang := LookupIds(languages, languageNames);
      if lang.Failure? {
        return Some(lang.error);
      }
      var spk := LookupIds(speakers, speakerNames);
      if spk.Failure? {
        return Some(spk.error);
      }
      languageIds := lang.value;
      speakerIds := spk.value;
      return None;
    }

    /** The padding step of `format_batch_on_device`: whichever of latents and mel has
        fewer frames is padded with zero frames up to the other's count, after which the
        assertion that both frame counts agree holds. */
    method EqualizeLengths()
      requires Valid()
      modifies this`latents, this`latentFrames, this`mel, this`melFrames
      ensures Valid()
      ensures latentFrames == melFrames
      ensures latentFrames == if old(latentFrames) < old(melFrames) then old(melFrames) else old(latentFrames)
      ensures latents == PadFrames(old(latents), old(latentFrames), latentFrames - old(latentFrames))
      ensures mel == PadFrames(old(mel), old(melFrames), melFrames - old(melFrames))
      ensures old(latentFrames) >= old(melFrames) ==> latents == old(latents)
      ensures old(melFrames) >= old(latentFrames) ==> mel == old(mel)
    {
      if latentFrames < melFrames {
        var diff := melFrames - latentFrames;
        latents := PadFrames(latents, latentFrames, diff);
        latentFrames := latentFrames + diff;
        PadByZeroIsIdentity(mel, melFrames);
      } else if latentFrames > melFrames {
        var diff := latentFrames - melFrames;
        mel := PadFrames(mel, melFrames, diff);
        melFrames := melFrames + diff;
        PadByZeroIsIdentity(latents, latentFrames);
      } else {
        PadByZeroIsIdentity(latents, latentFrames);
        PadByZeroIsIdentity(mel, melFrames);
      }
    }
  }
}

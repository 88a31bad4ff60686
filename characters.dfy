/** `Naturalspeech2Characters`: the graphemes it is built from and the vocabulary of
    `_create_vocab`, `[pad] + punctuations + characters + [blank]`, with the two lookup
    tables built by enumerating it (the constructor passes `"<BLNK>"` as the blank). How `BaseCharacters` stores the characters it is
    given is not part of this model: the stored punctuations and characters are inputs. */
module Characters {
  import opened Wrappers

  /** `graphemes += ipa_characters` when phonemes are given. */
  function Graphemes(graphemes: string, ipaCharacters: Option<string>): (g: string)
    ensures ipaCharacters.None? ==> g == graphemes
    ensures ipaCharacters.Some? ==>
              |g| == |graphemes| + |ipaCharacters.value| &&
              g[..|graphemes|] == graphemes && g[|graphemes|..] == ipaCharacters.value
  {
    match ipaCharacters
    case None => graphemes
    case Some(ipa) => graphemes + ipa
  }

  /** `list(s)`: one single-character entry per character. */
  function Symbols(s: string): (r: seq<string>)
    ensures |r| == |s| && forall i :: 0 <= i < |s| ==> r[i] == [s[i]]
  {
    seq(|s|, i requires 0 <= i < |s| => [s[i]])
  }

  datatype Vocabulary = Vocabulary(vocab: seq<string>, charToId: map<string, nat>, idToChar: map<nat, string>)

  /** `{char: idx for idx, char in enumerate(v[..n])}`: later indices overwrite earlier ones. */
  function Enumerate(v: seq<string>, n: nat): (m: map<string, nat>)
    requires n <= |v|
    ensures forall c :: c in m <==> c in v[..n]
    ensures forall c :: c in m ==> m[c] < n && v[m[c]] == c
    ensures forall c, j :: c in m && m[c] < j < n ==> v[j] != c
  {
    if n == 0 then map[]
    else
      var m' := Enumerate(v, n - 1);
      assert v[..n] == v[..n - 1] + [v[n - 1]];
      m'[v[n - 1] := n - 1]
  }

  /** `{idx: char for idx, char in enumerate(v)}`. */
  function IndexToSymbol(v: seq<string>): (m: map<nat, string>)
    ensures forall i: nat :: i in m <==> i < |v|
    ensures forall i :: 0 <= i < |v| ==> m[i] == v[i]
  {
    map i: nat | i < |v| :: v[i]
  }

  /** `_create_vocab`. */
  function CreateVocab(pad: string, punctuations: string, characters: string, blank: string): (r: Vocabulary)
    ensures |r.vocab| == 2 + |punctuations| + |characters|
    ensures r.vocab[0] == pad && r.vocab[|r.vocab| - 1] == blank
    ensures forall i :: 0 <= i < |punctuations| ==> r.vocab[1 + i] == [punctuations[i]]
    ensures forall i :: 0 <= i < |characters| ==> r.vocab[1 + |punctuations| + i] == [characters[i]]
    ensures forall i :: 0 <= i < |r.vocab| ==> i in r.idToChar && r.idToChar[i] == r.vocab[i]
    ensures forall c :: c in r.charToId <==> c in r.vocab
  {
    var v := [pad] + Symbols(punctuations) + Symbols(characters) + [blank];
    assert v[..|v|] == v;
    Vocabulary(v, Enumerate(v, |v|), IndexToSymbol(v))
  }

  /** With repeated symbols `char_to_id[c]` is the last index of `c`, so looking the id
      up again gives `c` back for every symbol of the vocabulary. */
  lemma IdsRoundTrip(pad: string, punctuations: string, characters: string, blank: string, c: string)
    requires c in [pad] + Symbols(punctuations) + Symbols(characters) + [blank]
    ensures var r := CreateVocab(pad, punctuations, characters, blank);
            c in r.charToId && r.charToId[c] in r.idToChar && r.idToChar[r.charToId[c]] == c
    ensures var r := CreateVocab(pad, punctuations, characters, blank);
            forall j :: r.charToId[c] < j < |r.vocab| ==> r.vocab[j] != c
  {
  }

  /** The pad symbol has id 0 exactly when it occurs nowhere else in the vocabulary. */
  lemma PadIdIsZero(pad: string, punctuations: string, characters: string, blank: string)
    ensures var r := CreateVocab(pad, punctuations, characters, blank);
            pad in r.charToId && (r.charToId[pad] == 0 <==> pad !in r.vocab[1..])
  {
  }
}

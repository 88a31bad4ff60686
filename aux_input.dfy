/** `get_aux_input_from_test_sentences`: a test sentence is either a plain string or a
    list holding the text and, optionally, a voice prompt. */
module AuxInput {
  import opened Wrappers

  datatype SentenceInfo = Sentence(text: string) | SentenceList(items: seq<string>)

  datatype TestAux = TestAux(text: Option<string>, voicePrompt: Option<string>)

  /** A list of one element gives the text, of two the text and the voice prompt; a list
      of any other length gives neither. */
  function AuxInputFromTestSentence(info: SentenceInfo): (r: TestAux)
    ensures r.text.Some? <==> info.Sentence? || 1 <= |info.items| <= 2
    ensures r.voicePrompt.Some? <==> info.SentenceList? && |info.items| == 2
    ensures info.Sentence? ==> r.text == Some(info.text)
    ensures info.SentenceList? && r.text.Some? ==> r.text.value == info.items[0]
    ensures r.voicePrompt.Some? ==> r.voicePrompt.value == info.items[1]
  {
    match info
    case Sentence(text) => TestAux(Some(text), None)
    case SentenceList(items) =>
      if |items| == 1 then TestAux(Some(items[0]), None)
      else if |items| == 2 then TestAux(Some(items[0]), Some(items[1]))
      else TestAux(None, None)
  }
}

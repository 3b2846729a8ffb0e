/**
 * The two message shapes the chat route handles: the UI messages the client
 * posts, and the model messages handed to the language model.
 */
module Messages {
  import opened Text

  datatype Role = User | Assistant | System

  /** A part of a UI message: its text parts matter here, every other kind is carried along opaquely. */
  datatype UIPart = UIText(text: string) | UIOther(kind: string)

  datatype UIMessage = UIMessage(role: Role, parts: seq<UIPart>)

  /** A part of a model message's content array. */
  datatype ModelPart = PText(text: string) | PImage(image: string) | POther

  /** A model message's content: a bare string, or an array of parts. */
  datatype Content = Plain(text: string) | Parts(parts: seq<ModelPart>)

  datatype ModelMessage = ModelMessage(role: Role, content: Content)

  /** A user message whose content is the given text parts, in order. */
  function UserTexts(texts: seq<string>): (m: ModelMessage)
    ensures m.role == User && m.content.Parts? && |m.content.parts| == |texts|
    ensures forall i :: 0 <= i < |texts| ==> m.content.parts[i] == PText(texts[i])
  {
    ModelMessage(User, Parts(seq(|texts|, i requires 0 <= i < |texts| => PText(texts[i]))))
  }

  /** The texts of the text parts of a part list, in order. */
  function PartTexts(ps: seq<ModelPart>): seq<string> {
    if ps == [] then []
    else (if ps[0].PText? then [ps[0].text] else []) + PartTexts(ps[1..])
  }

  /** The text parts of a message built by `UserTexts` read back as the texts it was built from. */
  lemma {:induction false} UserTextsRoundTrip(texts: seq<string>)
    ensures PartTexts(UserTexts(texts).content.parts) == texts
  {
    var ps := UserTexts(texts).content.parts;
    if texts != [] {
      var m := UserTexts(texts[1..]);
      assert ps[1..] == m.content.parts;
      UserTextsRoundTrip(texts[1..]);
      assert [texts[0]] + texts[1..] == texts;
    }
  }
}

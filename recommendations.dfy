/** The AI recommendations: a fixed system prompt, the genre as the user's message, one confirmed call. */
module Recommendations {

  /** The two role-tagged messages a chat model accepts. */
  datatype ChatMessage = SystemMessage(content: string) | HumanMessage(content: string)

  /** The chat model seen from outside: messages in, the content of its reply out. */
  type ChatModel = seq<ChatMessage> -> string

  /** The prompt text before its placeholder. */
  const PromptHead: string :=
    "\n            You are a film expert providing movie recommendations based on the genre '"

  /** The placeholder, written in the prompt but never filled in: the string is not formatted. */
  const Placeholder: string := "{genre}"

  /** The prompt text after its placeholder. */
  const PromptTail: string :=
    "'.\n            Recommend 5 top movies in this genre. Be concise yet engaging. Also, remind the user\n"
    + "            to enjoy watching the movies and encourage them to write reviews on the website.\n        "

  /** The system prompt, exactly as sent. */
  const Prompt: string := PromptHead + Placeholder + PromptTail

  /** The messages of the one model call: the constant prompt, then the genre as the user's query. */
  function Conversation(genre: string): (c: seq<ChatMessage>)
    ensures |c| == 2 && c[0].SystemMessage? && c[1].HumanMessage?
    ensures forall m :: m in c && m.SystemMessage? ==> m.content == Prompt
    ensures forall m :: m in c && m.HumanMessage? ==> m.content == genre
  {
    [SystemMessage(Prompt), HumanMessage(genre)]
  }

  /** The list `ai_recommendations` returns for a press (or not) of Continue. */
  function RecommendationList(genre: string, continuePressed: bool, model: ChatModel): (r: seq<string>)
    ensures |r| <= 1
    ensures r == [] <==> !continuePressed
    ensures continuePressed ==> r[0] == model(Conversation(genre))
  {
    if continuePressed then [model(Conversation(genre))] else []
  }

  /** `ai_recommendations(genre)`: the list starts empty; only a press of Continue calls the model and appends its reply. */
  method AiRecommendations(genre: string, continuePressed: bool, model: ChatModel) returns (message: seq<string>)
    ensures message == [] <==> !continuePressed
    ensures continuePressed ==> message == [model([SystemMessage(Prompt), HumanMessage(genre)])]
    ensures message == RecommendationList(genre, continuePressed, model)
  {
    message := [];
    var query := genre;
    if continuePressed {
      var response := model([SystemMessage(Prompt), HumanMessage(query)]);
      message := message + [response];
    }
  }

  /** The system message is the same for every genre; the genre is carried only by the user's message. */
  lemma GenreOnlyInHumanMessage(g1: string, g2: string)
    ensures Conversation(g1)[0] == Conversation(g2)[0] == SystemMessage(Prompt)
    ensures forall m :: m in Conversation(g1) && m.HumanMessage? ==> m.content == g1
  {
  }

  /** The placeholder survives verbatim inside the prompt. */
  lemma PlaceholderNotSubstituted()
    ensures Prompt[|PromptHead|..|PromptHead| + |Placeholder|] == "{genre}"
  {
  }
}

/** What each page gets from the back end, when the two are put together. The
    HTTP client (axios) resolves with the body of a 200 response and rejects
    every other status. */
module Composition {
  import opened Shared
  import Base64
  import AudioGen
  import RagEngine
  import Server
  import PodcastPage
  import StudyPage

  /** `res.data` when the request resolves; None when it rejects. */
  function AxiosData(response: Server.HttpResponse): (data: Option<Json>)
    ensures data.Some? <==> response.Ok?
    ensures response.Ok? ==> data == Some(response.body)
  {
    match response
    case Ok(body) => Some(body)
    case Unprocessable => None
  }

  /** `res.data.response` when the chat request resolves with a string there. */
  function ChatReply(response: Server.HttpResponse): (reply: Option<string>)
    ensures reply.Some? ==> response.Ok? && Field(response.body, "response") == Some(JStr(reply.value))
    ensures response.Ok? && Field(response.body, "response").Some? && Field(response.body, "response").value.JStr?
      ==> reply == Some(Field(response.body, "response").value.s)
  {
    match AxiosData(response)
    case Some(body) =>
      (match Field(body, "response")
       case Some(JStr(text)) => Some(text)
       case _ => None)
    case None => None
  }

  /** The podcast page's chat request reaches the retrieval chain with the user's
      query, and the bot message it then shows is `ask_question`'s answer. */
  lemma PodcastPageChatReachesChain(query: string, qaChain: Option<RagEngine.Chain>)
    ensures ChatReply(Server.ChatEndpoint(PodcastPage.ChatRequestBody(query), qaChain))
      == Some(RagEngine.AskQuestion(qaChain, query))
  {
  }

  /** The study page sends `message` where the server requires `query`: every chat
      request is refused, and the assistant always answers with the apology. */
  lemma StudyPageChatAlwaysFails(query: string, qaChain: Option<RagEngine.Chain>)
    ensures Server.ChatEndpoint(StudyPage.ChatRequestBody(query), qaChain) == Server.Unprocessable
    ensures ChatReply(Server.ChatEndpoint(StudyPage.ChatRequestBody(query), qaChain)) == None
  {
  }

  /** The study page looks for `summary` where the server puts `tips`: it always
      shows its fallback tips, whatever the back end produced. */
  lemma StudyPageTipsAlwaysFallback(vectorStoreReady: bool, reply: RagEngine.Call<string>, jsonLoads: string -> RagEngine.Call<Json>)
    ensures StudyPage.TipsFromResponse(AxiosData(Server.SummaryEndpoint(vectorStoreReady, reply, jsonLoads)))
      == StudyPage.FallbackTips
  {
    var body := Server.SummaryEndpoint(vectorStoreReady, reply, jsonLoads).body;
    assert body.fields.Keys == {"tips"};
    assert Field(body, "summary") == None;
  }

  /** The podcast page shows exactly the tips the back end generated. */
  lemma PodcastPageTipsFromBackend(vectorStoreReady: bool, reply: RagEngine.Call<string>, jsonLoads: string -> RagEngine.Call<Json>)
    ensures var data := AxiosData(Server.SummaryEndpoint(vectorStoreReady, reply, jsonLoads));
      data.Some? && Field(data.value, "tips") == Some(RagEngine.GenerateSummary(vectorStoreReady, reply, jsonLoads))
  {
  }

  /** Every line the server sends decodes on the page to exactly the audio the
      speech service produced, so playing a served podcast never stops at a line
      whose audio fails to decode. */
  lemma ServedAudioPlays(script: string, tts: AudioGen.Tts, k: int)
    requires 0 <= k < |AudioGen.Dialogue(script, tts)|
    ensures var records := Server.Serialize(AudioGen.Dialogue(script, tts));
      k < |records|
      && PodcastPage.Atob(records[k].audioBase64).Some?
      && Base64.Decode(records[k].audioBase64) == Some(AudioGen.Dialogue(script, tts)[k].audio)
  {
  }
}

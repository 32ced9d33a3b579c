/** The study page (`StudyApp` in frontend/app/page.tsx): exam tips fetched from
    the back end with a fixed fallback, a chat box, and a scripted four-line
    podcast whose highlighted line advances on a timer. */
module StudyPage {
  import opened Shared

  /** One line of the page's fixed podcast script. */
  datatype ScriptLine = ScriptLine(speaker: string, text: string)

  const PodcastScript: seq<ScriptLine> := [
    ScriptLine("Host", "Welcome back! Today we are diving into Oligopolies."),
    ScriptLine("Expert", "Specifically, why prices remain so 'sticky' in these markets."),
    ScriptLine("Host", "Is that the Kinked Demand Curve theory?"),
    ScriptLine("Expert", "Exactly. It's all about how firms react to each other.")
  ]

  const FallbackTips: seq<Json> :=
    [JStr("Understand Concentration Ratios"), JStr("Review Kinked Demand Curves"), JStr("Study Game Theory Payoffs")]

  const Apology: string := "Sorry, I'm having trouble connecting to the brain."

  /** The body of the chat request: `{ message: query }`. */
  function ChatRequestBody(query: string): (body: Json)
    ensures Field(body, "message") == Some(JStr(query)) && Field(body, "query") == None
  {
    JObj(map["message" := JStr(query)])
  }

  /** The tips `fetchTips` settles on: `data` is the body of the `/summary`
      response, None when the request fails. The body's "summary" is taken when
      it is an array; anything else ends in the fallback list. */
  function TipsFromResponse(data: Option<Json>): (tips: seq<Json>)
    ensures (data.Some? && Field(data.value, "summary").Some? && Field(data.value, "summary").value.JArr?)
      ==> tips == Field(data.value, "summary").value.items
    ensures !(data.Some? && Field(data.value, "summary").Some? && Field(data.value, "summary").value.JArr?)
      ==> tips == FallbackTips
  {
    if data.Some? && Truthy(data.value) then
      match Field(data.value, "summary")
      case Some(JArr(summary)) => summary
      case _ => FallbackTips
    else FallbackTips
  }

  /** The interval step: `(prev + 1) % podcastData.length`. */
  function NextLineIndex(prev: int): (next: int)
    requires 0 <= prev
    ensures 0 <= next < |PodcastScript|
    ensures prev + 1 < |PodcastScript| ==> next == prev + 1
    ensures prev + 1 == |PodcastScript| ==> next == 0
  {
    (prev + 1) % |PodcastScript|
  }

  /** The highlighted index after k ticks from the initial 0. */
  function IndexAfter(k: nat): (index: int)
    ensures 0 <= index
  {
    if k == 0 then 0 else NextLineIndex(IndexAfter(k - 1))
  }

  /** The highlighted line cycles 0, 1, 2, 3, 0, ...: after k ticks it is k mod 4. */
  lemma {:induction false} IndexAfterTicks(k: nat)
    ensures IndexAfter(k) == k % |PodcastScript|
  {
    if k > 0 {
      IndexAfterTicks(k - 1);
    }
  }

  class StudyApp {
    var query: string
    var chatHistory: seq<Message>
    var examTips: seq<Json>
    var loading: bool
    var currentLineIndex: int

    ghost predicate Valid()
      reads this
    {
      0 <= currentLineIndex < |PodcastScript|
    }

    constructor()
      ensures Valid()
      ensures query == "" && chatHistory == [] && examTips == [] && !loading && currentLineIndex == 0
    {
      query := "";
      chatHistory := [];
      examTips := [];
      loading := false;
      currentLineIndex := 0;
    }

    /** `fetchTips`: `data` is the body of the `/summary` response, None when the
        request fails. */
    method FetchTips(data: Option<Json>)
      modifies this`examTips
      ensures examTips == TipsFromResponse(data)
    {
      match data {
        case Some(body) =>
          if Truthy(body) && Field(body, "summary").Some? && Field(body, "summary").value.JArr? {
            examTips := Field(body, "summary").value.items;
          } else {
            examTips := FallbackTips;
          }
        case None =>
          examTips := FallbackTips;
      }
    }

    /** One firing of the interval. */
    method Tick()
      requires Valid()
      modifies this`currentLineIndex
      ensures Valid() && currentLineIndex == NextLineIndex(old(currentLineIndex))
    {
      currentLineIndex := (currentLineIndex + 1) % |PodcastScript|;
    }

    /** `handleSend`: `reply` is `res.data.response`, None when the request fails. */
    method HandleSend(reply: Option<string>)
      modifies this`query, this`chatHistory, this`loading
      ensures old(query) == "" ==>
        query == old(query) && chatHistory == old(chatHistory) && loading == old(loading)
      ensures old(query) != "" ==> query == "" && !loading
      ensures old(query) != "" ==>
        chatHistory == old(chatHistory)
          + [Message("user", old(query)), Message("assistant", if reply.Some? then reply.value else Apology)]
    {
      if query == "" {
        return;
      }
      loading := true;
      var userMessage := Message("user", query);
      chatHistory := chatHistory + [userMessage];
      match reply {
        case Some(response) =>
          chatHistory := chatHistory + [Message("assistant", response)];
        case None =>
          chatHistory := chatHistory + [Message("assistant", Apology)];
      }
      query := "";
      loading := false;
    }
  }
}

/** The three HTTP endpoints of the back end. The request body of `/chat` is
    checked against its declared shape, `/summary` wraps the tips, and `/podcast`
    turns the voiced dialogue into records whose audio is base64 text. */
module Server {
  import opened Shared
  import Base64
  import AudioGen
  import RagEngine

  /** What an endpoint answers: a JSON body with status 200, or the 422 the
      framework sends when the body does not have the declared fields. */
  datatype HttpResponse = Ok(body: Json) | Unprocessable

  /** `chat_endpoint`: the body must carry a string field "query"; other fields are ignored. */
  function ChatEndpoint(request: Json, qaChain: Option<RagEngine.Chain>): (response: HttpResponse)
    ensures response.Ok? <==> (Field(request, "query").Some? && Field(request, "query").value.JStr?)
    ensures response.Ok? ==>
      response.body == JObj(map["response" := JStr(RagEngine.AskQuestion(qaChain, Field(request, "query").value.s))])
  {
    match Field(request, "query")
    case Some(JStr(query)) => Ok(JObj(map["response" := JStr(RagEngine.AskQuestion(qaChain, query))]))
    case _ => Unprocessable
  }

  /** `summary_endpoint`: always answers, with the tips under "tips". */
  function SummaryEndpoint(vectorStoreReady: bool, reply: RagEngine.Call<string>, jsonLoads: string -> RagEngine.Call<Json>): (response: HttpResponse)
    ensures response.Ok? && Field(response.body, "tips") == Some(RagEngine.GenerateSummary(vectorStoreReady, reply, jsonLoads))
  {
    Ok(JObj(map["tips" := RagEngine.GenerateSummary(vectorStoreReady, reply, jsonLoads)]))
  }

  /** The record sent for one segment: speaker and text copied, and audio text
      that decodes to exactly the segment's audio. */
  function Record(segment: AudioGen.Segment): (record: PodcastLine)
    ensures record.speaker == segment.speaker && record.text == segment.text
    ensures Base64.Decode(record.audioBase64) == Some(segment.audio)
  {
    Base64.DecodeOfEncode(segment.audio);
    PodcastLine(segment.speaker, segment.text, Base64.Encode(segment.audio))
  }

  /** The records of a dialogue, one per segment and in the same order, speaker
      and text copied and the audio base64-encoded. */
  function Serialize(dialogue: seq<AudioGen.Segment>): (records: seq<PodcastLine>)
    ensures |records| == |dialogue|
    ensures forall k :: 0 <= k < |records| ==>
      records[k].speaker == dialogue[k].speaker && records[k].text == dialogue[k].text
      && Base64.Decode(records[k].audioBase64) == Some(dialogue[k].audio)
    decreases |dialogue|
  {
    if dialogue == [] then []
    else
      [Record(dialogue[0])] + Serialize(dialogue[1..])
  }

  /** `podcast_endpoint`: `script` is the model's reply to the podcast prompt for
      the topic, `tts` the speech service. */
  method PodcastEndpoint(script: string, tts: AudioGen.Tts) returns (responseData: seq<PodcastLine>)
    ensures responseData == Serialize(AudioGen.Dialogue(script, tts))
  {
    var dialogue := AudioGen.GeneratePodcastDialogue(script, tts);
    responseData := SerializeDialogue(dialogue);
  }

  /** The loop that builds the response records. */
  method SerializeDialogue(dialogue: seq<AudioGen.Segment>) returns (responseData: seq<PodcastLine>)
    ensures responseData == Serialize(dialogue)
  {
    responseData := [];
    for i := 0 to |dialogue|
      invariant |responseData| == i
      invariant forall k :: 0 <= k < i ==> responseData[k] == Record(dialogue[k])
    {
      var b64Audio := Base64.Encode(dialogue[i].audio);
      responseData := responseData + [PodcastLine(dialogue[i].speaker, dialogue[i].text, b64Audio)];
    }
    SerializeEquals(dialogue, responseData);
  }

  /** A list of records, one per segment and in order, is the serialised dialogue. */
  lemma SerializeEquals(dialogue: seq<AudioGen.Segment>, records: seq<PodcastLine>)
    requires |records| == |dialogue|
    requires forall k :: 0 <= k < |dialogue| ==> records[k] == Record(dialogue[k])
    ensures records == Serialize(dialogue)
  {
    SerializeRecords(dialogue);
  }

  lemma {:induction false} SerializeRecords(dialogue: seq<AudioGen.Segment>)
    ensures forall k :: 0 <= k < |dialogue| ==> Serialize(dialogue)[k] == Record(dialogue[k])
    decreases |dialogue|
  {
    if dialogue != [] {
      SerializeRecords(dialogue[1..]);
    }
  }

  /** The base64 text of every record is exactly the padded encoding of its audio,
      4 * ceil(n / 3) characters for n bytes. */
  lemma SerializedAudioLength(dialogue: seq<AudioGen.Segment>, k: int)
    requires 0 <= k < |dialogue|
    ensures Base64.Decode(Serialize(dialogue)[k].audioBase64) == Some(dialogue[k].audio)
    ensures |Serialize(dialogue)[k].audioBase64| == 4 * ((|dialogue[k].audio| + 2) / 3)
  {
    SerializeRecords(dialogue);
    Base64.EncodeLength(dialogue[k].audio);
  }
}

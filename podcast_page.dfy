/** The podcast page (`Home` in frontend/app/pasge.tsx): a chat box and a podcast
    player. The player fetches the records of a dialogue and plays them one after
    another: each line's base64 audio is decoded, handed to an audio element, and
    the element's `onended` handler starts the next line. The browser's audio
    element is represented by the bytes it plays and the continuation it will run
    when it ends; the end of playback is the method `OnEnded`. */
module PodcastPage {
  import opened Shared
  import Base64

  /** `atob`: a string whose character codes are the decoded bytes, or None where
      `atob` throws. */
  function Atob(s: string): (chars: Option<string>)
    ensures chars.Some? <==> Base64.Decode(s).Some?
    ensures chars.Some? ==>
      && |chars.value| == |Base64.Decode(s).value|
      && forall k :: 0 <= k < |chars.value| ==> chars.value[k] as int == Base64.Decode(s).value[k]
  {
    match Base64.Decode(s)
    case None => None
    case Some(bytes) => Some(seq(|bytes|, k requires 0 <= k < |bytes| => bytes[k] as char))
  }

  /** `new Uint8Array(numbers)`: each number is reduced modulo 256. */
  function Uint8Array(numbers: seq<int>): (bytes: seq<byte>)
    ensures |bytes| == |numbers|
    ensures forall k :: 0 <= k < |bytes| ==> bytes[k] == numbers[k] % 256
  {
    seq(|numbers|, k requires 0 <= k < |numbers| => numbers[k] % 256)
  }

  /** The character-code copy loop: byte k is the code of character k. */
  method ToByteArray(byteCharacters: string) returns (byteArray: seq<byte>)
    ensures |byteArray| == |byteCharacters|
    ensures forall k :: 0 <= k < |byteArray| ==> byteArray[k] == byteCharacters[k] as int % 256
  {
    var byteNumbers := new int[|byteCharacters|];
    for i := 0 to |byteCharacters|
      invariant forall k :: 0 <= k < i ==> byteNumbers[k] == byteCharacters[k] as int
    {
      byteNumbers[i] := byteCharacters[i] as int;
    }
    byteArray := Uint8Array(byteNumbers[..]);
  }

  /** An audio element that is playing: its bytes, and the call its `onended`
      handler makes, `playAudioSequence(data, nextIndex)`. */
  datatype Audio = Audio(bytes: seq<byte>, data: seq<PodcastLine>, nextIndex: nat)

  /** The body of the chat request: `{ query }`. */
  function ChatRequestBody(query: string): (body: Json)
    ensures Field(body, "query") == Some(JStr(query))
  {
    JObj(map["query" := JStr(query)])
  }

  class Home {
    var query: string
    var messages: seq<Message>
    var loading: bool
    /** The tips shown; None stands for `undefined`. */
    var tips: Option<Json>
    var podcastData: seq<PodcastLine>
    var currentLineIndex: int
    var isPlaying: bool
    var audioPlayer: Option<Audio>
    /** Whether the last audio element created has yet to end. */
    ghost var audioPending: bool
    /** The line indices highlighted since the current dialogue was fetched. */
    ghost var Visited: seq<int>

    /** While playing, the highlighted index is a line of the dialogue and the lines
        before it have been highlighted in order; when not playing, the index is -1
        and every line has been highlighted. An audio element still to end plays
        the current line's audio and will continue with the next line. */
    ghost predicate Valid()
      reads this
    {
      && (isPlaying ==> 0 <= currentLineIndex < |podcastData| && |Visited| == currentLineIndex + 1)
      && (!isPlaying ==> currentLineIndex == -1 && !audioPending && |Visited| == |podcastData|)
      && (forall k :: 0 <= k < |Visited| ==> Visited[k] == k)
      && (audioPending ==>
            && audioPlayer.Some?
            && audioPlayer.value.data == podcastData
            && audioPlayer.value.nextIndex == currentLineIndex + 1
            && Base64.Decode(podcastData[currentLineIndex].audioBase64) == Some(audioPlayer.value.bytes))
    }

    constructor()
      ensures Valid()
      ensures query == "" && messages == [] && !loading && tips == Some(JArr([]))
      ensures podcastData == [] && currentLineIndex == -1 && !isPlaying && audioPlayer == None
    {
      query := "";
      messages := [];
      loading := false;
      tips := Some(JArr([]));
      podcastData := [];
      currentLineIndex := -1;
      isPlaying := false;
      audioPlayer := None;
      audioPending := false;
      Visited := [];
    }

    /** The effect that loads the tips: `data` is the body of the `/summary`
        response, None when the request fails (the rejection is not handled). On a
        `null` body, reading `.tips` throws inside the callback and the tips stay. */
    method ReceiveTips(data: Option<Json>)
      modifies this`tips
      ensures data.Some? && !data.value.JNull? ==> tips == Field(data.value, "tips")
      ensures data.None? || data.value.JNull? ==> tips == old(tips)
    {
      if data.Some? && !data.value.JNull? {
        tips := Field(data.value, "tips");
      }
    }

    /** `handleChat`: `reply` is `res.data.response`, None when the request fails. */
    method HandleChat(reply: Option<string>)
      modifies this`query, this`messages, this`loading
      ensures old(query) == "" ==> query == old(query) && messages == old(messages) && loading == old(loading)
      ensures old(query) != "" ==> query == "" && !loading
      ensures old(query) != "" ==>
        messages == old(messages) + [Message("user", old(query))]
          + (if reply.Some? then [Message("bot", reply.value)] else [])
    {
      if query == "" {
        return;
      }
      var newMsgs := messages + [Message("user", query)];
      messages := newMsgs;
      query := "";
      loading := true;
      match reply {
        case Some(response) =>
          messages := newMsgs + [Message("bot", response)];
        case None =>
      }
      loading := false;
    }

    /** `playAudioSequence(data, index)`. Past the end it stops playing. Otherwise it
        highlights line `index`, then decodes its audio; `threw` says that `atob`
        threw, which leaves the line highlighted, still "playing", and no audio
        element waiting to end. */
    method PlayAudioSequence(data: seq<PodcastLine>, index: nat) returns (threw: bool)
      requires !audioPending
      modifies this`currentLineIndex, this`isPlaying, this`audioPlayer, this`audioPending, this`Visited
      ensures index >= |data| ==>
        !isPlaying && currentLineIndex == -1 && !threw && audioPlayer == old(audioPlayer) && Visited == old(Visited)
      ensures index < |data| ==>
        isPlaying && currentLineIndex == index && Visited == old(Visited) + [index]
        && (threw <==> Base64.Decode(data[index].audioBase64).None?)
      ensures threw ==> audioPlayer == old(audioPlayer)
      ensures audioPending <==> index < |data| && !threw
      ensures audioPending ==>
        audioPlayer == Some(Audio(Base64.Decode(data[index].audioBase64).value, data, index + 1))
    {
      if index >= |data| {
        isPlaying := false;
        currentLineIndex := -1;
        return false;
      }
      currentLineIndex := index;
      isPlaying := true;
      Visited := Visited + [index];
      var byteCharacters := Atob(data[index].audioBase64);
      if byteCharacters.None? {
        return true;
      }
      var byteArray := ToByteArray(byteCharacters.value);
      assert byteArray == Base64.Decode(data[index].audioBase64).value;
      audioPlayer := Some(Audio(byteArray, data, index + 1));
      audioPending := true;
      threw := false;
    }

    /** The `onended` handler of the playing element: the next line starts, or,
        after the last line, playback stops with every line highlighted in order. */
    method OnEnded() returns (threw: bool)
      requires Valid() && audioPending
      modifies this`currentLineIndex, this`isPlaying, this`audioPlayer, this`audioPending, this`Visited
      ensures Valid()
      ensures var next := old(currentLineIndex) + 1;
        && (next < |podcastData| ==>
              isPlaying && currentLineIndex == next
              && (threw <==> Base64.Decode(podcastData[next].audioBase64).None?))
        && (next == |podcastData| ==> !isPlaying && currentLineIndex == -1 && !threw)
        && (audioPending <==> next < |podcastData| && !threw)
        && (audioPending ==>
              audioPlayer == Some(Audio(Base64.Decode(podcastData[next].audioBase64).value, podcastData, next + 1)))
    {
      var audio := audioPlayer.value;
      audioPending := false;
      threw := PlayAudioSequence(audio.data, audio.nextIndex);
    }

    /** `generatePodcast`: `fetched` is the body of the `/podcast` response, None
        when the request fails. Playback always starts at line 0. */
    method GeneratePodcast(fetched: Option<seq<PodcastLine>>)
      requires Valid() && !isPlaying
      modifies this`loading, this`podcastData
      modifies this`currentLineIndex, this`isPlaying, this`audioPlayer, this`audioPending, this`Visited
      ensures Valid() && !loading
      ensures fetched.None? ==>
        podcastData == old(podcastData) && !isPlaying && audioPlayer == old(audioPlayer)
      ensures fetched.Some? ==> podcastData == fetched.value
      ensures fetched.Some? && fetched.value == [] ==> !isPlaying && currentLineIndex == -1
      ensures fetched.Some? && fetched.value != [] ==> isPlaying && currentLineIndex == 0
      ensures audioPending <==>
        fetched.Some? && fetched.value != [] && Base64.Decode(fetched.value[0].audioBase64).Some?
    {
      loading := true;
      match fetched {
        case Some(data) =>
          podcastData := data;
          Visited := [];
          var threw := PlayAudioSequence(data, 0);
        case None =>
      }
      loading := false;
    }
  }
}

# EcoStudy AI: a verified model of its request handling and podcast playback

EcoStudy AI is a study assistant for an economics chapter. A Python back end
answers questions with a retrieval chain, asks a language model for exam tips,
and writes a two-voice podcast: the model writes a Professor/Student script,
and a text-to-speech service voices each line. Two browser pages use it:

- the podcast page (`Home`, frontend/app/pasge.tsx) has a chat box, the tips, and a
  player that plays the served dialogue line by line;
- the study page (`StudyApp`, frontend/app/page.tsx) has a chat box, tips with a
  fallback list, and a fixed four-line script whose highlighted line rotates on a timer.

The model covers both sides:

| file | module | what it models |
|---|---|---|
| shared.dfy | `Shared` | JSON values, `Option`, bytes, the podcast record and chat message |
| text.dfy | `Text` | Python `split`, `startswith`, `replace(p, "")` and `strip()` |
| base64.dfy | `Base64` | base64 as in section 4 of RFC 4648: `b64encode` on the server, `atob` on the page |
| audio_gen.dfy | `AudioGen` | the script parser of `generate_podcast_dialogue` |
| rag_engine.dfy | `RagEngine` | `ask_question` and `generate_summary`, with the fence clean-up |
| server.dfy | `Server` | the `/chat`, `/summary` and `/podcast` endpoints |
| podcast_page.dfy | `PodcastPage` | the `Home` page as a class: chat, tips, playback sequencer |
| study_page.dfy | `StudyPage` | the `StudyApp` page as a class: tips, rotation, chat |
| composition.dfy | `Composition` | what each page receives from the back end |

External services are parameters. The retrieval chain is a function from the
question to a result dictionary or an exception. The speech service is a
function from voice and text to bytes. The language model's reply is a string
or an exception. `json.loads` is a function from text to a JSON value or an
exception. An HTTP exchange is the body the page receives, or None when the
request fails.

The playback sequencer is a state machine over `currentLineIndex` and
`isPlaying`. An audio element is modelled by the bytes it plays and by the call
its `onended` handler will make. The end of a line's audio is the method
`Home.OnEnded`. Two ghost fields track the run. `audioPending` says whether an
element has yet to end. `Visited` lists the indices highlighted since the
dialogue was fetched. The class invariant `Home.Valid` holds throughout:

- while playing, the index is a valid line;
- otherwise the index is -1 and every line has been visited, in order;
- an element that has yet to end plays the current line's decoded audio and will
  continue with the next line.

The code has no stop operation and no guard against stale callbacks. It has no
decode-error state either. When `atob` throws, the line stays highlighted,
`isPlaying` stays true and nothing is left to advance playback. The model does
the same (`Home.PlayAudioSequence`, `threw`).

Putting the pages and the server together shows two mismatches, proved as
lemmas in `Composition`:

- the study page posts `{message}` but `/chat` requires `query`, so every chat
  request from it is refused with 422 and the page always shows its apology;
- the study page reads `summary` but `/summary` answers with `tips`, so it always
  shows its fallback tips.

## Model

| member | source | states |
|---|---|---|
| Text.Split | backend/audio_gen.py:20 | `split("\n")` yields at least one piece and no piece contains the separator |
| Text.JoinSplit | backend/audio_gen.py:20 | joining the pieces with the separator gives the reply back: splitting loses no text |
| Text.SplitJoin | backend/audio_gen.py:20 | pieces without the separator, once joined, split back into the same pieces |
| Text.RemoveAll | backend/audio_gen.py:25 | `replace(tag, "")` never makes the text longer |
| Text.RemoveAllAbsent | backend/audio_gen.py:25 | removing a tag that does not occur leaves the text unchanged |
| Text.StartsWith | backend/audio_gen.py:24 | `startswith(prefix)` holds exactly when the text is at least as long as the prefix and begins with it |
| Text.RemoveAllAcross | backend/audio_gen.py:25 | when the last character of p occurs nowhere else in p, `replace(p, "")` turns a + p + b into a + b for any p-free a and b |
| Text.StripStart | backend/audio_gen.py:25 | `lstrip()` never lengthens the text and what it leaves does not start with whitespace |
| Text.StripEnd | backend/audio_gen.py:25 | `rstrip()` never lengthens the text and what it leaves does not end with whitespace |
| Text.StripStartSuffix | backend/audio_gen.py:25 | what `lstrip()` leaves is a suffix of the text |
| Text.StripEndPrefix | backend/audio_gen.py:25 | what `rstrip()` leaves is a prefix of the text |
| Text.StripStartCutsSpace | backend/audio_gen.py:25 | every character `lstrip()` cuts off is whitespace |
| Text.StripEndCutsSpace | backend/audio_gen.py:25 | every character `rstrip()` cuts off is whitespace |
| Text.Strip | backend/audio_gen.py:25 | `strip()` is the slice between leading and trailing whitespace, and neither end of it is whitespace |
| Text.StripCutsSpace | backend/audio_gen.py:25 | every character `strip()` cuts off, before or after the slice it keeps, is whitespace |
| Text.StripKeepsAbsence | backend/rag_engine.py:116 | stripping cannot create an occurrence of a pattern |
| Base64.Value | backend/main.py:56 | the value of an alphabet character is below 64, and the alphabet maps it back to the same character |
| Base64.Encode | backend/main.py:56 | `b64encode` writes only alphabet characters and '=' |
| Base64.Decode | frontend/app/pasge.tsx:66 | the decoding accepts only texts whose length is a multiple of four and whose characters are alphabet characters or '=' |
| Base64.EncodeLength | backend/main.py:56 | `b64encode` of n bytes has 4 * ceil(n / 3) characters |
| Base64.DecodeOfEncode | backend/main.py:56 | decoding what the server encodes gives back exactly the original bytes |
| Base64.EncodeOfDecode | frontend/app/pasge.tsx:66 | every text that the strict decoder accepts is the encoding of the bytes it decodes to |
| Base64.QuantumCanonical | frontend/app/pasge.tsx:66 | a decodable 4-character group holds 1 to 3 bytes, holds 3 unless it is the last, and is their encoding |
| Base64.DecodeIffEncode | frontend/app/pasge.tsx:66 | a text decodes to b if and only if it is the encoding of b |
| AudioGen.GeneratePodcastDialogue | backend/audio_gen.py:20-33 | the loop over the split lines builds exactly the dialogue `Dialogue(response, tts)` |
| AudioGen.SpeakerLinesInOrder | backend/audio_gen.py:23-33 | the lines that yield segments are valid indices in increasing order, each a tagged line, and every tagged line is among them |
| AudioGen.SegmentsFollowLines | backend/audio_gen.py:23-33 | there is one segment per tagged line, in line order, and segment k is what tagged line k yields |
| AudioGen.LineText | backend/audio_gen.py:25 | the spoken text is never longer than the line and neither starts nor ends with whitespace |
| AudioGen.SegmentOf | backend/audio_gen.py:24-33 | a line yields a segment exactly when it starts with a speaker tag; the segment is the Professor's exactly when the line starts with "Professor:", and it is voiced by "onyx" or "nova" with audio for its own text |
| AudioGen.Segments | backend/audio_gen.py:23-33 | there are never more segments than lines, and each is the Professor's voiced by "onyx" or the Student's voiced by "nova", with audio for its own text |
| AudioGen.Dialogue | backend/audio_gen.py:20-35 | the dialogue has at most as many segments as the reply has `\n`-separated lines, each voiced as above |
| AudioGen.TaggedLineText | backend/audio_gen.py:24-30 | a tag followed by text with no further tag gives that speaker, and the text stripped |
| AudioGen.QuotedTagIsRemoved | backend/audio_gen.py:24-30 | for either tag and any tag-free a and b, the line tag + a + tag + b is that speaker's and is spoken as the stripped a + b: a tag quoted inside a line is removed too |
| AudioGen.QuotedTagExample | backend/audio_gen.py:24-25 | "Professor: ask a Professor: why" is spoken as "ask a  why" |
| RagEngine.AskQuestion | backend/rag_engine.py:89-96 | without a chain the answer is the not-ready message; an exception gives "Error: " and its message; a result without "answer" gives "Error: 'answer'"; otherwise the chain's answer |
| RagEngine.AskQuestionOutcomes | backend/rag_engine.py:92-96 | with a chain, the answer is the chain's own answer or starts with "Error: " |
| RagEngine.FenceFree | backend/rag_engine.py:116 | after `replace("```", "")` no "```" is left, even where backticks meet across a removed fence |
| RagEngine.CleanContent | backend/rag_engine.py:116 | the cleaned reply contains neither "```json" nor "```" and has no surrounding whitespace |
| RagEngine.CleanFencedReply | backend/rag_engine.py:116 | a reply "```json" + body + "```", body without backticks, reaches the parser as the stripped body |
| RagEngine.CleanPlainReply | backend/rag_engine.py:116 | a reply without backticks reaches the parser only stripped |
| RagEngine.CleanContentIdempotent | backend/rag_engine.py:116 | cleaning a cleaned reply changes nothing |
| RagEngine.GenerateSummary | backend/rag_engine.py:98-120 | no vector store gives ["System not initialized"]; a failing model call or parse gives the three fallback tips; otherwise what the parser returned |
| RagEngine.SummaryOutcomes | backend/rag_engine.py:100-120 | the tips are the not-initialized list, the fallback list, or a parse of a text with no fence left and no surrounding whitespace |
| Server.ChatEndpoint | backend/main.py:31-37 | a body with a string "query" is answered `{"response": ask_question(query)}`, any other body with 422 |
| Server.SummaryEndpoint | backend/main.py:39-42 | the answer is 200 with the generated tips under "tips" |
| Server.Record | backend/main.py:57-61 | a record copies the segment's speaker and text, and its audio text decodes to exactly the segment's audio |
| Server.Serialize | backend/main.py:54-61 | one record per segment in the same order, speaker and text copied, audio base64 text that decodes to exactly the segment's audio |
| Server.PodcastEndpoint | backend/main.py:44-63 | the response is exactly the serialised dialogue of the reply |
| Server.SerializeDialogue | backend/main.py:54-61 | the loop appending one record per segment builds exactly the serialised dialogue |
| Server.SerializedAudioLength | backend/main.py:56 | each record's audio text decodes to the segment's audio and is 4 * ceil(n / 3) characters long |
| PodcastPage.Atob | frontend/app/pasge.tsx:66 | `atob` fails exactly on text that is not base64; otherwise character k has the code of decoded byte k |
| PodcastPage.Uint8Array | frontend/app/pasge.tsx:71 | the typed array keeps the length and reduces each number modulo 256 |
| PodcastPage.ToByteArray | frontend/app/pasge.tsx:67-71 | the byte array has one byte per character, byte k being the code of character k |
| PodcastPage.ChatRequestBody | frontend/app/pasge.tsx:35 | the chat request carries the query under "query" |
| PodcastPage.Home.constructor | frontend/app/pasge.tsx:9-20 | the page starts with no messages, empty tips and no podcast, at index -1, not playing |
| PodcastPage.Home.ReceiveTips | frontend/app/pasge.tsx:22-25 | the tips become the body's "tips" (undefined when absent); a failed request, or a `null` body on which reading `.tips` throws, leaves them |
| PodcastPage.Home.HandleChat | frontend/app/pasge.tsx:27-41 | an empty query changes nothing; otherwise the user message is appended, then one bot message on success, and the query is cleared and loading false |
| PodcastPage.Home.PlayAudioSequence | frontend/app/pasge.tsx:55-82 | past the end: not playing, index -1; else that line is highlighted and playing, and its decoded audio starts unless `atob` threw |
| PodcastPage.Home.OnEnded | frontend/app/pasge.tsx:79-81 | the end of a line's audio advances the index by exactly one, or after the last line stops at -1 having visited every line in order; the next line's element is pending exactly when that line exists and decodes, and plays its decoded audio, so completions chain; the invariant is kept |
| PodcastPage.Home.GeneratePodcast | frontend/app/pasge.tsx:43-53 | a fetched dialogue replaces the old one and playback starts at line 0 (or stops at once if empty); a failed fetch changes no playback state; loading ends false |
| StudyPage.ChatRequestBody | frontend/app/page.tsx:53 | the chat request carries the query under "message" and has no "query" |
| StudyPage.TipsFromResponse | frontend/app/page.tsx:24-36 | the tips are the body's "summary" when it is an array, and the three fallback tips otherwise, a failed request included |
| StudyPage.NextLineIndex | frontend/app/page.tsx:41 | the next index stays in [0, 4): one more, or 0 after the last line |
| StudyPage.IndexAfterTicks | frontend/app/page.tsx:15-42 | starting from 0, after k ticks the highlighted line is k mod 4 |
| StudyPage.StudyApp.constructor | frontend/app/page.tsx:8-15 | the page starts with no history, no tips, not loading, at line 0 |
| StudyPage.StudyApp.FetchTips | frontend/app/page.tsx:24-37 | the tips become `TipsFromResponse` of the response |
| StudyPage.StudyApp.Tick | frontend/app/page.tsx:40-42 | a tick moves the index to the next line modulo 4 and keeps it in range |
| StudyPage.StudyApp.HandleSend | frontend/app/page.tsx:46-61 | an empty query changes nothing; otherwise the user message and exactly one assistant message (the reply, or the apology on failure) are appended, the query cleared and loading false |
| Composition.AxiosData | frontend/app/pasge.tsx:35 | the page gets a body exactly when the server answers 200, and it is the server's body |
| Composition.ChatReply | frontend/app/pasge.tsx:36 | a chat reply is present exactly when the server answered 200 with a string under "response", and it is that string |
| Composition.PodcastPageChatReachesChain | frontend/app/pasge.tsx:35-36 | the podcast page's question reaches `ask_question` unchanged and its answer is what the page shows |
| Composition.StudyPageChatAlwaysFails | frontend/app/page.tsx:53 | every chat request of the study page is refused with 422, so its reply is always the apology |
| Composition.StudyPageTipsAlwaysFallback | frontend/app/page.tsx:28 | whatever the back end generates, the study page shows its fallback tips |
| Composition.PodcastPageTipsFromBackend | frontend/app/pasge.tsx:24 | the podcast page shows exactly the tips the back end generated |
| Composition.ServedAudioPlays | frontend/app/pasge.tsx:66 | every served line decodes on the page to exactly the audio the speech service produced |

## Left out

- frontend/app/layout.tsx and all JSX rendering, the active tab and the icons: markup with no logic.
- The audio element, `Blob`, `URL.createObjectURL` and `play()`: an element is its bytes and its `onended` continuation, and the end of playback is the call `Home.OnEnded`.
- `atob`'s tolerance of whitespace, of missing padding and of non-zero bits left over before the padding (`atob("QR==")` gives "A"): decoding is strict, as in section 4 of RFC 4648, so such texts fail in the model.
- `setInterval` timing and `clearInterval` on unmount: each firing is one call of `StudyApp.Tick`.
- axios, FastAPI routing, CORS and uvicorn: a request is the body the page receives or None when it fails; only `/chat`'s 422 for a body without a string "query" is modelled.
- The language model, the speech service, the retrieval chain, FAISS, the loaders and `json.loads`: parameters whose results or exceptions are given.
- An exception of the model or speech service inside `generate_podcast_dialogue` (a 500 answer): the podcast endpoint is modelled for services that answer.
- `initialize_rag` and `startup_event`: they load files and the network and set the module globals; the globals appear as the `qaChain` and `vectorStoreReady` parameters.
- Console logging (`print`, `console.error`): no effect on state.
- The unused string blocks after the endpoints in backend/main.py and the stray first line of frontend/app/pasge.tsx.
- Interleavings across `await`: each handler runs as one step; the functional `setChatHistory(prev => ...)` updates are applied in order to the list the handler left.
- PodcastPage.Home.GeneratePodcast: requires not playing, because its button is disabled while `isPlaying` (frontend/app/pasge.tsx:117); a second audio chain running beside the first is not modelled.
- PodcastPage.Home.PlayAudioSequence: requires that no element is still to end, which its two callers guarantee; two elements playing at once are not modelled.
- PodcastPage.Home.GeneratePodcast: the `/podcast` body is taken to be a list of records as the server builds them; a body of another shape is not modelled.
- PodcastPage.Home.HandleChat and StudyPage.StudyApp.HandleSend: a reply whose "response" is not a string (shown as `undefined`) is not modelled; the server always sends a string.
- Json: numbers are integers only; floating-point values are not modelled.

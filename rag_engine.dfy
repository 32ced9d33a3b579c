/** The answering side of the back end: `ask_question` runs the retrieval chain on
    a question, and `generate_summary` asks the language model for exam tips and
    parses its reply as JSON. The chain, the model and the JSON parser are
    parameters; what is modelled is the guarding, the error handling and the
    clean-up of the model's reply. */
module RagEngine {
  import opened Shared
  import opened Text

  /** The outcome of a call into an external library: the value it returned, or
      the message of the exception it raised. */
  datatype Call<T> = Returned(value: T) | Raised(message: string)

  /** The retrieval chain: the result dictionary that `invoke({"question": q})` gives. */
  type Chain = string -> Call<map<string, string>>

  const NotReady: string := "The system is still initializing or encountered an error."
  const ErrorPrefix: string := "Error: "
  /** `str(KeyError('answer'))`: the message of a missing "answer" entry. */
  const MissingAnswer: string := "'answer'"

  /** `ask_question`: `qaChain` is None until the chain has been built. */
  function AskQuestion(qaChain: Option<Chain>, query: string): (answer: string)
    ensures qaChain.None? ==> answer == NotReady
    ensures qaChain.Some? ==>
      match qaChain.value(query)
      case Raised(message) => answer == ErrorPrefix + message
      case Returned(result) =>
        answer == if "answer" in result then result["answer"] else ErrorPrefix + MissingAnswer
  {
    match qaChain
    case None => NotReady
    case Some(chain) =>
      match chain(query)
      case Raised(message) => ErrorPrefix + message
      case Returned(result) =>
        if "answer" in result then result["answer"] else ErrorPrefix + MissingAnswer
  }

  /** With a chain in place, an answer either is the chain's own "answer" or reads
      "Error: ...". */
  lemma AskQuestionOutcomes(chain: Chain, query: string)
    ensures var outcome, answer := chain(query), AskQuestion(Some(chain), query);
      (outcome.Returned? && "answer" in outcome.value && answer == outcome.value["answer"])
      || StartsWith(answer, ErrorPrefix)
  {
    var outcome, answer := chain(query), AskQuestion(Some(chain), query);
    if outcome.Raised? || "answer" !in outcome.value {
      var message := if outcome.Raised? then outcome.message else MissingAnswer;
      assert answer == ErrorPrefix + message;
      assert answer[..|ErrorPrefix|] == ErrorPrefix;
    }
  }

  const NotInitialized: Json := JArr([JStr("System not initialized")])
  const SummaryFallback: Json :=
    JArr([JStr("Focus on Supply/Demand Curves"), JStr("Understand Opportunity Cost"), JStr("Review Market Equilibrium")])

  /** The Markdown code fence the model tends to wrap its JSON in. */
  const Fence: string := "```"
  const JsonFence: string := "```json"

  /** Removing p keeps the first character when that character cannot start p. */
  lemma HeadKept(t: string, p: string)
    requires p != [] && t != [] && t[0] != p[0]
    ensures RemoveAll(t, p) != [] && RemoveAll(t, p)[0] == t[0]
  {
    if |t| >= |p| {
      assert t[..|p|][0] == t[0];
    }
  }

  /** A text that does not start with a fence does not start with one after the
      fences in it are removed. */
  lemma NoFenceAtHead(s: string)
    requires |s| >= 3 && s[..3] != Fence
    ensures var r := RemoveAll(s, Fence); |r| >= 3 ==> r[..3] != Fence
  {
    var t := s[1..];
    var r := RemoveAll(s, Fence);
    assert r == [s[0]] + RemoveAll(t, Fence);
    assert s[..3] == [s[0], s[1], s[2]];
    if |r| >= 3 {
      assert r[..3] == [r[0], r[1], r[2]];
      if s[0] == '`' && s[1] != '`' {
        HeadKept(t, Fence);
        assert r[1] == s[1];
      } else if s[0] == '`' {
        assert s[2] != '`';
        if |t| >= 3 {
          assert t[..3] == [s[1], s[2], t[2]];
          HeadKept(t[1..], Fence);
          assert RemoveAll(t, Fence) == [t[0]] + RemoveAll(t[1..], Fence);
        }
        assert r[2] == s[2];
      } else {
        assert r[0] == s[0];
      }
    }
  }

  /** Removing every fence leaves no fence: the backticks left over from each run
      are fewer than three and stay separated by the characters between runs. */
  lemma {:induction false} FenceFree(s: string)
    ensures !Occurs(RemoveAll(s, Fence), Fence)
    decreases |s|
  {
    var r := RemoveAll(s, Fence);
    if |s| >= 3 && s[..3] == Fence {
      FenceFree(s[3..]);
    } else if |s| >= 3 {
      var t := s[1..];
      var rest := RemoveAll(t, Fence);
      FenceFree(t);
      assert r == [s[0]] + rest;
      forall i | 0 <= i && i + 3 <= |r|
        ensures !OccursAt(r, Fence, i)
      {
        if i == 0 {
          NoFenceAtHead(s);
          assert r[i..i + 3] == r[..3];
        } else {
          assert r[i..i + 3] == rest[i - 1..i + 2];
          assert !OccursAt(rest, Fence, i - 1);
        }
      }
    }
  }

  /** `response.content.replace("```json", "").replace("```", "").strip()`: no
      fence of either kind is left, nor any surrounding whitespace. */
  function CleanContent(content: string): (raw: string)
    ensures !Occurs(raw, Fence) && !Occurs(raw, JsonFence)
    ensures raw == [] || (!IsSpace(raw[0]) && !IsSpace(raw[|raw| - 1]))
  {
    var unfenced := RemoveAll(RemoveAll(content, JsonFence), Fence);
    NoFenceLeft(content);
    Strip(unfenced)
  }

  lemma NoFenceLeft(content: string)
    ensures var raw := Strip(RemoveAll(RemoveAll(content, JsonFence), Fence));
      !Occurs(raw, Fence) && !Occurs(raw, JsonFence)
  {
    var unfenced := RemoveAll(RemoveAll(content, JsonFence), Fence);
    FenceFree(RemoveAll(content, JsonFence));
    StripKeepsAbsence(unfenced, Fence);
    JsonFenceStartsWithFence();
    OccursPrefix(Strip(unfenced), Fence, "json");
  }

  lemma JsonFenceStartsWithFence()
    ensures Fence + "json" == JsonFence
  {
  }

  /** A reply wrapped in a ```json fence reaches the parser as its stripped body. */
  lemma CleanFencedReply(body: string)
    requires '`' !in body
    ensures CleanContent(JsonFence + body + Fence) == Strip(body)
  {
    assert RemoveAll(JsonFence + (body + Fence), JsonFence) == RemoveAll(body + Fence, JsonFence) by {
      var s := JsonFence + (body + Fence);
      assert s[..|JsonFence|] == JsonFence && s[|JsonFence|..] == body + Fence;
    }
    assert JsonFence + body + Fence == JsonFence + (body + Fence);
    RemoveAllAfter(body, Fence, JsonFence);
    RemoveAllAfter(body, Fence, Fence);
    var s := Fence;
    assert s[..3] == Fence && s[3..] == [];
    assert body + [] == body;
  }

  /** A reply without backticks reaches the parser stripped and otherwise as it is. */
  lemma CleanPlainReply(content: string)
    requires '`' !in content
    ensures CleanContent(content) == Strip(content)
  {
    RemoveAllAfter(content, [], JsonFence);
    RemoveAllAfter(content, [], Fence);
    assert content + [] == content;
  }

  /** Text without surrounding whitespace is left alone by `strip()`. */
  lemma StripTrimmed(s: string)
    requires s == [] || (!IsSpace(s[0]) && !IsSpace(s[|s| - 1]))
    ensures Strip(s) == s
  {
  }

  /** Cleaning is idempotent: a cleaned reply is left as it is by a second cleaning. */
  lemma CleanContentIdempotent(content: string)
    ensures CleanContent(CleanContent(content)) == CleanContent(content)
  {
    var raw := CleanContent(content);
    RemoveAllAbsent(raw, JsonFence);
    RemoveAllAbsent(raw, Fence);
    StripTrimmed(raw);
  }

  /** `generate_summary`: `reply` is the outcome of the retrieval and the model call
      (any exception they raise), `jsonLoads` the outcome of `json.loads`. */
  function GenerateSummary(vectorStoreReady: bool, reply: Call<string>, jsonLoads: string -> Call<Json>): (tips: Json)
    ensures !vectorStoreReady ==> tips == NotInitialized
    ensures vectorStoreReady && reply.Raised? ==> tips == SummaryFallback
    ensures vectorStoreReady && reply.Returned? ==>
      tips == match jsonLoads(CleanContent(reply.value))
              case Returned(parsed) => parsed
              case Raised(_) => SummaryFallback
  {
    if !vectorStoreReady then NotInitialized
    else
      match reply
      case Raised(_) => SummaryFallback
      case Returned(content) =>
        match jsonLoads(CleanContent(content))
        case Returned(parsed) => parsed
        case Raised(_) => SummaryFallback
  }

  /** The summary is the fallback list, the not-initialized list, or exactly what
      the parser made of a fence-free, trimmed text. */
  lemma SummaryOutcomes(vectorStoreReady: bool, reply: Call<string>, jsonLoads: string -> Call<Json>)
    ensures var tips := GenerateSummary(vectorStoreReady, reply, jsonLoads);
      tips == NotInitialized || tips == SummaryFallback
      || exists raw :: !Occurs(raw, Fence) && !Occurs(raw, JsonFence)
           && (raw == [] || (!IsSpace(raw[0]) && !IsSpace(raw[|raw| - 1])))
           && jsonLoads(raw) == Returned(tips)
  {
    if vectorStoreReady && reply.Returned? && jsonLoads(CleanContent(reply.value)).Returned? {
      var raw := CleanContent(reply.value);
      assert jsonLoads(raw) == Returned(GenerateSummary(vectorStoreReady, reply, jsonLoads));
    }
  }
}

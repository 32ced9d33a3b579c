/** The script parser of `generate_podcast_dialogue`: the language model's reply is
    split into lines, and every line that starts with a speaker tag becomes one
    spoken segment, voiced by the text-to-speech service. Both services are
    parameters: the reply is a string, the speech service a function. */
module AudioGen {
  import opened Shared
  import opened Text

  /** One spoken line of the dialogue. */
  datatype Segment = Segment(speaker: string, text: string, audio: seq<byte>)

  /** The text-to-speech service: the audio it returns for a voice and an input text. */
  type Tts = (string, string) -> seq<byte>

  const ProfessorTag: string := "Professor:"
  const StudentTag: string := "Student:"

  predicate IsSpeakerLine(line: string) {
    StartsWith(line, ProfessorTag) || StartsWith(line, StudentTag)
  }

  /** A segment voiced as the source voices it: the Professor by "onyx", the
      Student by "nova", with the speech service's audio for its own text. */
  predicate Voiced(segment: Segment, tts: Tts) {
    || (segment.speaker == "Professor" && segment.audio == tts("onyx", segment.text))
    || (segment.speaker == "Student" && segment.audio == tts("nova", segment.text))
  }

  /** `line.replace(tag, "").strip()`: the spoken text, which neither starts nor
      ends with whitespace and is never longer than the line. */
  function LineText(line: string, tag: string): (text: string)
    requires tag != []
    ensures |text| <= |line|
    ensures text == [] || (!IsSpace(text[0]) && !IsSpace(text[|text| - 1]))
  {
    Strip(RemoveAll(line, tag))
  }

  /** The segment one line yields, if any: the body of one iteration of the loop.
      A line yields a segment exactly when it starts with a speaker tag; a
      "Professor:" line is the Professor's, any other tagged line the Student's. */
  function SegmentOf(line: string, tts: Tts): (segment: Option<Segment>)
    ensures segment.Some? <==> IsSpeakerLine(line)
    ensures segment.Some? ==> Voiced(segment.value, tts)
    ensures segment.Some? ==> (segment.value.speaker == "Professor" <==> StartsWith(line, ProfessorTag))
  {
    if StartsWith(line, ProfessorTag) then
      var text := LineText(line, ProfessorTag);
      Some(Segment("Professor", text, tts("onyx", text)))
    else if StartsWith(line, StudentTag) then
      var text := LineText(line, StudentTag);
      Some(Segment("Student", text, tts("nova", text)))
    else None
  }

  /** The segments of a list of lines, in line order: never more than the lines,
      and every one of them voiced. */
  function Segments(lines: seq<string>, tts: Tts): (segments: seq<Segment>)
    ensures |segments| <= |lines|
    ensures forall k :: 0 <= k < |segments| ==> Voiced(segments[k], tts)
    decreases |lines|
  {
    if lines == [] then []
    else
      var init := Segments(lines[..|lines| - 1], tts);
      match SegmentOf(lines[|lines| - 1], tts)
      case None => init
      case Some(segment) => init + [segment]
  }

  /** The dialogue built from a model reply: at most one segment per
      `\n`-separated line, every one of them voiced. */
  function Dialogue(response: string, tts: Tts): (dialogue: seq<Segment>)
    ensures |dialogue| <= |Split(response, '\n')|
    ensures forall k :: 0 <= k < |dialogue| ==> Voiced(dialogue[k], tts)
  {
    Segments(Split(response, '\n'), tts)
  }

  /** Parsing and voicing of the reply, line by line. */
  method GeneratePodcastDialogue(response: string, tts: Tts) returns (audioSegments: seq<Segment>)
    ensures audioSegments == Dialogue(response, tts)
  {
    var lines := Split(response, '\n');
    audioSegments := [];
    for i := 0 to |lines|
      invariant audioSegments == Segments(lines[..i], tts)
    {
      var line := lines[i];
      assert lines[..i + 1][..i] == lines[..i];
      if StartsWith(line, ProfessorTag) {
        var text := LineText(line, ProfessorTag);
        var audio := tts("onyx", text);
        audioSegments := audioSegments + [Segment("Professor", text, audio)];
      } else if StartsWith(line, StudentTag) {
        var text := LineText(line, StudentTag);
        var audio := tts("nova", text);
        audioSegments := audioSegments + [Segment("Student", text, audio)];
      }
    }
    assert lines[..|lines|] == lines;
  }

  /** The indices of the lines that yield a segment, in increasing order. */
  function SpeakerLines(lines: seq<string>): seq<nat>
    decreases |lines|
  {
    if lines == [] then []
    else
      var init := SpeakerLines(lines[..|lines| - 1]);
      if IsSpeakerLine(lines[|lines| - 1]) then init + [|lines| - 1] else init
  }

  /** The speaker lines are valid line indices in increasing order (so a line is
      taken at most once and the order is kept), and every line that starts with a
      speaker tag is among them. */
  lemma {:induction false} SpeakerLinesInOrder(lines: seq<string>)
    ensures forall k :: 0 <= k < |SpeakerLines(lines)| ==>
      SpeakerLines(lines)[k] < |lines| && IsSpeakerLine(lines[SpeakerLines(lines)[k]])
    ensures forall k, m :: 0 <= k < m < |SpeakerLines(lines)| ==> SpeakerLines(lines)[k] < SpeakerLines(lines)[m]
    ensures forall j :: 0 <= j < |lines| && IsSpeakerLine(lines[j]) ==> j in SpeakerLines(lines)
    decreases |lines|
  {
    if lines != [] {
      var n := |lines| - 1;
      var init := lines[..n];
      SpeakerLinesInOrder(init);
      assert forall j :: 0 <= j < n ==> init[j] == lines[j];
    }
  }

  /** Segment k is what speaker line k yields: one segment per speaker line, in
      line order, and none from any other line. */
  lemma {:induction false} SegmentsFollowLines(lines: seq<string>, tts: Tts)
    ensures |Segments(lines, tts)| == |SpeakerLines(lines)|
    ensures forall k :: 0 <= k < |SpeakerLines(lines)| ==>
      SpeakerLines(lines)[k] < |lines|
      && SegmentOf(lines[SpeakerLines(lines)[k]], tts) == Some(Segments(lines, tts)[k])
    decreases |lines|
  {
    if lines != [] {
      var n := |lines| - 1;
      var init := lines[..n];
      SegmentsFollowLines(init, tts);
      assert forall j :: 0 <= j < n ==> init[j] == lines[j];
      var segments, indices := Segments(init, tts), SpeakerLines(init);
      if IsSpeakerLine(lines[n]) {
        assert Segments(lines, tts) == segments + [SegmentOf(lines[n], tts).value];
        assert SpeakerLines(lines) == indices + [n];
      } else {
        assert Segments(lines, tts) == segments;
        assert SpeakerLines(lines) == indices;
      }
    }
  }

  /** A line "Professor:" or "Student:" followed by text without a further tag is
      spoken by that speaker, with the text stripped of surrounding whitespace. */
  lemma TaggedLineText(tag: string, rest: string, tts: Tts)
    requires tag == ProfessorTag || tag == StudentTag
    requires !Occurs(rest, tag)
    ensures SegmentOf(tag + rest, tts).Some?
    ensures SegmentOf(tag + rest, tts).value.text == Strip(rest)
    ensures SegmentOf(tag + rest, tts).value.speaker == tag[..|tag| - 1]
  {
    RemoveLeadingTag(tag, rest);
    TaggedLine(tag, rest, rest, tts);
  }

  /** The segment of a tagged line, given what removing the tag leaves of it. */
  lemma TaggedLine(tag: string, rest: string, removed: string, tts: Tts)
    requires tag == ProfessorTag || tag == StudentTag
    requires RemoveAll(tag + rest, tag) == removed
    ensures SegmentOf(tag + rest, tts).Some?
    ensures SegmentOf(tag + rest, tts).value.text == Strip(removed)
    ensures SegmentOf(tag + rest, tts).value.speaker == tag[..|tag| - 1]
  {
    if tag == ProfessorTag {
      ProfessorLine(rest, removed, tts);
      assert ProfessorTag[..9] == "Professor";
    } else {
      StudentLine(rest, removed, tts);
      assert StudentTag[..7] == "Student";
    }
  }

  lemma ProfessorLine(rest: string, removed: string, tts: Tts)
    requires RemoveAll(ProfessorTag + rest, ProfessorTag) == removed
    ensures SegmentOf(ProfessorTag + rest, tts)
      == Some(Segment("Professor", Strip(removed), tts("onyx", Strip(removed))))
  {
    var line := ProfessorTag + rest;
    assert line[..10] == ProfessorTag;
  }

  lemma StudentLine(rest: string, removed: string, tts: Tts)
    requires RemoveAll(StudentTag + rest, StudentTag) == removed
    ensures SegmentOf(StudentTag + rest, tts)
      == Some(Segment("Student", Strip(removed), tts("nova", Strip(removed))))
  {
    var line := StudentTag + rest;
    assert line[..8] == StudentTag;
    assert line[0] == 'S';
    assert !StartsWith(line, ProfessorTag);
  }

  /** The ':' that ends a tag occurs nowhere else in it. */
  lemma TagEndsOnce(tag: string)
    requires tag == ProfessorTag || tag == StudentTag
    ensures tag != [] && tag[|tag| - 1] !in tag[..|tag| - 1]
  {
    if tag == ProfessorTag {
      assert ProfessorTag[..9] == "Professor";
    } else {
      assert StudentTag[..7] == "Student";
    }
  }

  /** `replace` removes every occurrence of the tag, not only the leading one: a
      tag quoted inside the line vanishes from the spoken text as well, and the
      text around it is joined. */
  lemma QuotedTagIsRemoved(tag: string, a: string, b: string, tts: Tts)
    requires tag == ProfessorTag || tag == StudentTag
    requires !Occurs(a, tag) && !Occurs(b, tag)
    ensures SegmentOf(tag + a + tag + b, tts).Some?
    ensures SegmentOf(tag + a + tag + b, tts).value.text == Strip(a + b)
    ensures SegmentOf(tag + a + tag + b, tts).value.speaker == tag[..|tag| - 1]
  {
    var rest := a + tag + b;
    TagEndsOnce(tag);
    RemoveAllAcross(a, tag, b);
    var line := tag + rest;
    assert line[..|tag|] == tag && line[|tag|..] == rest;
    assert RemoveAll(line, tag) == a + b;
    assert tag + a + tag + b == line;
    TaggedLine(tag, rest, a + b, tts);
  }

  lemma QuotedTagStrip()
    ensures Strip(" ask a  why") == "ask a  why"
  {
    QuotedTagLstrip();
    QuotedTagUnstripped();
  }

  lemma QuotedTagLstrip()
    ensures StripStart(" ask a  why") == "ask a  why"
  {
    var r := " ask a  why";
    QuotedTagUnstripped();
    assert r[1..] == "ask a  why";
  }

  lemma QuotedTagUnstripped()
    ensures StripStart("ask a  why") == "ask a  why" && StripEnd("ask a  why") == "ask a  why"
  {
  }

  /** An instance: "Professor: ask a Professor: why" is spoken as "ask a  why". */
  lemma QuotedTagExample(tts: Tts)
    ensures SegmentOf("Professor: ask a Professor: why", tts).value.text == "ask a  why"
  {
    var a, b := " ask a ", " why";
    ShortAbsent(a, ProfessorTag);
    ShortAbsent(b, ProfessorTag);
    QuotedTagIsRemoved(ProfessorTag, a, b, tts);
    QuotedLine();
    QuotedTagStrip();
  }

  lemma QuotedLine()
    ensures ProfessorTag + " ask a " + ProfessorTag + " why" == "Professor: ask a Professor: why"
    ensures " ask a " + " why" == " ask a  why"
  {
  }
}

/** An answer as server-sent events: what a whole call makes of a list of payloads, each written on a data
    line, with blank lines, comments and other fields between them. */
module Sse {
  import opened LlmStream
  import opened Options

  // One line of the stream; crlf: it ends in CR LF instead of LF.
  datatype Line = Data(payload: string, crlf: bool) | Other(text: string, crlf: bool)
  {
    predicate Valid() {
      match this
      case Data(payload, _) => '\n' !in payload && (payload != "" && payload[|payload| - 1] == '\r' ==> crlf)
      case Other(text, _) => '\n' !in text && !("data: " <= text)
    }

    /** The line without its LF. */
    function Text(): string {
      (if Data? then "data: " + payload else text) + if crlf then "\r" else ""
    }
  }

  ghost predicate AllValid(lines: seq<Line>) {
    forall i :: 0 <= i < |lines| ==> lines[i].Valid()
  }

  function Written(lines: seq<Line>): string {
    if lines == [] then "" else lines[0].Text() + ['\n'] + Written(lines[1..])
  }

  function Texts(lines: seq<Line>): (texts: seq<string>)
    ensures |texts| == |lines|
  {
    seq(|lines|, i requires 0 <= i < |lines| => lines[i].Text())
  }

  /** The payloads, in order. */
  function Payloads(lines: seq<Line>): seq<string> {
    if lines == [] then [] else (if lines[0].Data? then [lines[0].payload] else []) + Payloads(lines[1..])
  }

  // ---- Which lines carry a payload ----

  /** A line carries a payload exactly when it starts with "data: "; the payload is the rest, less one
      carriage return at its end. */
  lemma PayloadExactly(line: string)
    ensures Payload(line).Some? <==> "data: " <= line
    ensures "data: " <= line ==>
              Payload(line) == Some(if line[|line| - 1] == '\r' then line[6..|line| - 1] else line[6..])
  {
    var text := StripReturn(line);
    assert "data: "[0] == 'd' && |"data: "| == 6;
    if "data: " <= line {
      assert line[5] == "data: "[5] == ' ';
      assert |line| > 6 || line[|line| - 1] == ' ';
      assert text[..6] == line[..6] == "data: ";
      assert "data: " <= text;
    }
  }

  lemma PayloadOfLine(line: Line)
    requires line.Valid()
    ensures Payload(line.Text()) == if line.Data? then Some(line.payload) else None
  {
    hide Payload;
    var text := line.Text();
    PayloadExactly(text);
    match line {
      case Data(payload, crlf) =>
        assert text[..6] == "data: ";
        assert crlf ==> text[6..|text| - 1] == payload;
        assert !crlf ==> text[6..] == payload;
        assert !crlf && payload == "" ==> text == "data: ";
      case Other(other, crlf) =>
        assert |text| >= 6 && text[5] == ' ' ==> |other| >= 6 && other[..6] == text[..6];
    }
  }

  lemma NoNewlineInText(line: Line)
    requires line.Valid()
    ensures '\n' !in line.Text()
  {
  }

  lemma {:induction false} LinesOfWritten(lines: seq<Line>)
    requires AllValid(lines)
    ensures Lines(Written(lines)) == Texts(lines)
    decreases |lines|
  {
    hide NewlineAt, Line.Text;
    if lines == [] {
      EmptyBuffer();
    } else {
      var first, rest := lines[0].Text(), Written(lines[1..]);
      assert lines[0].Valid();
      NoNewlineInText(lines[0]);
      LineOf(first, rest);
      LinesOfWritten(lines[1..]);
      assert Texts(lines) == [first] + Texts(lines[1..]);
    }
  }

  // ---- What a payload means ----

  /** A payload inside an answer: anything but an error and an end. */
  ghost predicate Inside(client: Client, payload: string) {
    && payload != "[DONE]"
    && !client.classify(payload).ApiError?
    && client.classify(payload) != Finished("stop") && client.classify(payload) != Finished("tool_calls")
  }

  ghost predicate Ending(client: Client, payload: string) {
    || payload == "[DONE]"
    || client.classify(payload) == Finished("stop") || client.classify(payload) == Finished("tool_calls")
  }

  /** The content that the payloads deliver, in order. */
  function ContentsOf(client: Client, payloads: seq<string>): seq<Event> {
    if payloads == [] then []
    else
      (match client.classify(payloads[0])
       case Delta(content, _) => if content != "" && client.hooks.content then [Content(content)] else []
       case _ => [])
      + ContentsOf(client, payloads[1..])
  }

  /** The pieces of tool calls that they carry, in order. */
  function FragmentsOf(client: Client, payloads: seq<string>): seq<Fragment> {
    if payloads == [] then []
    else
      (match client.classify(payloads[0])
       case Delta(_, fragments) => fragments
       case _ => [])
      + FragmentsOf(client, payloads[1..])
  }

  lemma OpenText(client: Client, line: Line)
    requires line.Valid()
    ensures line.Data? ==> (Inside(client, line.payload) ==> Open(client, line.Text()))
    ensures line.Data? ==> (Ending(client, line.payload) ==> Finishes(client, line.Text()))
    ensures line.Other? ==> Open(client, line.Text())
  {
    hide Payload, Line.Text;
    PayloadOfLine(line);
  }

  lemma {:induction false} MeaningOfTexts(client: Client, lines: seq<Line>)
    requires AllValid(lines)
    ensures Contents(client, Texts(lines)) == ContentsOf(client, Payloads(lines))
    ensures Fragments(client, Texts(lines)) == FragmentsOf(client, Payloads(lines))
    decreases |lines|
  {
    hide Payload, Line.Text;
    if lines != [] {
      var texts, payloads := Texts(lines), Payloads(lines[1..]);
      assert lines[0].Valid();
      PayloadOfLine(lines[0]);
      MeaningOfTexts(client, lines[1..]);
      assert texts[0] == lines[0].Text() && texts[1..] == Texts(lines[1..]);
      if lines[0].Data? {
        assert Payloads(lines)[0] == lines[0].payload && Payloads(lines)[1..] == payloads;
      } else {
        assert Payloads(lines) == payloads;
      }
    }
  }

  lemma {:induction false} AllInside(client: Client, lines: seq<Line>)
    requires AllValid(lines) && forall i :: 0 <= i < |Payloads(lines)| ==> Inside(client, Payloads(lines)[i])
    ensures forall i :: 0 <= i < |lines| ==> Open(client, Texts(lines)[i])
    decreases |lines|
  {
    hide Open, Inside, Line.Text;
    if lines != [] {
      assert lines[0].Valid();
      OpenText(client, lines[0]);
      var rest := Payloads(lines[1..]);
      if lines[0].Data? {
        assert Inside(client, Payloads(lines)[0]);
        forall i | 0 <= i < |rest| ensures Inside(client, rest[i]) {
          assert Payloads(lines)[i + 1] == rest[i];
        }
      } else {
        assert Payloads(lines) == rest;
      }
      AllInside(client, lines[1..]);
      forall i | 0 <= i < |lines| ensures Open(client, Texts(lines)[i]) {
        assert i > 0 ==> Texts(lines)[i] == Texts(lines[1..])[i - 1];
      }
    }
  }

  lemma {:induction false} OnlyDone(lines: seq<Line>)
    requires AllValid(lines) && forall i :: 0 <= i < |Payloads(lines)| ==> Payloads(lines)[i] == "[DONE]"
    ensures forall i :: 0 <= i < |lines| ==> Payload(Texts(lines)[i]) in {None, Some("[DONE]")}
    decreases |lines|
  {
    hide Payload, Line.Text;
    if lines != [] {
      assert lines[0].Valid();
      PayloadOfLine(lines[0]);
      var rest := Payloads(lines[1..]);
      forall i | 0 <= i < |rest| ensures rest[i] == "[DONE]" {
        assert Payloads(lines)[if lines[0].Data? then i + 1 else i] == rest[i];
      }
      assert lines[0].Data? ==> Payloads(lines)[0] == "[DONE]";
      OnlyDone(lines[1..]);
      forall i | 0 <= i < |lines| ensures Payload(Texts(lines)[i]) in {None, Some("[DONE]")} {
        assert i > 0 ==> Texts(lines)[i] == Texts(lines[1..])[i - 1];
      }
    }
  }

  /** Where a payload stands among the lines. */
  lemma {:induction false} PayloadAt(lines: seq<Line>, before: seq<string>, p: string, after: seq<string>) returns (i: nat)
    requires Payloads(lines) == before + [p] + after
    ensures i < |lines| && lines[i].Data? && lines[i].payload == p
    ensures Payloads(lines[..i]) == before && Payloads(lines[i + 1..]) == after
    decreases |lines|
  {
    var all := before + [p] + after;
    if lines[0].Data? && before == [] {
      i := 0;
      assert all[0] == p && all[1..] == after;
      assert Payloads(lines)[1..] == Payloads(lines[1..]);
    } else {
      var front := if lines[0].Data? then before[1..] else before;
      assert lines[0].Data? ==> Payloads(lines)[0] == lines[0].payload && Payloads(lines)[1..] == Payloads(lines[1..]);
      assert lines[0].Data? ==> all[0] == before[0] && all[1..] == front + [p] + after;
      var k := PayloadAt(lines[1..], front, p, after);
      i := k + 1;
      assert lines[..i][0] == lines[0] && lines[..i][1..] == lines[1..][..k];
      assert lines[i + 1..] == lines[1..][k + 1..];
    }
  }

  lemma SplitTexts(lines: seq<Line>, i: nat)
    requires i < |lines|
    ensures Texts(lines) == Texts(lines[..i]) + [lines[i].Text()] + Texts(lines[i + 1..])
  {
    hide Line.Text;
  }

  // ---- Whole calls ----

  /** An answer: its payloads, one that ends it, and [DONE]s behind it. However the stream is cut, and
      whatever lines stand between, the call delivers the content in order, then every tool call once, in
      ascending index order, assembled from all its fragments, then the end. */
  lemma AnswerFromPayloads(client: Client, chunks: seq<string>, lines: seq<Line>,
                           answer: seq<string>, ending: string, behind: seq<string>, body: string)
    requires AllValid(lines) && Concat(chunks) == Written(lines) && Payloads(lines) == answer + [ending] + behind
    requires forall i :: 0 <= i < |answer| ==> Inside(client, answer[i])
    requires Ending(client, ending) && forall i :: 0 <= i < |behind| ==> behind[i] == "[DONE]"
    ensures var fragments := FragmentsOf(client, answer);
            var calls := Ordered(AddAll(map[], fragments));
            && Callbacks(client, chunks, Status(200, body))
               == ContentsOf(client, answer) + (if client.hooks.toolCall then AsEvents(calls) else [])
                  + (if client.hooks.done then [Done] else [])
            && Ascending(calls)
            && (forall i :: 0 <= i < |calls| ==> calls[i].index in Indices(fragments) && calls[i] == Assembled(fragments, calls[i].index))
            && (forall k :: k in Indices(fragments) ==> Assembled(fragments, k) in calls)
  {
    hide Inside, Ending, Open, Finishes, Payload, Line.Text, Line.Valid, Callbacks, Ordered, AddAll, Silent, Texts, Written, Lines,
         ContentsOf, FragmentsOf, Contents, Fragments, Indices, Assembled, Ascending, AsEvents;
    var i := PayloadAt(lines, answer, ending, behind);
    LinesOfWritten(lines);
    SplitTexts(lines, i);
    assert AllValid(lines[..i]) && AllValid(lines[i + 1..]);
    AllInside(client, lines[..i]);
    assert lines[i].Valid();
    OpenText(client, lines[i]);
    OnlyDone(lines[i + 1..]);
    NoDataIsSilent(client, Status(200, body), Texts(lines[i + 1..]));
    MeaningOfTexts(client, lines[..i]);
    AnswerDelivered(client, chunks, Texts(lines[..i]), lines[i].Text(), Texts(lines[i + 1..]), body);
  }

  /** An error reported by the API: the content before it, its message, and the canceled request; the tool
      calls begun are not handed over. */
  lemma ErrorFromPayloads(client: Client, chunks: seq<string>, lines: seq<Line>,
                          answer: seq<string>, bad: string, behind: seq<string>, t: Transport)
    requires AllValid(lines) && Concat(chunks) == Written(lines) && Payloads(lines) == answer + [bad] + behind
    requires forall i :: 0 <= i < |answer| ==> Inside(client, answer[i])
    requires bad != "[DONE]" && client.classify(bad).ApiError?
    ensures Callbacks(client, chunks, t)
         == ContentsOf(client, answer)
            + if client.hooks.error then [Error(client.classify(bad).message), Error(client.canceled)] else []
  {
    hide Inside, Open, Line.Text, Line.Valid, Callbacks, Texts, Written, Lines, ContentsOf, FragmentsOf, Contents, Fragments;
    var i := PayloadAt(lines, answer, bad, behind);
    LinesOfWritten(lines);
    SplitTexts(lines, i);
    assert AllValid(lines[..i]) && AllValid(lines[i + 1..]);
    AllInside(client, lines[..i]);
    assert lines[i].Valid();
    PayloadOfLine(lines[i]);
    MeaningOfTexts(client, lines[..i]);
    ErrorDelivered(client, chunks, Texts(lines[..i]), lines[i].Text(), bad, Texts(lines[i + 1..]), t);
  }
}

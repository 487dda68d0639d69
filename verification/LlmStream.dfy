/** The streaming receiver of LlmClient::chat_completion: a line buffer over network chunks, tool calls
    accumulated by index, and the callbacks made. */
module LlmStream {
  import opened LeastOfSet
  import opened Options

  // ---- Lines and payloads ----

  // A piece of a tool call; absent and null fields are None.
  datatype Fragment = Fragment(index: int, id: Option<string>, name: Option<string>, arguments: Option<string>)

  // What JSON parsing makes of a payload, as far as the receiver looks.
  datatype Chunk =
    | Malformed
    | ApiError(message: string)
    | NoChoice
    | Finished(reason: string)
    | NoDelta
    | Delta(content: string, fragments: seq<Fragment>)

  datatype ToolCall = ToolCall(index: int, id: string, name: string, arguments: string)

  datatype Event = Content(text: string) | Call(call: ToolCall) | Done | Error(message: string)

  // Which callbacks the caller installed.
  datatype Hooks = Hooks(content: bool, toolCall: bool, done: bool, error: bool)

  // The caller's hooks, the JSON reading of a payload, and the transport's wording of a canceled request.
  datatype Client = Client(hooks: Hooks, classify: string -> Chunk, canceled: string)

  /** Everything the receiver keeps except the line buffer. */
  datatype Core = Core(accum: map<int, ToolCall>, doneCalled: bool, events: seq<Event>)

  datatype Verdict = Continue | EndOfStream | Abort

  const DATA_PREFIX := "data: "
  const DONE_PAYLOAD := "[DONE]"

  function StripReturn(line: string): string {
    if line != [] && line[|line| - 1] == '\r' then line[..|line| - 1] else line
  }

  /** The payload of a data line; None for blank lines, comments and other fields. */
  function Payload(line: string): Option<string> {
    var text := StripReturn(line);
    if text == [] || text[0] == ':' || !(DATA_PREFIX <= text) then None else Some(text[|DATA_PREFIX|..])
  }

  // ---- Accumulation ----

  function Present(sent: Option<string>, current: string): string {
    if sent.Some? then sent.value else current
  }

  function AddFragment(accum: map<int, ToolCall>, f: Fragment): map<int, ToolCall> {
    var before := if f.index in accum then accum[f.index] else ToolCall(f.index, Present(f.id, ""), "", "");
    accum[f.index := ToolCall(before.index, Present(f.id, before.id), Present(f.name, before.name),
                              before.arguments + Present(f.arguments, ""))]
  }

  function AddAll(accum: map<int, ToolCall>, fs: seq<Fragment>): map<int, ToolCall> {
    if fs == [] then accum else AddFragment(AddAll(accum, fs[..|fs| - 1]), fs[|fs| - 1])
  }

  /** std::map order: by ascending index. */
  ghost function Ordered(accum: map<int, ToolCall>): (calls: seq<ToolCall>)
    ensures |calls| == |accum|
    decreases |accum|
  {
    if accum.Keys == {} then []
    else
      var k := Least(accum.Keys);
      assert (accum - {k}).Keys == accum.Keys - {k};
      [accum[k]] + Ordered(accum - {k})
  }

  ghost function CallEvents(hooks: Hooks, accum: map<int, ToolCall>): seq<Event> {
    if hooks.toolCall then AsEvents(Ordered(accum)) else []
  }

  function AsEvents(calls: seq<ToolCall>): (events: seq<Event>)
    ensures |events| == |calls| && forall i :: 0 <= i < |calls| ==> events[i] == Call(calls[i])
  {
    seq(|calls|, i requires 0 <= i < |calls| => Call(calls[i]))
  }

  lemma AsEventsPush(calls: seq<ToolCall>, call: ToolCall)
    ensures AsEvents(calls + [call]) == AsEvents(calls) + [Call(call)]
  {
  }

  /** Emit what is accumulated and report the end once. */
  ghost function Finish(hooks: Hooks, c: Core): Core {
    var calls := c.events + CallEvents(hooks, c.accum);
    if !c.doneCalled && hooks.done then Core(map[], true, calls + [Done]) else Core(map[], c.doneCalled, calls)
  }

  function ContentEvents(hooks: Hooks, text: string): seq<Event> {
    if text != "" && hooks.content then [Content(text)] else []
  }

  /** One complete line. */
  ghost function OnLine(client: Client, c: Core, line: string): (Core, Verdict) {
    match Payload(line)
    case None => (c, Continue)
    case Some(payload) =>
      if payload == DONE_PAYLOAD then (Finish(client.hooks, c), EndOfStream)
      else match client.classify(payload)
        case Malformed => (c, Continue)
        case ApiError(message) =>
          (c.(events := c.events + if client.hooks.error then [Error(message)] else []), Abort)
        case NoChoice => (c, Continue)
        case Finished(reason) =>
          (if reason == "stop" || reason == "tool_calls" then Finish(client.hooks, c) else c, Continue)
        case NoDelta => (c, Continue)
        case Delta(content, fragments) =>
          (Core(AddAll(c.accum, fragments), c.doneCalled, c.events + ContentEvents(client.hooks, content)), Continue)
  }

  // ---- Buffer and chunks ----

  function NewlineAt(s: string): (i: nat)
    ensures i <= |s| && '\n' !in s[..i] && (i < |s| ==> s[i] == '\n')
  {
    if s == [] || s[0] == '\n' then 0
    else
      var i := 1 + NewlineAt(s[1..]);
      assert s[..i] == [s[0]] + s[1..][..i - 1];
      i
  }

  datatype Drained = Drained(core: Core, rest: string, verdict: Verdict)

  /** Take complete lines from the front of the buffer until none is left or one ends the call. */
  ghost function Drain(client: Client, c: Core, buf: string): Drained
    decreases |buf|
  {
    var i := NewlineAt(buf);
    if i == |buf| then Drained(c, buf, Continue)
    else
      var (next, verdict) := OnLine(client, c, buf[..i]);
      if verdict.Continue? then Drain(client, next, buf[i + 1..]) else Drained(next, buf[i + 1..], verdict)
  }

  // aborted: the receiver returned false, so no further chunk is delivered.
  datatype Streamed = Streamed(core: Core, buffer: string, aborted: bool)

  ghost function Stream(client: Client, s: Streamed, chunks: seq<string>): Streamed
    decreases |chunks|
  {
    if chunks == [] || s.aborted then s
    else
      var d := Drain(client, s.core, s.buffer + chunks[0]);
      Stream(client, Streamed(d.core, d.rest, d.verdict.Abort?), chunks[1..])
  }

  const INITIAL := Core(map[], false, [])

  // How the HTTP call ended.
  datatype Transport = Failed(message: string) | Status(code: int, body: string)

  /** What follows the stream; the wording of an HTTP error is the transport's. */
  ghost function Tail(hooks: Hooks, c: Core, t: Transport): seq<Event> {
    match t
    case Failed(message) => c.events + if hooks.error then [Error(message)] else []
    case Status(code, body) =>
      if code != 200 then c.events + if hooks.error then [Error(body)] else []
      else if c.doneCalled then c.events
      else c.events + CallEvents(hooks, c.accum) + if hooks.done then [Done] else []
  }

  /** A request that the receiver stops has failed, whatever its outcome would have been. */
  function Outcome(client: Client, aborted: bool, t: Transport): Transport {
    if aborted then Failed(client.canceled) else t
  }

  ghost function Ended(client: Client, core: Core, aborted: bool, t: Transport): seq<Event> {
    Tail(client.hooks, core, Outcome(client, aborted, t))
  }

  /** All callbacks of a call that delivers these chunks; t is how the request ends if it is not stopped. */
  ghost function Callbacks(client: Client, chunks: seq<string>, t: Transport): seq<Event> {
    var run := Stream(client, Streamed(INITIAL, "", false), chunks);
    Ended(client, run.core, run.aborted, t)
  }

  /** The next entry of an ordered map. */
  method LeastKey(accum: map<int, ToolCall>) returns (k: int)
    requires accum.Keys != {}
    ensures IsLeast(k, accum.Keys)
  {
    ghost var least := HasLeast(accum.Keys);
    k :| k in accum.Keys && forall j :: j in accum.Keys ==> k <= j;
  }

  class Receiver {
    const client: Client
    var lineBuffer: string
    var accum: map<int, ToolCall>
    var doneCalled: bool
    var events: seq<Event>

    constructor (client: Client)
      ensures this.client == client && lineBuffer == "" && State() == INITIAL
    {
      this.client := client;
      lineBuffer, accum, doneCalled, events := "", map[], false, [];
    }

    function State(): Core
      reads this
    {
      Core(accum, doneCalled, events)
    }

    method EmitCalls()
      modifies `events
      ensures events == old(events) + CallEvents(client.hooks, accum)
    {
      hide Ordered, AsEvents, IsLeast;
      var rest := accum;
      ghost var calls := [];
      NoneOrdered();
      while rest.Keys != {}
        invariant calls + Ordered(rest) == Ordered(accum)
        invariant events == old(events) + if client.hooks.toolCall then AsEvents(calls) else []
        decreases |rest|
      {
        var k := LeastKey(rest);
        OrderedStep(rest, k);
        AsEventsPush(calls, rest[k]);
        if client.hooks.toolCall {
          events := events + [Call(rest[k])];
        }
        Regroup(calls, rest[k], Ordered(rest - {k}));
        calls := calls + [rest[k]];
        rest := rest - {k};
      }
      assert calls + [] == calls;
    }

    method EmitAndFinish()
      modifies `accum, `doneCalled, `events
      ensures State() == Finish(client.hooks, old(State()))
    {
      EmitCalls();
      accum := map[];
      if !doneCalled && client.hooks.done {
        doneCalled := true;
        events := events + [Done];
      }
    }

    method AddOne(f: Fragment)
      modifies `accum
      ensures accum == AddFragment(old(accum), f)
    {
      if f.index !in accum {
        accum := accum[f.index := ToolCall(f.index, Present(f.id, ""), "", "")];
      }
      var call := accum[f.index];
      if f.id.Some? {
        call := call.(id := f.id.value);
      }
      if f.name.Some? {
        call := call.(name := f.name.value);
      }
      if f.arguments.Some? {
        var existing := call.arguments;
        existing := existing + f.arguments.value;
        call := call.(arguments := existing);
      }
      assert call.arguments + "" == call.arguments;
      accum := accum[f.index := call];
    }

    method AddFragments(fragments: seq<Fragment>)
      modifies `accum
      ensures accum == AddAll(old(accum), fragments)
    {
      hide AddFragment;
      for n := 0 to |fragments|
        invariant accum == AddAll(old(accum), fragments[..n])
      {
        assert fragments[..n + 1][..n] == fragments[..n];
        AddOne(fragments[n]);
      }
      assert fragments[..|fragments|] == fragments;
    }

    /** One network chunk; false stops the transfer. */
    method Receive(data: string) returns (more: bool)
      modifies this
      ensures var d := Drain(client, old(State()), old(lineBuffer) + data);
              State() == d.core && lineBuffer == d.rest && more == !d.verdict.Abort?
    {
      hide Finish, AddAll, Payload, NewlineAt;
      lineBuffer := lineBuffer + data;
      while NewlineAt(lineBuffer) < |lineBuffer|
        invariant Drain(client, State(), lineBuffer) == Drain(client, old(State()), old(lineBuffer) + data)
        decreases |lineBuffer|
      {
        var pos := NewlineAt(lineBuffer);
        var line := lineBuffer[..pos];
        lineBuffer := lineBuffer[pos + 1..];
        var payload := Payload(line);
        if payload.None? {
          continue;
        }
        if payload.value == DONE_PAYLOAD {
          EmitAndFinish();
          return true;
        }
        var chunk := client.classify(payload.value);
        match chunk {
          case Malformed | NoChoice | NoDelta => continue;
          case ApiError(message) =>
            if client.hooks.error {
              events := events + [Error(message)];
            }
            return false;
          case Finished(reason) =>
            if reason == "stop" || reason == "tool_calls" {
              EmitAndFinish();
            }
            continue;
          case Delta(content, fragments) =>
            assert events + [] == events;
            if content != "" && client.hooks.content {
              events := events + [Content(content)];
            }
            AddFragments(fragments);
        }
      }
      return true;
    }

    /** What chat_completion does when the request has ended. */
    method AfterStream(t: Transport)
      modifies this
      ensures events == Tail(client.hooks, old(State()), t)
    {
      match t {
        case Failed(message) =>
          if client.hooks.error {
            events := events + [Error(message)];
          }
        case Status(code, body) =>
          if code != 200 {
            if client.hooks.error {
              events := events + [Error(body)];
            }
            return;
          }
          if !doneCalled {
            EmitCalls();
            if client.hooks.done {
              events := events + [Done];
            }
          }
      }
    }
  }

  /** The whole call: chunks are delivered in order until the receiver asks to stop. */
  method ChatCompletion(client: Client, chunks: seq<string>, t: Transport) returns (events: seq<Event>)
    ensures events == Callbacks(client, chunks, t)
  {
    hide Drain, Tail;
    var receiver := new Receiver(client);
    var more, i := true, 0;
    while i < |chunks| && more
      invariant i <= |chunks| && fresh(receiver) && receiver.client == client
      invariant Stream(client, Streamed(receiver.State(), receiver.lineBuffer, !more), chunks[i..])
             == Stream(client, Streamed(INITIAL, "", false), chunks)
    {
      assert chunks[i..][1..] == chunks[i + 1..];
      more := receiver.Receive(chunks[i]);
      i := i + 1;
    }
    receiver.AfterStream(Outcome(client, !more, t));
    events := receiver.events;
  }

  // ---- Ordered emission ----

  lemma OrderedStep(accum: map<int, ToolCall>, k: int)
    requires IsLeast(k, accum.Keys)
    ensures (accum - {k}).Keys == accum.Keys - {k} && |accum - {k}| == |accum| - 1
    ensures Ordered(accum) == [accum[k]] + Ordered(accum - {k})
  {
    OnlyLeast(k, Least(accum.Keys), accum.Keys);
  }

  lemma OnlyLeast(j: int, k: int, keys: set<int>)
    requires IsLeast(j, keys) && IsLeast(k, keys)
    ensures j == k
  {
  }

  lemma Regroup(a: seq<ToolCall>, call: ToolCall, b: seq<ToolCall>)
    ensures a + ([call] + b) == a + [call] + b
  {
  }

  lemma NoneOrdered()
    ensures forall accum: map<int, ToolCall> :: accum.Keys == {} ==> Ordered(accum) == []
    ensures AsEvents([]) == []
  {
  }

  ghost predicate Ascending(calls: seq<ToolCall>) {
    forall i, j :: 0 <= i < j < |calls| ==> calls[i].index < calls[j].index
  }

  /** The calls are the accumulated ones, each once. */
  ghost predicate Lists(calls: seq<ToolCall>, accum: map<int, ToolCall>) {
    && (forall i :: 0 <= i < |calls| ==> calls[i].index in accum && accum[calls[i].index] == calls[i])
    && (forall k :: k in accum ==> accum[k] in calls)
  }

  /** Each index is emitted once, in ascending order. */
  lemma {:induction false} OrderedAscends(accum: map<int, ToolCall>)
    requires forall k :: k in accum ==> accum[k].index == k
    ensures Ascending(Ordered(accum)) && Lists(Ordered(accum), accum)
    decreases |accum|
  {
    hide Ordered, Ascending, Lists;
    NoneOrdered();
    if accum.Keys != {} {
      var k := HasLeast(accum.Keys);
      OrderedStep(accum, k);
      OrderedAscends(accum - {k});
      LeastInFront(accum, k, Ordered(accum - {k}));
    } else {
      NothingListed(accum);
    }
  }

  lemma NothingListed(accum: map<int, ToolCall>)
    requires accum.Keys == {}
    ensures Ascending([]) && Lists([], accum)
  {
  }

  lemma LeastInFront(accum: map<int, ToolCall>, k: int, later: seq<ToolCall>)
    requires IsLeast(k, accum.Keys) && accum[k].index == k
    requires Ascending(later) && Lists(later, accum - {k})
    ensures Ascending([accum[k]] + later) && Lists([accum[k]] + later, accum)
  {
    var calls := [accum[k]] + later;
    forall i, j | 0 <= i < j < |calls| ensures calls[i].index < calls[j].index {
      assert calls[j] == later[j - 1];
      if i > 0 {
        assert calls[i] == later[i - 1];
      } else {
        assert later[j - 1].index in (accum - {k}) && later[j - 1].index in accum.Keys;
      }
    }
    forall l | l in accum ensures accum[l] in calls {
      if l != k {
        assert l in accum - {k};
        assert accum[l] in later;
      } else {
        assert calls[0] == accum[k];
      }
    }
    forall i | 0 <= i < |calls| ensures calls[i].index in accum && accum[calls[i].index] == calls[i] {
      if i > 0 {
        assert calls[i] == later[i - 1] && later[i - 1].index in accum - {k};
      }
    }
  }

  // ---- Splitting does not matter ----

  lemma NewlineAppended(a: string, b: string)
    ensures NewlineAt(a) < |a| ==> NewlineAt(a + b) == NewlineAt(a)
  {
    if a != [] && a[0] != '\n' {
      assert (a + b)[1..] == a[1..] + b;
      NewlineAppended(a[1..], b);
    }
  }

  /** More bytes behind a buffer do not change what its complete lines do. */
  lemma {:induction false} DrainAppended(client: Client, c: Core, a: string, b: string)
    ensures var d := Drain(client, c, a);
            Drain(client, c, a + b) == if d.verdict.Continue? then Drain(client, d.core, d.rest + b)
                                       else Drained(d.core, d.rest + b, d.verdict)
    decreases |a|
  {
    hide OnLine, NewlineAt;
    var i := NewlineAt(a);
    if i < |a| {
      NewlineAppended(a, b);
      assert (a + b)[..i] == a[..i] && (a + b)[i + 1..] == a[i + 1..] + b;
      var (next, verdict) := OnLine(client, c, a[..i]);
      if verdict.Continue? {
        DrainAppended(client, next, a[i + 1..], b);
      }
    }
  }

  lemma DrainedRest(client: Client, c: Core, buf: string)
    ensures var d := Drain(client, c, buf); d.verdict.Continue? ==> NewlineAt(d.rest) == |d.rest|
    decreases |buf|
  {
    hide OnLine, NewlineAt;
    var i := NewlineAt(buf);
    if i < |buf| {
      var (next, verdict) := OnLine(client, c, buf[..i]);
      if verdict.Continue? {
        DrainedRest(client, next, buf[i + 1..]);
      }
    }
  }

  lemma NothingToDrain(client: Client, c: Core, buf: string)
    requires NewlineAt(buf) == |buf|
    ensures Drain(client, c, buf) == Drained(c, buf, Continue)
  {
  }

  function Concat(chunks: seq<string>): string {
    if chunks == [] then [] else chunks[0] + Concat(chunks[1..])
  }

  lemma {:induction false} EventsGrow(client: Client, s: Streamed, chunks: seq<string>)
    ensures s.core.events <= Stream(client, s, chunks).core.events
    decreases |chunks|
  {
    hide Drain;
    if chunks != [] && !s.aborted {
      var d := Drain(client, s.core, s.buffer + chunks[0]);
      DrainGrows(client, s.core, s.buffer + chunks[0]);
      EventsGrow(client, Streamed(d.core, d.rest, d.verdict.Abort?), chunks[1..]);
    }
  }

  lemma {:induction false} DrainGrows(client: Client, c: Core, buf: string)
    ensures c.events <= Drain(client, c, buf).core.events
    decreases |buf|
  {
    hide NewlineAt, AddAll, Payload;
    var i := NewlineAt(buf);
    if i < |buf| {
      var (next, verdict) := OnLine(client, c, buf[..i]);
      assert c.events <= next.events;
      if verdict.Continue? {
        DrainGrows(client, next, buf[i + 1..]);
      }
    }
  }

  /** However the bytes are cut, what happens up to and including the first line that ends the call is
      what happens when all of them arrive at once; without such a line the buffer is left with exactly
      the same partial line. */
  lemma {:induction false} SplittingDoesNotMatter(client: Client, c: Core, buffer: string, chunks: seq<string>)
    requires NewlineAt(buffer) == |buffer|
    ensures var whole := Drain(client, c, buffer + Concat(chunks));
            var run := Stream(client, Streamed(c, buffer, false), chunks);
            match whole.verdict
            case Continue => run == Streamed(whole.core, whole.rest, false)
            case Abort => run.core == whole.core && run.aborted
            case EndOfStream => whole.core.events <= run.core.events
    decreases |chunks|
  {
    hide Drain, NewlineAt;
    if chunks == [] {
      assert buffer + [] == buffer;
      NothingToDrain(client, c, buffer);
    } else {
      var first, rest := buffer + chunks[0], Concat(chunks[1..]);
      assert buffer + Concat(chunks) == first + rest;
      DrainAppended(client, c, first, rest);
      var d := Drain(client, c, first);
      var next := Streamed(d.core, d.rest, d.verdict.Abort?);
      if d.verdict.Continue? {
        DrainedRest(client, c, first);
        SplittingDoesNotMatter(client, d.core, d.rest, chunks[1..]);
      } else {
        EventsGrow(client, next, chunks[1..]);
      }
    }
  }

  // ---- Draining is reading line by line ----

  /** The complete lines of a byte stream, and what is left behind the last one. */
  function Lines(s: string): seq<string>
    decreases |s|
  {
    var i := NewlineAt(s);
    if i == |s| then [] else [s[..i]] + Lines(s[i + 1..])
  }

  function Partial(s: string): string
    decreases |s|
  {
    var i := NewlineAt(s);
    if i == |s| then s else Partial(s[i + 1..])
  }

  function Unlines(lines: seq<string>): string {
    if lines == [] then [] else lines[0] + ['\n'] + Unlines(lines[1..])
  }

  /** Lines and Partial cut the stream at its newlines, all of them, and lose nothing. */
  lemma {:induction false} LinesLoseNothing(s: string)
    ensures Unlines(Lines(s)) + Partial(s) == s
    ensures '\n' !in Partial(s) && forall i :: 0 <= i < |Lines(s)| ==> '\n' !in Lines(s)[i]
    decreases |s|
  {
    hide NewlineAt;
    var i := NewlineAt(s);
    if i == |s| {
      assert Lines(s) == [] && Unlines([]) + s == s;
      assert s[..i] == s;
    } else {
      var head, rest := s[..i], s[i + 1..];
      LinesLoseNothing(rest);
      assert Lines(s)[1..] == Lines(rest);
      assert Unlines(Lines(s)) == head + ['\n'] + Unlines(Lines(rest));
      BehindNewline(head, Unlines(Lines(rest)), Partial(rest));
      assert s == head + ['\n'] + rest;
    }
  }

  lemma BehindNewline(a: string, b: string, c: string)
    ensures a + ['\n'] + b + c == a + ['\n'] + (b + c)
  {
  }

  /** Lines one by one, up to and including the first that ends the call. */
  ghost function OnLines(client: Client, c: Core, lines: seq<string>): (Core, Verdict)
    decreases |lines|
  {
    if lines == [] then (c, Continue)
    else
      var (next, verdict) := OnLine(client, c, lines[0]);
      if verdict.Continue? then OnLines(client, next, lines[1..]) else (next, verdict)
  }

  lemma {:induction false} DrainIsLineByLine(client: Client, c: Core, s: string)
    ensures var d := Drain(client, c, s);
            (d.core, d.verdict) == OnLines(client, c, Lines(s)) && (d.verdict.Continue? ==> d.rest == Partial(s))
    decreases |s|
  {
    hide OnLine, NewlineAt;
    var i := NewlineAt(s);
    if i < |s| {
      var (next, verdict) := OnLine(client, c, s[..i]);
      assert Lines(s)[1..] == Lines(s[i + 1..]);
      if verdict.Continue? {
        DrainIsLineByLine(client, next, s[i + 1..]);
      }
    }
  }

  /** Behind [DONE] it does matter: a line that arrives with it is dropped, one that arrives in a later
      chunk is still processed. */
  lemma BehindDoneItMatters(client: Client, doneLine: string, line: string, payload: string, text: string)
    requires '\n' !in doneLine && Payload(doneLine) == Some(DONE_PAYLOAD)
    requires '\n' !in line && Payload(line) == Some(payload) && payload != DONE_PAYLOAD
    requires client.classify(payload) == Delta(text, []) && text != "" && client.hooks.content && client.hooks.done
    ensures var done, next := doneLine + ['\n'], line + ['\n'];
            && Stream(client, Streamed(INITIAL, "", false), [done + next]).core.events == [Done]
            && Stream(client, Streamed(INITIAL, "", false), [done, next]).core.events == [Done, Content(text)]
  {
    hide Finish, Payload, NewlineAt, AddAll, Stream;
    var done, next := doneLine + ['\n'], line + ['\n'];
    var finished, shown := Core(map[], true, [Done]), Core(map[], true, [Done, Content(text)]);
    FinishNothing(client.hooks);
    NothingAdded(map[]);
    assert done + next == doneLine + ['\n'] + next && done == doneLine + ['\n'] + [] && next == line + ['\n'] + [];
    LineOf(doneLine, []);
    LineOf(doneLine, next);
    LineOf(line, []);
    EmptyBuffer();
    assert Drain(client, INITIAL, done + next) == Drained(finished, next, EndOfStream);
    assert Drain(client, INITIAL, done) == Drained(finished, [], EndOfStream);
    assert Drain(client, finished, next) == Drained(shown, [], Continue) by {
      assert [Done] + [Content(text)] == [Done, Content(text)];
      NothingToDrain(client, shown, []);
    }
    OneChunk(client, done + next, finished, next, EndOfStream);
    TwoChunks(client, done, next, finished, shown);
  }

  lemma EmptyBuffer()
    ensures NewlineAt([]) == 0
  {
  }

  lemma FinishNothing(hooks: Hooks)
    ensures hooks.done ==> Finish(hooks, INITIAL) == Core(map[], true, [Done])
  {
    assert Ordered(map[]) == [];
  }

  lemma {:induction false} LineOf(line: string, rest: string)
    requires '\n' !in line
    ensures var s := line + ['\n'] + rest;
            NewlineAt(s) == |line| && s[..|line|] == line && s[|line| + 1..] == rest
  {
    var s := line + ['\n'] + rest;
    assert s[..|line|] == line && s[|line| + 1..] == rest;
    if line != [] {
      LineOf(line[1..], rest);
      assert s[1..] == line[1..] + ['\n'] + rest;
    }
  }

  lemma OneChunk(client: Client, s: string, core: Core, rest: string, verdict: Verdict)
    requires Drain(client, INITIAL, s) == Drained(core, rest, verdict)
    ensures Stream(client, Streamed(INITIAL, "", false), [s]) == Streamed(core, rest, verdict.Abort?)
  {
    hide Drain;
    assert "" + s == s;
    assert [s][1..] == [];
  }

  lemma TwoChunks(client: Client, a: string, b: string, middle: Core, end: Core)
    requires Drain(client, INITIAL, a) == Drained(middle, [], EndOfStream)
    requires Drain(client, middle, b) == Drained(end, [], Continue)
    ensures Stream(client, Streamed(INITIAL, "", false), [a, b]) == Streamed(end, [], false)
  {
    hide Drain;
    assert "" + a == a && [] + b == b;
    assert [a, b][1..] == [b] && [b][1..] == [];
    assert Stream(client, Streamed(middle, [], false), [b]) == Stream(client, Streamed(end, [], false), []);
  }

  // ---- Tool calls are assembled ----

  /** The argument text sent for an index, in arrival order. */
  function ArgumentsFor(fs: seq<Fragment>, index: int): string {
    if fs == [] then ""
    else
      var f := fs[|fs| - 1];
      ArgumentsFor(fs[..|fs| - 1], index) + if f.index == index then Present(f.arguments, "") else ""
  }

  /** The last id, or name, sent for an index. */
  function LastId(fs: seq<Fragment>, index: int): string {
    if fs == [] then ""
    else
      var f, before := fs[|fs| - 1], LastId(fs[..|fs| - 1], index);
      if f.index == index then Present(f.id, before) else before
  }

  function LastName(fs: seq<Fragment>, index: int): string {
    if fs == [] then ""
    else
      var f, before := fs[|fs| - 1], LastName(fs[..|fs| - 1], index);
      if f.index == index then Present(f.name, before) else before
  }

  function Assembled(fs: seq<Fragment>, index: int): ToolCall {
    ToolCall(index, LastId(fs, index), LastName(fs, index), ArgumentsFor(fs, index))
  }

  function Indices(fs: seq<Fragment>): set<int> {
    set i | 0 <= i < |fs| :: fs[i].index
  }

  /** Whatever the interleaving, each index has collected its own fragments in arrival order. */
  lemma {:induction false} AccumAssembles(fs: seq<Fragment>)
    ensures AddAll(map[], fs).Keys == Indices(fs)
    ensures forall k :: k in Indices(fs) ==> AddAll(map[], fs)[k] == Assembled(fs, k)
    ensures forall k :: k !in Indices(fs) ==> Assembled(fs, k) == ToolCall(k, "", "", "")
  {
    if fs != [] {
      var front, f := fs[..|fs| - 1], fs[|fs| - 1];
      AccumAssembles(front);
      assert Indices(fs) == Indices(front) + {f.index} by {
        forall k | k in Indices(front) + {f.index} ensures k in Indices(fs) {
          if k == f.index {
            assert fs[|fs| - 1].index == k;
          } else {
            var i :| 0 <= i < |front| && front[i].index == k;
            assert fs[i].index == k;
          }
        }
        forall k | k in Indices(fs) ensures k in Indices(front) + {f.index} {
          var i :| 0 <= i < |fs| && fs[i].index == k;
          assert i < |front| ==> front[i].index == k;
        }
      }
      hide Indices;
      var was, now := AddAll(map[], front), AddAll(map[], fs);
      assert now == AddFragment(was, f);
      forall k | k in Indices(fs) ensures now[k] == Assembled(fs, k) {
        if k != f.index {
          assert k in Indices(front) && now[k] == was[k];
          assert ArgumentsFor(front, k) + "" == ArgumentsFor(front, k);
        } else {
          assert "" + Present(f.arguments, "") == Present(f.arguments, "");
        }
      }
      forall k | k !in Indices(fs) ensures Assembled(fs, k) == ToolCall(k, "", "", "") {
        assert "" + "" == "";
      }
    }
  }

  /** At the finish each index is handed over exactly once, in ascending order, complete. */
  lemma CallsAssembled(fs: seq<Fragment>)
    ensures var calls := Ordered(AddAll(map[], fs));
            && Ascending(calls)
            && (forall i :: 0 <= i < |calls| ==> calls[i].index in Indices(fs) && calls[i] == Assembled(fs, calls[i].index))
            && (forall k :: k in Indices(fs) ==> Assembled(fs, k) in calls)
  {
    hide AddAll, Ordered, Indices, Assembled;
    AccumAssembles(fs);
    AssembledIndex(fs);
    OrderedAscends(AddAll(map[], fs));
  }

  lemma AssembledIndex(fs: seq<Fragment>)
    ensures forall k :: Assembled(fs, k).index == k
  {
  }

  /** A line that neither ends the call nor finishes the answer. */
  ghost predicate Open(client: Client, line: string) {
    match Payload(line)
    case None => true
    case Some(payload) =>
      payload != DONE_PAYLOAD
      && match client.classify(payload)
         case ApiError(_) => false
         case Finished(reason) => reason != "stop" && reason != "tool_calls"
         case _ => true
  }

  /** A line that finishes the answer. */
  ghost predicate Finishes(client: Client, line: string) {
    match Payload(line)
    case None => false
    case Some(payload) =>
      payload == DONE_PAYLOAD || client.classify(payload) == Finished("stop") || client.classify(payload) == Finished("tool_calls")
  }

  function LineFragments(client: Client, line: string): seq<Fragment> {
    match Payload(line)
    case None => []
    case Some(payload) =>
      match client.classify(payload)
      case Delta(_, fragments) => fragments
      case _ => []
  }

  function LineContent(client: Client, line: string): seq<Event> {
    match Payload(line)
    case None => []
    case Some(payload) =>
      match client.classify(payload)
      case Delta(content, _) => ContentEvents(client.hooks, content)
      case _ => []
  }

  function Fragments(client: Client, lines: seq<string>): seq<Fragment> {
    if lines == [] then [] else LineFragments(client, lines[0]) + Fragments(client, lines[1..])
  }

  function Contents(client: Client, lines: seq<string>): seq<Event> {
    if lines == [] then [] else LineContent(client, lines[0]) + Contents(client, lines[1..])
  }

  lemma {:induction false} AddAllAppended(accum: map<int, ToolCall>, a: seq<Fragment>, b: seq<Fragment>)
    ensures AddAll(accum, a + b) == AddAll(AddAll(accum, a), b)
  {
    hide AddFragment;
    if b == [] {
      assert a + b == a;
    } else {
      AddAllAppended(accum, a, b[..|b| - 1]);
      assert (a + b)[..|a + b| - 1] == a + b[..|b| - 1];
    }
  }

  lemma OpenLine(client: Client, c: Core, line: string)
    requires Open(client, line)
    ensures OnLine(client, c, line)
         == (Core(AddAll(c.accum, LineFragments(client, line)), c.doneCalled, c.events + LineContent(client, line)), Continue)
  {
    hide Payload;
    assert c.events + [] == c.events;
  }

  lemma NothingAdded(accum: map<int, ToolCall>)
    ensures AddAll(accum, []) == accum
  {
  }

  lemma FinishLine(client: Client, c: Core, line: string)
    requires Finishes(client, line)
    ensures OnLine(client, c, line).0 == Finish(client.hooks, c) && !OnLine(client, c, line).1.Abort?
  {
    hide Finish, Payload;
  }

  // ---- Behind the line that ends the call ----

  /** Lines one by one, [DONE] being a line like others; true when an API error stops the transfer. */
  ghost function Through(client: Client, c: Core, lines: seq<string>): (Core, bool)
    decreases |lines|
  {
    if lines == [] then (c, false)
    else
      var (next, verdict) := OnLine(client, c, lines[0]);
      if verdict.Abort? then (next, true) else Through(client, next, lines[1..])
  }

  lemma {:induction false} ThroughAppended(client: Client, c: Core, a: seq<string>, b: seq<string>)
    ensures var (core, aborted) := Through(client, c, a);
            Through(client, c, a + b) == if aborted then (core, true) else Through(client, core, b)
    decreases |a|
  {
    hide OnLine;
    if a == [] {
      assert a + b == b;
    } else {
      assert (a + b)[1..] == a[1..] + b;
      ThroughAppended(client, OnLine(client, c, a[0]).0, a[1..], b);
    }
  }

  /** A [DONE] line or an API error. */
  ghost predicate Ends(client: Client, line: string) {
    !Open(client, line) && (Finishes(client, line) ==> Payload(line) == Some(DONE_PAYLOAD))
  }

  lemma LineVerdict(client: Client, c: Core, line: string)
    ensures OnLine(client, c, line).1.Continue? <==> !Ends(client, line)
  {
    hide Finish, Payload;
  }

  /** How many lines there are up to and including the first that ends the call. */
  ghost function UpToEnd(client: Client, lines: seq<string>): (k: nat)
    ensures k <= |lines|
  {
    if lines == [] then 0 else if Ends(client, lines[0]) then 1 else 1 + UpToEnd(client, lines[1..])
  }

  /** A drain takes the lines up to the first that ends the call. */
  lemma DrainTakes(client: Client, c: Core, buf: string, more: string)
    ensures var d, lines := Drain(client, c, buf), Lines(buf);
            var k := UpToEnd(client, lines);
            && Through(client, c, lines[..k]) == (d.core, d.verdict.Abort?)
            && Lines(buf + more) == lines[..k] + Lines(d.rest + more)
            && UpToEnd(client, Lines(buf + more)) == k + if d.verdict.Continue? then UpToEnd(client, Lines(d.rest + more)) else 0
  {
    hide Drain, Lines, UpToEnd, Through;
    DrainThrough(client, c, buf);
    DrainLines(client, c, buf, more);
  }

  lemma {:induction false} DrainThrough(client: Client, c: Core, buf: string)
    ensures var d, lines := Drain(client, c, buf), Lines(buf);
            Through(client, c, lines[..UpToEnd(client, lines)]) == (d.core, d.verdict.Abort?)
    decreases |buf|
  {
    hide OnLine, NewlineAt, Ends;
    var i := NewlineAt(buf);
    if i < |buf| {
      var line, rest := buf[..i], buf[i + 1..];
      assert Lines(buf)[1..] == Lines(rest);
      LineVerdict(client, c, line);
      var k := UpToEnd(client, Lines(buf));
      if Ends(client, line) {
        assert Lines(buf)[..1] == [line] && [line][1..] == [];
      } else {
        DrainThrough(client, OnLine(client, c, line).0, rest);
        assert Lines(buf)[..k] == [line] + Lines(rest)[..k - 1];
        assert Lines(buf)[..k][1..] == Lines(rest)[..k - 1];
      }
    }
  }

  lemma FirstLine(buf: string, more: string)
    ensures var i := NewlineAt(buf);
            if i == |buf| then Lines(buf) == []
            else
              && Lines(buf) == [buf[..i]] + Lines(buf[i + 1..])
              && Lines(buf + more) == [buf[..i]] + Lines(buf[i + 1..] + more)
              && Lines(buf)[1..] == Lines(buf[i + 1..]) && Lines(buf + more)[1..] == Lines(buf[i + 1..] + more)
  {
    hide NewlineAt;
    var i := NewlineAt(buf);
    if i < |buf| {
      NewlineAppended(buf, more);
      assert (buf + more)[..i] == buf[..i] && (buf + more)[i + 1..] == buf[i + 1..] + more;
    }
  }

  lemma {:induction false} DrainLines(client: Client, c: Core, buf: string, more: string)
    ensures var d, lines := Drain(client, c, buf), Lines(buf);
            var k := UpToEnd(client, lines);
            && Lines(buf + more) == lines[..k] + Lines(d.rest + more)
            && UpToEnd(client, Lines(buf + more)) == k + if d.verdict.Continue? then UpToEnd(client, Lines(d.rest + more)) else 0
    decreases |buf|
  {
    hide OnLine, NewlineAt, Ends, Lines;
    var i := NewlineAt(buf);
    FirstLine(buf, more);
    if i < |buf| {
      var line, rest := buf[..i], buf[i + 1..];
      LineVerdict(client, c, line);
      if Ends(client, line) {
        assert Lines(buf)[..1] == [line];
      } else {
        var next, k := OnLine(client, c, line).0, UpToEnd(client, Lines(buf));
        DrainLines(client, next, rest, more);
        assert Lines(buf)[..k] == [line] + Lines(rest)[..k - 1];
        Rejoin(line, Lines(rest)[..k - 1], Lines(Drain(client, next, rest).rest + more));
      }
    }
  }

  lemma Rejoin(line: string, a: seq<string>, b: seq<string>)
    ensures [line] + (a + b) == [line] + a + b
  {
  }

  ghost predicate IsDone(line: string) {
    Payload(line) == Some(DONE_PAYLOAD)
  }

  /** A run can stop in front of waiting lines only behind a [DONE]. */
  ghost predicate StopsAt(lines: seq<string>, k: nat) {
    k <= |lines| && (0 < k < |lines| ==> IsDone(lines[k - 1]))
  }

  /** Every way of cutting a stream processes some prefix of its lines one by one: all of those up to
      the first that ends the call, and perhaps some behind it, up to a further [DONE] or to the end. */
  lemma {:induction false} CutIsPrefix(client: Client, s: Streamed, chunks: seq<string>) returns (k: nat)
    requires !s.aborted
    ensures var lines, run := Lines(s.buffer + Concat(chunks)), Stream(client, s, chunks);
            && StopsAt(lines, k)
            && (run.core, run.aborted) == Through(client, s.core, lines[..k])
            && (NewlineAt(s.buffer) == |s.buffer| ==> UpToEnd(client, lines) <= k)
    decreases |chunks|
  {
    hide Drain, NewlineAt, Through, UpToEnd, IsDone;
    if chunks == [] {
      NothingThrough(client, s.core, s.buffer);
      assert s.buffer + [] == s.buffer;
      k := 0;
    } else {
      var first, rest := s.buffer + chunks[0], Concat(chunks[1..]);
      var lines := Lines(first + rest);
      assert s.buffer + Concat(chunks) == first + rest;
      DrainTakes(client, s.core, first, rest);
      var d, j := Drain(client, s.core, first), UpToEnd(client, Lines(first));
      var before, after := Lines(first)[..j], Lines(d.rest + rest);
      assert lines == before + after;
      UpToEndIsAll(client, after);
      if d.verdict.Abort? {
        k := |lines|;
        ThroughAppended(client, s.core, before, after);
        assert lines[..k] == lines;
      } else {
        DrainStops(client, s.core, first);
        DrainedRest(client, s.core, first);
        var i := CutIsPrefix(client, Streamed(d.core, d.rest, false), chunks[1..]);
        k := j + i;
        assert lines[..k] == before + after[..i];
        ThroughAppended(client, s.core, before, after[..i]);
      }
    }
  }

  /** A drain that does not continue has stopped at a [DONE] or an API error. */
  lemma {:induction false} DrainStops(client: Client, c: Core, buf: string)
    ensures var j := UpToEnd(client, Lines(buf));
            match Drain(client, c, buf).verdict
            case Continue => j == |Lines(buf)|
            case EndOfStream => j > 0 && IsDone(Lines(buf)[j - 1])
            case Abort => true
    decreases |buf|
  {
    hide NewlineAt, Ends, Payload, Finish, AddAll;
    var i := NewlineAt(buf);
    if i < |buf| {
      var line := buf[..i];
      LineVerdict(client, c, line);
      assert Lines(buf)[1..] == Lines(buf[i + 1..]);
      if !Ends(client, line) {
        DrainStops(client, OnLine(client, c, line).0, buf[i + 1..]);
      }
    }
  }

  lemma UpToEndIsAll(client: Client, lines: seq<string>)
    ensures UpToEnd(client, lines) == 0 ==> lines == []
  {
  }

  lemma NothingThrough(client: Client, c: Core, buffer: string)
    ensures Through(client, c, Lines(buffer)[..0]) == (c, false)
    ensures NewlineAt(buffer) == |buffer| ==> UpToEnd(client, Lines(buffer)) == 0
  {
  }

  function Bytewise(s: string): seq<string> {
    if s == [] then [] else [[s[0]]] + Bytewise(s[1..])
  }

  /** One byte at a time, every complete line is processed. */
  lemma {:induction false} BytewiseReachesAll(client: Client, c: Core, buffer: string, s: string)
    requires '\n' !in buffer
    ensures Concat(Bytewise(s)) == s
    ensures var run := Stream(client, Streamed(c, buffer, false), Bytewise(s));
            (run.core, run.aborted) == Through(client, c, Lines(buffer + s))
    decreases |s|
  {
    hide OnLine, Drain, Lines;
    if s == [] {
      NoLines(buffer);
      assert buffer + s == buffer;
    } else {
      var rest, more := s[1..], buffer + [s[0]];
      assert Bytewise(s)[1..] == Bytewise(rest) && Bytewise(s)[0] == [s[0]];
      assert s == [s[0]] + rest && buffer + s == more + rest;
      if s[0] == '\n' {
        var next := OnLine(client, c, buffer).0;
        OneLine(client, c, buffer, rest);
        assert [] + rest == rest && Lines(buffer + s)[1..] == Lines(rest);
        BytewiseReachesAll(client, next, [], rest);
      } else {
        WholeBuffer(more);
        NothingToDrain(client, c, more);
        BytewiseReachesAll(client, c, more, rest);
      }
    }
  }

  lemma NoLines(buffer: string)
    requires '\n' !in buffer
    ensures Lines(buffer) == []
  {
    WholeBuffer(buffer);
  }

  lemma OneLine(client: Client, c: Core, line: string, rest: string)
    requires '\n' !in line
    ensures var (next, verdict) := OnLine(client, c, line); Drain(client, c, line + ['\n']) == Drained(next, [], verdict)
    ensures Lines(line + ['\n'] + rest) == [line] + Lines(rest)
  {
    hide OnLine, NewlineAt;
    LineOf(line, []);
    LineOf(line, rest);
    assert line + ['\n'] + [] == line + ['\n'];
    EmptyBuffer();
    NothingToDrain(client, OnLine(client, c, line).0, []);
  }

  lemma WholeBuffer(buffer: string)
    requires '\n' !in buffer
    ensures NewlineAt(buffer) == |buffer|
  {
  }

  /** Tool calls that wait at the end of the call are handed over even though the end was seen: only when
      on_done is not installed, so that done_called was never set. */
  predicate HandedOverLate(hooks: Hooks, t: Transport) {
    hooks.toolCall && !hooks.done && t.Status? && t.code == 200
  }

  /** Lines that make no callback once the answer is finished: no content, no API error, and no tool call
      that a later finish, or the end of the call, would hand over. pending: fragments are waiting. */
  ghost predicate Silent(client: Client, t: Transport, pending: bool, lines: seq<string>)
    decreases |lines|
  {
    if lines == [] then !(pending && HandedOverLate(client.hooks, t))
    else if Open(client, lines[0]) then
      LineContent(client, lines[0]) == []
      && Silent(client, t, pending || LineFragments(client, lines[0]) != [], lines[1..])
    else if Finishes(client, lines[0]) then
      !(pending && client.hooks.toolCall) && Silent(client, t, false, lines[1..])
    else !client.hooks.error
  }

  lemma {:induction false} SilentPrefix(client: Client, t: Transport, pending: bool, lines: seq<string>, k: nat)
    requires Silent(client, t, pending, lines) && StopsAt(lines, k) && (k == 0 ==> !pending || lines == [])
    ensures Silent(client, t, pending, lines[..k])
    decreases k
  {
    hide Open, Finishes, LineContent, LineFragments, IsDone;
    if 0 < k < |lines| {
      var line := lines[0];
      assert lines[..k][0] == line && lines[..k][1..] == lines[1..][..k - 1];
      assert k > 1 ==> lines[1..][k - 1 - 1] == lines[k - 1];
      DoneFinishes(client, line);
      if Open(client, line) {
        SilentPrefix(client, t, pending || LineFragments(client, line) != [], lines[1..], k - 1);
      } else if Finishes(client, line) {
        SilentPrefix(client, t, false, lines[1..], k - 1);
      }
    } else {
      assert k == |lines| ==> lines[..k] == lines;
    }
  }

  lemma DoneFinishes(client: Client, line: string)
    ensures IsDone(line) ==> Finishes(client, line) && !Open(client, line)
  {
    hide Payload;
  }

  lemma ErrorLine(client: Client, c: Core, line: string)
    requires !Open(client, line) && !Finishes(client, line)
    ensures var (next, verdict) := OnLine(client, c, line);
            && verdict.Abort? && next.accum == c.accum && next.doneCalled == c.doneCalled
            && |next.events| == |c.events| + (if client.hooks.error then 1 else 0)
            && (!client.hooks.error ==> next == c)
  {
    hide Finish, Payload;
    assert c.events + [] == c.events;
  }

  /** A finish behind the finish hands the waiting calls over and nothing else. */
  lemma FinishAgain(hooks: Hooks, c: Core)
    requires c.doneCalled == hooks.done
    ensures var next := Finish(hooks, c);
            && next.accum == map[] && next.doneCalled == hooks.done
            && |next.events| == |c.events| + (if hooks.toolCall then |c.accum| else 0)
            && (!hooks.toolCall || c.accum == map[] ==> next.events == c.events)
  {
    NoneOrdered();
    assert c.events + [] == c.events;
  }

  lemma {:induction false} AccumGrows(accum: map<int, ToolCall>, fs: seq<Fragment>)
    ensures fs == [] ==> AddAll(accum, fs) == accum
    ensures fs != [] || accum != map[] ==> AddAll(accum, fs) != map[]
  {
    if fs != [] {
      AccumGrows(accum, fs[..|fs| - 1]);
      assert fs[|fs| - 1].index in AddAll(accum, fs);
    }
  }

  /** The error that the end of the request reports, if any. */
  function Added(hooks: Hooks, t: Transport): seq<Event> {
    if t.Failed? then (if hooks.error then [Error(t.message)] else [])
    else if t.code != 200 && hooks.error then [Error(t.body)] else []
  }

  /** What the end of the call adds behind a finish. */
  lemma TailBehindFinish(hooks: Hooks, t: Transport, c: Core)
    requires c.doneCalled == hooks.done
    ensures |Tail(hooks, c, t)| == |c.events| + (if HandedOverLate(hooks, t) then |c.accum| else 0) + |Added(hooks, t)|
    ensures !HandedOverLate(hooks, t) || c.accum == map[] ==> Tail(hooks, c, t) == c.events + Added(hooks, t)
  {
    NoneOrdered();
    assert c.events + [] == c.events;
  }

  /** An API error stops the request, and both report it to on_error. */
  lemma ErrorEnds(client: Client, t: Transport, c: Core, line: string)
    requires !Open(client, line) && !Finishes(client, line) && c.doneCalled == client.hooks.done
    ensures var (next, verdict) := OnLine(client, c, line);
            var all, none := Ended(client, next, true, t), c.events + Added(client.hooks, t);
            && verdict.Abort?
            && (client.hooks.error ==> |all| > |none|)
            && (!client.hooks.error ==> all == none)
  {
    hide OnLine, Open, Finishes, Tail;
    ErrorLine(client, c, line);
    TailBehindFinish(client.hooks, Failed(client.canceled), OnLine(client, c, line).0);
  }

  /** Behind the finish, silent lines change no callback of the call, and any others add one. */
  lemma {:induction false} SilentOrMore(client: Client, t: Transport, c: Core, lines: seq<string>)
    requires c.doneCalled == client.hooks.done
    ensures var (end, aborted) := Through(client, c, lines);
            var all := Ended(client, end, aborted, t);
            var none := c.events + Added(client.hooks, t);
            && |all| >= |none|
            && (Silent(client, t, c.accum != map[], lines) <==> |all| == |none|)
            && (Silent(client, t, c.accum != map[], lines) ==> all == none)
    decreases |lines|
  {
    hide OnLine, Open, Finishes, Finish, AddAll, Tail, Added, LineContent, LineFragments;
    assert c.accum != map[] ==> |c.accum| > 0;
    if lines == [] {
      TailBehindFinish(client.hooks, t, c);
    } else {
      var line := lines[0];
      var next := OnLine(client, c, line).0;
      if Open(client, line) {
        OpenLine(client, c, line);
        AccumGrows(c.accum, LineFragments(client, line));
        assert LineContent(client, line) == [] ==> next.events == c.events;
        SilentOrMore(client, t, next, lines[1..]);
      } else if Finishes(client, line) {
        FinishLine(client, c, line);
        FinishAgain(client.hooks, c);
        SilentOrMore(client, t, next, lines[1..]);
      } else {
        ErrorEnds(client, t, c, line);
      }
    }
  }

  /** The lines behind the first [DONE], if the stream gets that far. */
  ghost function BehindDone(client: Client, lines: seq<string>): seq<string> {
    if lines == [] then []
    else if !Ends(client, lines[0]) then BehindDone(client, lines[1..])
    else if Finishes(client, lines[0]) then lines[1..]
    else []
  }

  /** Every way of cutting the stream makes the same callbacks. */
  ghost predicate CutsAgree(client: Client, s: string, t: Transport) {
    forall a, b :: Concat(a) == s && Concat(b) == s ==> Callbacks(client, a, t) == Callbacks(client, b, t)
  }

  /** How the lines stand at the first one that ends the call. */
  lemma {:induction false} AtTheEnd(client: Client, c: Core, lines: seq<string>, k: nat)
    requires UpToEnd(client, lines) <= k <= |lines| && (c.doneCalled ==> client.hooks.done)
    ensures var j, behind := UpToEnd(client, lines), BehindDone(client, lines);
            var (core, verdict) := OnLines(client, c, lines);
            && (verdict.EndOfStream? ==>
                  && core.accum == map[] && core.doneCalled == client.hooks.done && behind == lines[j..]
                  && Through(client, c, lines[..k]) == Through(client, core, behind[..k - j]))
            && (!verdict.EndOfStream? ==> behind == [] && Through(client, c, lines[..k]) == (core, verdict.Abort?))
    decreases |lines|
  {
    hide OnLine, Open, Finishes, Payload, Finish, Ends;
    if lines != [] {
      var line := lines[0];
      var (next, verdict) := OnLine(client, c, line);
      LineVerdict(client, c, line);
      EndVerdict(client, c, line);
      var j := UpToEnd(client, lines);
      assert lines[..k][0] == line && lines[..k][1..] == lines[1..][..k - 1];
      if !Ends(client, line) {
        AtTheEnd(client, next, lines[1..], k - 1);
        assert lines[j..] == lines[1..][j - 1..];
      }
    }
  }

  lemma EndVerdict(client: Client, c: Core, line: string)
    requires c.doneCalled ==> client.hooks.done
    ensures var (next, verdict) := OnLine(client, c, line);
            && (Ends(client, line) && Finishes(client, line) ==>
                  verdict.EndOfStream? && next.accum == map[] && next.doneCalled == client.hooks.done)
            && (Ends(client, line) && !Finishes(client, line) ==> verdict.Abort?)
            && (next.doneCalled ==> client.hooks.done)
  {
    hide Payload, AddAll;
  }

  /** The receiver as a whole: every way of cutting a stream processes its complete lines one by one up to
      the first that ends the call, and behind a [DONE] some more of them. */
  lemma ReceiverIsLineByLine(client: Client, chunks: seq<string>) returns (k: nat)
    ensures var lines := Lines(Concat(chunks));
            var (core, verdict) := OnLines(client, INITIAL, lines);
            var run := Stream(client, Streamed(INITIAL, "", false), chunks);
            match verdict
            case Continue => run == Streamed(core, Partial(Concat(chunks)), false)
            case Abort => run.core == core && run.aborted
            case EndOfStream =>
              && StopsAt(BehindDone(client, lines), k)
              && (run.core, run.aborted) == Through(client, core, BehindDone(client, lines)[..k])
  {
    hide Drain, Stream, OnLines, Through, BehindDone, UpToEnd, Lines, Partial, IsDone;
    assert "" + Concat(chunks) == Concat(chunks);
    EmptyBuffer();
    var lines := Lines(Concat(chunks));
    SplittingDoesNotMatter(client, INITIAL, "", chunks);
    DrainIsLineByLine(client, INITIAL, Concat(chunks));
    var i := CutIsPrefix(client, Streamed(INITIAL, "", false), chunks);
    AtTheEnd(client, INITIAL, lines, i);
    var j := UpToEnd(client, lines);
    k := if OnLines(client, INITIAL, lines).1.EndOfStream? then i - j else 0;
    assert 0 < i - j < |lines| - j ==> lines[j..][i - j - 1] == lines[i - 1];
  }

  /** How a stream is cut does not matter exactly when the complete lines behind its first [DONE] are
      silent. */
  lemma CutsAgreeExactly(client: Client, s: string, t: Transport)
    ensures CutsAgree(client, s, t) <==> Silent(client, t, false, BehindDone(client, Lines(s)))
  {
    hide Stream, OnLines, Through, BehindDone, Lines, Tail, Silent, Callbacks;
    if Silent(client, t, false, BehindDone(client, Lines(s))) {
      forall a, b | Concat(a) == s && Concat(b) == s ensures Callbacks(client, a, t) == Callbacks(client, b, t) {
        SilentCut(client, a, t);
        SilentCut(client, b, t);
      }
    } else {
      LoudCut(client, s, t);
    }
  }

  lemma SilentCut(client: Client, chunks: seq<string>, t: Transport)
    requires Silent(client, t, false, BehindDone(client, Lines(Concat(chunks))))
    ensures var (core, verdict) := OnLines(client, INITIAL, Lines(Concat(chunks)));
            Callbacks(client, chunks, t)
            == if verdict.EndOfStream? then core.events + Added(client.hooks, t) else Ended(client, core, verdict.Abort?, t)
  {
    hide Stream, OnLines, Through, BehindDone, UpToEnd, Lines, Partial, Tail, Silent, Added;
    var lines := Lines(Concat(chunks));
    var k := ReceiverIsLineByLine(client, chunks);
    var (core, verdict) := OnLines(client, INITIAL, lines);
    if verdict.EndOfStream? {
      var behind := BehindDone(client, lines);
      AtTheEnd(client, INITIAL, lines, |lines|);
      SilentPrefix(client, t, false, behind, k);
      SilentOrMore(client, t, core, behind[..k]);
    }
  }

  lemma LoudCut(client: Client, s: string, t: Transport)
    requires !Silent(client, t, false, BehindDone(client, Lines(s)))
    ensures !CutsAgree(client, s, t)
  {
    hide OnLines, Through, BehindDone, UpToEnd, Lines, Tail, Drain, Added, Stream;
    var lines, behind := Lines(s), BehindDone(client, Lines(s));
    var (core, verdict) := OnLines(client, INITIAL, lines);
    AtTheEnd(client, INITIAL, lines, |lines|);
    assert verdict.EndOfStream? by { assert !verdict.EndOfStream? ==> Silent(client, t, false, behind); }
    assert lines[..|lines|] == lines && behind[..|lines| - UpToEnd(client, lines)] == behind;
    SilentOrMore(client, t, core, behind);
    BytewiseReachesAll(client, INITIAL, "", s);
    assert "" + s == s && Concat([s]) == s;
    TailBehindFinish(client.hooks, t, core);
    DrainIsLineByLine(client, INITIAL, s);
    OneChunk(client, s, core, Drain(client, INITIAL, s).rest, verdict);
    assert Callbacks(client, [s], t) != Callbacks(client, Bytewise(s), t);
  }

  /** In particular when only blank lines, comments, other fields and further [DONE]s come behind it. */
  lemma {:induction false} NoDataIsSilent(client: Client, t: Transport, lines: seq<string>)
    requires forall i :: 0 <= i < |lines| ==> Payload(lines[i]) in {None, Some(DONE_PAYLOAD)}
    ensures Silent(client, t, false, lines)
    decreases |lines|
  {
    hide Payload;
    if lines != [] {
      NoDataIsSilent(client, t, lines[1..]);
    }
  }

  lemma UsualEndAgrees(client: Client, s: string, t: Transport)
    requires var behind := BehindDone(client, Lines(s));
             forall i :: 0 <= i < |behind| ==> Payload(behind[i]) in {None, Some(DONE_PAYLOAD)}
    ensures CutsAgree(client, s, t)
  {
    hide CutsAgree, Silent;
    NoDataIsSilent(client, t, BehindDone(client, Lines(s)));
    CutsAgreeExactly(client, s, t);
  }

  // ---- A whole answer ----

  /** A whole call: open lines, the finish line, and silent lines behind it, such as a blank line and
      [DONE]. However it is cut, and whatever the fragments' interleaving, the callbacks are the content in
      order, then each index once, in ascending order, assembled from all its fragments, then the end. */
  lemma AnswerDelivered(client: Client, chunks: seq<string>, lines: seq<string>, finish: string, behind: seq<string>, body: string)
    requires Lines(Concat(chunks)) == lines + [finish] + behind
    requires forall i :: 0 <= i < |lines| ==> Open(client, lines[i])
    requires Finishes(client, finish) && Silent(client, Status(200, body), false, behind)
    ensures var fragments := Fragments(client, lines);
            var calls := Ordered(AddAll(map[], fragments));
            && Callbacks(client, chunks, Status(200, body))
               == Contents(client, lines) + (if client.hooks.toolCall then AsEvents(calls) else [])
                  + (if client.hooks.done then [Done] else [])
            && Ascending(calls)
            && (forall i :: 0 <= i < |calls| ==> calls[i].index in Indices(fragments) && calls[i] == Assembled(fragments, calls[i].index))
            && (forall k :: k in Indices(fragments) ==> Assembled(fragments, k) in calls)
  {
    hide Stream, OnLines, Through, Lines, Tail, Silent, UpToEnd, Open, Finishes, AddAll, Fragments, Contents, Indices, Assembled,
         Ascending, Ordered, AsEvents;
    var t, answer := Status(200, body), lines + [finish];
    CallsAssembled(Fragments(client, lines));
    EmptyBuffer();
    assert "" + Concat(chunks) == Concat(chunks);
    var k := CutIsPrefix(client, Streamed(INITIAL, "", false), chunks);
    EndNotInside(client, lines, finish, behind);
    var i := k - |answer|;
    assert (answer + behind)[..k] == answer + behind[..i];
    assert 0 < i < |behind| ==> behind[i - 1] == (answer + behind)[k - 1];
    ThroughAppended(client, INITIAL, answer, behind[..i]);
    AnswerCore(client, lines, finish);
    var core := Through(client, INITIAL, answer).0;
    SilentPrefix(client, t, false, behind, i);
    SilentOrMore(client, t, core, behind[..i]);
    assert core.events + [] == core.events;
  }

  /** A call that an API error stops, however it is cut. */
  lemma ErrorDelivered(client: Client, chunks: seq<string>, lines: seq<string>, bad: string, payload: string,
                       behind: seq<string>, t: Transport)
    requires Lines(Concat(chunks)) == lines + [bad] + behind
    requires forall i :: 0 <= i < |lines| ==> Open(client, lines[i])
    requires Payload(bad) == Some(payload) && payload != DONE_PAYLOAD && client.classify(payload).ApiError?
    ensures Callbacks(client, chunks, t)
         == Contents(client, lines)
            + if client.hooks.error then [Error(client.classify(payload).message), Error(client.canceled)] else []
  {
    hide Stream, Through, Lines, UpToEnd, Open, Contents, Payload, Tail, Concat;
    ErrorCore(client, lines, bad, payload);
    StopsThere(client, chunks, lines + [bad], behind) by {
      EndNotInside(client, lines, bad, behind);
    }
    ErrorTail(client, Contents(client, lines), Through(client, INITIAL, lines + [bad]).0, client.classify(payload).message);
  }

  /** Where the lines up to the first that ends the call stop the transfer, every cut stops there. */
  lemma StopsThere(client: Client, chunks: seq<string>, upTo: seq<string>, behind: seq<string>)
    requires Lines(Concat(chunks)) == upTo + behind && |upTo| <= UpToEnd(client, upTo + behind)
    requires Through(client, INITIAL, upTo).1
    ensures var run := Stream(client, Streamed(INITIAL, "", false), chunks);
            (run.core, run.aborted) == Through(client, INITIAL, upTo)
  {
    hide Stream, Through, Lines, UpToEnd, Concat;
    var k := CutFits(client, chunks);
    var after := behind[..k - |upTo|];
    assert (upTo + behind)[..k] == upTo + after;
    ThroughAppended(client, INITIAL, upTo, after);
  }

  lemma CutFits(client: Client, chunks: seq<string>) returns (k: nat)
    ensures var lines, run := Lines(Concat(chunks)), Stream(client, Streamed(INITIAL, "", false), chunks);
            && UpToEnd(client, lines) <= k <= |lines|
            && (run.core, run.aborted) == Through(client, INITIAL, lines[..k])
  {
    hide Stream, Through, Lines, UpToEnd, IsDone;
    EmptyBuffer();
    assert "" + Concat(chunks) == Concat(chunks);
    k := CutIsPrefix(client, Streamed(INITIAL, "", false), chunks);
  }

  lemma ErrorCore(client: Client, lines: seq<string>, bad: string, payload: string)
    requires forall i :: 0 <= i < |lines| ==> Open(client, lines[i])
    requires Payload(bad) == Some(payload) && payload != DONE_PAYLOAD && client.classify(payload).ApiError?
    ensures var (core, aborted) := Through(client, INITIAL, lines + [bad]);
            && aborted
            && core.events == Contents(client, lines)
                              + if client.hooks.error then [Error(client.classify(payload).message)] else []
  {
    hide Through, Open, AddAll, Fragments, Contents, Payload, Finish;
    OpenThrough(client, INITIAL, lines);
    ThroughAppended(client, INITIAL, lines, [bad]);
    LastThrough(client, Through(client, INITIAL, lines).0, bad);
    assert [] + Contents(client, lines) == Contents(client, lines);
  }

  lemma ErrorTail(client: Client, contents: seq<Event>, core: Core, message: string)
    requires core.events == contents + if client.hooks.error then [Error(message)] else []
    ensures Tail(client.hooks, core, Failed(client.canceled))
         == contents + if client.hooks.error then [Error(message), Error(client.canceled)] else []
  {
  }

  lemma {:induction false} EndNotInside(client: Client, lines: seq<string>, finish: string, behind: seq<string>)
    requires forall i :: 0 <= i < |lines| ==> Open(client, lines[i])
    ensures UpToEnd(client, lines + [finish] + behind) >= |lines| + 1
    decreases |lines|
  {
    hide Open, Finishes;
    var all := lines + [finish] + behind;
    if lines != [] {
      assert all[0] == lines[0] && all[1..] == lines[1..] + [finish] + behind;
      EndNotInside(client, lines[1..], finish, behind);
    }
  }

  /** How an answer stands at its finish line. */
  lemma AnswerCore(client: Client, lines: seq<string>, finish: string)
    requires forall i :: 0 <= i < |lines| ==> Open(client, lines[i])
    requires Finishes(client, finish)
    ensures var (core, aborted) := Through(client, INITIAL, lines + [finish]);
            && !aborted && core.accum == map[] && core.doneCalled == client.hooks.done
            && core.events == Contents(client, lines) + CallEvents(client.hooks, AddAll(map[], Fragments(client, lines)))
                              + (if client.hooks.done then [Done] else [])
  {
    hide Open, OnLine, AddAll, Fragments, Contents, CallEvents, Finishes, Through;
    OpenThrough(client, INITIAL, lines);
    ThroughAppended(client, INITIAL, lines, [finish]);
    var c := Through(client, INITIAL, lines).0;
    FinishLine(client, c, finish);
    LastThrough(client, c, finish);
    assert [] + Contents(client, lines) == Contents(client, lines);
    assert c.events + CallEvents(client.hooks, c.accum) + [] == c.events + CallEvents(client.hooks, c.accum);
  }

  lemma {:induction false} OpenThrough(client: Client, c: Core, lines: seq<string>)
    requires forall i :: 0 <= i < |lines| ==> Open(client, lines[i])
    ensures Through(client, c, lines)
         == (Core(AddAll(c.accum, Fragments(client, lines)), c.doneCalled, c.events + Contents(client, lines)), false)
    decreases |lines|
  {
    hide Open, OnLine, AddAll, LineFragments, LineContent;
    if lines == [] {
      NothingAdded(c.accum);
      assert c.events + [] == c.events;
    } else {
      OpenLine(client, c, lines[0]);
      var next := OnLine(client, c, lines[0]).0;
      OpenThrough(client, next, lines[1..]);
      AddAllAppended(c.accum, LineFragments(client, lines[0]), Fragments(client, lines[1..]));
      assert c.events + LineContent(client, lines[0]) + Contents(client, lines[1..]) == c.events + Contents(client, lines);
    }
  }

  lemma LastThrough(client: Client, c: Core, line: string)
    ensures Through(client, c, [line]).0 == OnLine(client, c, line).0
    ensures Through(client, c, [line]).1 == OnLine(client, c, line).1.Abort?
  {
    assert [line][1..] == [];
  }

  // ---- on_done fires once ----

  function DoneCount(events: seq<Event>): nat {
    if events == [] then 0 else DoneCount(events[..|events| - 1]) + if events[|events| - 1].Done? then 1 else 0
  }

  lemma {:induction false} DoneCountAdds(a: seq<Event>, b: seq<Event>)
    ensures DoneCount(a + b) == DoneCount(a) + DoneCount(b)
  {
    if b == [] {
      assert a + b == a;
    } else {
      DoneCountAdds(a, b[..|b| - 1]);
      assert (a + b)[..|a + b| - 1] == a + b[..|b| - 1];
    }
  }

  lemma {:induction false} NoDoneAmong(events: seq<Event>)
    requires forall i :: 0 <= i < |events| ==> !events[i].Done?
    ensures DoneCount(events) == 0
  {
    if events != [] {
      NoDoneAmong(events[..|events| - 1]);
    }
  }

  lemma DoneAlone()
    ensures DoneCount([Done]) == 1 && DoneCount([]) == 0
  {
    assert [Done][..0] == [];
  }

  ghost predicate DoneOnce(hooks: Hooks, c: Core) {
    DoneCount(c.events) == (if c.doneCalled then 1 else 0) && (c.doneCalled ==> hooks.done)
  }

  lemma FinishDoneOnce(hooks: Hooks, c: Core)
    requires DoneOnce(hooks, c)
    ensures DoneOnce(hooks, Finish(hooks, c))
  {
    hide DoneCount, Ordered;
    var calls := CallEvents(hooks, c.accum);
    NoDoneAmong(calls);
    DoneCountAdds(c.events, calls);
    DoneCountAdds(c.events + calls, [Done]);
    DoneAlone();
  }

  lemma LineDoneOnce(client: Client, c: Core, line: string)
    requires DoneOnce(client.hooks, c)
    ensures DoneOnce(client.hooks, OnLine(client, c, line).0)
  {
    hide DoneCount, Finish, Payload, AddAll;
    FinishDoneOnce(client.hooks, c);
    DoneAlone();
    forall e: Event | !e.Done? ensures DoneCount(c.events + [e]) == DoneCount(c.events) {
      NoDoneAmong([e]);
      DoneCountAdds(c.events, [e]);
    }
    assert c.events + [] == c.events;
  }

  lemma {:induction false} DrainDoneOnce(client: Client, c: Core, buf: string)
    requires DoneOnce(client.hooks, c)
    ensures DoneOnce(client.hooks, Drain(client, c, buf).core)
    decreases |buf|
  {
    hide DoneOnce, OnLine, NewlineAt;
    var i := NewlineAt(buf);
    if i < |buf| {
      var (next, verdict) := OnLine(client, c, buf[..i]);
      LineDoneOnce(client, c, buf[..i]);
      if verdict.Continue? {
        DrainDoneOnce(client, next, buf[i + 1..]);
      }
    }
  }

  lemma {:induction false} StreamDoneOnce(client: Client, s: Streamed, chunks: seq<string>)
    requires DoneOnce(client.hooks, s.core)
    ensures DoneOnce(client.hooks, Stream(client, s, chunks).core)
    decreases |chunks|
  {
    hide DoneOnce, Drain;
    if chunks != [] && !s.aborted {
      DrainDoneOnce(client, s.core, s.buffer + chunks[0]);
      var d := Drain(client, s.core, s.buffer + chunks[0]);
      StreamDoneOnce(client, Streamed(d.core, d.rest, d.verdict.Abort?), chunks[1..]);
    }
  }

  /** Whatever arrives and however the request ends, on_done fires at most once, and exactly once when
      it is installed and the request ends with status 200. */
  lemma OnDoneFiresOnce(client: Client, chunks: seq<string>, t: Transport)
    ensures var events := Callbacks(client, chunks, t);
            && DoneCount(events) <= 1
            && (client.hooks.done && t.Status? && t.code == 200 ==>
                  DoneCount(events) == 1 || Stream(client, Streamed(INITIAL, "", false), chunks).aborted)
            && (!client.hooks.done ==> DoneCount(events) == 0)
  {
    hide DoneCount, Stream, Ordered;
    DoneAlone();
    StreamDoneOnce(client, Streamed(INITIAL, "", false), chunks);
    var c := Stream(client, Streamed(INITIAL, "", false), chunks).core;
    var calls := CallEvents(client.hooks, c.accum);
    NoDoneAmong(calls);
    DoneCountAdds(c.events, calls);
    DoneCountAdds(c.events + calls, [Done]);
    forall e: Event | !e.Done? ensures DoneCount(c.events + [e]) == DoneCount(c.events) {
      NoDoneAmong([e]);
      DoneCountAdds(c.events, [e]);
    }
    assert c.events + calls + [] == c.events + calls && c.events + [] == c.events;
  }
}

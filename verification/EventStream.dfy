/** The stream of a job's events: the frames the server writes and the client's incremental
    reading of them. */
module EventStream {
  import opened Wrappers
  import opened Sequences

  /** The data of an event, some JSON object. */
  type Data(==, !new)

  datatype JobEvent = JobEvent(id: nat, kind: string, time: string, data: Data)

  /** JSON in its compact form. */
  datatype Json = Json(stringify: JobEvent -> string, parse: string -> Result<JobEvent, string>)

  predicate SingleLine(s: string) {
    '\n' !in s
  }

  /** Parsing undoes printing, and the compact form has no line break. */
  ghost predicate Faithful(json: Json) {
    forall e {:trigger json.stringify(e)} :: json.parse(json.stringify(e)) == Ok(e) && SingleLine(json.stringify(e))
  }

  // ----- Writing

  function Digits(n: nat): string {
    if n < 10 then [('0' as int + n) as char] else Digits(n / 10) + [('0' as int + n % 10) as char]
  }

  lemma {:induction false} DigitsSingleLine(n: nat)
    ensures SingleLine(Digits(n))
  {
    if n >= 10 {
      DigitsSingleLine(n / 10);
    }
  }

  /** The number that decimal digits stand for. */
  function ValueOf(digits: string): int {
    if digits == [] then 0 else 10 * ValueOf(Front(digits)) + (Last(digits) as int - '0' as int)
  }

  /** A number is written in decimal, without leading zeros. */
  lemma {:induction false} DigitsRead(n: nat)
    ensures ValueOf(Digits(n)) == n && Digits(n) != [] && (n > 0 ==> Digits(n)[0] != '0')
    ensures forall c :: c in Digits(n) ==> '0' <= c <= '9'
  {
    var last := ('0' as int + n % 10) as char;
    if n >= 10 {
      DigitsRead(n / 10);
      assert Front(Digits(n)) == Digits(n / 10) && Last(Digits(n)) == last;
    } else {
      assert Digits(n) == [last] && Front([last]) == [];
    }
  }

  const GREETING := ": connected"

  function Body(json: Json, e: JobEvent): string {
    "id: " + Digits(e.id) + "\n" + ("event: " + e.kind + "\n" + ("data: " + json.stringify(e)))
  }

  function Frame(json: Json, e: JobEvent): string {
    Body(json, e) + "\n\n"
  }

  /** All that a stream of the events has written. */
  function TextOf(json: Json, events: seq<JobEvent>): string {
    if events == [] then GREETING + "\n\n" else TextOf(json, Front(events)) + Frame(json, Last(events))
  }

  lemma {:induction false} TextBegins(json: Json, events: seq<JobEvent>)
    ensures ": connected\n\n" <= TextOf(json, events)
  {
    if events == [] {
      assert TextOf(json, events) == ": connected" + "\n\n" == ": connected\n\n";
    } else {
      TextBegins(json, Front(events));
    }
  }

  lemma FrameSpelled(json: Json, e: JobEvent)
    ensures Frame(json, e) == "id: " + Digits(e.id) + "\nevent: " + e.kind + "\ndata: " + json.stringify(e) + "\n\n"
  {
    var id, kind, data := Digits(e.id), e.kind, json.stringify(e);
    assert "\n" + ("event: " + kind) == "\nevent: " + kind;
    assert "\n" + ("data: " + data) == "\ndata: " + data;
  }

  /** Writes the frame of an event. */
  method WriteSse(json: Json, written: string, e: JobEvent) returns (written': string)
    ensures written' == written + Frame(json, e)
    ensures written' == written
      + ("id: " + Digits(e.id) + "\nevent: " + e.kind + "\ndata: " + json.stringify(e) + "\n\n")
  {
    written' := written + ("id: " + Digits(e.id) + "\n");
    written' := written' + ("event: " + e.kind + "\n");
    written' := written' + ("data: " + json.stringify(e) + "\n\n");
    assert written' == written + Frame(json, e);
    FrameSpelled(json, e);
  }

  // ----- Cutting a text into frames

  predicate BoundaryAt(s: string, i: int) {
    0 <= i < |s| - 1 && s[i] == '\n' && s[i + 1] == '\n'
  }

  /** Where the first empty line begins, or -1. */
  function Boundary(s: string): (i: int)
    ensures i == -1 || BoundaryAt(s, i)
    ensures forall j :: BoundaryAt(s, j) ==> 0 <= i <= j
  {
    BoundaryFrom(s, 0)
  }

  function BoundaryFrom(s: string, k: nat): (i: int)
    ensures i == -1 || (k <= i && BoundaryAt(s, i))
    ensures forall j :: k <= j && BoundaryAt(s, j) ==> 0 <= i <= j
    decreases |s| - k
  {
    if k >= |s| then -1
    else if BoundaryAt(s, k) then k
    else BoundaryFrom(s, k + 1)
  }

  /** The frames that are complete, and what is left over. */
  datatype Cut = Cut(frames: seq<string>, rest: string)

  function CutUp(s: string): Cut
    decreases |s|
  {
    var i := Boundary(s);
    if i == -1 then Cut([], s)
    else
      var later := CutUp(s[i + 2..]);
      Cut([s[..i]] + later.frames, later.rest)
  }

  /** More text completes more frames, after the same ones. */
  lemma {:induction false} CutAppend(s: string, t: string)
    ensures var first := CutUp(s);
      var later := CutUp(first.rest + t);
      CutUp(s + t) == Cut(first.frames + later.frames, later.rest)
    decreases |s|
  {
    var i := Boundary(s);
    if i == -1 {
      assert CutUp(s) == Cut([], s);
      assert [] + CutUp(s + t).frames == CutUp(s + t).frames;
    } else {
      CutAppend(s[i + 2..], t);
      CutFirst(s, t);
      Grouped([s[..i]], CutUp(s[i + 2..]).frames, CutUp(CutUp(s[i + 2..]).rest + t).frames);
    }
  }

  lemma Grouped<T>(xs: seq<T>, ys: seq<T>, zs: seq<T>)
    ensures xs + (ys + zs) == xs + ys + zs
  {
  }

  /** With more text, the first frame is the same and the rest has that text appended. */
  lemma CutFirst(s: string, t: string)
    requires Boundary(s) != -1
    ensures var i := Boundary(s);
      var later, more := CutUp(s[i + 2..]), CutUp(s[i + 2..] + t);
      && CutUp(s) == Cut([s[..i]] + later.frames, later.rest)
      && CutUp(s + t) == Cut([s[..i]] + more.frames, more.rest)
  {
    var i := Boundary(s);
    BoundaryStays(s, t);
    CutOne(s);
    CutOne(s + t);
    assert (s + t)[..i] == s[..i] && (s + t)[i + 2..] == s[i + 2..] + t;
  }

  lemma CutOne(s: string)
    requires Boundary(s) != -1
    ensures var i := Boundary(s);
      var later := CutUp(s[i + 2..]);
      CutUp(s) == Cut([s[..i]] + later.frames, later.rest)
  {
  }

  /** More text does not move the first boundary. */
  lemma BoundaryStays(s: string, t: string)
    requires Boundary(s) != -1
    ensures Boundary(s + t) == Boundary(s)
  {
    assert BoundaryAt(s + t, Boundary(s));
    assert BoundaryAt(s, Boundary(s + t));
  }

  /** A text is a frame when it has no empty line and does not end in a line break. */
  predicate IsFrame(s: string) {
    Boundary(s) == -1 && s != [] && Last(s) != '\n'
  }

  lemma CutFrame(s: string)
    requires IsFrame(s)
    ensures CutUp(s + "\n\n") == Cut([s], "")
  {
    var t := s + "\n\n";
    assert BoundaryAt(t, |s|);
    forall j | 0 <= j < |s|
      ensures !BoundaryAt(t, j)
    {
      if j < |s| - 1 {
        assert !BoundaryAt(s, j) && t[j] == s[j] && t[j + 1] == s[j + 1];
      } else {
        assert t[j] == Last(s);
      }
    }
    var i := Boundary(t);
    assert t[..i] == s && t[i + 2..] == [];
    assert CutUp("") == Cut([], "");
  }

  lemma SingleLineIsFrame(s: string)
    requires SingleLine(s) && s != []
    ensures IsFrame(s)
  {
    forall j | 0 <= j < |s|
      ensures s[j] != '\n'
    {
      assert s[j] in s;
    }
  }

  /** A line before a frame makes a frame, unless the frame begins with a line break. */
  lemma LineThenFrame(a: string, b: string)
    requires SingleLine(a) && a != [] && IsFrame(b) && b[0] != '\n'
    ensures IsFrame(a + "\n" + b)
  {
    var s := a + "\n" + b;
    assert Last(s) == Last(b);
    forall j | 0 <= j < |s| - 1
      ensures !BoundaryAt(s, j)
    {
      if j < |a| {
        assert s[j] == a[j] && a[j] in a;
      } else if j == |a| {
        assert s[j + 1] == b[0];
      } else {
        assert !BoundaryAt(b, j - |a| - 1);
      }
    }
  }

  lemma BodyIsFrame(json: Json, e: JobEvent)
    requires Faithful(json) && SingleLine(e.kind)
    ensures IsFrame(Body(json, e))
  {
    var data, kind := "data: " + json.stringify(e), "event: " + e.kind;
    DigitsSingleLine(e.id);
    SingleLineIsFrame(data);
    LineThenFrame(kind, data);
    LineThenFrame("id: " + Digits(e.id), kind + "\n" + data);
  }

  function Bodies(json: Json, events: seq<JobEvent>): seq<string> {
    if events == [] then [] else Bodies(json, Front(events)) + [Body(json, Last(events))]
  }

  ghost predicate SingleLineKinds(events: seq<JobEvent>) {
    forall e :: e in events ==> SingleLine(e.kind)
  }

  /** What a stream has written falls into the greeting and the frames of the events. */
  lemma {:induction false} CutText(json: Json, events: seq<JobEvent>)
    requires Faithful(json) && SingleLineKinds(events)
    ensures CutUp(TextOf(json, events)) == Cut([GREETING] + Bodies(json, events), "")
  {
    if events == [] {
      SingleLineIsFrame(GREETING);
      CutFrame(GREETING);
    } else {
      var front, e := Front(events), Last(events);
      assert e in events;
      CutText(json, front);
      BodyIsFrame(json, e);
      CutNext(TextOf(json, front), [GREETING] + Bodies(json, front), Body(json, e));
    }
  }

  lemma CutNext(text: string, frames: seq<string>, body: string)
    requires CutUp(text) == Cut(frames, "") && IsFrame(body)
    ensures CutUp(text + (body + "\n\n")) == Cut(frames + [body], "")
  {
    CutAppend(text, body + "\n\n");
    CutFrame(body);
    assert "" + (body + "\n\n") == body + "\n\n";
  }

  // ----- Reading a frame

  /** The lines of a text. */
  function Lines(s: string): seq<string> {
    if SingleLine(s) then [s]
    else
      var i := IndexOf(s, '\n');
      [s[..i]] + Lines(s[i + 1..])
  }

  lemma {:induction false} FirstBreak(a: string, b: string)
    requires SingleLine(a)
    ensures '\n' in a + "\n" + b && IndexOf(a + "\n" + b, '\n') == |a|
  {
    var s := a + "\n" + b;
    assert s[|a|] == '\n';
    if a != [] {
      assert a[0] in a;
      assert s[1..] == a[1..] + "\n" + b;
      FirstBreak(a[1..], b);
    }
  }

  lemma LinesFirst(a: string, b: string)
    requires SingleLine(a)
    ensures Lines(a + "\n" + b) == [a] + Lines(b)
  {
    var s := a + "\n" + b;
    FirstBreak(a, b);
    assert s[..|a|] == a && s[|a| + 1..] == b;
  }

  const DATA_PREFIX := "data: "

  function DataLines(lines: seq<string>): seq<string> {
    if lines == [] then []
    else if DATA_PREFIX <= Last(lines) then DataLines(Front(lines)) + [Last(lines)[6..]]
    else DataLines(Front(lines))
  }

  function JoinLines(lines: seq<string>): string {
    if lines == [] then "" else if |lines| == 1 then lines[0] else JoinLines(Front(lines)) + "\n" + Last(lines)
  }

  /** Joining is the inverse of splitting into lines. */
  lemma {:induction false} JoinedAgain(s: string)
    ensures Lines(s) != [] && JoinLines(Lines(s)) == s
    decreases |s|
  {
    if SingleLine(s) {
      assert Lines(s) == [s];
    } else {
      var i := IndexOf(s, '\n');
      JoinedAgain(s[i + 1..]);
      JoinFirst(s[..i], Lines(s[i + 1..]));
      assert s == s[..i] + "\n" + s[i + 1..];
    }
  }

  lemma {:induction false} BeforeBreak(s: string)
    requires '\n' in s
    ensures SingleLine(s[..IndexOf(s, '\n')])
  {
    if s[0] != '\n' {
      BeforeBreak(s[1..]);
      assert s[..IndexOf(s, '\n')] == [s[0]] + s[1..][..IndexOf(s[1..], '\n')];
    }
  }

  lemma {:induction false} LinesSingle(s: string)
    ensures forall l :: l in Lines(s) ==> SingleLine(l)
    decreases |s|
  {
    if !SingleLine(s) {
      BeforeBreak(s);
      LinesSingle(s[IndexOf(s, '\n') + 1..]);
    }
  }

  lemma {:induction false} JoinFirst(line: string, lines: seq<string>)
    requires lines != []
    ensures JoinLines([line] + lines) == line + "\n" + JoinLines(lines)
    decreases |lines|
  {
    var all := [line] + lines;
    if |lines| > 1 {
      assert Front(all) == [line] + Front(lines) && Last(all) == Last(lines);
      JoinFirst(line, Front(lines));
      assert line + "\n" + JoinLines(Front(lines)) + "\n" + Last(lines)
        == line + "\n" + (JoinLines(Front(lines)) + "\n" + Last(lines));
    } else {
      assert Front(all) == [line];
    }
  }

  /** Splitting is the inverse of joining lines. */
  lemma {:induction false} SplitAgain(lines: seq<string>)
    requires lines != [] && forall l :: l in lines ==> SingleLine(l)
    ensures Lines(JoinLines(lines)) == lines
    decreases |lines|
  {
    if |lines| > 1 {
      var rest := lines[1..];
      assert lines == [lines[0]] + rest && lines[0] in lines;
      SplitAgain(rest);
      JoinFirst(lines[0], rest);
      LinesFirst(lines[0], JoinLines(rest));
    } else {
      assert lines == [lines[0]] && lines[0] in lines;
    }
  }

  /** Reads the event of a frame, if it has one; an error is a failed parse. */
  function ParsedFrame(json: Json, frame: string): Result<Option<JobEvent>, string> {
    if frame == "" || ":" <= frame || DataLines(Lines(frame)) == [] then Ok(None)
    else
      match json.parse(JoinLines(DataLines(Lines(frame))))
      case Ok(e) => Ok(Some(e))
      case Err(m) => Err(m)
  }

  method ParseSseFrame(json: Json, frame: string) returns (r: Result<Option<JobEvent>, string>)
    ensures r == ParsedFrame(json, frame)
  {
    if frame == "" || ":" <= frame {
      return Ok(None);
    }
    var data: seq<string>, lines := [], Lines(frame);
    var i := 0;
    assert lines[..0] == [];
    while i < |lines|
      invariant 0 <= i <= |lines| && data == DataLines(lines[..i])
    {
      TakeNext(lines, i);
      assert Front(lines[..i + 1]) == lines[..i];
      if DATA_PREFIX <= lines[i] {
        data := data + [lines[i][6..]];
      }
      i := i + 1;
    }
    assert lines[..i] == lines;
    if |data| == 0 {
      return Ok(None);
    }
    var parsed := json.parse(JoinLines(data));
    if parsed.Err? {
      return Err(parsed.error);
    }
    return Ok(Some(parsed.value));
  }

  /** A frame reads as the event it was written for. */
  lemma ParseBody(json: Json, e: JobEvent)
    requires Faithful(json) && SingleLine(e.kind)
    ensures ParsedFrame(json, Body(json, e)) == Ok(Some(e))
  {
    var id, kind, data := "id: " + Digits(e.id), "event: " + e.kind, DATA_PREFIX + json.stringify(e);
    DigitsSingleLine(e.id);
    LinesFirst(id, kind + "\n" + data);
    LinesFirst(kind, data);
    BodyLines(id, kind, data, json.stringify(e));
    assert Body(json, e) == id + "\n" + (kind + "\n" + data);
  }

  lemma BodyLines(id: string, kind: string, data: string, text: string)
    requires id != "" && id[0] == 'i' && kind != "" && kind[0] == 'e' && data == DATA_PREFIX + text
    ensures DataLines([id] + ([kind] + [data])) == [text]
  {
    assert [id] + ([kind] + [data]) == [] + [id] + [kind] + [data];
    assert DATA_PREFIX[0] == 'd' && !(DATA_PREFIX <= kind) && !(DATA_PREFIX <= id);
    assert DATA_PREFIX <= data && data[6..] == text;
    DataLinesMore([], id);
    DataLinesMore([] + [id], kind);
    DataLinesMore([] + [id] + [kind], data);
  }

  lemma DataLinesMore(lines: seq<string>, line: string)
    ensures DataLines(lines + [line]) == DataLines(lines) + if DATA_PREFIX <= line then [line[6..]] else []
  {
    assert Front(lines + [line]) == lines;
  }

  // ----- The client

  const JOB_PREFIX := "job."

  /** The status a client shows after an event. */
  function StatusAfter(status: string, e: JobEvent): string {
    if JOB_PREFIX <= e.kind then e.kind[4..] else status
  }

  /** What a client has shown: the events in order, and the status. */
  datatype Shown = Shown(events: seq<JobEvent>, status: string)

  const NOTHING_SHOWN := Shown([], "running")

  function Show(shown: Shown, e: Option<JobEvent>): Shown {
    match e
    case None => shown
    case Some(e) => Shown(shown.events + [e], StatusAfter(shown.status, e))
  }

  /** What the frames read as, in turn, up to the first that fails. */
  function ReadFrames(json: Json, shown: Shown, frames: seq<string>): Result<Shown, string>
    decreases |frames|
  {
    if frames == [] then Ok(shown)
    else
      match ParsedFrame(json, frames[0])
      case Err(m) => Err(m)
      case Ok(e) => ReadFrames(json, Show(shown, e), frames[1..])
  }

  function Continue(json: Json, read: Result<Shown, string>, frames: seq<string>): Result<Shown, string> {
    if read.Err? then read else ReadFrames(json, read.value, frames)
  }

  lemma {:induction false} ReadMore(json: Json, shown: Shown, fs: seq<string>, gs: seq<string>)
    ensures ReadFrames(json, shown, fs + gs) == Continue(json, ReadFrames(json, shown, fs), gs)
    decreases |fs|
  {
    if fs == [] {
      assert fs + gs == gs;
    } else {
      assert (fs + gs)[1..] == fs[1..] + gs;
      var parsed := ParsedFrame(json, fs[0]);
      if parsed.Ok? {
        ReadMore(json, Show(shown, parsed.value), fs[1..], gs);
      }
    }
  }

  /** What the whole of a text reads as. */
  function Reading(json: Json, text: string): Result<Shown, string> {
    ReadFrames(json, NOTHING_SHOWN, CutUp(text).frames)
  }

  function Concatenated(chunks: seq<string>): string {
    if chunks == [] then "" else Concatenated(Front(chunks)) + Last(chunks)
  }

  /** A later chunk reads on from what was shown and left over. */
  lemma ReadOn(json: Json, text: string, chunk: string)
    ensures var more := CutUp(CutUp(text).rest + chunk);
      && CutUp(text + chunk).rest == more.rest
      && Reading(json, text + chunk) == Continue(json, Reading(json, text), more.frames)
  {
    CutAppend(text, chunk);
    ReadMore(json, NOTHING_SHOWN, CutUp(text).frames, CutUp(CutUp(text).rest + chunk).frames);
  }

  /** Reads the complete frames of the buffer. */
  method DrainBuffer(json: Json, buffer: string, shown: Shown) returns (r: Result<Shown, string>, rest: string)
    ensures r == ReadFrames(json, shown, CutUp(buffer).frames)
    ensures r.Ok? ==> rest == CutUp(buffer).rest
  {
    var current := shown;
    rest := buffer;
    var boundary := Boundary(rest);
    while boundary != -1
      invariant boundary == Boundary(rest)
      invariant CutUp(rest).rest == CutUp(buffer).rest
      invariant ReadFrames(json, current, CutUp(rest).frames) == ReadFrames(json, shown, CutUp(buffer).frames)
      decreases |rest|
    {
      var frame := rest[..boundary];
      var later := rest[boundary + 2..];
      assert CutUp(rest).frames == [frame] + CutUp(later).frames;
      assert CutUp(rest).frames[0] == frame && CutUp(rest).frames[1..] == CutUp(later).frames;
      var event := ParseSseFrame(json, frame);
      if event.Err? {
        return Err(event.error), rest;
      }
      current := Show(current, event.value);
      rest := later;
      boundary := Boundary(rest);
    }
    return Ok(current), rest;
  }

  /** Reads a stream chunk by chunk. What is shown depends on the text alone, not on where it
      was cut into chunks. */
  method StreamJob(json: Json, chunks: seq<string>) returns (r: Result<Shown, string>)
    ensures r == Reading(json, Concatenated(chunks))
  {
    var shown, buffer := NOTHING_SHOWN, "";
    var i := 0;
    assert chunks[..0] == [];
    while i < |chunks|
      invariant 0 <= i <= |chunks|
      invariant buffer == CutUp(Concatenated(chunks[..i])).rest && Reading(json, Concatenated(chunks[..i])) == Ok(shown)
    {
      ReadOn(json, Concatenated(chunks[..i]), chunks[i]);
      TakeNext(chunks, i);
      assert Front(chunks[..i + 1]) == chunks[..i];
      var read, rest := DrainBuffer(json, buffer + chunks[i], shown);
      if read.Err? {
        FailsOn(json, chunks, i + 1, read.error);
        return Err(read.error);
      }
      shown, buffer := read.value, rest;
      i := i + 1;
    }
    assert chunks[..i] == chunks;
    return Ok(shown);
  }

  /** A text that fails to read fails the same way with more text. */
  lemma {:induction false} FailsOn(json: Json, chunks: seq<string>, i: nat, m: string)
    requires i <= |chunks| && Reading(json, Concatenated(chunks[..i])) == Err(m)
    ensures Reading(json, Concatenated(chunks)) == Err(m)
    decreases |chunks| - i
  {
    if i == |chunks| {
      assert chunks[..i] == chunks;
    } else {
      ReadOn(json, Concatenated(chunks[..i]), chunks[i]);
      TakeNext(chunks, i);
      assert Front(chunks[..i + 1]) == chunks[..i];
      FailsOn(json, chunks, i + 1, m);
    }
  }

  // ----- The round trip

  /** The status after all of the events. */
  function StatusAfterAll(events: seq<JobEvent>): string {
    if events == [] then "running" else StatusAfter(StatusAfterAll(Front(events)), Last(events))
  }

  /** That is what follows "job." in the kind of the last event whose kind begins so. */
  lemma {:induction false} StatusShown(events: seq<JobEvent>, i: nat)
    requires i < |events| && "job." <= events[i].kind
    requires forall j :: i < j < |events| ==> !("job." <= events[j].kind)
    ensures events[i].kind == "job." + StatusAfterAll(events)
    decreases |events|
  {
    if i < |events| - 1 {
      StatusShown(Front(events), i);
    } else {
      assert events[i].kind == events[i].kind[..4] + events[i].kind[4..];
    }
  }

  lemma ReadOne(json: Json, shown: Shown, e: JobEvent)
    requires ParsedFrame(json, Body(json, e)) == Ok(Some(e))
    ensures ReadFrames(json, shown, [Body(json, e)]) == Ok(Show(shown, Some(e)))
  {
    assert [Body(json, e)][1..] == [];
  }

  lemma {:induction false} ReadBodies(json: Json, events: seq<JobEvent>)
    requires Faithful(json) && SingleLineKinds(events)
    ensures ReadFrames(json, NOTHING_SHOWN, Bodies(json, events)) == Ok(Shown(events, StatusAfterAll(events)))
  {
    if events != [] {
      var e := Last(events);
      assert e in events;
      ReadBodies(json, Front(events));
      ParseBody(json, e);
      ReadMore(json, NOTHING_SHOWN, Bodies(json, Front(events)), [Body(json, e)]);
      ReadOne(json, Shown(Front(events), StatusAfterAll(Front(events))), e);
      assert events == Front(events) + [e];
    }
  }

  /** However the text of a stream is cut into chunks, a client shows exactly its events, in
      order, and the status they lead to. */
  lemma StreamRoundTrip(json: Json, events: seq<JobEvent>)
    requires Faithful(json) && SingleLineKinds(events)
    ensures Reading(json, TextOf(json, events)) == Ok(Shown(events, StatusAfterAll(events)))
  {
    CutText(json, events);
    ReadMore(json, NOTHING_SHOWN, [GREETING], Bodies(json, events));
    assert ":" <= GREETING;
    assert [GREETING][1..] == [];
    ReadBodies(json, events);
  }
}

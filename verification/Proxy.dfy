/**
 * service/proxy.go: one attempt of forwarding a request. The answer of the upstream is an input; what the client
 * is sent and what is logged is the result.
 */
module Proxy {
  import opened Wrappers
  import opened Text

  datatype Mode = Off | Observe | Enforce

  /** What the JSON of a payload says. */
  datatype Payload = Unparsable | ErrorEnvelope | Actionable | Idle

  /** How payloads are judged for the path of the request: `data:` payloads of a stream, and whole bodies. */
  datatype Judges = Judges(line: string -> Payload, body: string -> Payload)

  /** requestBodyForErrorLog never says nothing. */
  type BodyNote = s: string | s != "" witness "(empty)"

  datatype Answer =
    | RequestBodyUnreadable
    | RequestNotBuilt
    | NoClient(problem: string)
    | Unreachable(problem: string)
    | Response(status: int, stream: bool, body: string, lines: seq<string>, readErr: Option<string>)

  /** One attempt as the outside world makes it. */
  datatype Exchange = Exchange(mode: Mode, requestId: string, note: BodyNote, answer: Answer)

  /** What reaches the client, in order. */
  datatype Written =
    | Head(status: int)
    | Line(text: string)
    | Body(text: string)
    | ErrorJson(status: int, message: string, code: string)

  datatype ProxyError = ProxyError(
    statusCode: int,
    message: string,
    retryable: bool,
    failureCategory: string,
    invalidReason: string)

  datatype LogRow = LogRow(
    requestId: string,
    relayId: string,
    attemptIndex: int,
    modelResolved: string,
    isStream: bool,
    status: int,
    errorMessage: string,
    failureCategory: string,
    invalidReason: string,
    transportStatus: int)

  /** The part of the request context that logging reads. */
  datatype Place = Place(relayId: string, attemptIndex: int, resolved: string)

  const TRANSPORT := "transport_error"
  const UPSTREAM := "upstream_error"
  const INVALID := "invalid_response"
  const READ := "read_error"
  const PARSE := "parse_error"

  // ---------------------------------------------------------------- judging the answer

  /** `reason` is empty unless the line is broken or carries an error. */
  datatype LineClass = LineClass(meaningful: bool, reason: string, category: string)

  const NEUTRAL := LineClass(false, "", "")

  function ClassifySSEDataLine(line: string, judge: string -> Payload, validate: bool): (r: LineClass)
    ensures r.meaningful ==> validate && r.reason == ""
    ensures r.reason != "" ==> r.category != ""
  {
    if !validate then NEUTRAL
    else
      var trimmed := TrimSpace(line);
      if trimmed == "" || !("data:" <= trimmed) then NEUTRAL
      else
        var payload := TrimSpace(trimmed[5..]);
        if payload == "" || payload == "[DONE]" then NEUTRAL
        else
          match judge(payload)
          case Unparsable => LineClass(false, "stream_payload_parse_failed", PARSE)
          case ErrorEnvelope => LineClass(false, "stream_error_envelope", INVALID)
          case Actionable => LineClass(true, "", "")
          case Idle => NEUTRAL
  }

  ghost predicate AnyMeaningful(lines: seq<string>, judge: string -> Payload, validate: bool) {
    exists l :: l in lines && ClassifySSEDataLine(l, judge, validate).meaningful
  }

  /** The reason and category of the first broken or error line. */
  function FirstInvalid(lines: seq<string>, judge: string -> Payload, validate: bool): (string, string) {
    if lines == [] then ("", "")
    else
      var before := FirstInvalid(lines[..|lines| - 1], judge, validate);
      var last := ClassifySSEDataLine(lines[|lines| - 1], judge, validate);
      if before.0 == "" && last.reason != "" then (last.reason, last.category) else before
  }

  /** Empty when valid: reason, category and message otherwise. */
  datatype Verdict = Verdict(valid: bool, reason: string, category: string, message: string)

  function ValidateNonStreamResponse(body: string, judge: string -> Payload, validate: bool): Verdict {
    if !validate then Verdict(true, "", "", "")
    else if body == "" then Verdict(false, "empty_body", INVALID, "invalid non-stream response: empty body")
    else
      match judge(body)
      case Unparsable =>
        Verdict(false, "payload_parse_failed", PARSE, "invalid non-stream response: payload parse failed")
      case ErrorEnvelope =>
        Verdict(false, "error_envelope_2xx", INVALID, "invalid non-stream response: 2xx error envelope")
      case Idle => Verdict(false, "no_actionable_output", INVALID, "invalid non-stream response: no actionable output")
      case Actionable => Verdict(true, "", "", "")
  }

  // ---------------------------------------------------------------- what an attempt comes to

  /** Whether the attempt is the one the client sees. */
  ghost predicate Succeeds(x: Exchange, judges: Judges) {
    && x.answer.Response? && x.answer.status < 400
    && if x.answer.stream then x.mode != Enforce || AnyMeaningful(x.answer.lines, judges.line, true)
       else
         && x.answer.readErr.None?
         && (x.mode != Enforce || ValidateNonStreamResponse(x.answer.body, judges.body, true).valid)
  }

  /** Only trouble on the gateway's own side stops the retries. */
  predicate Retryable(x: Exchange) {
    !x.answer.RequestBodyUnreadable? && !x.answer.RequestNotBuilt?
  }

  function Lines(lines: seq<string>): seq<Written> {
    seq(|lines|, i requires 0 <= i < |lines| => Line(lines[i]))
  }

  /** All of the upstream's answer, in order. */
  function Output(a: Answer): seq<Written>
    requires a.Response?
  {
    [Head(a.status)] + if a.stream then Lines(a.lines) else [Body(a.body)]
  }

  /** The error message with the note on the request body, cut at 20000. */
  function BuildErrorMessage(base: string, note: BodyNote): (r: string)
    ensures r != "" && |r| <= 20014
    ensures |TrimSpace(base)| <= 20000 ==> TrimSpace(base) <= r
    ensures |TrimSpace(base)| + |note| <= 19985 ==>
              r == TrimSpace(base) + (if TrimSpace(base) == "" then "" else "\n") + "request body: " + note
  {
    var trimmed := TrimSpace(base);
    var msg := if trimmed == "" then "request body: " + note else trimmed + "\nrequest body: " + note;
    if |msg| > 20000 then msg[..20000] + "...(truncated)" else msg
  }

  function MakeRow(p: Place, requestId: string, isStream: bool, errorMessage: string, category: string, reason: string,
                   transport: int): (r: LogRow)
    ensures p.attemptIndex > 0 ==> r.attemptIndex == p.attemptIndex
    ensures r.errorMessage == errorMessage && r.transportStatus == transport
    ensures r.status == (if errorMessage == "" then 1 else 0)
  {
    LogRow(requestId, if TrimSpace(p.relayId) == "" then "legacy-" + requestId else TrimSpace(p.relayId),
           if p.attemptIndex > 0 then p.attemptIndex else 1, TrimSpace(p.resolved), isStream,
           if errorMessage != "" then 0 else 1, errorMessage, TrimSpace(category), TrimSpace(reason), transport)
  }

  /** The row logged for a stream. */
  ghost function StreamRow(p: Place, x: Exchange, judge: string -> Payload): LogRow
    requires x.answer.Response?
  {
    var a, validate := x.answer, x.mode != Off;
    var meaningful := AnyMeaningful(a.lines, judge, validate);
    if a.readErr.Some? then
      MakeRow(p, x.requestId, true, BuildErrorMessage("stream scanner error: " + a.readErr.value, x.note), READ,
              if x.mode != Enforce || meaningful then "stream_read_failed_after_commit" else "stream_read_failed",
              a.status)
    else if validate && !meaningful then
      var found := FirstInvalid(a.lines, judge, true);
      var reason := if found.0 == "" then "stream_no_meaningful_delta" else found.0;
      MakeRow(p, x.requestId, true,
              if x.mode == Enforce then BuildErrorMessage("invalid stream response: " + reason, x.note) else "",
              if found.1 == "" then INVALID else found.1, reason, a.status)
    else
      MakeRow(p, x.requestId, true, "", "", "", a.status)
  }

  /** The row logged for a whole body. */
  function BodyRow(p: Place, x: Exchange, judge: string -> Payload): LogRow
    requires x.answer.Response?
  {
    var a := x.answer;
    if a.readErr.Some? then
      MakeRow(p, x.requestId, false,
              BuildErrorMessage("failed to read upstream response body: " + a.readErr.value, x.note),
              READ, "body_read_failed", a.status)
    else
      var v := ValidateNonStreamResponse(a.body, judge, x.mode != Off);
      MakeRow(p, x.requestId, false,
              if !v.valid && x.mode == Enforce then BuildErrorMessage(v.message, x.note) else "",
              v.category, v.reason, a.status)
  }

  /** The row logged for an upstream status of 400 or above. */
  function StatusRow(p: Place, x: Exchange): LogRow
    requires x.answer.Response?
  {
    var a := x.answer;
    if a.readErr.Some? then
      MakeRow(p, x.requestId, a.stream,
              BuildErrorMessage("upstream status " + Itoa(a.status) + " and failed to read response body: "
                                + a.readErr.value, x.note),
              READ, "upstream_status_body_read_failed", a.status)
    else
      MakeRow(p, x.requestId, a.stream,
              BuildErrorMessage("upstream status " + Itoa(a.status) + ": " + a.body, x.note),
              UPSTREAM, "", a.status)
  }

  /** Every attempt logs one row, except those that stop the retries. */
  ghost function RowsOf(p: Place, x: Exchange, judges: Judges): seq<LogRow> {
    match x.answer
    case RequestBodyUnreadable => []
    case RequestNotBuilt => []
    case NoClient(m) => [MakeRow(p, x.requestId, false, BuildErrorMessage(m, x.note), TRANSPORT, "", 0)]
    case Unreachable(m) => [MakeRow(p, x.requestId, false, BuildErrorMessage(m, x.note), TRANSPORT, "", 0)]
    case Response(status, stream, _, _, _) =>
      [if status >= 400 then StatusRow(p, x)
       else if stream then StreamRow(p, x, judges.line)
       else BodyRow(p, x, judges.body)]
  }

  function ErrorFromRow(r: LogRow): ProxyError {
    ProxyError(r.transportStatus, r.errorMessage, true, r.failureCategory, r.invalidReason)
  }

  /** The error of an attempt that did not succeed. */
  ghost function ErrorOf(p: Place, x: Exchange, judges: Judges): ProxyError {
    match x.answer
    case RequestBodyUnreadable => ProxyError(400, "failed to read request body", false, "", "")
    case RequestNotBuilt => ProxyError(500, "failed to create upstream request", false, "", "")
    case NoClient(m) => ProxyError(502, m, true, TRANSPORT, "")
    case Unreachable(m) => ProxyError(502, "upstream request failed: " + m, true, TRANSPORT, "")
    case Response(_, _, _, _, _) => ErrorFromRow(RowsOf(p, x, judges)[0])
  }

  /** The request context: the response so far, and the rows handed to the logging goroutines. */
  class Context {
    var written: seq<Written>
    var logs: seq<LogRow>
    var place: Place

    constructor (relayId: string)
      ensures written == [] && logs == [] && place == Place(relayId, 0, "")
    {
      written, logs, place := [], [], Place(relayId, 0, "");
    }

    method Write(w: Written)
      modifies this`written
      ensures written == old(written) + [w]
    {
      written := written + [w];
    }

    method LogUsage(requestId: string, isStream: bool, errorMessage: string, category: string, reason: string,
                    transport: int) returns (row: LogRow)
      modifies this`logs
      ensures row == MakeRow(place, requestId, isStream, errorMessage, category, reason, transport)
      ensures logs == old(logs) + [row]
    {
      hide TrimSpace;
      var status := 1;
      if errorMessage != "" {
        status := 0;
      }
      var relayRequestId := TrimSpace(place.relayId);
      if relayRequestId == "" {
        relayRequestId := "legacy-" + requestId;
      }
      var attemptIndex := place.attemptIndex;
      if attemptIndex <= 0 {
        attemptIndex := 1;
      }
      row := LogRow(requestId, relayRequestId, attemptIndex, TrimSpace(place.resolved), isStream, status, errorMessage,
                    TrimSpace(category), TrimSpace(reason), transport);
      logs := logs + [row];
    }
  }

  // ---------------------------------------------------------------- streams

  lemma FirstInvalidMeaning(lines: seq<string>, judge: string -> Payload, validate: bool, i: nat)
    requires i < |lines| && ClassifySSEDataLine(lines[i], judge, validate).reason != ""
    requires forall k :: 0 <= k < i ==> ClassifySSEDataLine(lines[k], judge, validate).reason == ""
    ensures FirstInvalid(lines, judge, validate).0 == ClassifySSEDataLine(lines[i], judge, validate).reason
    ensures FirstInvalid(lines, judge, validate).1 == ClassifySSEDataLine(lines[i], judge, validate).category
  {
    hide ClassifySSEDataLine;
    if i < |lines| - 1 {
      FirstInvalidMeaning(lines[..|lines| - 1], judge, validate, i);
    } else {
      NoneInvalid(lines[..i], judge, validate);
    }
  }

  lemma {:induction false} NoneInvalid(lines: seq<string>, judge: string -> Payload, validate: bool)
    requires forall k :: 0 <= k < |lines| ==> ClassifySSEDataLine(lines[k], judge, validate).reason == ""
    ensures FirstInvalid(lines, judge, validate) == ("", "")
  {
    hide ClassifySSEDataLine;
    if lines != [] {
      NoneInvalid(lines[..|lines| - 1], judge, validate);
    }
  }

  lemma AnyMeaningfulNext(lines: seq<string>, i: nat, judge: string -> Payload, validate: bool)
    requires i < |lines|
    ensures AnyMeaningful(lines[..i + 1], judge, validate)
       <==> AnyMeaningful(lines[..i], judge, validate) || ClassifySSEDataLine(lines[i], judge, validate).meaningful
  {
    hide ClassifySSEDataLine;
    assert lines[..i + 1] == lines[..i] + [lines[i]];
    assert lines[i] in lines[..i + 1];
  }

  /** Without lines, and without validation, nothing is meaningful. */
  lemma NothingMeaningful(lines: seq<string>, judge: string -> Payload, validate: bool)
    ensures lines == [] || !validate ==> !AnyMeaningful(lines, judge, validate)
  {
  }

  /** Sends the head and the lines held back. */
  method CommitResponse(c: Context, status: int, pendingLines: seq<string>)
    modifies c`written
    ensures c.written == old(c.written) + [Head(status)] + Lines(pendingLines)
  {
    c.Write(Head(status));
    for i := 0 to |pendingLines|
      invariant c.written == old(c.written) + [Head(status)] + Lines(pendingLines[..i])
    {
      c.Write(Line(pendingLines[i]));
      assert Lines(pendingLines[..i + 1]) == Lines(pendingLines[..i]) + [Line(pendingLines[i])];
    }
    assert pendingLines[..|pendingLines|] == pendingLines;
  }

  /** Before the commit nothing is sent; after it, every line scanned so far. */
  ghost predicate Sent(before: seq<Written>, now: seq<Written>, status: int, lines: seq<string>, committed: bool,
                       pending: seq<string>) {
    if committed then now == before + [Head(status)] + Lines(lines) else now == before && pending == lines
  }

  lemma SentNext(before: seq<Written>, status: int, lines: seq<string>, line: string)
    ensures before + [Head(status)] + Lines(lines + [line]) == before + [Head(status)] + Lines(lines) + [Line(line)]
  {
    assert Lines(lines + [line]) == Lines(lines) + [Line(line)];
  }

  /** The scan: what it has sent, and what it has found out about the lines. */
  method ScanStream(c: Context, status: int, lines: seq<string>, mode: Mode, judge: string -> Payload)
      returns (committed: bool, meaningfulDelta: bool, invalidReason: string, failureCategory: string)
    modifies c`written
    ensures meaningfulDelta <==> AnyMeaningful(lines, judge, mode != Off)
    ensures (invalidReason, failureCategory) == FirstInvalid(lines, judge, mode != Off)
    ensures committed <==> mode != Enforce || meaningfulDelta
    ensures c.written == if committed then old(c.written) + ([Head(status)] + Lines(lines)) else old(c.written)
  {
    hide ClassifySSEDataLine, AnyMeaningful, Lines;
    ghost var before := c.written;
    var pendingLines: seq<string> := [];
    committed, meaningfulDelta, invalidReason, failureCategory := false, false, "", "";
    if mode != Enforce {
      CommitResponse(c, status, pendingLines);
      committed := true;
    }
    NothingMeaningful([], judge, mode != Off);
    for i := 0 to |lines|
      invariant Sent(before, c.written, status, lines[..i], committed, pendingLines)
      invariant committed <==> mode != Enforce || meaningfulDelta
      invariant meaningfulDelta <==> AnyMeaningful(lines[..i], judge, mode != Off)
      invariant (invalidReason, failureCategory) == FirstInvalid(lines[..i], judge, mode != Off)
    {
      var line := lines[i];
      assert lines[..i + 1] == lines[..i] + [line] && lines[..i + 1][..i] == lines[..i];
      AnyMeaningfulNext(lines, i, judge, mode != Off);
      SentNext(before, status, lines[..i], line);
      var classification := ClassifySSEDataLine(line, judge, mode != Off);
      if classification.reason != "" && invalidReason == "" {
        invalidReason, failureCategory := classification.reason, classification.category;
      }
      if classification.meaningful {
        meaningfulDelta := true;
      }
      if mode == Enforce && !committed {
        pendingLines := pendingLines + [line];
        if meaningfulDelta {
          CommitResponse(c, status, pendingLines);
          committed := true;
        }
      } else {
        c.Write(Line(line));
      }
    }
    assert lines[..|lines|] == lines;
  }

  method ProxyStreamResponse(c: Context, x: Exchange, judges: Judges) returns (err: Option<ProxyError>)
    requires x.answer.Response? && x.answer.stream && x.answer.status < 400
    modifies c`written, c`logs
    ensures err == if Succeeds(x, judges) then None else Some(ErrorOf(c.place, x, judges))
    ensures c.written == if err.None? then old(c.written) + Output(x.answer) else old(c.written)
    ensures c.logs == old(c.logs) + [StreamRow(c.place, x, judges.line)]
  {
    hide AnyMeaningful, FirstInvalid, Lines, MakeRow, BuildErrorMessage;
    var a, validate := x.answer, x.mode != Off;
    var committed, meaningfulDelta, invalidReason, failureCategory :=
      ScanStream(c, a.status, a.lines, x.mode, judges.line);
    NothingMeaningful(a.lines, judges.line, validate);
    if a.readErr.Some? {
      var errorMsg := BuildErrorMessage("stream scanner error: " + a.readErr.value, x.note);
      if !committed {
        var row := c.LogUsage(x.requestId, true, errorMsg, READ, "stream_read_failed", a.status);
        return Some(ProxyError(a.status, errorMsg, true, row.failureCategory, row.invalidReason));
      }
      var row := c.LogUsage(x.requestId, true, errorMsg, READ, "stream_read_failed_after_commit", a.status);
      return None;
    }
    if validate && !meaningfulDelta {
      if invalidReason == "" {
        invalidReason := "stream_no_meaningful_delta";
      }
      if failureCategory == "" {
        failureCategory := INVALID;
      }
      if x.mode == Enforce {
        var errorMsg := BuildErrorMessage("invalid stream response: " + invalidReason, x.note);
        var row := c.LogUsage(x.requestId, true, errorMsg, failureCategory, invalidReason, a.status);
        return Some(ProxyError(a.status, errorMsg, true, row.failureCategory, row.invalidReason));
      }
      var row := c.LogUsage(x.requestId, true, "", failureCategory, invalidReason, a.status);
      return None;
    }
    var row := c.LogUsage(x.requestId, true, "", "", "", a.status);
    return None;
  }

  // ---------------------------------------------------------------- whole bodies and the outcome of an attempt

  method ProxyNonStreamResponse(c: Context, x: Exchange, judges: Judges) returns (err: Option<ProxyError>)
    requires x.answer.Response? && !x.answer.stream && x.answer.status < 400
    modifies c`written, c`logs
    ensures err == if Succeeds(x, judges) then None else Some(ErrorOf(c.place, x, judges))
    ensures c.written == if err.None? then old(c.written) + Output(x.answer) else old(c.written)
    ensures c.logs == old(c.logs) + [BodyRow(c.place, x, judges.body)]
  {
    hide MakeRow, BuildErrorMessage;
    var a := x.answer;
    if a.readErr.Some? {
      var errorMsg := BuildErrorMessage("failed to read upstream response body: " + a.readErr.value, x.note);
      var row := c.LogUsage(x.requestId, false, errorMsg, READ, "body_read_failed", a.status);
      return Some(ProxyError(a.status, errorMsg, true, row.failureCategory, row.invalidReason));
    }
    var validation := ValidateNonStreamResponse(a.body, judges.body, x.mode != Off);
    if !validation.valid {
      if x.mode == Enforce {
        var errorMsg := BuildErrorMessage(validation.message, x.note);
        var row := c.LogUsage(x.requestId, false, errorMsg, validation.category, validation.reason, a.status);
        return Some(ProxyError(a.status, errorMsg, true, row.failureCategory, row.invalidReason));
      }
      c.Write(Head(a.status));
      c.Write(Body(a.body));
      var row := c.LogUsage(x.requestId, false, "", validation.category, validation.reason, a.status);
      return None;
    }
    c.Write(Head(a.status));
    c.Write(Body(a.body));
    var row := c.LogUsage(x.requestId, false, "", "", "", a.status);
    return None;
  }

  /** Forwards the request once: it writes to the client exactly when it succeeds, and then all of the answer. */
  method ProxyToUpstream(c: Context, x: Exchange, judges: Judges) returns (err: Option<ProxyError>)
    modifies c`written, c`logs
    ensures err == if Succeeds(x, judges) then None else Some(ErrorOf(c.place, x, judges))
    ensures err.Some? ==> err.value.retryable == Retryable(x)
    ensures c.written == if err.None? then old(c.written) + Output(x.answer) else old(c.written)
    ensures c.logs == old(c.logs) + RowsOf(c.place, x, judges)
  {
    hide BuildErrorMessage, StreamRow, BodyRow, AnyMeaningful, ValidateNonStreamResponse, Lines;
    match x.answer
    case RequestBodyUnreadable =>
      return Some(ProxyError(400, "failed to read request body", false, "", ""));
    case RequestNotBuilt =>
      return Some(ProxyError(500, "failed to create upstream request", false, "", ""));
    case NoClient(problem) =>
      var row := c.LogUsage(x.requestId, false, BuildErrorMessage(problem, x.note), TRANSPORT, "", 0);
      return Some(ProxyError(502, problem, true, TRANSPORT, ""));
    case Unreachable(problem) =>
      var row := c.LogUsage(x.requestId, false, BuildErrorMessage(problem, x.note), TRANSPORT, "", 0);
      return Some(ProxyError(502, "upstream request failed: " + problem, true, TRANSPORT, ""));
    case Response(status, stream, body, lines, readErr) =>
      if status >= 400 {
        if readErr.Some? {
          var errorMsg := BuildErrorMessage(
            "upstream status " + Itoa(status) + " and failed to read response body: " + readErr.value, x.note);
          var row := c.LogUsage(x.requestId, stream, errorMsg, READ, "upstream_status_body_read_failed", status);
          return Some(ProxyError(status, errorMsg, true, row.failureCategory, row.invalidReason));
        }
        var errorMsg := BuildErrorMessage("upstream status " + Itoa(status) + ": " + body, x.note);
        var row := c.LogUsage(x.requestId, stream, errorMsg, UPSTREAM, "", status);
        return Some(ProxyError(status, errorMsg, true, row.failureCategory, row.invalidReason));
      }
      if stream {
        err := ProxyStreamResponse(c, x, judges);
      } else {
        err := ProxyNonStreamResponse(c, x, judges);
      }
  }

  /**
   * The row of an attempt tells whether it succeeded, except that a stream that broke off after its commit is
   * logged as failed although the client has its lines.
   */
  lemma RowTellsSuccessIff(p: Place, x: Exchange, judges: Judges)
    requires RowsOf(p, x, judges) != []
    ensures |RowsOf(p, x, judges)| == 1
    ensures var row := RowsOf(p, x, judges)[0];
            && row.status == (if row.errorMessage == "" then 1 else 0)
            && ((row.status == 1 <==> Succeeds(x, judges))
                <==> !(Succeeds(x, judges) && x.answer.stream && x.answer.readErr.Some?))
  {
    hide BuildErrorMessage, AnyMeaningful, FirstInvalid, ClassifySSEDataLine;
    if x.answer.Response? {
      NothingMeaningful(x.answer.lines, judges.line, x.mode != Off);
    }
  }

  // ---------------------------------------------------------------- the outcome, said over the raw answer

  /** The line is a `data:` line with this payload, and not the end mark. */
  ghost predicate DataLine(line: string, payload: string) {
    var trimmed := TrimSpace(line);
    "data:" <= trimmed && payload == TrimSpace(trimmed[5..]) && payload != "" && payload != "[DONE]"
  }

  ghost predicate Carries(line: string, judge: string -> Payload, kind: Payload) {
    exists payload :: DataLine(line, payload) && judge(payload) == kind
  }

  ghost predicate AnyCarries(lines: seq<string>, judge: string -> Payload, kind: Payload) {
    exists l :: l in lines && Carries(l, judge, kind)
  }

  /** The first line whose payload does not parse or is an error envelope. */
  ghost predicate FirstBroken(lines: seq<string>, judge: string -> Payload, i: int) {
    && 0 <= i < |lines| && (Carries(lines[i], judge, Unparsable) || Carries(lines[i], judge, ErrorEnvelope))
    && forall k :: 0 <= k < i ==> !Carries(lines[k], judge, Unparsable) && !Carries(lines[k], judge, ErrorEnvelope)
  }

  lemma LineMeaning(line: string, judge: string -> Payload)
    ensures var c := ClassifySSEDataLine(line, judge, true);
            && (c.meaningful <==> Carries(line, judge, Actionable))
            && (Carries(line, judge, Unparsable) ==> c == LineClass(false, "stream_payload_parse_failed", PARSE))
            && (Carries(line, judge, ErrorEnvelope) ==> c == LineClass(false, "stream_error_envelope", INVALID))
            && (!Carries(line, judge, Unparsable) && !Carries(line, judge, ErrorEnvelope) ==>
                  c.reason == c.category == "")
  {
    hide TrimSpace;
    var trimmed := TrimSpace(line);
    if "data:" <= trimmed && TrimSpace(trimmed[5..]) != "" && TrimSpace(trimmed[5..]) != "[DONE]" {
      assert DataLine(line, TrimSpace(trimmed[5..]));
    }
  }

  lemma MeaningfulMeaning(lines: seq<string>, judge: string -> Payload)
    ensures AnyMeaningful(lines, judge, true) <==> AnyCarries(lines, judge, Actionable)
  {
    hide ClassifySSEDataLine, Carries;
    forall l ensures ClassifySSEDataLine(l, judge, true).meaningful <==> Carries(l, judge, Actionable) {
      LineMeaning(l, judge);
    }
  }

  /**
   * Who the client is served by: an upstream status below 400, with, under enforcement, an actionable payload on some
   * `data:` line of a stream, or in a whole body that was read to its end.
   */
  lemma SucceedsIff(x: Exchange, judges: Judges)
    ensures Succeeds(x, judges)
       <==> && x.answer.Response? && x.answer.status < 400
            && if x.answer.stream then x.mode != Enforce || AnyCarries(x.answer.lines, judges.line, Actionable)
               else
                 && x.answer.readErr.None?
                 && (x.mode != Enforce || (x.answer.body != "" && judges.body(x.answer.body) == Actionable))
  {
    hide AnyMeaningful, AnyCarries;
    if x.answer.Response? {
      MeaningfulMeaning(x.answer.lines, judges.line);
    }
  }

  lemma InvalidMeaning(lines: seq<string>, judge: string -> Payload)
    ensures forall i :: FirstBroken(lines, judge, i) ==>
              FirstInvalid(lines, judge, true) == if Carries(lines[i], judge, Unparsable)
                                                  then ("stream_payload_parse_failed", PARSE)
                                                  else ("stream_error_envelope", INVALID)
    ensures (forall i :: !FirstBroken(lines, judge, i)) ==> FirstInvalid(lines, judge, true) == ("", "")
  {
    hide ClassifySSEDataLine, Carries, FirstInvalid;
    forall l
      ensures var c := ClassifySSEDataLine(l, judge, true);
              && (c.reason == "" <==> !Carries(l, judge, Unparsable) && !Carries(l, judge, ErrorEnvelope))
              && (Carries(l, judge, Unparsable) ==> c == LineClass(false, "stream_payload_parse_failed", PARSE))
              && (Carries(l, judge, ErrorEnvelope) ==> c == LineClass(false, "stream_error_envelope", INVALID))
    {
      LineMeaning(l, judge);
    }
    forall i | FirstBroken(lines, judge, i)
      ensures FirstInvalid(lines, judge, true) == if Carries(lines[i], judge, Unparsable)
                                                  then ("stream_payload_parse_failed", PARSE)
                                                  else ("stream_error_envelope", INVALID)
    {
      FirstInvalidMeaning(lines, judge, true, i);
    }
    if forall i :: !FirstBroken(lines, judge, i) {
      NoneBroken(lines, judge, |lines|);
      NoneInvalid(lines, judge, true);
    }
  }

  lemma {:induction false} NoneBroken(lines: seq<string>, judge: string -> Payload, n: nat)
    requires n <= |lines| && forall i :: !FirstBroken(lines, judge, i)
    ensures forall k :: 0 <= k < n ==> !Carries(lines[k], judge, Unparsable) && !Carries(lines[k], judge, ErrorEnvelope)
  {
    hide Carries;
    if n > 0 {
      NoneBroken(lines, judge, n - 1);
      assert !FirstBroken(lines, judge, n - 1);
    }
  }

  lemma LabelsTrimmed()
    ensures TrimSpace("") == "" && TrimSpace(READ) == READ && TrimSpace(INVALID) == INVALID && TrimSpace(PARSE) == PARSE
    ensures TrimSpace("stream_read_failed") == "stream_read_failed"
    ensures TrimSpace("stream_read_failed_after_commit") == "stream_read_failed_after_commit"
    ensures TrimSpace("stream_no_meaningful_delta") == "stream_no_meaningful_delta"
    ensures TrimSpace("stream_payload_parse_failed") == "stream_payload_parse_failed"
    ensures TrimSpace("stream_error_envelope") == "stream_error_envelope"
  {
    hide TrimSpace;
    assert "" == [];
    TrimSpaceTrimmed("");
    TrimSpaceTrimmed(READ);
    TrimSpaceTrimmed(INVALID);
    TrimSpaceTrimmed(PARSE);
    TrimSpaceTrimmed("stream_read_failed");
    TrimSpaceTrimmed("stream_read_failed_after_commit");
    TrimSpaceTrimmed("stream_no_meaningful_delta");
    TrimSpaceTrimmed("stream_payload_parse_failed");
    TrimSpaceTrimmed("stream_error_envelope");
  }

  lemma BodyLabelsTrimmed()
    ensures TrimSpace("body_read_failed") == "body_read_failed" && TrimSpace("empty_body") == "empty_body"
    ensures TrimSpace("payload_parse_failed") == "payload_parse_failed"
    ensures TrimSpace("error_envelope_2xx") == "error_envelope_2xx"
    ensures TrimSpace("no_actionable_output") == "no_actionable_output"
  {
    hide TrimSpace;
    TrimSpaceTrimmed("body_read_failed");
    TrimSpaceTrimmed("empty_body");
    TrimSpaceTrimmed("payload_parse_failed");
    TrimSpaceTrimmed("error_envelope_2xx");
    TrimSpaceTrimmed("no_actionable_output");
  }

  /** What the row of a stream says: how reading ended, or what the first broken line was, or nothing. */
  lemma StreamRowTells(p: Place, x: Exchange, judges: Judges)
    requires x.answer.Response? && x.answer.stream && x.answer.status < 400
    ensures |RowsOf(p, x, judges)| == 1
    ensures var row, lines := RowsOf(p, x, judges)[0], x.answer.lines;
            var said := (row.failureCategory, row.invalidReason);
            var actionable := AnyCarries(lines, judges.line, Actionable);
            if x.answer.readErr.Some? then
              && row.status == 0
              && said == ("read_error", if x.mode == Enforce && !actionable then "stream_read_failed"
                                 else "stream_read_failed_after_commit")
            else if x.mode == Off || actionable then row.status == 1 && said == ("", "")
            else
              && row.status == (if x.mode == Enforce then 0 else 1)
              && (forall i :: FirstBroken(lines, judges.line, i) ==>
                    said == if Carries(lines[i], judges.line, Unparsable)
                             then ("parse_error", "stream_payload_parse_failed")
                             else ("invalid_response", "stream_error_envelope"))
              && ((forall i :: !FirstBroken(lines, judges.line, i)) ==>
                    said == ("invalid_response", "stream_no_meaningful_delta"))
  {
    hide ClassifySSEDataLine, BuildErrorMessage, TrimSpace, AnyMeaningful, AnyCarries, Carries, FirstInvalid,
         FirstBroken;
    var lines := x.answer.lines;
    MeaningfulMeaning(lines, judges.line);
    NothingMeaningful(lines, judges.line, x.mode != Off);
    var row := RowsOf(p, x, judges)[0];
    assert row == StreamRow(p, x, judges.line);
    if x.answer.readErr.Some? || x.mode == Off || AnyCarries(lines, judges.line, Actionable) {
      LabelsTrimmed();
    } else {
      InvalidMeaning(lines, judges.line);
      var found := FirstInvalid(lines, judges.line, true);
      assert row.failureCategory == TrimSpace(if found.1 == "" then INVALID else found.1);
      assert row.invalidReason == TrimSpace(if found.0 == "" then "stream_no_meaningful_delta" else found.0);
      hide StreamRow, RowsOf;
      LabelsTrimmed();
    }
  }

  /** What the row of a whole body says. */
  lemma BodyRowTells(p: Place, x: Exchange, judges: Judges)
    requires x.answer.Response? && !x.answer.stream && x.answer.status < 400
    ensures |RowsOf(p, x, judges)| == 1
    ensures var row, body := RowsOf(p, x, judges)[0], x.answer.body;
            var said := (row.failureCategory, row.invalidReason);
            if x.answer.readErr.Some? then row.status == 0 && said == ("read_error", "body_read_failed")
            else if x.mode == Off || (body != "" && judges.body(body) == Actionable) then
              row.status == 1 && said == ("", "")
            else
              && row.status == (if x.mode == Enforce then 0 else 1)
              && said == if body == "" then ("invalid_response", "empty_body")
                          else if judges.body(body) == Unparsable then ("parse_error", "payload_parse_failed")
                          else if judges.body(body) == ErrorEnvelope then ("invalid_response", "error_envelope_2xx")
                          else ("invalid_response", "no_actionable_output")
  {
    LabelsTrimmed();
    BodyLabelsTrimmed();
    hide BuildErrorMessage, TrimSpace;
  }

  /** What the row says of an upstream that answers with an error status, or does not answer. */
  lemma OtherRowTells(p: Place, x: Exchange, judges: Judges)
    requires !x.answer.Response? || x.answer.status >= 400
    ensures RowsOf(p, x, judges) == [] <==> x.answer.RequestBodyUnreadable? || x.answer.RequestNotBuilt?
    ensures RowsOf(p, x, judges) != [] ==>
              var row := RowsOf(p, x, judges)[0];
              && |RowsOf(p, x, judges)| == 1 && row.status == 0
              && (row.failureCategory, row.invalidReason, row.transportStatus)
                 == if !x.answer.Response? then ("transport_error", "", 0)
                    else if x.answer.readErr.Some? then
                      ("read_error", "upstream_status_body_read_failed", x.answer.status)
                    else ("upstream_error", "", x.answer.status)
  {
    OtherLabelsTrimmed();
    hide BuildErrorMessage, TrimSpace, Itoa;
  }

  lemma OtherLabelsTrimmed()
    ensures TrimSpace("") == "" && TrimSpace(READ) == READ && TrimSpace(TRANSPORT) == TRANSPORT
    ensures TrimSpace(UPSTREAM) == UPSTREAM
    ensures TrimSpace("upstream_status_body_read_failed") == "upstream_status_body_read_failed"
  {
    hide TrimSpace;
    assert "" == [];
    TrimSpaceTrimmed("");
    TrimSpaceTrimmed(READ);
    TrimSpaceTrimmed(TRANSPORT);
    TrimSpaceTrimmed(UPSTREAM);
    TrimSpaceTrimmed("upstream_status_body_read_failed");
  }

  /** A meaningful line commits the stream, then reading breaks off: the client has the line, the row says failed. */
  lemma BrokenStreamExample(p: Place)
    ensures var judges := Judges(_ => Actionable, _ => Actionable);
            var x := Exchange(Enforce, "r", "(empty)", Response(200, true, "", ["data:x"], Some("unexpected EOF")));
            && Succeeds(x, judges) && Output(x.answer) == [Head(200), Line("data:x")]
            && |RowsOf(p, x, judges)| == 1 && RowsOf(p, x, judges)[0].status == 0
            && RowsOf(p, x, judges)[0].transportStatus == 200
  {
    var judge: string -> Payload := _ => Actionable;
    TrimSpaceTrimmed("data:x");
    TrimSpaceTrimmed("x");
    assert "data:x"[5..] == "x";
    assert ClassifySSEDataLine("data:x", judge, true).meaningful;
    assert "data:x" in ["data:x"];
    hide ClassifySSEDataLine, BuildErrorMessage, TrimSpace;
  }
}

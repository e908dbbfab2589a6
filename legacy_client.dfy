/** The older whole-buffer client `NNTPClient` (nntp-client.js). Each command
    installs its own data handler that appends every event to a private buffer
    and re-splits the whole buffer; there is no routing, no un-stuffing, and a
    single-line command completes on its first data event. */
module LegacyClient {
  import opened Wrappers
  import opened Text
  import opened Framing
  import opened Resolver
  import Commands

  /** `s.substring(0, 3)`. */
  function Prefix3(s: String): String
  {
    if |s| <= 3 then s else s[..3]
  }

  /** `s.substring(4)`. */
  function From4(s: String): String
  {
    if |s| <= 4 then [] else s[4..]
  }

  /** The status code as `parseInt(statusLine.substring(0, 3))`; None is `NaN`. */
  function StatusCodeOf(statusLine: String): Option<int>
  {
    ParseInt(Prefix3(statusLine))
  }

  /** `message || \`NNTP error ${code}\``, where a `NaN` code prints as `NaN`. */
  function LegacyErrorText(message: String, code: Option<int>): String
  {
    if message != [] then message
    else "NNTP error " + (if code.None? then "NaN" else IntToString(code.value))
  }

  /** How a finished exchange settles: success exactly for a numeric code in
      [200, 400), otherwise an error carrying the message or the code. */
  function LegacyOutcome(statusLine: String, lines: seq<String>): (r: Completion)
    ensures var code := StatusCodeOf(statusLine);
      r.Resolved? <==> code.Some? && IsSuccessCode(code.value)
    ensures r.Resolved? ==> r.reply.code == StatusCodeOf(statusLine).value && r.reply.lines == lines
    ensures r.Rejected? ==> r.error != []
  {
    var code := StatusCodeOf(statusLine);
    var message := Trim(From4(statusLine));
    if code.Some? && IsSuccessCode(code.value) then Resolved(Reply(code.value, message, lines))
    else Rejected(LegacyErrorText(message, code))
  }

  /** A multi-line buffer is complete when its CR?LF pieces number at least two
      and the second to last trims to `.`. */
  predicate MultilineComplete(buffer: String)
  {
    var pieces := SplitLines(buffer);
    |pieces| >= 2 && Trim(pieces[|pieces| - 2]) == "."
  }

  /** The data lines of a complete buffer: the pieces between the status line and
      the terminator, empty ones dropped, no un-stuffing. */
  function DataLines(pieces: seq<String>): seq<String>
    requires |pieces| >= 2
  {
    if |pieces| >= 3 then NonEmpty(pieces[1..|pieces| - 2]) else []
  }

  /** The check the data handler makes on the pieces of the accumulated buffer:
      the completion if the response is complete, None if it keeps waiting. */
  function RespondPieces(pieces: seq<String>, multiline: bool): (r: Option<Completion>)
    requires pieces != []
    ensures !multiline ==> r.Some?
    ensures multiline ==> (r.Some? <==> |pieces| >= 2 && Trim(pieces[|pieces| - 2]) == ".")
  {
    if multiline then
      if |pieces| >= 2 && Trim(pieces[|pieces| - 2]) == "." then
        Some(LegacyOutcome(pieces[0], DataLines(pieces)))
      else None
    else Some(LegacyOutcome(pieces[0], []))
  }

  /** `responseHandler`'s test of the accumulated buffer. */
  function Respond(buffer: String, multiline: bool): (r: Option<Completion>)
    ensures !multiline ==> r.Some?
    ensures multiline ==> (r.Some? <==> MultilineComplete(buffer))
  {
    RespondPieces(SplitLines(buffer), multiline)
  }

  /** One command of the old client: its accumulated `buffer` and, once the
      handler has removed itself, its completion. */
  class Exchange {
    const multiline: bool
    var buffer: String
    var result: Option<Completion>

    constructor(multiline: bool)
      ensures this.multiline == multiline && buffer == [] && result == None
    {
      this.multiline := multiline;
      buffer := [];
      result := None;
    }

    /** `responseHandler(data)`; after completion the handler is detached, so
        later data is not seen. */
    method OnData(data: String)
      modifies this
      ensures old(result).Some? ==> buffer == old(buffer) && result == old(result)
      ensures old(result).None? ==>
        buffer == old(buffer) + data && result == Respond(old(buffer) + data, multiline)
    {
      if result.None? {
        buffer := buffer + data;
        result := Respond(buffer, multiline);
      }
    }
  }

  /** A single-line command completes on its first data event, whatever it holds,
      with no data lines. */
  lemma SingleLineFirstEvent(data: String)
    ensures var r := Respond(data, false);
      r.Some? && (r.value.Resolved? ==> r.value.reply.lines == [])
  {
  }

  lemma SplitCrlfLines(lines: seq<String>)
    requires LfFree(lines)
    ensures SplitLines(CrlfLines(lines)) == lines + [[]]
  {
    FrameCrlfLines(lines);
    SplitLinesParts(CrlfLines(lines));
  }

  /** The pieces of a whole multi-line reply give the status line's outcome and
      the body lines minus the empty ones. */
  lemma WholeMultilinePieces(statusLine: String, body: seq<String>)
    ensures RespondPieces([statusLine] + body + ["."] + [[]], true)
         == Some(LegacyOutcome(statusLine, NonEmpty(body)))
  {
    Between(statusLine, body, ".", []);
    TrimDot();
  }

  lemma ReplyLinesLfFree(statusLine: String, body: seq<String>)
    requires '\n' !in statusLine && LfFree(body)
    ensures LfFree([statusLine] + body + ["."])
  {
    var lines := [statusLine] + body + ["."];
    forall k | 0 <= k < |lines| ensures '\n' !in lines[k] {
      if 0 < k < |lines| - 1 {
        assert lines[k] == body[k - 1];
      }
    }
  }

  /** A whole multi-line reply in the buffer completes with the status line's
      outcome and the body lines as sent, minus the empty ones. */
  lemma WholeMultilineReply(statusLine: String, body: seq<String>)
    requires '\n' !in statusLine && LfFree(body)
    ensures Respond(CrlfLines([statusLine] + body + ["."]), true)
         == Some(LegacyOutcome(statusLine, NonEmpty(body)))
  {
    ReplyLinesLfFree(statusLine, body);
    SplitCrlfLines([statusLine] + body + ["."]);
    WholeMultilinePieces(statusLine, body);
  }

  lemma StuffedLinesShape(body: seq<String>)
    requires AllNonEmpty(body) && LfFree(body)
    ensures AllNonEmpty(MapStuff(body)) && LfFree(MapStuff(body))
  {
    var wire := MapStuff(body);
    forall k | 0 <= k < |wire| ensures wire[k] != [] && '\n' !in wire[k] {
      MapStuffAt(body, k);
    }
  }

  /** Received with its stuffing, a body line that begins with a dot comes back
      with the dot doubled: the old client does not un-stuff. */
  lemma StuffedLinesKept(statusLine: String, body: seq<String>)
    requires '\n' !in statusLine && AllNonEmpty(body) && LfFree(body)
    ensures Respond(CrlfLines([statusLine] + MapStuff(body) + ["."]), true)
         == Some(LegacyOutcome(statusLine, MapStuff(body)))
  {
    StuffedLinesShape(body);
    WholeMultilineReply(statusLine, MapStuff(body));
    NonEmptyKeeps(MapStuff(body));
  }

  /** Until a line that trims to `.` has been completed, a multi-line command
      keeps waiting. */
  lemma WaitsForTerminator(lines: seq<String>)
    requires lines != [] && Trim(lines[|lines| - 1]) != "."
    requires LfFree(lines)
    ensures Respond(CrlfLines(lines), true) == None
  {
    SplitCrlfLines(lines);
  }

  // ---- LIST

  datatype LegacyGroupEntry = LegacyGroupEntry(name: String, last: int, first: int, count: int,
                                               description: String)

  /** A LIST line of the old client: four tokens at least (name, last, first,
      count), then the description. */
  function ParseListLine(line: String): (r: Option<LegacyGroupEntry>)
    ensures r.Some? <==> Trim(line) != [] && |SplitWs(line)| >= 4
  {
    if line == [] || Trim(line) == [] then None
    else
      var parts := SplitWs(line);
      if |parts| >= 4 then
        Some(LegacyGroupEntry(parts[0], IntOrZero(parts[1]), IntOrZero(parts[2]), IntOrZero(parts[3]),
                              Join(parts[4..], " ")))
      else None
  }

  /** `list()`: the entries of the reply lines, in order. */
  function ParseList(lines: seq<String>): (r: seq<LegacyGroupEntry>)
    ensures |r| <= |lines|
    ensures |r| == |lines| <==> forall k :: 0 <= k < |lines| ==> ParseListLine(lines[k]).Some?
  {
    if lines == [] then []
    else
      var rest := ParseList(lines[1..]);
      match ParseListLine(lines[0])
      case Some(g) => [g] + rest
      case None => rest
  }

  /** A line with the four fields and a description reads back field by field. */
  lemma ListLineRoundTrip(name: String, last: nat, first: nat, count: nat, description: seq<String>)
    requires name != [] && NoSpace(name)
    requires forall k :: 0 <= k < |description| ==> description[k] != [] && NoSpace(description[k])
    ensures ParseListLine(Join([name, NatToString(last), NatToString(first), NatToString(count)]
                               + description, " "))
         == Some(LegacyGroupEntry(name, last, first, count, Join(description, " ")))
  {
    var tokens := [name, NatToString(last), NatToString(first), NatToString(count)] + description;
    ListLineTokens(tokens, name, last, first, count, description);
    assert tokens[4..] == description;
    ParseIntOfNat(last);
    ParseIntOfNat(first);
    ParseIntOfNat(count);
  }

  /** The tokens of a four-field LIST line are the fields the server wrote. */
  lemma ListLineTokens(tokens: seq<String>, name: String, last: nat, first: nat, count: nat, description: seq<String>)
    requires tokens == [name, NatToString(last), NatToString(first), NatToString(count)] + description
    requires name != [] && NoSpace(name)
    requires forall k :: 0 <= k < |description| ==> description[k] != [] && NoSpace(description[k])
    ensures var line := Join(tokens, " ");
      line != [] && Trim(line) != [] && SplitWs(line) == tokens
  {
    NatToStringToken(last);
    NatToStringToken(first);
    NatToStringToken(count);
    forall k | 0 <= k < |tokens| ensures tokens[k] != [] && NoSpace(tokens[k]) {
      if k == 0 {
        assert tokens[k] == name;
      } else if k == 1 {
        assert tokens[k] == NatToString(last);
      } else if k == 2 {
        assert tokens[k] == NatToString(first);
      } else if k == 3 {
        assert tokens[k] == NatToString(count);
      } else {
        assert tokens[k] == description[k - 4];
      }
    }
    Commands.TokenLine(tokens);
  }

  /** The streaming client's three-token lines are dropped by the old client:
      a LIST line without a count yields nothing. */
  lemma ThreeTokenLineDropped(line: String)
    requires |SplitWs(line)| == 3
    ensures ParseListLine(line) == None
    ensures Trim(line) != [] ==> Commands.ParseListLine(line).Some?
  {
  }

  // ---- HEAD, BODY, parseHeaders and getHeaders

  /** The old client's header record has no `references`. */
  datatype LegacyHeader = LegacyHeader(number: int, subject: String, from: String, date: String,
                                       messageId: String)

  /** `parseHeaders(lines)`: the same fold over header lines as the streaming
      client, without the References field. */
  function ParseHeaders(lines: seq<String>): (h: LegacyHeader)
  {
    var fields := Commands.HeaderFields(lines);
    LegacyHeader(IntOrZero(Commands.Lookup(fields, "number")), Commands.Lookup(fields, "subject"),
                 Commands.Lookup(fields, "from"), Commands.Lookup(fields, "date"),
                 Commands.Lookup(fields, "message-id"))
  }

  /** Both clients read the same header block into the same fields. */
  lemma ParseHeadersAgree(lines: seq<String>)
    ensures var h := ParseHeaders(lines);
      var g := Commands.ParseHeaders(lines);
      h == LegacyHeader(g.number, g.subject, g.from, g.date, g.messageId)
  {
  }

  /** `head(n)`: no `423` check; a rejected HEAD is an error. */
  function HeadResult(reply: Completion): Result<LegacyHeader>
  {
    match reply
    case Rejected(e) => Err(e)
    case Resolved(r) => Ok(ParseHeaders(r.lines))
  }

  /** `body(n)`: the data lines joined by line feeds. */
  function BodyResult(reply: Completion): Result<String>
  {
    match reply
    case Rejected(e) => Err(e)
    case Resolved(r) => Ok(Join(r.lines, "\n"))
  }

  /** The headers `getHeaders` collects for articles `start` up to `stop - 1`,
      where `heads(i)` is the outcome of `head(i)`. */
  function Collected(start: int, stop: int, heads: int -> Result<LegacyHeader>): seq<LegacyHeader>
    decreases stop - start
  {
    if stop <= start then []
    else
      var before := Collected(start, stop - 1, heads);
      match heads(stop - 1)
      case Ok(h) => before + [h.(number := stop - 1)]
      case Err(_) => before
  }

  /** `getHeaders(start, end)`: HEAD for each article in turn, renumbering what
      arrives and skipping failures. */
  method GetHeaders(start: int, end: int, heads: int -> Result<LegacyHeader>)
    returns (headers: seq<LegacyHeader>)
    ensures headers == Collected(start, end + 1, heads)
  {
    headers := [];
    var i := start;
    while i <= end
      invariant start <= i && (i <= end + 1 || end < start)
      invariant headers == Collected(start, if i <= end + 1 then i else end + 1, heads)
      decreases end + 1 - i
    {
      var outcome := heads(i);
      if outcome.Ok? {
        var header := outcome.value.(number := i);
        headers := headers + [header];
      }
      i := i + 1;
    }
  }

  function Numbers(hs: seq<LegacyHeader>): (r: seq<int>)
    ensures |r| == |hs|
  {
    seq(|hs|, k requires 0 <= k < |hs| => hs[k].number)
  }

  /** The numbers `getHeaders` returns are strictly ascending and within range,
      and article `i` is there exactly when its HEAD succeeded. */
  lemma {:induction false} CollectedNumbers(start: int, stop: int, heads: int -> Result<LegacyHeader>)
    ensures var ns := Numbers(Collected(start, stop, heads));
      && (forall k :: 0 <= k < |ns| ==> start <= ns[k] < stop)
      && Commands.StrictlyIncreasing(ns)
      && (forall i :: start <= i < stop ==> (heads(i).Ok? <==> i in ns))
    decreases stop - start
  {
    if stop > start {
      CollectedNumbers(start, stop - 1, heads);
      var before := Numbers(Collected(start, stop - 1, heads));
      var ns := Numbers(Collected(start, stop, heads));
      if heads(stop - 1).Ok? {
        assert ns == before + [stop - 1];
      } else {
        assert ns == before;
      }
      assert stop - 1 !in before;
    }
  }
}

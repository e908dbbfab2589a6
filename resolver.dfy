/** `ResponseResolver` of nntp-stream-client.js: collects the status line and,
    for a multi-line command, the data lines of one command's response, and
    decides when and how the command completes. */
module Resolver {
  import opened Wrappers
  import opened Text

  /** What `resolve` receives: `{code, message, lines}`. */
  datatype Reply = Reply(code: int, message: String, lines: seq<String>)

  /** The two callbacks a resolver can call: `resolve(reply)` or `reject(new Error(text))`. */
  datatype Completion = Resolved(reply: Reply) | Rejected(error: String)

  /** Status codes in [200, 400) are successes (2xx and 3xx replies). */
  predicate IsSuccessCode(code: int)
  {
    200 <= code < 400
  }

  /** `message || \`NNTP error ${code}\``. */
  function ErrorText(message: String, code: int): (r: String)
    ensures r != []
    ensures message != [] ==> r == message
  {
    if message != [] then message else "NNTP error " + IntToString(code)
  }

  /** The completion for status `code`, `message` and collected `lines`. */
  function Outcome(code: int, message: String, lines: seq<String>): (r: Completion)
    ensures r.Resolved? <==> IsSuccessCode(code)
    ensures r.Resolved? ==> r.reply == Reply(code, message, lines)
    ensures r.Rejected? ==> r.error == ErrorText(message, code)
  {
    if IsSuccessCode(code) then Resolved(Reply(code, message, lines))
    else Rejected(ErrorText(message, code))
  }

  /** The terminating line of a multi-line response is recognised by `line.trim() === '.'`. */
  predicate IsTerminator(line: String)
  {
    Trim(line) == "."
  }

  /** Receiving side of dot-stuffing: a line starting with `..` loses its first dot. */
  function Unstuff(line: String): String
  {
    if StartsWith(line, "..") then line[1..] else line
  }

  /** Sending side of dot-stuffing (the body of `post`): a line starting with `.` gets a second dot. */
  function Stuff(line: String): String
  {
    if StartsWith(line, ".") then "." + line else line
  }

  /** The fields of a resolver. `statusCode` is null until the status line arrives;
      here it is 0 until then, and only read once `statusReceived` holds. */
  datatype ResolverState = ResolverState(
    id: nat, multiline: bool, statusReceived: bool, code: int, message: String, data: seq<String>)

  function Fresh(id: nat, multiline: bool): ResolverState
  {
    ResolverState(id, multiline, false, 0, "", [])
  }

  /** `onStatusLine`: records the status; a single-line command completes at once,
      successfully exactly for 2xx/3xx codes; a multi-line command never completes here. */
  function StatusStep(s: ResolverState, code: int, message: String): (r: (ResolverState, Option<Completion>))
    ensures r.0 == s.(statusReceived := true, code := code, message := message)
    ensures r.1.Some? <==> !s.multiline
    ensures r.1.Some? ==> r.1.value == Outcome(code, message, [])
  {
    var s' := s.(statusReceived := true, code := code, message := message);
    if s.multiline then (s', None) else (s', Some(Outcome(code, message, [])))
  }

  /** `onDataLine`: ignored before the status line; the terminator completes the
      response with the lines collected so far; any other line is appended un-stuffed. */
  function DataStep(s: ResolverState, line: String): (r: (ResolverState, Option<Completion>))
    ensures r.1.Some? <==> s.statusReceived && IsTerminator(line)
    ensures r.1.Some? ==> r.0 == s && r.1.value == Outcome(s.code, s.message, s.data)
    ensures r.1.None? && s.statusReceived ==> r.0 == s.(data := s.data + [Unstuff(line)])
    ensures !s.statusReceived ==> r.0 == s
  {
    if !s.statusReceived then (s, None)
    else if IsTerminator(line) then (s, Some(Outcome(s.code, s.message, s.data)))
    else (s.(data := s.data + [Unstuff(line)]), None)
  }

  /** Feeding data lines to one resolver until it completes (after which the
      client drops it): the final state and the completion, if any. */
  function Receive(s: ResolverState, lines: seq<String>): (r: (ResolverState, Option<Completion>))
    decreases |lines|
  {
    if lines == [] then (s, None)
    else
      var (s', done) := DataStep(s, lines[0]);
      if done.Some? then (s', done) else Receive(s', lines[1..])
  }

  class ResponseResolver {
    const id: nat
    const expectingMultiline: bool
    var statusCode: int
    var statusMessage: String
    var statusLineReceived: bool
    var dataLines: seq<String>

    function State(): ResolverState
      reads this
    {
      ResolverState(id, expectingMultiline, statusLineReceived, statusCode, statusMessage, dataLines)
    }

    constructor (id: nat, expectMultiline: bool)
      ensures State() == Fresh(id, expectMultiline)
    {
      this.id := id;
      this.expectingMultiline := expectMultiline;
      statusCode := 0;
      statusMessage := "";
      dataLines := [];
      statusLineReceived := false;
    }

    method OnStatusLine(code: int, message: String) returns (done: Option<Completion>)
      modifies this
      ensures (State(), done) == StatusStep(old(State()), code, message)
    {
      statusCode := code;
      statusMessage := message;
      statusLineReceived := true;
      if !expectingMultiline {
        if 200 <= code < 400 {
          done := Some(Resolved(Reply(code, message, [])));
        } else {
          done := Some(Rejected(ErrorText(message, code)));
        }
      } else {
        done := None;
      }
    }

    method OnDataLine(line: String) returns (done: Option<Completion>)
      modifies this
      ensures (State(), done) == DataStep(old(State()), line)
    {
      done := None;
      if !statusLineReceived {
        return;
      }
      if Trim(line) == "." {
        if 200 <= statusCode < 400 {
          done := Some(Resolved(Reply(statusCode, statusMessage, dataLines)));
        } else {
          done := Some(Rejected(ErrorText(statusMessage, statusCode)));
        }
      } else {
        if StartsWith(line, "..") {
          dataLines := dataLines + [line[1..]];
        } else {
          dataLines := dataLines + [line];
        }
      }
    }
  }

  // ---- Properties ----

  /** Un-stuffing undoes stuffing, and no stuffed line is the bare terminator `.`. */
  lemma StuffRoundTrip(line: String)
    ensures Unstuff(Stuff(line)) == line
    ensures Stuff(line) != "."
  {
    if StartsWith(line, ".") {
      assert line[0] == '.';
      assert Stuff(line)[..2] == "..";
      assert Stuff(line)[1..] == line;
    }
  }

  function MapStuff(lines: seq<String>): (r: seq<String>)
    ensures |r| == |lines|
  {
    if lines == [] then [] else [Stuff(lines[0])] + MapStuff(lines[1..])
  }

  function UnstuffAll(lines: seq<String>): (r: seq<String>)
    ensures |r| == |lines|
  {
    if lines == [] then [] else [Unstuff(lines[0])] + UnstuffAll(lines[1..])
  }

  lemma {:induction false} UnstuffAllMapStuff(lines: seq<String>)
    ensures UnstuffAll(MapStuff(lines)) == lines
  {
    if lines != [] {
      var w := MapStuff(lines);
      UnstuffAllMapStuff(lines[1..]);
      StuffRoundTrip(lines[0]);
      assert w[0] == Stuff(lines[0]) && w[1..] == MapStuff(lines[1..]);
      ConsTail(lines);
    }
  }

  /** Index of the first terminator line, or `|lines|` when there is none. */
  function FirstTerminator(lines: seq<String>): (k: nat)
    ensures k <= |lines|
    ensures k < |lines| ==> IsTerminator(lines[k])
    ensures forall j :: 0 <= j < k ==> !IsTerminator(lines[j])
  {
    if lines == [] then 0
    else if IsTerminator(lines[0]) then 0
    else 1 + FirstTerminator(lines[1..])
  }

  lemma ReceiveStep(s: ResolverState, lines: seq<String>)
    requires s.statusReceived && lines != [] && !IsTerminator(lines[0])
    ensures Receive(s, lines) == Receive(s.(data := s.data + [Unstuff(lines[0])]), lines[1..])
  {
  }

  /** Feeding one more line after a run: nothing happens once the run completed
      the response, otherwise the line takes one more step. */
  lemma {:induction false} ReceiveSnoc(s: ResolverState, lines: seq<String>, line: String)
    ensures Receive(s, lines + [line])
         == if Receive(s, lines).1.Some? then Receive(s, lines) else DataStep(Receive(s, lines).0, line)
    decreases |lines|
  {
    if lines != [] {
      var (s', done) := DataStep(s, lines[0]);
      assert (lines + [line])[0] == lines[0];
      if done.None? {
        TailOfAppend(lines, [line]);
        ReceiveSnoc(s', lines[1..], line);
      }
    }
  }

  /** A run of data lines leaves the resolver's identity and kind alone. */
  lemma {:induction false} ReceiveKeepsIdentity(s: ResolverState, lines: seq<String>)
    ensures Receive(s, lines).0.id == s.id && Receive(s, lines).0.multiline == s.multiline
    decreases |lines|
  {
    if lines != [] {
      ReceiveKeepsIdentity(DataStep(s, lines[0]).0, lines[1..]);
    }
  }

  /** What a resolver does with a run of data lines, exactly: before its status
      line it ignores them all; after it, it completes at the first terminator,
      with the un-stuffed lines before that terminator, or keeps collecting if
      there is none. */
  lemma {:induction false} ReceiveCharacterized(s: ResolverState, lines: seq<String>)
    ensures !s.statusReceived ==> Receive(s, lines) == (s, None)
    ensures s.statusReceived ==>
      var k := FirstTerminator(lines);
      var d := s.data + UnstuffAll(lines[..k]);
      Receive(s, lines) == (s.(data := d), if k < |lines| then Some(Outcome(s.code, s.message, d)) else None)
    decreases |lines|
  {
    if lines == [] {
      AppendNil(s.data);
    } else if !s.statusReceived {
      ReceiveCharacterized(s, lines[1..]);
    } else if IsTerminator(lines[0]) {
      assert lines[..0] == [];
      AppendNil(s.data);
    } else {
      var u := Unstuff(lines[0]);
      var s1 := s.(data := s.data + [u]);
      ReceiveStep(s, lines);
      ReceiveCharacterized(s1, lines[1..]);
      var k' := FirstTerminator(lines[1..]);
      TakeCons(lines, k');
      assert UnstuffAll(lines[..k' + 1]) == [u] + UnstuffAll(lines[1..][..k']);
      AppendAssoc(s.data, [u], UnstuffAll(lines[1..][..k']));
    }
  }

  /** Whatever data lines arrive, a resolver resolves only with a 2xx/3xx code,
      and then with the un-stuffed lines received before the first terminator;
      the terminator itself is never among them. */
  lemma ReceiveResolvesSuccess(s: ResolverState, lines: seq<String>)
    requires Receive(s, lines).1.Some? && Receive(s, lines).1.value.Resolved?
    ensures var reply := Receive(s, lines).1.value.reply;
      && IsSuccessCode(reply.code) && reply.code == s.code && s.statusReceived
      && FirstTerminator(lines) < |lines|
      && reply.lines == s.data + UnstuffAll(lines[..FirstTerminator(lines)])
  {
    ReceiveCharacterized(s, lines);
  }

  /** A body whose stuffed lines never trim to `.` crosses the wire intact: the
      receiving resolver (status already in, 2xx/3xx) collects exactly the body
      lines and resolves with them at the terminator. */
  lemma ReceiveStuffedBody(s: ResolverState, body: seq<String>)
    requires s.statusReceived && IsSuccessCode(s.code)
    requires forall k :: 0 <= k < |body| ==> !IsTerminator(Stuff(body[k]))
    ensures Receive(s, MapStuff(body) + ["."])
         == (s.(data := s.data + body), Some(Resolved(Reply(s.code, s.message, s.data + body))))
  {
    var wire := MapStuff(body) + ["."];
    assert FirstTerminator(wire) == |body| by {
      assert wire[|body|] == "." && Trim(".") == ".";
      forall j | 0 <= j < |body| ensures !IsTerminator(wire[j]) {
        MapStuffAt(body, j);
      }
    }
    assert wire[..|body|] == MapStuff(body);
    UnstuffAllMapStuff(body);
    ReceiveCharacterized(s, wire);
  }

  lemma {:induction false} MapStuffAt(lines: seq<String>, j: nat)
    requires j < |lines|
    ensures MapStuff(lines)[j] == Stuff(lines[j])
  {
    if j > 0 {
      MapStuffAt(lines[1..], j - 1);
    }
  }

  /** The terminator test is a trim, so the body line " ." (which stuffing leaves
      alone) ends the response early and the lines after it are lost. */
  lemma SpaceDotEndsResponse(s: ResolverState)
    requires s.statusReceived && IsSuccessCode(s.code)
    ensures Receive(s, MapStuff([" .", "after"]) + ["."]).1 == Some(Resolved(Reply(s.code, s.message, s.data)))
  {
    var wire := MapStuff([" .", "after"]) + ["."];
    MapStuffAt([" .", "after"], 0);
    assert " ."[..1][0] == ' ';
    assert wire[0] == " .";
    assert Trim(" .") == ".";
  }

  /** A multi-line command whose status is an error (for example `423` to `HEAD`,
      which the server sends as a single line) does not complete on its status
      line: the resolver keeps waiting for a terminator. */
  lemma MultilineErrorWaits(s: ResolverState, code: int, message: String, lines: seq<String>)
    requires s.multiline && !IsSuccessCode(code)
    requires forall k :: 0 <= k < |lines| ==> !IsTerminator(lines[k])
    ensures StatusStep(s, code, message).1 == None
    ensures Receive(StatusStep(s, code, message).0, lines).1 == None
  {
    ReceiveCharacterized(StatusStep(s, code, message).0, lines);
  }
}

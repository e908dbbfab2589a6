/** `StreamingNNTPClient` of nntp-stream-client.js: the chunk framer
    (`processChunk`), the line router (`processLine`), command registration
    (`sendCommand`) and `disconnect`, over the pending resolvers. */
module StreamClient {
  import opened Wrappers
  import opened Text
  import opened Framing
  import opened Resolver

  /** `/^\d{3}\s/.test(line)`. */
  predicate IsStatusLine(line: String)
  {
    |line| >= 4 && IsDigit(line[0]) && IsDigit(line[1]) && IsDigit(line[2]) && IsSpace(line[3])
  }

  /** `parseInt(line.substring(0, 3))` of a status line. */
  function StatusCode(line: String): (code: nat)
    requires IsStatusLine(line)
    ensures code < 1000
    ensures ParseInt(line[..3]) == Some(code)
  {
    var d := line[..3];
    assert TrimStart(d) == d by { assert !IsSpace(d[0]); }
    assert DigitRun(d) == 3 by {
      assert DigitRun(d[2..]) == 1;
      assert d[1..][1..] == d[2..];
      assert d[1..][..2] == d[1..3];
    }
    assert d[..3] == d && d[..2][..1] == d[..1] && d[..1][..0] == [];
    assert DigitsValue(d[..1]) == DigitValue(line[0]);
    assert DigitsValue(d[..2]) == 10 * DigitValue(line[0]) + DigitValue(line[1]);
    assert DigitsValue(d) == 100 * DigitValue(line[0]) + 10 * DigitValue(line[1]) + DigitValue(line[2]);
    assert d[0] != '-' && d[0] != '+';
    100 * DigitValue(line[0]) + 10 * DigitValue(line[1]) + DigitValue(line[2])
  }

  /** `line.substring(4).trim()` of a status line. */
  function StatusMessage(line: String): String
    requires IsStatusLine(line)
  {
    Trim(line[4..])
  }

  /** The client's observable state: the `connected` flag, whether the one-shot
      greeting listener of `connect` is still registered, `lineBuffer`, the
      pending resolvers in insertion order (the order of the `pendingCommands`
      map), the greetings emitted, and the completions delivered to callers
      (command id and outcome) in the order they happened. */
  datatype ClientState = ClientState(
    connected: bool,
    greetingListener: bool,
    lineBuffer: String,
    pending: seq<ResolverState>,
    greetings: seq<(int, String)>,
    completions: seq<(nat, Completion)>)

  /** Index of the first pending resolver expecting a multi-line response, or `|pending|`. */
  function FirstMultiline(pending: seq<ResolverState>): (k: nat)
    ensures k <= |pending|
    ensures k < |pending| ==> pending[k].multiline
    ensures forall j :: 0 <= j < k ==> !pending[j].multiline
  {
    if pending == [] then 0
    else if pending[0].multiline then 0
    else 1 + FirstMultiline(pending[1..])
  }

  /** Applies one resolver step to pending entry `k`: a completion removes the
      entry (the callbacks delete it from `pendingCommands`) and is delivered. */
  function SettleState(c: ClientState, k: nat, step: (ResolverState, Option<Completion>)): ClientState
    requires k < |c.pending|
  {
    if step.1.None? then c.(pending := c.pending[k := step.0])
    else c.(pending := c.pending[..k] + c.pending[k + 1..],
            completions := c.completions + [(c.pending[k].id, step.1.value)])
  }

  /** How `processLine` sees a line: a status line (code and trimmed text) or anything else. */
  datatype LineKind = StatusLine(code: nat, message: String) | DataLine

  function Classify(line: String): (k: LineKind)
    ensures k.StatusLine? <==> IsStatusLine(line)
  {
    if IsStatusLine(line) then StatusLine(StatusCode(line), StatusMessage(line)) else DataLine
  }

  /** A status line while not connected: the greeting, emitted; the one-shot
      listener of `connect` marks the client connected when the code is 2xx/3xx. */
  function GreetingCase(c: ClientState, code: nat, message: String): ClientState
  {
    c.(greetings := c.greetings + [(code, message)],
       connected := c.greetingListener && IsSuccessCode(code),
       greetingListener := false)
  }

  /** A status line while connected goes to the oldest pending command, if any. */
  function StatusCase(c: ClientState, code: nat, message: String): ClientState
  {
    if c.pending == [] then c
    else SettleState(c, 0, StatusStep(c.pending[0], code, message))
  }

  /** Any other line goes to the first pending command expecting a multi-line
      response; with none, it is dropped. */
  function DataCase(c: ClientState, line: String): ClientState
  {
    var k := FirstMultiline(c.pending);
    if k == |c.pending| then c
    else SettleState(c, k, DataStep(c.pending[k], line))
  }

  /** `processLine`. */
  function RouteLine(c: ClientState, line: String): ClientState
  {
    match Classify(line)
    case StatusLine(code, message) =>
      if !c.connected then GreetingCase(c, code, message) else StatusCase(c, code, message)
    case DataLine => DataCase(c, line)
  }

  /** `processLine` applied to each line in order. */
  function RouteLines(c: ClientState, lines: seq<String>): ClientState
  {
    if lines == [] then c
    else RouteLine(RouteLines(c, lines[..|lines| - 1]), lines[|lines| - 1])
  }

  lemma RouteLinesSnoc(c: ClientState, lines: seq<String>, i: nat)
    requires i < |lines|
    ensures RouteLines(c, lines[..i + 1]) == RouteLine(RouteLines(c, lines[..i]), lines[i])
  {
    assert lines[..i + 1][..i] == lines[..i];
  }

  /** `processChunk`: the buffer becomes the new fragment, then every completed line is routed. */
  function Feed(c: ClientState, chunk: String): ClientState
  {
    var data := c.lineBuffer + chunk;
    RouteLines(c.(lineBuffer := Fragment(data)), CompleteLines(data))
  }

  // ---- Properties of the router.

  /** Routing neither reads nor writes `lineBuffer`. */
  lemma RouteLineBuffer(c: ClientState, line: String, buffer: String)
    ensures RouteLine(c.(lineBuffer := buffer), line) == RouteLine(c, line).(lineBuffer := buffer)
  {
  }

  lemma {:induction false} RouteLinesBuffer(c: ClientState, lines: seq<String>, buffer: String)
    ensures RouteLines(c.(lineBuffer := buffer), lines) == RouteLines(c, lines).(lineBuffer := buffer)
  {
    if lines != [] {
      var init := lines[..|lines| - 1];
      RouteLinesBuffer(c, init, buffer);
      RouteLineBuffer(RouteLines(c, init), lines[|lines| - 1], buffer);
    }
  }

  lemma {:induction false} RouteLinesAppend(c: ClientState, a: seq<String>, b: seq<String>)
    ensures RouteLines(c, a + b) == RouteLines(RouteLines(c, a), b)
    decreases |b|
  {
    if b == [] {
      AppendNil(a);
    } else {
      var init := b[..|b| - 1];
      assert (a + b)[..|a + b| - 1] == a + init;
      assert (a + b)[|a + b| - 1] == b[|b| - 1];
      RouteLinesAppend(c, a, init);
    }
  }

  /** However the byte stream is cut into chunks, the client ends in the same
      state: feeding two chunks one after the other is feeding their concatenation. */
  lemma FeedChunking(c: ClientState, c1: String, c2: String)
    ensures Feed(Feed(c, c1), c2) == Feed(c, c1 + c2)
  {
    var buffer := c.lineBuffer;
    ChunkingInvariance(buffer, c1, c2);
    var f1 := Fragment(buffer + c1);
    var l1 := CompleteLines(buffer + c1);
    var f2 := Fragment(f1 + c2);
    var l2 := CompleteLines(f1 + c2);
    var d := Feed(c, c1);
    RouteLinesBuffer(c.(lineBuffer := f1), l1, f1);
    assert c.(lineBuffer := f1).(lineBuffer := f1) == c.(lineBuffer := f1);
    assert d.lineBuffer == f1;
    RouteLinesBuffer(c.(lineBuffer := f1), l1, f2);
    assert c.(lineBuffer := f1).(lineBuffer := f2) == c.(lineBuffer := f2);
    RouteLinesAppend(c.(lineBuffer := f2), l1, l2);
    AppendAssoc(buffer, c1, c2);
  }

  /** No command is ever resolved with an error code: every `Resolved` delivered
      so far carries a 2xx or 3xx status. */
  ghost predicate ResolvedOnlySuccess(c: ClientState)
  {
    forall k :: 0 <= k < |c.completions| && c.completions[k].1.Resolved? ==>
      IsSuccessCode(c.completions[k].1.reply.code)
  }

  lemma RouteLineResolvedOnlySuccess(c: ClientState, line: String)
    requires ResolvedOnlySuccess(c)
    ensures ResolvedOnlySuccess(RouteLine(c, line))
  {
  }

  lemma {:induction false} RouteLinesResolvedOnlySuccess(c: ClientState, lines: seq<String>)
    requires ResolvedOnlySuccess(c)
    ensures ResolvedOnlySuccess(RouteLines(c, lines))
  {
    if lines != [] {
      RouteLinesResolvedOnlySuccess(c, lines[..|lines| - 1]);
      RouteLineResolvedOnlySuccess(RouteLines(c, lines[..|lines| - 1]), lines[|lines| - 1]);
    }
  }

  lemma FeedResolvedOnlySuccess(c: ClientState, chunk: String)
    requires ResolvedOnlySuccess(c)
    ensures ResolvedOnlySuccess(Feed(c, chunk))
  {
    var data := c.lineBuffer + chunk;
    RouteLinesResolvedOnlySuccess(c.(lineBuffer := Fragment(data)), CompleteLines(data));
  }

  /** One line completes at most one command, and the command it completes leaves
      the pending list: earlier completions are never revised, and pending plus
      completed commands stay in number. */
  lemma RouteLineAccounting(c: ClientState, line: String)
    ensures var r := RouteLine(c, line);
      && c.completions <= r.completions
      && |r.completions| <= |c.completions| + 1
      && |r.pending| + |r.completions| == |c.pending| + |c.completions|
      && (|r.completions| == |c.completions| + 1 ==>
            exists k :: 0 <= k < |c.pending| && r.completions[|c.completions|].0 == c.pending[k].id
              && r.pending == c.pending[..k] + c.pending[k + 1..])
  {
  }

  lemma {:induction false} RouteLinesAccounting(c: ClientState, lines: seq<String>)
    ensures var r := RouteLines(c, lines);
      && c.completions <= r.completions
      && |r.pending| + |r.completions| == |c.pending| + |c.completions|
  {
    if lines != [] {
      var init := lines[..|lines| - 1];
      RouteLinesAccounting(c, init);
      RouteLineAccounting(RouteLines(c, init), lines[|lines| - 1]);
    }
  }

  /** The greeting: pending commands and completions are untouched, and the client
      becomes connected exactly when `connect` is listening and the code is 2xx/3xx. */
  lemma Greeting(c: ClientState, line: String)
    requires !c.connected && IsStatusLine(line)
    ensures var r := RouteLine(c, line);
      && (r.connected <==> c.greetingListener && 200 <= StatusCode(line) < 400)
      && !r.greetingListener
      && r.pending == c.pending && r.completions == c.completions
      && r.greetings == c.greetings + [(StatusCode(line), StatusMessage(line))]
  {
  }

  /** Once connected, a status line concerns only the oldest pending command: a
      single-line command completes with it, a multi-line one records it. */
  lemma StatusGoesToOldest(c: ClientState, line: String)
    requires c.connected && IsStatusLine(line) && c.pending != []
    ensures var r := RouteLine(c, line);
      var s := c.pending[0];
      var code := StatusCode(line);
      var message := StatusMessage(line);
      && r.pending[|r.pending| - (|c.pending| - 1)..] == c.pending[1..]
      && (s.multiline ==>
            r.pending[0] == s.(statusReceived := true, code := code, message := message)
            && r.completions == c.completions)
      && (!s.multiline ==>
            r.pending == c.pending[1..]
            && r.completions == c.completions + [(s.id, Outcome(code, message, []))])
  {
  }

  /** A line that is not a status line changes nothing while no pending command
      expects a multi-line response. */
  lemma DataWithoutMultilineDropped(c: ClientState, line: String)
    requires !IsStatusLine(line)
    requires forall j :: 0 <= j < |c.pending| ==> !c.pending[j].multiline
    ensures RouteLine(c, line) == c
  {
  }

  /** A body line that starts with three digits and a space is taken for a status
      line: it overwrites the waiting command's status instead of joining its data. */
  lemma StatusLookalikeInBody(c: ClientState, s: ResolverState)
    requires c.connected && c.pending == [s] && s.multiline && s.statusReceived
    ensures RouteLine(c, "211 rows").pending == [s.(code := 211, message := "rows")]
    ensures RouteLine(c, "211 rows").pending[0].data == s.data
  {
    assert StatusCode("211 rows") == 211;
    assert StatusMessage("211 rows") == "rows";
  }

  /** What the client does with a run of data lines while a single multi-line
      command is pending. */
  function Absorb(c: ClientState, step: (ResolverState, Option<Completion>)): ClientState
    requires |c.pending| == 1
  {
    if step.1.None? then c.(pending := [step.0])
    else c.(pending := [], completions := c.completions + [(c.pending[0].id, step.1.value)])
  }

  lemma AbsorbStep(c: ClientState, step: (ResolverState, Option<Completion>), line: String)
    requires |c.pending| == 1 && !IsStatusLine(line)
    requires step.0.multiline && step.0.id == c.pending[0].id
    ensures RouteLine(Absorb(c, step), line)
         == Absorb(c, if step.1.Some? then step else DataStep(step.0, line))
  {
    var d := Absorb(c, step);
    assert Classify(line) == DataLine;
    if step.1.None? {
      assert FirstMultiline(d.pending) == 0;
    } else {
      assert d.pending == [];
    }
  }

  /** With one pending command, expecting multi-line data, routing lines none of
      which looks like a status line is feeding them to that command's resolver. */
  lemma {:induction false} RouteDataToSole(c: ClientState, lines: seq<String>)
    requires |c.pending| == 1 && c.pending[0].multiline
    requires forall k :: 0 <= k < |lines| ==> !IsStatusLine(lines[k])
    ensures RouteLines(c, lines) == Absorb(c, Receive(c.pending[0], lines))
  {
    if lines == [] {
      assert c.(pending := [c.pending[0]]) == c;
    } else {
      var init := lines[..|lines| - 1];
      var last := lines[|lines| - 1];
      RouteDataToSole(c, init);
      assert init + [last] == lines;
      ReceiveSnoc(c.pending[0], init, last);
      ReceiveKeepsIdentity(c.pending[0], init);
      AbsorbStep(c, Receive(c.pending[0], init), last);
    }
  }

  /** A multi-line exchange end to end: with one fresh multi-line command pending, a
      2xx/3xx status line, the dot-stuffed body and the terminator resolve that
      command with the original body, provided no stuffed body line looks like a
      status line or trims to `.`. */
  lemma MultilineExchange(c: ClientState, statusLine: String, body: seq<String>)
    requires c.connected && |c.pending| == 1
    requires c.pending[0] == Fresh(c.pending[0].id, true)
    requires IsStatusLine(statusLine) && IsSuccessCode(StatusCode(statusLine))
    requires forall k :: 0 <= k < |body| ==> !IsStatusLine(Stuff(body[k])) && !IsTerminator(Stuff(body[k]))
    ensures RouteLines(c, [statusLine] + MapStuff(body) + ["."])
         == c.(pending := [], completions := c.completions
                + [(c.pending[0].id, Resolved(Reply(StatusCode(statusLine), StatusMessage(statusLine), body)))])
  {
    var wire := MapStuff(body) + ["."];
    AppendAssoc([statusLine], MapStuff(body), ["."]);
    RouteLinesAppend(c, [statusLine], wire);
    var s1 := c.pending[0].(statusReceived := true, code := StatusCode(statusLine), message := StatusMessage(statusLine));
    var c1 := c.(pending := [s1]);
    OneLine(c, statusLine);
    StatusGoesToOldest(c, statusLine);
    assert RouteLines(c, [statusLine]) == c1;
    StuffedWireHasNoStatusLine(body, wire);
    RouteDataToSole(c1, wire);
    ReceiveStuffedBody(s1, body);
    AppendNil(body);
    assert s1.data + body == body;
    var done := Resolved(Reply(StatusCode(statusLine), StatusMessage(statusLine), body));
    assert Receive(s1, wire) == (s1.(data := body), Some(done));
    assert RouteLines(c1, wire) == c.(pending := [], completions := c.completions + [(c.pending[0].id, done)]);
  }

  lemma OneLine(c: ClientState, line: String)
    ensures RouteLines(c, [line]) == RouteLine(c, line)
  {
    assert [line][..0] == [];
  }

  lemma StuffedWireHasNoStatusLine(body: seq<String>, wire: seq<String>)
    requires forall k :: 0 <= k < |body| ==> !IsStatusLine(Stuff(body[k]))
    requires wire == MapStuff(body) + ["."]
    ensures forall k :: 0 <= k < |wire| ==> !IsStatusLine(wire[k])
  {
    forall k | 0 <= k < |wire| ensures !IsStatusLine(wire[k]) {
      if k < |body| {
        MapStuffAt(body, k);
      }
    }
  }

  /** The states of the pending resolvers, in order. */
  function Views(rs: seq<Resolver.ResponseResolver>): seq<ResolverState>
    reads rs
  {
    seq(|rs|, i reads rs requires 0 <= i < |rs| => rs[i].State())
  }

  function Ids(rs: seq<Resolver.ResponseResolver>): (ids: seq<nat>)
    ensures |ids| == |rs|
  {
    seq(|rs|, i requires 0 <= i < |rs| => rs[i].id)
  }

  ghost predicate Increasing(s: seq<nat>)
  {
    forall i, j :: 0 <= i < j < |s| ==> s[i] < s[j]
  }

  ghost predicate AtMost(s: seq<nat>, n: nat)
  {
    forall i :: 0 <= i < |s| ==> s[i] <= n
  }

  /** Increasing ids make the resolvers distinct objects. */
  lemma DistinctResolvers(rs: seq<Resolver.ResponseResolver>, k: nat)
    requires Increasing(Ids(rs)) && k < |rs|
    ensures forall i :: 0 <= i < |rs| && i != k ==> rs[i] != rs[k]
  {
    var ids := Ids(rs);
    forall i | 0 <= i < |rs| && i != k
      ensures rs[i] != rs[k]
    {
      if i < k { assert ids[i] < ids[k]; } else { assert ids[k] < ids[i]; }
    }
  }

  ghost predicate Within(rs: seq<Resolver.ResponseResolver>, repr: set<Resolver.ResponseResolver>)
  {
    forall i :: 0 <= i < |rs| ==> rs[i] in repr
  }

  lemma IncreasingRemove(rs: seq<Resolver.ResponseResolver>, k: nat, n: nat)
    requires Increasing(Ids(rs)) && AtMost(Ids(rs), n) && k < |rs|
    ensures Increasing(Ids(rs[..k] + rs[k + 1..])) && AtMost(Ids(rs[..k] + rs[k + 1..]), n)
    ensures forall repr :: Within(rs, repr) ==> Within(rs[..k] + rs[k + 1..], repr)
  {
    var a := Ids(rs);
    var b := Ids(rs[..k] + rs[k + 1..]);
    assert forall i :: 0 <= i < |b| ==> b[i] == a[if i < k then i else i + 1];
  }

  lemma IncreasingSnoc(rs: seq<Resolver.ResponseResolver>, r: Resolver.ResponseResolver, n: nat)
    requires Increasing(Ids(rs)) && AtMost(Ids(rs), n) && r.id == n + 1
    ensures Increasing(Ids(rs + [r])) && AtMost(Ids(rs + [r]), n + 1)
    ensures forall repr :: Within(rs, repr) ==> Within(rs + [r], repr + {r})
  {
    var a := Ids(rs);
    var b := Ids(rs + [r]);
    assert forall i :: 0 <= i < |rs| ==> b[i] == a[i];
  }

  lemma ViewsRemove(rs: seq<Resolver.ResponseResolver>, k: nat)
    requires k < |rs|
    ensures Views(rs[..k] + rs[k + 1..]) == Views(rs)[..k] + Views(rs)[k + 1..]
  {
  }

  lemma ViewsSnoc(rs: seq<Resolver.ResponseResolver>, r: Resolver.ResponseResolver)
    ensures Views(rs + [r]) == Views(rs) + [r.State()]
  {
  }

  class StreamingClient {
    var connected: bool
    var greetingListener: bool
    var lineBuffer: String
    var pending: seq<ResponseResolver>
    var commandCounter: nat
    var greetings: seq<(int, String)>
    var completions: seq<(nat, Completion)>
    /** Everything written to the socket by `sendCommand`, in order. */
    var sent: seq<String>
    /** Every resolver this client has registered. */
    ghost var Repr: set<ResponseResolver>

    /** Pending ids are issued by the counter in increasing order, so the pending
        resolvers are distinct objects. */
    ghost predicate Valid()
      reads this
    {
      Increasing(Ids(pending)) && AtMost(Ids(pending), commandCounter) && Within(pending, Repr)
    }

    function State(): ClientState
      reads this, pending
    {
      ClientState(connected, greetingListener, lineBuffer, Views(pending), greetings, completions)
    }

    constructor ()
      ensures Valid() && commandCounter == 0 && sent == []
      ensures State() == ClientState(false, false, [], [], [], [])
    {
      connected := false;
      greetingListener := false;
      lineBuffer := [];
      pending := [];
      commandCounter := 0;
      greetings := [];
      completions := [];
      sent := [];
      Repr := {};
    }

    /** The part of `connect` that registers the one-shot greeting listener. */
    method BeginConnect()
      requires Valid()
      modifies this
      ensures Valid() && commandCounter == old(commandCounter) && sent == old(sent)
      ensures State() == old(State()).(greetingListener := true)
    {
      greetingListener := true;
    }

    /** `sendCommand(command, expectMultiline)`: fails at once when not connected;
        otherwise registers a fresh resolver under the next command id and writes
        the command line. */
    method SendCommand(command: String, expectMultiline: bool) returns (r: Result<nat>)
      requires Valid()
      modifies this
      ensures Valid()
      ensures !old(connected) ==>
        (r == Err("Not connected") && State() == old(State())
         && commandCounter == old(commandCounter) && sent == old(sent))
      ensures old(connected) ==>
        (r == Ok(old(commandCounter) + 1) && commandCounter == r.value
         && State() == old(State()).(pending := old(State()).pending + [Fresh(r.value, expectMultiline)])
         && sent == old(sent) + [command + "\r\n"])
    {
      if !connected {
        return Err("Not connected");
      }
      commandCounter := commandCounter + 1;
      var resolver := new ResponseResolver(commandCounter, expectMultiline);
      ViewsSnoc(pending, resolver);
      IncreasingSnoc(pending, resolver, commandCounter - 1);
      pending := pending + [resolver];
      Repr := Repr + {resolver};
      sent := sent + [command + "\r\n"];
      r := Ok(commandCounter);
    }

    /** Delivers the outcome of a resolver step already applied to pending entry
        `k` of the state `before`. */
    method Deliver(ghost before: ClientState, k: nat, ghost st: ResolverState, done: Option<Completion>)
      requires Valid() && k < |pending| == |before.pending|
      requires st.id == before.pending[k].id
      requires State() == before.(pending := before.pending[k := st])
      modifies this
      ensures Valid() && commandCounter == old(commandCounter) && sent == old(sent)
      ensures Repr == old(Repr)
      ensures State() == SettleState(before, k, (st, done))
    {
      if done.Some? {
        ghost var olds := pending;
        ghost var vs := Views(pending);
        assert vs[..k] == before.pending[..k];
        assert vs[k + 1..] == before.pending[k + 1..];
        assert vs[k] == st && pending[k].id == vs[k].id;
        ViewsRemove(pending, k);
        IncreasingRemove(pending, k, commandCounter);
        completions := completions + [(pending[k].id, done.value)];
        pending := pending[..k] + pending[k + 1..];
        assert Views(pending) == before.pending[..k] + before.pending[k + 1..];
        assert completions == before.completions + [(before.pending[k].id, done.value)];
      }
    }

    method RouteGreeting(code: nat, message: String)
      requires Valid() && !connected
      modifies this
      ensures Valid() && commandCounter == old(commandCounter) && sent == old(sent)
      ensures pending == old(pending) && Repr == old(Repr)
      ensures State() == GreetingCase(old(State()), code, message)
    {
      greetings := greetings + [(code, message)];
      if greetingListener {
        greetingListener := false;
        if 200 <= code < 400 {
          connected := true;
        }
      }
    }

    method RouteStatus(code: nat, message: String)
      requires Valid()
      modifies this, Repr
      ensures Valid() && commandCounter == old(commandCounter) && sent == old(sent)
      ensures Repr == old(Repr)
      ensures State() == StatusCase(old(State()), code, message)
    {
      if |pending| > 0 {
        ghost var before := State();
        var r := pending[0];
        DistinctResolvers(pending, 0);
        var done := r.OnStatusLine(code, message);
        forall i | 0 < i < |pending|
          ensures Views(pending)[i] == before.pending[i]
        {
          assert pending[i] != r;
        }
        assert Views(pending) == before.pending[0 := r.State()];
        Deliver(before, 0, r.State(), done);
      }
    }

    /** The search of `processLine` for the first pending command that expects
        a multi-line response; `|pending|` when there is none. */
    method FindMultiline() returns (k: nat)
      ensures k <= |pending|
      ensures k < |pending| ==> pending[k].expectingMultiline
      ensures forall j :: 0 <= j < k ==> !pending[j].expectingMultiline
    {
      k := 0;
      while k < |pending| && !pending[k].expectingMultiline
        invariant 0 <= k <= |pending|
        invariant forall j :: 0 <= j < k ==> !pending[j].expectingMultiline
      {
        k := k + 1;
      }
    }

    method RouteData(line: String)
      requires Valid()
      modifies this, Repr
      ensures Valid() && commandCounter == old(commandCounter) && sent == old(sent)
      ensures Repr == old(Repr)
      ensures State() == DataCase(old(State()), line)
    {
      var k := FindMultiline();
      ghost var before := State();
      assert forall j :: 0 <= j < |pending| ==> before.pending[j].multiline == pending[j].expectingMultiline;
      assert k == FirstMultiline(before.pending);
      if k < |pending| {
        var r := pending[k];
        DistinctResolvers(pending, k);
        var done := r.OnDataLine(line);
        forall i | 0 <= i < |pending| && i != k
          ensures Views(pending)[i] == before.pending[i]
        {
          assert pending[i] != r;
        }
        assert Views(pending) == before.pending[k := r.State()];
        Deliver(before, k, r.State(), done);
      }
    }

    /** `processLine(line)`. */
    method ProcessLine(line: String)
      requires Valid()
      modifies this, Repr
      ensures Valid() && commandCounter == old(commandCounter) && sent == old(sent)
      ensures Repr == old(Repr)
      ensures State() == RouteLine(old(State()), line)
    {
      var kind := Classify(line);
      if kind.StatusLine? && !connected {
        RouteGreeting(kind.code, kind.message);
      } else if kind.StatusLine? {
        RouteStatus(kind.code, kind.message);
      } else {
        RouteData(line);
      }
    }

    /** `processChunk(chunk)`. */
    method ProcessChunk(chunk: String)
      requires Valid()
      modifies this, Repr
      ensures Valid() && commandCounter == old(commandCounter) && sent == old(sent)
      ensures State() == Feed(old(State()), chunk)
    {
      var data := lineBuffer + chunk;
      var lines := SplitLines(data);
      lineBuffer := lines[|lines| - 1];
      var complete := lines[..|lines| - 1];
      ghost var start := State();
      assert start == old(State()).(lineBuffer := Fragment(data)) && complete == CompleteLines(data);
      var i := 0;
      while i < |complete|
        invariant 0 <= i <= |complete|
        invariant Valid() && commandCounter == old(commandCounter) && sent == old(sent)
        invariant Repr == old(Repr)
        invariant State() == RouteLines(start, complete[..i])
      {
        ProcessLine(complete[i]);
        RouteLinesSnoc(start, complete, i);
        i := i + 1;
      }
      assert complete[..i] == complete;
    }

    /** `disconnect()`: the pending map is cleared without completing its resolvers. */
    method Disconnect()
      requires Valid()
      modifies this
      ensures Valid() && commandCounter == old(commandCounter) && sent == old(sent)
      ensures State() == old(State()).(connected := false, lineBuffer := [], pending := [])
    {
      connected := false;
      lineBuffer := [];
      pending := [];
    }
  }
}

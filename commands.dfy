/** The command layer of `StreamingNNTPClient` (nntp-stream-client.js): how the
    replies of LIST, GROUP, XOVER, HEAD, BODY, AUTHINFO and POST are read, the
    HEAD fallback of `streamHeaders`, the ordering done by `getHeaders`, and the
    article that `post` writes. Each operation is a function of the replies the
    server sent (the completions the resolvers delivered). */
module Commands {
  import opened Wrappers
  import opened Text
  import opened Framing
  import opened Resolver

  /** `s || fallback` for a string. */
  function OrElse(s: String, fallback: String): String
  {
    if s == [] then fallback else s
  }

  /** `parts[i]`, with `undefined` (past the end) read as the empty string, which
      every use here treats like `undefined`. */
  function Field(parts: seq<String>, i: nat): String
  {
    if i < |parts| then parts[i] else []
  }

  // ---- LIST (streamGroups / list)

  datatype GroupEntry = GroupEntry(name: String, last: int, first: int, description: String)

  /** One line of the LIST reply: blank lines and lines with fewer than three
      whitespace-separated tokens yield nothing. */
  function ParseListLine(line: String): (r: Option<GroupEntry>)
    ensures r.Some? <==> Trim(line) != [] && |SplitWs(line)| >= 3
  {
    if line == [] || Trim(line) == [] then None
    else
      var parts := SplitWs(line);
      if |parts| >= 3 then
        Some(GroupEntry(parts[0], IntOrZero(parts[1]), IntOrZero(parts[2]), Join(parts[3..], " ")))
      else None
  }

  /** `list()`: the entries of the reply lines, in order. */
  function ParseList(lines: seq<String>): (r: seq<GroupEntry>)
    ensures |r| <= |lines|
    ensures |r| == |lines| <==> forall k :: 0 <= k < |lines| ==> ParseListLine(lines[k]).Some?
  {
    if lines == [] then []
    else
      var rest := ParseList(lines[1..]);
      match ParseListLine(lines[0])
      case Some(g) => [g] + rest
      case None => rest
  }

  /** The line a server writes for a group in the LIST reply (RFC 3977, section
      7.6.3: name, high and low water marks, then free text). */
  function ListLine(name: String, last: nat, first: nat, description: seq<String>): String
  {
    Join([name, NatToString(last), NatToString(first)] + description, " ")
  }

  /** Reading a LIST line gives back what the server wrote, the description
      tokens joined by single spaces. */
  lemma ListLineRoundTrip(name: String, last: nat, first: nat, description: seq<String>)
    requires name != [] && NoSpace(name)
    requires forall k :: 0 <= k < |description| ==> description[k] != [] && NoSpace(description[k])
    ensures ParseListLine(ListLine(name, last, first, description))
         == Some(GroupEntry(name, last, first, Join(description, " ")))
  {
    var tokens := [name, NatToString(last), NatToString(first)] + description;
    ListLineTokens(name, last, first, description);
    assert tokens[3..] == description;
    ParseIntOfNat(last);
    ParseIntOfNat(first);
  }

  /** The tokens of a LIST line are the fields the server wrote. */
  lemma ListLineTokens(name: String, last: nat, first: nat, description: seq<String>)
    requires name != [] && NoSpace(name)
    requires forall k :: 0 <= k < |description| ==> description[k] != [] && NoSpace(description[k])
    ensures var line := ListLine(name, last, first, description);
      line != [] && Trim(line) != []
      && SplitWs(line) == [name, NatToString(last), NatToString(first)] + description
  {
    var tokens := [name, NatToString(last), NatToString(first)] + description;
    NatToStringToken(last);
    NatToStringToken(first);
    forall k | 0 <= k < |tokens| ensures tokens[k] != [] && NoSpace(tokens[k]) {
      if k == 0 {
        assert tokens[k] == name;
      } else if k == 1 {
        assert tokens[k] == NatToString(last);
      } else if k == 2 {
        assert tokens[k] == NatToString(first);
      } else {
        assert tokens[k] == description[k - 3];
      }
    }
    TokenLine(tokens);
  }

  /** Whitespace-free tokens joined by spaces make a non-blank line that splits
      back into the same tokens. */
  lemma TokenLine(tokens: seq<String>)
    requires |tokens| >= 1
    requires forall k :: 0 <= k < |tokens| ==> tokens[k] != [] && NoSpace(tokens[k])
    ensures var line := Join(tokens, " ");
      line != [] && Trim(line) != [] && SplitWs(line) == tokens
  {
    var line := Join(tokens, " ");
    JoinHead(tokens, " ");
    TrimNonBlank(line);
    SplitWsJoin(tokens);
  }

  /** The LIST reply is read line by line: the entries of a concatenation are the
      entries of each part, in order. */
  lemma {:induction false} ParseListAppend(a: seq<String>, b: seq<String>)
    ensures ParseList(a + b) == ParseList(a) + ParseList(b)
  {
    if a == [] {
      AppendNil(b);
    } else {
      TailOfAppend(a, b);
      ParseListAppend(a[1..], b);
      match ParseListLine(a[0])
      case Some(g) => AppendAssoc([g], ParseList(a[1..]), ParseList(b));
      case None =>
    }
  }

  lemma JoinHead(parts: seq<String>, sep: String)
    requires parts != [] && parts[0] != []
    ensures Join(parts, sep) != [] && Join(parts, sep)[0] == parts[0][0]
  {
  }

  // ---- GROUP

  datatype GroupStatus = GroupStatus(count: int, first: int, last: int, name: String)

  /** `group(groupName)` reads the reply text: count, first and last from its
      first three tokens, the name from the fourth, or the requested name. */
  function ParseGroupReply(message: String, groupName: String): (r: GroupStatus)
    ensures r.name == groupName || r.name in SplitWs(message)
  {
    var parts := SplitWs(message);
    GroupStatus(IntOrZero(Field(parts, 0)), IntOrZero(Field(parts, 1)), IntOrZero(Field(parts, 2)),
                OrElse(Field(parts, 3), groupName))
  }

  /** The reply text of `211` (RFC 3977, section 6.1.1): number, low, high, group. */
  function GroupReplyText(count: nat, first: nat, last: nat, name: String): String
  {
    Join([NatToString(count), NatToString(first), NatToString(last), name], " ")
  }

  lemma GroupReplyRoundTrip(count: nat, first: nat, last: nat, name: String, groupName: String)
    requires name != [] && NoSpace(name)
    ensures ParseGroupReply(GroupReplyText(count, first, last, name), groupName)
         == GroupStatus(count, first, last, name)
  {
    NatToStringToken(count);
    NatToStringToken(first);
    NatToStringToken(last);
    SplitWsJoin([NatToString(count), NatToString(first), NatToString(last), name]);
    ParseIntOfNat(count);
    ParseIntOfNat(first);
    ParseIntOfNat(last);
  }

  /** A reply text without a fourth token names the group that was asked for. */
  lemma GroupNameDefaults(message: String, groupName: String)
    requires |SplitWs(message)| <= 3
    ensures ParseGroupReply(message, groupName).name == groupName
  {
  }

  /** `group()`: a rejected GROUP command is the error; otherwise its reply text is read. */
  function GroupResult(reply: Completion, groupName: String): Result<GroupStatus>
  {
    match reply
    case Rejected(e) => Err(e)
    case Resolved(r) => Ok(ParseGroupReply(r.message, groupName))
  }

  // ---- Header records (XOVER rows and parseHeaders)

  datatype Header = Header(number: int, subject: String, from: String, date: String,
                           messageId: String, references: String)

  /** One XOVER row (RFC 2980, section 2.8: tab-separated number, subject, from,
      date, message-id, references, ...); kept only with at least five fields and
      a number in `[start, end]`. */
  function ParseOverviewRow(line: String, start: int, end: int): (r: Option<Header>)
    ensures var parts := SplitOn(line, '\t');
      r.Some? <==> Trim(line) != [] && |parts| >= 5 && ParseInt(parts[0]).Some?
                   && start <= ParseInt(parts[0]).value <= end
    ensures r.Some? ==> r.value.number == ParseInt(SplitOn(line, '\t')[0]).value
                        && start <= r.value.number <= end
                        && r.value.subject != [] && r.value.from != []
  {
    if line == [] || Trim(line) == [] then None
    else
      var parts := SplitOn(line, '\t');
      if |parts| < 5 then None
      else match ParseInt(parts[0])
        case None => None
        case Some(n) =>
          if start <= n <= end then
            Some(Header(n, OrElse(parts[1], "(no subject)"), OrElse(parts[2], "unknown"),
                        parts[3], parts[4], Field(parts, 5)))
          else None
  }

  /** The rows `streamHeaders` yields from a successful XOVER, in order. */
  function ParseOverview(lines: seq<String>, start: int, end: int): (r: seq<Header>)
    ensures |r| <= |lines|
    ensures forall k :: 0 <= k < |r| ==> start <= r[k].number <= end
  {
    if lines == [] then []
    else
      var rest := ParseOverview(lines[1..], start, end);
      match ParseOverviewRow(lines[0], start, end)
      case Some(h) => [h] + rest
      case None => rest
  }

  /** The XOVER reply is read line by line: the rows kept from a concatenation
      are those kept from each part, in order, and a single line yields its row
      exactly when `ParseOverviewRow` keeps it. */
  lemma {:induction false} ParseOverviewAppend(a: seq<String>, b: seq<String>, start: int, end: int)
    ensures ParseOverview(a + b, start, end) == ParseOverview(a, start, end) + ParseOverview(b, start, end)
    ensures forall line ::
              ParseOverview([line], start, end)
              == (match ParseOverviewRow(line, start, end) case Some(h) => [h] case None => [])
  {
    if a == [] {
      AppendNil(b);
    } else {
      TailOfAppend(a, b);
      ParseOverviewAppend(a[1..], b, start, end);
      match ParseOverviewRow(a[0], start, end)
      case Some(h) => AppendAssoc([h], ParseOverview(a[1..], start, end), ParseOverview(b, start, end));
      case None =>
    }
    forall line
      ensures ParseOverview([line], start, end)
              == (match ParseOverviewRow(line, start, end) case Some(h) => [h] case None => [])
    {
      assert [line][1..] == [];
    }
  }

  /** The overview row a server writes for an article. */
  function OverviewRow(h: Header): String
    requires h.number >= 0
  {
    Join([NatToString(h.number), h.subject, h.from, h.date, h.messageId, h.references], "\t")
  }

  predicate TabFree(s: String)
  {
    '\t' !in s
  }

  /** An overview row of an article in range, with a subject and an author and no
      tab inside a field, reads back as that article's header. */
  lemma OverviewRowRoundTrip(h: Header, start: int, end: int)
    requires 0 <= h.number && start <= h.number <= end
    requires h.subject != [] && h.from != []
    requires TabFree(h.subject) && TabFree(h.from) && TabFree(h.date)
    requires TabFree(h.messageId) && TabFree(h.references)
    ensures ParseOverviewRow(OverviewRow(h), start, end) == Some(h)
  {
    var parts := [NatToString(h.number), h.subject, h.from, h.date, h.messageId, h.references];
    var line := Join(parts, "\t");
    var isTab := (x: char) => x == '\t';
    NatToStringToken(h.number);
    assert forall k :: 0 <= k < |parts| ==> FreeOf(parts[k], isTab);
    SplitWhereJoin(parts, '\t', isTab);
    assert SplitOn(line, '\t') == parts;
    ParseIntOfNat(h.number);
    JoinHead(parts, "\t");
    TrimNonBlank(line);
  }

  /** One header line's contribution to the `headers` object of `parseHeaders`:
      the key is the trimmed, lower-cased text before the first colon, present
      only when that colon is not the first character; the value is the trimmed rest. */
  function HeaderEntry(line: String): Option<(String, String)>
  {
    match IndexOf(line, ':')
    case None => None
    case Some(i) =>
      if i > 0 then Some((ToLower(Trim(line[..i])), Trim(line[i + 1..]))) else None
  }

  /** The fold of `parseHeaders` over the lines, stopping at the first empty line;
      a later line with the same key overwrites the earlier value. */
  function FoldHeaders(fields: map<String, String>, lines: seq<String>): map<String, String>
    decreases |lines|
  {
    if lines == [] || lines[0] == [] then fields
    else
      var next := match HeaderEntry(lines[0])
        case None => fields
        case Some(e) => fields[e.0 := e.1];
      FoldHeaders(next, lines[1..])
  }

  function HeaderFields(lines: seq<String>): map<String, String>
  {
    FoldHeaders(map[], lines)
  }

  function Lookup(fields: map<String, String>, key: String): String
  {
    if key in fields then fields[key] else []
  }

  /** `parseHeaders(lines)`: missing fields are empty and the number is 0 unless a
      `Number` header parses. */
  function ParseHeaders(lines: seq<String>): (r: Header)
    ensures r.number != 0 ==> "number" in HeaderFields(lines)
    ensures r.subject != [] ==> "subject" in HeaderFields(lines)
    ensures r.from != [] ==> "from" in HeaderFields(lines)
    ensures r.messageId != [] ==> "message-id" in HeaderFields(lines)
  {
    var fields := HeaderFields(lines);
    Header(IntOrZero(Lookup(fields, "number")), Lookup(fields, "subject"), Lookup(fields, "from"),
           Lookup(fields, "date"), Lookup(fields, "message-id"), Lookup(fields, "references"))
  }

  /** Lines after the first empty line are never read. */
  lemma {:induction false} HeadersStopAtBlank(fields: map<String, String>, a: seq<String>, b: seq<String>)
    requires forall k :: 0 <= k < |a| ==> a[k] != []
    ensures FoldHeaders(fields, a + [[]] + b) == FoldHeaders(fields, a)
    decreases |a|
  {
    if a == [] {
      assert (a + [[]] + b)[0] == [];
    } else {
      var l := a + [[]] + b;
      assert l[0] == a[0] && l[1..] == a[1..] + [[]] + b;
      var next := match HeaderEntry(a[0])
        case None => fields
        case Some(e) => fields[e.0 := e.1];
      HeadersStopAtBlank(next, a[1..], b);
    }
  }

  /** The last line with a given key wins: reading one more header line updates
      only that line's key. */
  lemma {:induction false} HeadersLastWins(fields: map<String, String>, a: seq<String>, line: String)
    requires forall k :: 0 <= k < |a| ==> a[k] != []
    requires line != []
    ensures FoldHeaders(fields, a + [line])
         == match HeaderEntry(line)
            case None => FoldHeaders(fields, a)
            case Some(e) => FoldHeaders(fields, a)[e.0 := e.1]
    decreases |a|
  {
    var l := a + [line];
    if a == [] {
      assert l == [line];
      assert l[1..] == [];
    } else {
      assert l[0] == a[0] && l[1..] == a[1..] + [line];
      var next := match HeaderEntry(a[0])
        case None => fields
        case Some(e) => fields[e.0 := e.1];
      HeadersLastWins(next, a[1..], line);
    }
  }

  /** A header line `Name: value` with a colon-free name gives the lower-cased
      name and the value, colons in the value included. */
  lemma HeaderLineRoundTrip(name: String, value: String)
    requires name != [] && ':' !in name && !IsSpace(name[0]) && !IsSpace(name[|name| - 1])
    requires value != [] && !IsSpace(value[0]) && !IsSpace(value[|value| - 1])
    ensures HeaderEntry(name + ": " + value) == Some((ToLower(name), value))
  {
    var line := name + ": " + value;
    assert line[|name|] == ':';
    assert line[..|name|] == name;
    assert IndexOf(line, ':') == Some(|name|);
    TrimFacts(name);
    assert line[|name| + 1..] == " " + value;
    assert (" " + value)[1..] == value;
    assert TrimStart(" " + value) == TrimStart(value) == value;
    assert TrimEnd(value) == value;
  }

  // ---- HEAD, BODY and the HEAD fallback of streamHeaders

  /** `head(n)`: a rejected command is its error; a `423` reply is "no such
      article"; otherwise the reply lines are parsed. */
  function HeadResult(n: int, reply: Completion): (r: Result<Header>)
    ensures r.Err? <==> reply.Rejected? || reply.reply.code == 423
    ensures reply.Rejected? ==> r == Err(reply.error)
  {
    match reply
    case Rejected(e) => Err(e)
    case Resolved(r) =>
      if r.code == 423 then Err("No such article: " + IntToString(n)) else Ok(ParseHeaders(r.lines))
  }

  /** `body(n)`: the lines of `streamBody`, joined by line feeds. */
  function BodyResult(n: int, reply: Completion): (r: Result<String>)
    ensures r.Err? <==> reply.Rejected? || reply.reply.code == 423
    ensures reply.Rejected? ==> r == Err(reply.error)
  {
    match reply
    case Rejected(e) => Err(e)
    case Resolved(r) =>
      if r.code == 423 then Err("No such article: " + IntToString(n)) else Ok(Join(r.lines, "\n"))
  }

  /** The text `body` returns splits back on line feeds into the lines the
      server sent, since no received line holds a line feed. */
  lemma BodyLinesRoundTrip(n: int, reply: Completion)
    requires reply.Resolved? && reply.reply.code != 423 && reply.reply.lines != []
    requires forall k :: 0 <= k < |reply.reply.lines| ==> '\n' !in reply.reply.lines[k]
    ensures BodyResult(n, reply).Ok? && SplitOn(BodyResult(n, reply).value, '\n') == reply.reply.lines
  {
    var lines := reply.reply.lines;
    var isNl := (x: char) => x == '\n';
    assert forall k :: 0 <= k < |lines| ==> FreeOf(lines[k], isNl);
    SplitWhereJoin(lines, '\n', isNl);
  }

  /** The `423` branches of `head` and `streamBody` are dead: a resolved reply
      always carries a 2xx/3xx code, so a resolved HEAD or BODY is always read. */
  lemma No423OnResolved(n: int, reply: Completion)
    requires reply.Resolved? ==> IsSuccessCode(reply.reply.code)
    ensures HeadResult(n, reply).Err? <==> reply.Rejected?
    ensures BodyResult(n, reply).Err? <==> reply.Rejected?
    ensures reply.Resolved? ==> HeadResult(n, reply) == Ok(ParseHeaders(reply.reply.lines))
  {
  }

  /** What the fallback keeps for article `j` given the outcome of `head(j)`:
      the header, renumbered `j`, or nothing when the fetch failed. */
  function Attempt(j: int, outcome: Result<Header>): seq<Header>
  {
    match outcome
    case Ok(h) => [h.(number := j)]
    case Err(_) => []
  }

  /** The headers the fallback collects for articles `start` up to `stop - 1`,
      in that order, where `heads(j)` is the outcome of `head(j)`. */
  function Fetched(start: int, stop: int, heads: int -> Result<Header>): seq<Header>
    decreases stop - start
  {
    if stop <= start then [] else Fetched(start, stop - 1, heads) + Attempt(stop - 1, heads(stop - 1))
  }

  function Min(a: int, b: int): int
  {
    if a <= b then a else b
  }

  /** One batch of the fallback: `head(j)` for articles `first..last`, keeping the
      headers that arrive; extends what was fetched before the batch. */
  method FetchBatch(start: int, first: int, last: int, heads: int -> Result<Header>)
    returns (batch: seq<Header>)
    requires start <= first <= last + 1
    ensures Fetched(start, first, heads) + batch == Fetched(start, last + 1, heads)
  {
    batch := [];
    var j := first;
    while j <= last
      invariant first <= j <= last + 1
      invariant Fetched(start, first, heads) + batch == Fetched(start, j, heads)
    {
      var outcome := heads(j);
      AppendAssoc(Fetched(start, first, heads), batch, Attempt(j, outcome));
      if outcome.Ok? {
        batch := batch + [outcome.value.(number := j)];
      }
      j := j + 1;
    }
  }

  /** The HEAD fallback of `streamHeaders`: articles `start..end` in batches of
      ten, each batch collected and then yielded; failed fetches are skipped. */
  method HeadFallback(start: int, end: int, heads: int -> Result<Header>) returns (headers: seq<Header>)
    ensures headers == Fetched(start, end + 1, heads)
  {
    headers := [];
    var i := start;
    while i <= end
      invariant start <= i
      invariant headers == Fetched(start, Min(i, end + 1), heads)
      decreases end + 1 - i
    {
      var batchEnd := Min(i + 9, end);
      var batch := FetchBatch(start, i, batchEnd, heads);
      headers := headers + batch;
      i := i + 10;
    }
  }

  /** The article numbers of a list of headers, in order. */
  function Numbers(hs: seq<Header>): (r: seq<int>)
    ensures |r| == |hs|
  {
    seq(|hs|, k requires 0 <= k < |hs| => hs[k].number)
  }

  predicate StrictlyIncreasing(ns: seq<int>)
  {
    forall k, l :: 0 <= k < l < |ns| ==> ns[k] < ns[l]
  }

  /** The fallback's headers: numbers strictly ascending, within `[start, stop)`,
      and article `j` is present exactly when its fetch succeeded. */
  lemma {:induction false} FetchedNumbers(start: int, stop: int, heads: int -> Result<Header>)
    ensures var ns := Numbers(Fetched(start, stop, heads));
      && (forall k :: 0 <= k < |ns| ==> start <= ns[k] < stop)
      && StrictlyIncreasing(ns)
      && (forall j :: start <= j < stop ==> (heads(j).Ok? <==> j in ns))
    decreases stop - start
  {
    if stop > start {
      FetchedNumbers(start, stop - 1, heads);
      var before := Numbers(Fetched(start, stop - 1, heads));
      var ns := Numbers(Fetched(start, stop, heads));
      var last := Attempt(stop - 1, heads(stop - 1));
      assert Numbers(last) == if heads(stop - 1).Ok? then [stop - 1] else [];
      assert ns == before + Numbers(last);
      assert stop - 1 !in before;
    }
  }

  // ---- getHeaders: the collected headers sorted by number

  predicate SortedByNumber(hs: seq<Header>)
  {
    forall i, j :: 0 <= i < j < |hs| ==> hs[i].number <= hs[j].number
  }

  /** Inserts `h` after every element whose number is not greater, so equal
      numbers keep their order (`Array.prototype.sort` is stable). */
  function Insert(hs: seq<Header>, h: Header): seq<Header>
  {
    if hs == [] then [h]
    else if hs[|hs| - 1].number <= h.number then hs + [h]
    else Insert(hs[..|hs| - 1], h) + [hs[|hs| - 1]]
  }

  /** `headers.sort((a, b) => a.number - b.number)`. */
  function SortByNumber(hs: seq<Header>): seq<Header>
  {
    if hs == [] then [] else Insert(SortByNumber(hs[..|hs| - 1]), hs[|hs| - 1])
  }

  predicate AllAtMost(hs: seq<Header>, bound: int)
  {
    forall i :: 0 <= i < |hs| ==> hs[i].number <= bound
  }

  lemma {:induction false} InsertAtMost(hs: seq<Header>, h: Header, bound: int)
    requires AllAtMost(hs, bound) && h.number <= bound
    ensures AllAtMost(Insert(hs, h), bound)
  {
    if hs != [] && hs[|hs| - 1].number > h.number {
      InsertAtMost(hs[..|hs| - 1], h, bound);
    }
  }

  lemma {:induction false} InsertSorted(hs: seq<Header>, h: Header)
    requires SortedByNumber(hs)
    ensures SortedByNumber(Insert(hs, h))
  {
    if hs != [] {
      var init := hs[..|hs| - 1];
      var top := hs[|hs| - 1];
      if top.number > h.number {
        InsertSorted(init, h);
        InsertAtMost(init, h, top.number);
      }
    }
  }

  lemma {:induction false} InsertPermutes(hs: seq<Header>, h: Header)
    ensures multiset(Insert(hs, h)) == multiset(hs) + multiset{h}
  {
    if hs != [] && hs[|hs| - 1].number > h.number {
      InsertPermutes(hs[..|hs| - 1], h);
      assert hs == hs[..|hs| - 1] + [hs[|hs| - 1]];
    }
  }

  /** `getHeaders` returns its headers ordered by number ... */
  lemma {:induction false} SortByNumberSorted(hs: seq<Header>)
    ensures SortedByNumber(SortByNumber(hs))
  {
    if hs != [] {
      SortByNumberSorted(hs[..|hs| - 1]);
      InsertSorted(SortByNumber(hs[..|hs| - 1]), hs[|hs| - 1]);
    }
  }

  /** ... and they are the headers it collected, none lost or duplicated. */
  lemma {:induction false} SortByNumberPermutes(hs: seq<Header>)
    ensures multiset(SortByNumber(hs)) == multiset(hs)
  {
    if hs != [] {
      var init := hs[..|hs| - 1];
      var last := hs[|hs| - 1];
      assert multiset(hs) == multiset(init) + multiset{last} by {
        assert hs == init + [last];
      }
      SortByNumberPermutes(init);
      InsertPermutes(SortByNumber(init), last);
    }
  }

  lemma IncreasingSorted(hs: seq<Header>)
    requires StrictlyIncreasing(Numbers(hs))
    ensures SortedByNumber(hs)
  {
    var ns := Numbers(hs);
    forall i, j | 0 <= i < j < |hs| ensures hs[i].number <= hs[j].number {
      assert ns[i] < ns[j];
    }
  }

  /** Headers already in order are left as they are, so on the fallback path the
      sort changes nothing. */
  lemma {:induction false} SortedUnchanged(hs: seq<Header>)
    requires SortedByNumber(hs)
    ensures SortByNumber(hs) == hs
  {
    if hs != [] {
      var init := hs[..|hs| - 1];
      assert SortedByNumber(init);
      SortedUnchanged(init);
      if |init| > 0 {
        assert init[|init| - 1].number <= hs[|hs| - 1].number;
      }
      assert init + [hs[|hs| - 1]] == hs;
    }
  }

  /** `getHeaders(start, end)`: the rows of a successful XOVER, or the HEAD
      fallback when XOVER failed, sorted by number. */
  method GetHeaders(xover: Completion, start: int, end: int, heads: int -> Result<Header>)
    returns (headers: seq<Header>)
    ensures SortedByNumber(headers)
    ensures xover.Resolved? ==>
      multiset(headers) == multiset(ParseOverview(xover.reply.lines, start, end))
    ensures xover.Rejected? ==> headers == Fetched(start, end + 1, heads)
  {
    var collected: seq<Header>;
    if xover.Resolved? {
      collected := ParseOverview(xover.reply.lines, start, end);
    } else {
      collected := HeadFallback(start, end, heads);
      FetchedNumbers(start, end + 1, heads);
      IncreasingSorted(collected);
      SortedUnchanged(collected);
    }
    headers := SortByNumber(collected);
    SortByNumberSorted(collected);
    SortByNumberPermutes(collected);
  }

  // ---- AUTHINFO USER / PASS (RFC 4643, section 2.3)

  function UserCommand(username: String): String
  {
    "AUTHINFO USER " + username
  }

  function PassCommand(password: String): String
  {
    "AUTHINFO PASS " + password
  }

  datatype AuthStatus = NeedPassword | Authenticated | AuthFailed(error: String)

  /** After AUTHINFO USER: `381` asks for the password, `281` accepts; another
      success code fails authentication, and a rejected command fails with the
      server's error. */
  function AfterUser(reply: Completion): AuthStatus
  {
    match reply
    case Rejected(e) => AuthFailed(e)
    case Resolved(r) =>
      if r.code == 381 then NeedPassword
      else if r.code == 281 then Authenticated
      else AuthFailed("Authentication failed")
  }

  /** After AUTHINFO PASS only `281` accepts. */
  function AfterPass(reply: Completion): AuthStatus
  {
    match reply
    case Rejected(e) => AuthFailed(e)
    case Resolved(r) => if r.code == 281 then Authenticated else AuthFailed("Authentication failed")
  }

  /** `authenticate()`: the commands written and the outcome, given the replies
      to USER and (if it is sent) PASS. */
  function Authenticate(username: String, password: String, userReply: Completion, passReply: Completion)
    : (r: (seq<String>, AuthStatus))
    ensures 1 <= |r.0| <= 2 && r.0[0] == UserCommand(username) && !r.1.NeedPassword?
    ensures |r.0| == 2 <==> AfterUser(userReply) == NeedPassword
  {
    match AfterUser(userReply)
    case NeedPassword => ([UserCommand(username), PassCommand(password)], AfterPass(passReply))
    case other => ([UserCommand(username)], other)
  }

  /** Authentication succeeds exactly when USER is accepted outright, or USER asks
      for the password and PASS is accepted; the password is written only when
      the server asked for it. */
  lemma AuthenticateSpec(username: String, password: String, userReply: Completion, passReply: Completion)
    ensures var (commands, status) := Authenticate(username, password, userReply, passReply);
      && !status.NeedPassword?
      && (status == Authenticated <==>
            (userReply.Resolved? && userReply.reply.code == 281)
            || (userReply.Resolved? && userReply.reply.code == 381
                && passReply.Resolved? && passReply.reply.code == 281))
      && (PassCommand(password) in commands <==> userReply.Resolved? && userReply.reply.code == 381)
      && commands[0] == UserCommand(username)
  {
    var (commands, status) := Authenticate(username, password, userReply, passReply);
    if !(userReply.Resolved? && userReply.reply.code == 381) {
      assert commands == [UserCommand(username)];
      assert "AUTHINFO P"[9] != "AUTHINFO U"[9];
      assert UserCommand(username)[9] != PassCommand(password)[9];
    }
  }

  // ---- POST

  /** The article `post` writes after the server's `340`: the header lines, an
      empty line (also in place of a missing References), the body split on
      CR?LF with each line dot-stuffed, and the terminator. `date` is the
      `toUTCString()` of the current time. */
  function PostLines(groupName: String, subject: String, from: String, date: String,
                     body: String, references: Option<String>): (r: seq<String>)
    ensures |r| == |SplitLines(body)| + 7 && r[|r| - 1] == "."
  {
    ["From: " + from, "Newsgroups: " + groupName, "Subject: " + subject, "Date: " + date,
     if references.Some? && references.value != [] then "References: " + references.value else [],
     []]
    + MapStuff(SplitLines(body)) + ["."]
  }

  /** The layout of the posted article: six header-block lines, the stuffed body
      (which un-stuffs to the body's lines and has no line equal to `.`), and `.`. */
  lemma PostLayout(groupName: String, subject: String, from: String, date: String,
                   body: String, references: Option<String>)
    ensures var lines := PostLines(groupName, subject, from, date, body, references);
      var bodyLines := SplitLines(body);
      && |lines| == |bodyLines| + 7
      && lines[0] == "From: " + from && lines[1] == "Newsgroups: " + groupName
      && lines[2] == "Subject: " + subject && lines[3] == "Date: " + date
      && (references.None? || references.value == [] <==> lines[4] == [])
      && lines[5] == []
      && lines[|lines| - 1] == "."
      && UnstuffAll(lines[6..|lines| - 1]) == bodyLines
      && (forall k :: 6 <= k < |lines| - 1 ==> lines[k] != ".")
  {
    var lines := PostLines(groupName, subject, from, date, body, references);
    var stuffed := MapStuff(SplitLines(body));
    assert lines[6..|lines| - 1] == stuffed;
    UnstuffAllMapStuff(SplitLines(body));
    forall k | 6 <= k < |lines| - 1 ensures lines[k] != "." {
      MapStuffAt(SplitLines(body), k - 6);
      StuffRoundTrip(SplitLines(body)[k - 6]);
    }
    if references.Some? && references.value != [] {
      assert lines[4][0] == 'R';
    }
  }

  /** Written with CR LF after each line, the article is framed back into exactly
      its lines by a reader that splits on CR?LF, provided the header values
      contain no line feed. */
  lemma PostWireFrames(groupName: String, subject: String, from: String, date: String,
                       body: String, references: Option<String>)
    requires '\n' !in groupName && '\n' !in subject && '\n' !in from && '\n' !in date
    requires references.Some? ==> '\n' !in references.value
    ensures var lines := PostLines(groupName, subject, from, date, body, references);
      CompleteLines(CrlfLines(lines)) == lines && Fragment(CrlfLines(lines)) == []
  {
    hide CompleteLines, Fragment, CrlfLines;
    var lines := PostLines(groupName, subject, from, date, body, references);
    var bodyLines := SplitLines(body);
    forall k | 0 <= k < |lines| ensures '\n' !in lines[k] {
      if 6 <= k < |lines| - 1 {
        MapStuffAt(bodyLines, k - 6);
        assert '\n' !in bodyLines[k - 6];
      }
    }
    FrameCrlfLines(lines);
  }

  /** `post()`: GROUP must succeed, POST must be answered `340`, and the article
      must be answered `240`; a rejected command fails with the server's error. */
  function PostResult(groupReply: Completion, postReply: Completion, articleReply: Completion): (r: Result<Reply>)
    ensures r.Ok? ==> articleReply.Resolved? && r.value == articleReply.reply && r.value.code == 240
  {
    if groupReply.Rejected? then Err(groupReply.error)
    else if postReply.Rejected? then Err(postReply.error)
    else if postReply.reply.code != 340 then Err("Server rejected POST command")
    else if articleReply.Rejected? then Err(articleReply.error)
    else if articleReply.reply.code != 240 then Err("Article posting failed")
    else Ok(articleReply.reply)
  }

  /** A post succeeds exactly when the article was accepted after the server
      invited it, and then returns the acceptance. */
  lemma PostResultSpec(groupReply: Completion, postReply: Completion, articleReply: Completion)
    ensures PostResult(groupReply, postReply, articleReply).Ok? <==>
      groupReply.Resolved? && postReply.Resolved? && postReply.reply.code == 340
      && articleReply.Resolved? && articleReply.reply.code == 240
    ensures PostResult(groupReply, postReply, articleReply).Ok? ==>
      PostResult(groupReply, postReply, articleReply).value == articleReply.reply
  {
  }
}

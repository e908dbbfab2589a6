# NNTP client core of usenet-newsreader, in Dafny

This project models the protocol engine and the message threader of a Usenet
newsreader written in JavaScript. It covers four source files:

- **nntp-stream-client.js** (`StreamingNNTPClient`):
  - the line framer and line router;
  - the per-command `ResponseResolver` state machine, with the lone-dot terminator and dot un-stuffing of section 3.1.1 of RFC 3977;
  - the LIST, GROUP, XOVER and header parsers, with the HEAD fallback and the sort in `getHeaders`;
  - AUTHINFO USER/PASS (section 2.3 of RFC 4643);
  - the article that `post` writes;
  - `disconnect`.
- **threading.js**: the References-based reply-tree builder (section 3.2.10 of RFC 5536) and its read-only walks: `flattenThreads`, `getMessageCount`, `getAllMessages` and `getThreadStats`.
- **nntp-pool.js** (`NNTPConnectionPool`): the pools keyed by server and account, their `connections`, `idleConnections` and `inUse` collections, `activeConnections`, and the connection counter.
- **nntp-client.js** (`NNTPClient`): the older client that accumulates a whole buffer. Its `group` is the same code as the streaming client's `group`, so `Commands.ParseGroupReply` models both.

## Modules

| Module | Contents |
|---|---|
| `Wrappers` | `Option` and `Result`. |
| `Text` | The JavaScript string operations the source relies on: `trim` with the `\s` set, ASCII `toLowerCase`, `indexOf`, `split` on a character and on `/\s+/`, `join`, the digit-prefix `parseInt`, and number-to-string conversion. |
| `Framing` | `split(/\r?\n/)` and the carry-over fragment of `processChunk`. |
| `Resolver` | `ResponseResolver` as a class, with pure step functions that specify its methods. |
| `StreamClient` | `StreamingNNTPClient` as a class. It holds `lineBuffer`, `connected`, the pending resolvers in insertion order, and the command counter. |
| `Commands` | The reply parsers and the command logic of the streaming client. |
| `LegacyClient` | `NNTPClient`. |
| `Threading` | The thread tree as an arena: node `i` wraps article `i`, and `parent` and `children` are node indices. `MessageThread` objects are the `Forest` class. |
| `ThreadViews` | The recursive walks over a built tree. |
| `Pool` | `NNTPConnectionPool` as the class `ConnectionPool`. Each pool object is a `HostPool`, and each connection is known by its id. |

Inputs from the environment become parameters:

- clock readings are `now`;
- the outcome of `client.connect()` is the set `connects` of connection ids whose connect succeeds;
- the outcome of `head(j)` is a function `heads`;
- whether a connection's client is connected (`isConnected()`) is kept by the pool manager as the set `live` of connection ids. Connecting, removal and shutdown change it, and `ClientClosed` models the socket's `close`, `end` and `error` handlers clearing `connected`;
- an article's `new Date(date).getTime()` is an integer `dateKey`, 0 for a missing date.

## Model

| member | source | states |
|---|---|---|
| Text.TrimFacts | nntp-stream-client.js:128 | `trim` is empty exactly for an all-whitespace string, otherwise starts and ends with a non-space, and leaves a string without edge whitespace unchanged |
| Text.IndexOf | nntp-stream-client.js:350 | `indexOf` gives the first position of the character, or none exactly when it is absent |
| Text.SplitWsJoin | nntp-stream-client.js:222 | splitting on whitespace runs gives back non-empty whitespace-free tokens that were joined by single spaces |
| Text.SplitWhereAppend | nntp-stream-client.js:110 | splitting a concatenation is splitting the first part, then continuing its last piece with the second part |
| Text.SplitWhereJoin | nntp-stream-client.js:110 | splitting pieces that were joined by a separator they do not contain gives the pieces back |
| Text.JoinSplitOn | nntp-stream-client.js:110 | joining the pieces of a split with the separator restores the string |
| Text.NonEmptyMembers | threading.js:20 | every string the filter keeps was among its inputs, and a string is kept exactly when it is an input and non-empty |
| Text.NonEmptyAppend | threading.js:20 | the filter distributes over concatenation and keeps a single part exactly when it is non-empty, so the kept parts stay in input order |
| Text.ParseIntOfNat | nntp-stream-client.js:226 | `parseInt` of a number's decimal digits gives the number back |
| Framing.SplitLinesParts | nntp-stream-client.js:110-113 | the split of a chunk is its complete lines followed by the new fragment, which holds no line feed |
| Framing.Lossless | nntp-stream-client.js:104-119 | old buffer plus chunk equals the emitted lines, each followed by its LF or CR LF, then the new fragment |
| Framing.LfPiecesAppend | nntp-stream-client.js:110 | the LF pieces of `s + t` are the complete pieces of `s`, then the pieces of its last piece continued by `t` |
| Framing.SplitLinesAppend | nntp-stream-client.js:110-113 | the lines completed by `s + t` are those of `s`, then those of its fragment continued by `t`, and the fragments agree |
| Framing.ChunkingInvariance | nntp-stream-client.js:104-119 | feeding `c1` then `c2` emits the same lines in the same order, and leaves the same fragment, as feeding `c1 + c2` |
| Framing.OneCrlfLine | nntp-stream-client.js:110-113 | a line written with CR LF is read back as that one line with an empty fragment |
| Framing.FrameCrlfLines | nntp-stream-client.js:110-113 | lines without LF, each written with CR LF, are framed back into exactly those lines |
| Resolver.ErrorText | nntp-stream-client.js:453 | the rejection text is the message when there is one, and is never empty |
| Resolver.Outcome | nntp-stream-client.js:446-454 | a response resolves exactly for codes in [200, 400), with its code, message and lines; otherwise it rejects with the message or `NNTP error <code>` |
| Resolver.StatusStep | nntp-stream-client.js:439-457 | the status line records code and message; a single-line command completes at once with no lines, a multi-line one never completes here |
| Resolver.DataStep | nntp-stream-client.js:459-484 | lines before the status line are ignored; a line that trims to `.` completes with the lines so far; any other line is appended un-stuffed |
| Resolver.ResponseResolver.constructor | nntp-stream-client.js:428-437 | a new resolver has no status, no lines, and the command's id and kind |
| Resolver.ResponseResolver.OnStatusLine | nntp-stream-client.js:439-457 | the method's new fields and completion are those of `StatusStep` |
| Resolver.ResponseResolver.OnDataLine | nntp-stream-client.js:459-484 | the method's new fields and completion are those of `DataStep` |
| Resolver.StuffRoundTrip | nntp-stream-client.js:391 | un-stuffing a stuffed line gives the line back, and no stuffed line is `.` |
| Resolver.UnstuffAllMapStuff | nntp-stream-client.js:478-482 | un-stuffing a stuffed body gives the body back, line by line |
| Resolver.FirstTerminator | nntp-stream-client.js:465 | the index of the first line that trims to `.`, with no terminator before it |
| Resolver.ReceiveSnoc | nntp-stream-client.js:459-484 | one more data line does nothing after completion and takes one step otherwise |
| Resolver.ReceiveKeepsIdentity | nntp-stream-client.js:459-484 | data lines never change a resolver's id or kind |
| Resolver.ReceiveCharacterized | nntp-stream-client.js:459-484 | before the status, all lines are ignored; after it, the response completes at the first terminator with the un-stuffed lines before it, or keeps collecting |
| Resolver.ReceiveResolvesSuccess | nntp-stream-client.js:446-451 | a resolved response has a code in [200, 400) and un-stuffed lines received before the first terminator; the terminator is never among them |
| Resolver.ReceiveStuffedBody | nntp-stream-client.js:478-482 | a stuffed body followed by `.` resolves with exactly the original body, provided no stuffed line trims to `.` |
| Resolver.SpaceDotEndsResponse | nntp-stream-client.js:465 | the body line ` .` is not stuffed and ends the response early; the lines after it are lost |
| Resolver.MultilineErrorWaits | nntp-stream-client.js:444-456 | a multi-line command with an error status does not complete on it, and keeps waiting until a terminator arrives |
| StreamClient.StatusCode | nntp-stream-client.js:134-136 | the code of a status line is what `Text.ParseInt` reads from its three leading digits, below 1000, so both clients read the same code |
| StreamClient.Classify | nntp-stream-client.js:126-136 | a line is a status line exactly when it matches `^\d{3}\s` |
| StreamClient.FirstMultiline | nntp-stream-client.js:147-152 | the first pending command that expects a multi-line response, with none before it |
| StreamClient.RouteLineBuffer | nntp-stream-client.js:124-153 | routing a line neither reads nor writes `lineBuffer` |
| StreamClient.RouteLinesBuffer | nntp-stream-client.js:124-153 | routing a run of lines neither reads nor writes `lineBuffer` |
| StreamClient.RouteLinesAppend | nntp-stream-client.js:115-118 | routing `a + b` is routing `a`, then `b` |
| StreamClient.FeedChunking | nntp-stream-client.js:104-119 | however the stream is cut into chunks, the client ends in the same state |
| StreamClient.RouteLineResolvedOnlySuccess | nntp-stream-client.js:124-153 | routing a line preserves the invariant that every delivered resolution has a code in [200, 400) |
| StreamClient.RouteLinesResolvedOnlySuccess | nntp-stream-client.js:124-153 | the same holds for any run of lines |
| StreamClient.FeedResolvedOnlySuccess | nntp-stream-client.js:104-119 | the same holds for any chunk |
| StreamClient.RouteLineAccounting | nntp-stream-client.js:139-152 | a line completes at most one command, removes it from the pending list, and never revises earlier completions; pending plus completed stays constant |
| StreamClient.RouteLinesAccounting | nntp-stream-client.js:182-191 | the same accounting holds for any run of lines |
| StreamClient.Greeting | nntp-stream-client.js:126-131 | while not connected, a status line leaves pending commands alone; the client becomes connected exactly when `connect` listens and the code is in [200, 400) |
| StreamClient.StatusGoesToOldest | nntp-stream-client.js:134-144 | once connected, a status line concerns only the oldest pending command |
| StreamClient.DataWithoutMultilineDropped | nntp-stream-client.js:147-152 | with no multi-line command pending, a non-status line changes nothing |
| StreamClient.StatusLookalikeInBody | nntp-stream-client.js:134 | a body line `211 rows` overwrites the waiting command's status instead of joining its data |
| StreamClient.RouteDataToSole | nntp-stream-client.js:147-152 | with one multi-line command pending, routing lines that are not status lines is feeding them to its resolver |
| StreamClient.MultilineExchange | nntp-stream-client.js:124-153 | a successful status, a stuffed body and `.` resolve the sole pending command with the original body |
| StreamClient.StreamingClient.constructor | nntp-stream-client.js:11-25 | a new client is disconnected, with no buffer, no pending command and the counter at 0 |
| StreamClient.StreamingClient.BeginConnect | nntp-stream-client.js:55 | `connect` installs the one-shot greeting listener and changes nothing else |
| StreamClient.StreamingClient.SendCommand | nntp-stream-client.js:165-197 | fails at once when not connected; otherwise registers a fresh resolver under the next id and writes the command line |
| StreamClient.StreamingClient.Deliver | nntp-stream-client.js:182-191 | a completion removes the command from the pending list and is delivered |
| StreamClient.StreamingClient.RouteGreeting | nntp-stream-client.js:126-131 | the greeting branch of `processLine`, as `GreetingCase` |
| StreamClient.StreamingClient.RouteStatus | nntp-stream-client.js:134-144 | the status branch of `processLine`, as `StatusCase` |
| StreamClient.StreamingClient.FindMultiline | nntp-stream-client.js:147-148 | the search returns the first pending command expecting a multi-line response |
| StreamClient.StreamingClient.RouteData | nntp-stream-client.js:147-152 | the data branch of `processLine`, as `DataCase` |
| StreamClient.StreamingClient.ProcessLine | nntp-stream-client.js:124-153 | the new client state is `RouteLine` of the old one |
| StreamClient.StreamingClient.ProcessChunk | nntp-stream-client.js:104-119 | the new client state is `Feed` of the old one and the chunk |
| StreamClient.StreamingClient.Disconnect | nntp-stream-client.js:413-421 | not connected, empty buffer, no pending command, and nothing delivered to the dropped commands |
| Commands.ParseListLine | nntp-stream-client.js:219-229 | a LIST line yields an entry exactly when it is not blank and has at least three whitespace tokens |
| Commands.ListLineRoundTrip | nntp-stream-client.js:216-232 | a LIST line as a server writes it reads back as name, last, first and the description |
| Commands.ListLineTokens | nntp-stream-client.js:222 | the tokens of such a line are the fields written |
| Commands.TokenLine | nntp-stream-client.js:222 | whitespace-free tokens joined by spaces make a non-blank line that splits back into them |
| Commands.ParseList | nntp-stream-client.js:216-240 | at most one entry per reply line, and one for every line exactly when every line is kept. With `ParseListAppend` and `ParseListLine`, the entries are those of the lines with at least three tokens, in order |
| Commands.ParseListAppend | nntp-stream-client.js:234-240 | the entries of a concatenation of reply lines are those of each part, in order |
| Commands.ParseGroupReply | nntp-stream-client.js:242-252 | the group name is a token of the reply text or else the requested name. `GroupReplyRoundTrip` reads the counts back |
| Commands.GroupReplyRoundTrip | nntp-stream-client.js:242-252 | a `211` reply text reads back as count, first, last and name |
| Commands.GroupNameDefaults | nntp-stream-client.js:250 | a reply text without a fourth token names the requested group |
| Commands.ParseOverviewRow | nntp-stream-client.js:262-276 | a row is kept exactly when it is not blank, has at least five tab-separated fields, and its first field parses to a number within `[start, end]`; a kept row carries that number and a non-empty subject and author |
| Commands.ParseOverview | nntp-stream-client.js:257-277 | no more rows than lines, each with a number within `[start, end]` |
| Commands.ParseOverviewAppend | nntp-stream-client.js:261-277 | the rows kept from a concatenation of lines are those of each part, in order, and one line yields a row exactly when `ParseOverviewRow` keeps it |
| Commands.OverviewRowRoundTrip | nntp-stream-client.js:263-274 | an overview row of an in-range article with a subject and author reads back as that header |
| Commands.HeadersStopAtBlank | nntp-stream-client.js:348 | header lines after the first empty line are never read |
| Commands.HeadersLastWins | nntp-stream-client.js:349-355 | one more header line updates only its own key: the last duplicate wins |
| Commands.HeaderLineRoundTrip | nntp-stream-client.js:350-353 | `Name: value` gives the lower-cased name and the value, colons in the value included |
| Commands.ParseHeaders | nntp-stream-client.js:344-366 | the number is non-zero, and the subject, author and message-id are non-empty, only when the matching header is present |
| Commands.HeadResult | nntp-stream-client.js:313-319 | `head` fails exactly on a rejected command or a `423` reply, and a rejected command fails with the server's error |
| Commands.BodyResult | nntp-stream-client.js:324-342 | `body` fails exactly on a rejected command or a `423` reply, and a rejected command fails with the server's error |
| Commands.BodyLinesRoundTrip | nntp-stream-client.js:336-342 | the text `body` returns splits on line feeds back into the lines received |
| Commands.No423OnResolved | nntp-stream-client.js:313-328 | the `423` checks of `head` and `streamBody` can never fire: a resolved reply is always parsed |
| Commands.FetchBatch | nntp-stream-client.js:282-294 | one batch extends the headers fetched so far by those of its articles |
| Commands.HeadFallback | nntp-stream-client.js:278-301 | the fallback returns the headers of `start..end`, renumbered, skipping failures |
| Commands.FetchedNumbers | nntp-stream-client.js:278-301 | the fallback's numbers are strictly ascending and in range, and article `j` is there exactly when its fetch succeeded |
| Commands.InsertSorted | nntp-stream-client.js:309 | inserting into a sorted list keeps it sorted by number |
| Commands.InsertPermutes | nntp-stream-client.js:309 | inserting adds exactly that header |
| Commands.SortByNumberSorted | nntp-stream-client.js:309 | the sorted headers are ordered by number |
| Commands.SortByNumberPermutes | nntp-stream-client.js:309 | the sorted headers are a permutation of the collected ones |
| Commands.IncreasingSorted | nntp-stream-client.js:309 | strictly ascending numbers are sorted |
| Commands.SortedUnchanged | nntp-stream-client.js:309 | sorting an already sorted list changes nothing: the sort is stable |
| Commands.GetHeaders | nntp-stream-client.js:304-311 | sorted by number; the kept XOVER rows when XOVER succeeded, otherwise the fallback's headers |
| Commands.Authenticate | nntp-stream-client.js:199-211 | USER is always written first, and PASS is written exactly when USER got `381`. The outcome is never left at "password needed" |
| Commands.AuthenticateSpec | nntp-stream-client.js:199-211 | authentication succeeds exactly when USER gets `281`, or gets `381` and PASS gets `281`; PASS is sent only after `381` |
| Commands.PostLines | nntp-stream-client.js:384-393 | the article has one line per body line, plus six header-block lines and the final `.` |
| Commands.PostLayout | nntp-stream-client.js:384-393 | the article is six header-block lines, then the stuffed body (which un-stuffs to the body, with no line equal to `.`), then `.` |
| Commands.PostWireFrames | nntp-stream-client.js:396-402 | written with CR LF, the article is framed back into exactly its lines |
| Commands.PostResult | nntp-stream-client.js:374-411 | a successful post returns the article's resolved reply, whose code is `240` |
| Commands.PostResultSpec | nntp-stream-client.js:374-411 | a post succeeds exactly when GROUP resolves, POST gets `340` and the article gets `240`, and then returns the acceptance |
| LegacyClient.LegacyOutcome | nntp-client.js:84-98 | resolves exactly for a numeric code in [200, 400), with that code and the lines; otherwise rejects with a non-empty text |
| LegacyClient.RespondPieces | nntp-client.js:77-119 | a single-line command always completes; a multi-line one completes exactly when the second-to-last piece trims to `.` |
| LegacyClient.Respond | nntp-client.js:72-79 | the same test stated on the accumulated buffer |
| LegacyClient.Exchange.constructor | nntp-client.js:66 | a command starts with an empty buffer and no result |
| LegacyClient.Exchange.OnData | nntp-client.js:72-121 | data is appended and the whole buffer is re-tested until the handler detaches; later data is not seen |
| LegacyClient.SingleLineFirstEvent | nntp-client.js:100-119 | a single-line command completes on its first data event, with no lines |
| LegacyClient.WholeMultilineReply | nntp-client.js:79-95 | a whole multi-line reply completes with the status line's outcome and the body minus empty lines |
| LegacyClient.StuffedLinesKept | nntp-client.js:88 | no un-stuffing: a stuffed body comes back stuffed |
| LegacyClient.WaitsForTerminator | nntp-client.js:79 | until a line trimming to `.` has been completed, a multi-line command waits |
| LegacyClient.ParseListLine | nntp-client.js:132-144 | a LIST line yields an entry exactly when it is not blank and has at least four tokens |
| LegacyClient.ParseList | nntp-client.js:128-148 | at most one entry per reply line, and one for every line exactly when every line has at least four tokens. The legacy loop has the same shape as `Commands.ParseList`, but over the legacy entry type and line parser |
| LegacyClient.ListLineRoundTrip | nntp-client.js:135-143 | name, last, first, count and description read back as written |
| LegacyClient.ThreeTokenLineDropped | nntp-client.js:136 | a three-token line, which the streaming client keeps, is dropped |
| LegacyClient.ParseHeadersAgree | nntp-client.js:172-193 | the old `parseHeaders` reads the same fields as the streaming client's, without References |
| LegacyClient.GetHeaders | nntp-client.js:195-210 | the loop returns `Collected(start, end + 1)`: each successful HEAD in turn, renumbered |
| LegacyClient.CollectedNumbers | nntp-client.js:195-210 | numbers strictly ascending and in range, and article `i` is there exactly when its HEAD succeeded |
| Threading.ParseReferencesTokens | threading.js:16-21 | every parsed reference is a non-empty run of non-whitespace |
| Threading.BlankReferences | threading.js:17 | a blank header lists no reference |
| Threading.ReferencesRoundTrip | threading.js:16-21 | ids joined by spaces parse back into the same ids |
| Threading.ExtractSteps | threading.js:168-176 | the base is one `re:`, one `re[n]:` and one `fw:`/`fwd:` removal in turn, then a trim |
| Threading.ReplyBase | threading.js:157-176 | `Re: b` is a reply with base `b`; a plain `b` is no reply and is its own base |
| Threading.BaseNotIdempotent | threading.js:171-175 | the base of `Re: Re: x` is `Re: x`, whose base is `x` |
| Threading.IndexDomain | threading.js:61-63 | an id is indexed exactly when some article carries it, and an empty id never is |
| Threading.IndexLastWins | threading.js:62 | an indexed id names the last article carrying it |
| Threading.LastIndexedSpec | threading.js:71-79 | no parent exactly when no reference is indexed; otherwise the parent is the node of the last indexed reference |
| Threading.ChooseParent | threading.js:71-78 | the loop from the end returns `LastIndexed` |
| Threading.BestUpTo | threading.js:191-205 | a chosen entry is a candidate among those scanned |
| Threading.BestUpToSpec | threading.js:191-205 | the chosen candidate has the latest date, with no earlier candidate of the same date; none exactly when there is no candidate |
| Threading.BestMatchSpec | threading.js:181-208 | for a non-empty base: none exactly when no candidate exists, otherwise a candidate |
| Threading.FindParentBySubject | threading.js:181-208 | the method returns `BestMatch` |
| Threading.ScanSubjects | threading.js:188-207 | the scan loop returns `BestUpTo` over all articles |
| Threading.SubjectFallbackOnlyForReplies | threading.js:80-111 | the subject fallback gives a parent only to reply-like subjects; other articles get the reference parent or none |
| Threading.ParentChoice | threading.js:68-113 | the chosen parent is an article of the list. `ParentChoiceSound` and `SubjectFallbackOnlyForReplies` state which one |
| Threading.ParentChoiceSound | threading.js:68-113 | a parent carries one of the references, or is a subject candidate of a reply |
| Threading.InsertByKeySorted | threading.js:27-31 | inserting keeps a list ordered by date key |
| Threading.InsertByKeyPermutes | threading.js:27-31 | inserting adds exactly that node |
| Threading.SortByKeySorted | threading.js:116-120 | the sorted nodes are in date order, ascending or descending |
| Threading.SortByKeyPermutes | threading.js:116-120 | the sorted nodes are a permutation of the input |
| Threading.SortedByKeyUnchanged | threading.js:27-31 | sorting an already sorted list changes nothing: the sort is stable |
| Threading.ResortAppend | threading.js:26-31 | re-sorting after each push is sorting the whole list |
| Threading.Attach | threading.js:23-32 | `addChild` keeps the arena's size. `AttachAt` states what it changes, node by node |
| Threading.AttachAt | threading.js:23-32 | what `addChild` changes, node by node: the child's parent and depth, and the parent's sorted children |
| Threading.LinkedStep | threading.js:80-111 | a step of the second pass is one `addChild`, or nothing for a root |
| Threading.UnattachedSpec | threading.js:92-110 | an article is pushed to the roots exactly when it has no chosen parent |
| Threading.ChildrenOfSpec | threading.js:81-104 | an article is attached to `p` exactly when `p` is its chosen parent |
| Threading.ChildrenOfDistinct | threading.js:68-113 | no article is attached twice |
| Threading.LinkedKeeps | threading.js:23-32 | linking never changes a node's article or references |
| Threading.LinkedParent | threading.js:24 | after the second pass, each handled article's parent is its chosen parent |
| Threading.LinkedChildren | threading.js:26-31 | a node's children are the articles that chose it, sorted oldest first |
| Threading.LinkedDepth | threading.js:25 | depth is one more than the parent's depth at the moment of linking, and is never updated afterwards |
| Threading.ArenaRoots | threading.js:68-122 | an article is a root exactly when it has no parent |
| Threading.ArenaChildren | threading.js:68-113 | a node's children are exactly the nodes whose parent it is, so every article is a root or attached, never both |
| Threading.ArenaChildrenOrdered | threading.js:26-31 | children are ordered oldest first and hold each child once |
| Threading.UnattachedDistinct | threading.js:92-110 | each article is pushed to the roots at most once |
| Threading.RootsOrdered | threading.js:116-120 | roots are ordered newest first and hold each root once |
| Threading.BuiltParent | threading.js:53-123 | in the built tree each article's parent is the one the second pass chose |
| Threading.Forest.constructor | threading.js:7-14 | one unlinked node per article, holding its parsed references |
| Threading.Forest.AddChild | threading.js:23-32 | the arena after `addChild` is `Attach` of the old arena |
| Threading.BuildIndex | threading.js:59-65 | the first-pass loop builds `MessageIndex` of all articles |
| Threading.FindParent | threading.js:69-111 | the parent search of the second pass returns `ParentChoice` |
| Threading.BuildThreadTree | threading.js:53-123 | the forest is fresh, its nodes are `BuiltNodes`, and the roots are `BuiltRoots` |
| Threading.LinkAll | threading.js:68-113 | the second pass yields `BuiltNodes` and the roots in push order |
| Threading.LinkThread | threading.js:68-113 | one turn of the second pass links one more article |
| ThreadViews.Count | threading.js:44-46 | a thread counts its own message and at least one more per reply |
| ThreadViews.AllMessages | threading.js:35-41 | the list starts with the thread's own message and holds only nodes the walks may visit |
| ThreadViews.GetAllMessages | threading.js:35-41 | the loop returns `AllMessages` |
| ThreadViews.AllMessagesCount | threading.js:35-46 | `getMessageCount` equals the length of `getAllMessages` |
| ThreadViews.ChildCountBelow | threading.js:44-46 | a reply's thread is strictly smaller than its parent's |
| ThreadViews.Traverse | threading.js:132-145 | `traverse` appends the node's entry, then its children's, depth first |
| ThreadViews.FlatTree | threading.js:132-145 | the first entry is the thread's own article, with its node's depth |
| ThreadViews.FlattenThreads | threading.js:129-152 | the flattening is every root's pre-order traversal, in root order |
| ThreadViews.FlatTreeEntries | threading.js:129-152 | the flattening lists the messages of `getAllMessages` in order, each with its depth, count and `hasChildren` |
| ThreadViews.Analyze | threading.js:219-228 | `analyze` adds the thread's count, raises `maxDepth` to `depth` plus the thread's height, and raises `longestThread` to the thread's size |
| ThreadViews.GetThreadStats | threading.js:213-241 | `totalThreads` is the number of roots, and the other counters are the sums and maxima over the roots |
| ThreadViews.FlatAllLength | threading.js:129-152 | the flattening has as many entries as `totalMessages` counts |
| ThreadViews.HeightBelowCount | threading.js:219-228 | a thread's height is below its message count |
| ThreadViews.StatsBounds | threading.js:213-241 | the longest thread is at most all messages, the deepest depth is below it, and there are no more threads than messages |
| ThreadViews.SelfCycleUnvisited | threading.js:129-152 | an article that references itself is its own child and no root; it is left unvisited while the walks over the other threads are defined and never reach it |
| Pool.EffectiveUser | nntp-pool.js:343 | the user part of a pool key is never empty: an empty name becomes `anon` |
| Pool.PoolKeyFields | nntp-pool.js:342-344 | the key splits back into host, port, TLS flag and effective user, so the password is no part of it |
| Pool.FindIndex | nntp-pool.js:230 | `findIndex` gives the first position of the id, or none exactly when it is absent |
| Pool.RemoveFirstCounts | nntp-pool.js:230-248 | `splice` after `findIndex` takes exactly one occurrence out |
| Pool.RemoveFirstMembers | nntp-pool.js:230-248 | other entries stay |
| Pool.RemoveFirstDistinct | nntp-pool.js:230-248 | out of a list without repetitions, removal leaves no trace of the id |
| Pool.RemoveAllCounts | nntp-pool.js:281-283 | removing a list of ids one after the other takes one occurrence of each |
| Pool.RemovedAllLists | nntp-pool.js:281-283 | repeated `removeConnection` acts on both lists as repeated removal |
| Pool.ReleaseRelists | nntp-pool.js:103-105 | releasing a listed connection leaves it in `connections` twice |
| Pool.TakeIdleLifo | nntp-pool.js:57-64 | a live idle connection is reused, the most recently idled first |
| Pool.TakeIdleDropsDead | nntp-pool.js:63-68 | a dead idle connection is dropped and not handed out |
| Pool.Made | nntp-pool.js:173-177 | every id made by the attempts is new and connected |
| Pool.MadeExactly | nntp-pool.js:173-177 | exactly the attempts whose connect succeeds add their connections, in order |
| Pool.MadeAllSucceed | nntp-pool.js:169-177 | when every connect succeeds, all `needed` connections are made |
| Pool.MoveIdleSpec | nntp-pool.js:182-189 | the idle list keeps what it had and gains exactly the connections neither in use nor idle |
| Pool.MoveIdleIgnores | nntp-pool.js:182-189 | in-use ids the list does not mention make no difference |
| Pool.MoveIdleAppendInUse | nntp-pool.js:182-189 | connections appended in use make no difference |
| Pool.EnsureMinIdle | nntp-pool.js:168-190 | with enough connections nothing changes; the new connections are in use and never made idle, so a new pool gets no idle connection |
| Pool.FilledReachesMin | nntp-pool.js:168-179 | when every connect succeeds, the pool reaches `minSize` |
| Pool.DeadOfCounts | nntp-pool.js:274-278 | the dead list holds each dead entry once per listing, and nothing live |
| Pool.DeadRemoved | nntp-pool.js:274-283 | after the dead entries are removed, only connected clients remain |
| Pool.ExpiredOf | nntp-pool.js:287-289 | the expired list is the idle connections whose stamp is set and older than `idleTimeout` |
| Pool.TrimKeepsMin | nntp-pool.js:292-297 | only expired idle connections are trimmed, none when at or below `minSize`, and never below `minSize` |
| Pool.ListedSpec | nntp-pool.js:350-358 | the connections visited by `shutdown` are exactly those of the listed pools |
| Pool.OrderedDelete | nntp-pool.js:304 | deleting a pool keeps the key order in step with the map |
| Pool.DropSnoc | nntp-pool.js:281-283 | removing one more id is one more `removeConnection` |
| Pool.DropDeadKeepsLive | nntp-pool.js:274-283 | removing the dead entries disconnects no one |
| Pool.PruneSpec | nntp-pool.js:272-297 | pruning leaves the lists `Pruned`. Only the trimmed idle connections are disconnected, the dead and trimmed ids leave `activeConnections`, and the stamps and counter stay |
| Pool.TakeSpec | nntp-pool.js:54-77 | a live idle connection is reused, most recently idled first. A dead one is removed and leaves `activeConnections` without disconnecting anyone. A connection is created only below `maxSize`, otherwise the caller waits. Whatever is handed out is connected, active and in use |
| Pool.PollSpec | nntp-pool.js:199-222 | a tick hands out the last idle connection without checking its client. Only a full pool with no idle connection waits, or fails once timed out |
| Pool.HostPool.constructor | nntp-pool.js:34-47 | a new pool takes the caller's server, account and password and the manager's limits, and starts empty |
| Pool.ConnectionPool.constructor | nntp-pool.js:9-23 | zero options take the defaults 10, 2 and five minutes, and everything starts empty |
| Pool.ConnectionPool.CreateNewConnection | nntp-pool.js:120-163 | the counter always advances; success appends the id, in use and active; failure leaves no trace |
| Pool.ConnectionPool.RemoveConnection | nntp-pool.js:229-258 | the first entry leaves both lists, the id leaves `inUse` and `activeConnections`, and nothing else changes |
| Pool.ConnectionPool.ClientClosed | nntp-stream-client.js:77-92 | a socket's close, end or error clears only that connection's liveness |
| Pool.ConnectionPool.ReleaseConnection | nntp-pool.js:83-115 | an unknown id changes nothing; otherwise a dead connection is removed, and a live one is stamped and appended to both lists; every other pool is left unchanged |
| Pool.ConnectionPool.Acquire | nntp-pool.js:54-77 | the result and the new lists, `activeConnections`, `live`, stamps and counter are `Take` of the old state; `lastUsed` is now |
| Pool.ConnectionPool.PollTick | nntp-pool.js:199-222 | the result and the whole new state are `Poll` of the old state, timed out past 10 s; `lastUsed` stays |
| Pool.ConnectionPool.GetConnection | nntp-pool.js:28-78 | a missing pool is created with the caller's password and the manager's limits, then the result and state are `Take` of `Fill` of the empty pool. An existing pool gives `Take` of its state, whatever the password. Every other pool is unchanged |
| Pool.ConnectionPool.EnsureMinConnections | nntp-pool.js:168-190 | the state becomes `Fill`: the ids made are in use, active under the pool's key and connected; the moved connections are stamped; the counter advances by the number needed |
| Pool.ConnectionPool.CreateMany | nntp-pool.js:172-179 | the attempts append exactly the connections made. These are in use, active under the pool's key and connected, and the counter advances by `needed` |
| Pool.ConnectionPool.MoveToIdle | nntp-pool.js:182-189 | the idle list becomes `MoveIdle`, and the moved connections are stamped |
| Pool.ConnectionPool.RemoveEach | nntp-pool.js:281-283 | the state becomes `Drop`: the lists are `RemovedAll`, every id leaves `activeConnections`, and exactly the ids the pool listed are disconnected |
| Pool.ConnectionPool.PrunePool | nntp-pool.js:272-297 | the state becomes `Prune`: the dead entries are removed, then the expired idle ones above `minSize` |
| Pool.ConnectionPool.CheckPoolHealth | nntp-pool.js:270-306 | the state becomes `Fill` of `Prune` of the old state, and the pool is dropped exactly when it is then empty and unused for more than ten minutes |
| Pool.ConnectionPool.CheckConnectionsHealth | nntp-pool.js:269-307 | pools are only ever dropped, and the counter never goes back |
| Pool.ConnectionPool.GetStats | nntp-pool.js:312-337 | each pool's counts, and totals that are their sums |
| Pool.ConnectionPool.Shutdown | nntp-pool.js:349-363 | `pools` and `activeConnections` end up empty, and every listed connection is disconnected |

## Left out

- Sockets, TLS, timers and the network are left out: the 30 s connect timeout, the 60 s command timeout, the `setInterval` health timer and the 100 ms polling. One poll is `PollTick`, and the clock is a parameter.
- Event emission and console logging are left out.
- Chunks are already-decoded strings, so UTF-8 decoding is left out.
- Every public operation runs to completion, so interleavings at `await` points are not modelled.
- In `connect`, the AUTHINFO exchange started from the greeting handler is not modelled. `authenticate` is modelled alone, by `Commands.Authenticate`. Only the part of the greeting handler that sets `connected` is modelled, inside `ProcessLine`.
- `StreamingClient.SendCommand`: `isConnected()` is reduced to the `connected` flag. The socket's own state is not part of the model.
- StreamClient.StreamingClient.Disconnect: does not reject the pending commands. The code clears the map without settling them, and the model follows the code.
- The extra `sendCommand('')` after the article in `post` is not modelled. Post is modelled as the article's lines and the three replies.
- `streamBody`/`body` are modelled only as the outcome `Commands.BodyResult`, with no per-line yielding.
- The error text of a failed connect is replaced by a constant, because the socket error is I/O.
- `parseInt` is modelled as optional whitespace, an optional sign and a decimal digit prefix. Hexadecimal and other radix forms are not modelled.
- Date parsing is not modelled: `new Date(...).getTime()` is an integer `dateKey`, so NaN dates are not modelled.
- The floating-point `avgMessagesPerThread` of `getThreadStats` is left out.
- ThreadViews: the walks take a ghost `rank` that falls from each visited node to its children. Nodes of rank 0 are never visited, so reference cycles that no root reaches are allowed (`SelfCycleUnvisited`). A cycle reachable from a root admits no rank, which matches the source's recursion not terminating. The model does not prove that every built arena without such a cycle has a rank.
- Threading: `MessageThread` objects are arena nodes, so object aliasing is not modelled. A child linked before its parent keeps a stale depth, and `LinkedDepth` states exactly that.
- Threading.SortByKey: the in-place, stable `Array.prototype.sort` is modelled as a stable insertion sort on values.
- Commands.SortByNumber: the in-place, stable `Array.prototype.sort` is modelled as a stable insertion sort on values.
- Text.ToLower: folds only `A` to `Z`, where JavaScript's `toLowerCase` folds all of Unicode. Header names in `Commands.HeaderEntry`, the reply test `Threading.IsReply` and the subject-base comparison in `Threading.Candidate` therefore tell non-ASCII capitals apart: `Re: Élan` does not thread under `élan`, where the source would thread it.
- Pool: a connection object is its id. The per-connection `client`, `createdAt`, `lastUsed` and `requestCount` are not modelled. `activeConnections` maps each id to its pool key.
- Pool.ConnectionPool.CheckConnectionsHealth: the contract states only that no pool is added, surviving pools are the same objects, and the counter does not go back. The per-pool effect is stated by `CheckPoolHealth`.
- Pool.ConnectionPool.CreateNewConnection: freshness of ids is stated through the counter, which always advances.
- In `ensureMinConnections`, attempts that run concurrently under `Promise.all` are made one after the other, in counter order.
- In nntp-client.js, the greeting check of `connect` and the socket wiring are not modelled.
- Database access, the HTTP/Socket.io servers and the browser front end are outside the NNTP core.

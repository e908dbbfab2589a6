/** The reply-tree builder of threading.js, following the References convention
    (RFC 5536, section 3.2.10). `MessageThread` objects become an arena: node
    `i` belongs to article `i`, and parents and children are node indices. An
    article's date is carried as the millisecond key `new Date(date).getTime()`
    would give, 0 when the article has no date. */
module Threading {
  import opened Wrappers
  import opened Text

  datatype Article = Article(messageId: String, references: String, subject: String, dateKey: int)

  // ---- parseReferences

  /** `parseReferences(refs)`: nothing for an absent or blank header, otherwise
      the whitespace-separated message ids of the trimmed header. */
  function ParseReferences(refs: String): seq<String>
  {
    if refs == [] || Trim(refs) == [] then []
    else NonEmpty(SplitWs(Trim(refs)))
  }

  /** Every id read from a References header is a non-empty run of
      non-whitespace. */
  lemma ParseReferencesTokens(refs: String)
    ensures var ids := ParseReferences(refs);
      forall k :: 0 <= k < |ids| ==> ids[k] != [] && NoSpace(ids[k])
  {
    if refs != [] && Trim(refs) != [] {
      var parts := SplitWs(Trim(refs));
      var ids := NonEmpty(parts);
      NonEmptyMembers(parts);
      assert forall k :: 0 <= k < |ids| ==> ids[k] in parts;
    }
  }

  /** A blank References header lists no parent. */
  lemma BlankReferences(refs: String)
    requires forall i :: 0 <= i < |refs| ==> IsSpace(refs[i])
    ensures ParseReferences(refs) == []
  {
    TrimFacts(refs);
  }

  lemma {:induction false} JoinLast(parts: seq<String>, sep: String)
    requires parts != [] && parts[|parts| - 1] != []
    ensures var j := Join(parts, sep); var l := parts[|parts| - 1];
      j != [] && j[|j| - 1] == l[|l| - 1]
  {
    if |parts| > 1 {
      JoinLast(parts[1..], sep);
    }
  }

  /** Ids joined by spaces neither start nor end with whitespace. */
  lemma JoinEnds(ids: seq<String>)
    requires ids != []
    requires forall k :: 0 <= k < |ids| ==> ids[k] != [] && NoSpace(ids[k])
    ensures var refs := Join(ids, " ");
      refs != [] && !IsSpace(refs[0]) && !IsSpace(refs[|refs| - 1])
  {
    var refs := Join(ids, " ");
    JoinLast(ids, " ");
    var l := ids[|ids| - 1];
    assert NoSpace(l) && NoSpace(ids[0]);
    assert refs[|refs| - 1] == l[|l| - 1];
    assert refs[0] == ids[0][0] by {
      if |ids| > 1 {
        assert refs == ids[0] + " " + Join(ids[1..], " ");
      }
    }
  }

  /** The header a poster writes, its ids separated by spaces, gives the ids back. */
  lemma ReferencesRoundTrip(ids: seq<String>)
    requires ids != []
    requires forall k :: 0 <= k < |ids| ==> ids[k] != [] && NoSpace(ids[k])
    ensures ParseReferences(Join(ids, " ")) == ids
  {
    var refs := Join(ids, " ");
    JoinEnds(ids);
    hide Join, SplitWs, NonEmpty, Trim;
    TrimFacts(refs);
    SplitWsJoin(ids);
    NonEmptyKeeps(ids);
  }

  // ---- isReply and extractSubjectBase

  /** The rest of `s` after `/^re:/i`, if it matches. */
  function AfterRe(s: String): Option<String>
  {
    if |s| >= 3 && LowerChar(s[0]) == 'r' && LowerChar(s[1]) == 'e' && s[2] == ':' then Some(s[3..])
    else None
  }

  /** The rest of `s` after `/^re\[?\d+\]?:/i`, if it matches: `re`, an optional
      `[`, digits, an optional `]`, and a colon. */
  function AfterReNumbered(s: String): Option<String>
  {
    if |s| >= 2 && LowerChar(s[0]) == 'r' && LowerChar(s[1]) == 'e' then
      var t := s[2..];
      var t1 := if t != [] && t[0] == '[' then t[1..] else t;
      var n := DigitRun(t1);
      if n == 0 then None
      else
        var t2 := t1[n..];
        var t3 := if t2 != [] && t2[0] == ']' then t2[1..] else t2;
        if t3 != [] && t3[0] == ':' then Some(t3[1..]) else None
    else None
  }

  /** The rest of `s` after `/^fwd?:/i`, if it matches. */
  function AfterFw(s: String): Option<String>
  {
    if |s| >= 3 && LowerChar(s[0]) == 'f' && LowerChar(s[1]) == 'w' then
      var t := if LowerChar(s[2]) == 'd' then s[3..] else s[2..];
      if t != [] && t[0] == ':' then Some(t[1..]) else None
    else None
  }

  /** `isReply(subject)`: the trimmed, lower-cased subject starts with `re:` or
      with a numbered `re[n]:`. */
  predicate IsReply(subject: String)
  {
    subject != [] &&
    var normalized := ToLower(Trim(subject));
    StartsWith(normalized, "re:") || AfterReNumbered(normalized).Some?
  }

  /** `s.replace(prefix + /\s* /, '')` for a prefix matcher: the match and the
      whitespace after it go, or `s` stays. */
  function Strip(rest: Option<String>, s: String): String
  {
    match rest
    case Some(r) => TrimStart(r)
    case None => s
  }

  /** The prefix matcher of stage `stage` of `extractSubjectBase`, counting down:
      stage 3 is `re:`, stage 2 the numbered `re[n]:`, stage 1 `fw:`/`fwd:`. */
  function Matcher(stage: nat, s: String): Option<String>
  {
    if stage == 3 then AfterRe(s)
    else if stage == 2 then AfterReNumbered(s)
    else AfterFw(s)
  }

  /** The stages of `extractSubjectBase` from `stage` down: each removes its
      prefix once, if present; the rest is trimmed. */
  function StripStages(s: String, stage: nat): String
    requires stage <= 3
    decreases stage
  {
    if stage == 0 then Trim(s)
    else StripStages(Strip(Matcher(stage, s), s), stage - 1)
  }

  /** `extractSubjectBase(subject)`: one `re:`, then one `re[n]:`, then one
      `fw:`/`fwd:` prefix are removed (each with the whitespace after it), and
      the rest is trimmed. The subject is not trimmed first. */
  function ExtractSubjectBase(subject: String): String
  {
    if subject == [] then [] else StripStages(subject, 3)
  }

  /** The three replacements spelled out one after the other. */
  lemma ExtractSteps(subject: String)
    requires subject != []
    ensures var s1 := Strip(AfterRe(subject), subject);
      var s2 := Strip(AfterReNumbered(s1), s1);
      var s3 := Strip(AfterFw(s2), s2);
      ExtractSubjectBase(subject) == Trim(s3)
  {
    var s1 := Strip(AfterRe(subject), subject);
    var s2 := Strip(AfterReNumbered(s1), s1);
    var s3 := Strip(AfterFw(s2), s2);
    assert StripStages(subject, 3) == StripStages(s1, 2);
    assert StripStages(s1, 2) == StripStages(s2, 1);
    assert StripStages(s2, 1) == StripStages(s3, 0);
  }

  /** A subject that is not itself reply-like: non-empty, no whitespace at either
      end, and not starting with `r` or `f` in either case. */
  predicate PlainSubject(b: String)
  {
    b != [] && !IsSpace(b[0]) && !IsSpace(b[|b| - 1])
    && LowerChar(b[0]) != 'r' && LowerChar(b[0]) != 'f'
  }

  lemma PlainIsOwnBase(b: String)
    requires PlainSubject(b)
    ensures ExtractSubjectBase(b) == b
  {
    assert AfterRe(b).None? && AfterReNumbered(b).None? && AfterFw(b).None?;
    ExtractSteps(b);
    TrimFacts(b);
  }

  lemma PlainIsNoReply(b: String)
    requires PlainSubject(b)
    ensures !IsReply(b)
  {
    TrimFacts(b);
    assert Trim(b) == b;
    assert ToLower(b)[0] == LowerChar(b[0]);
  }

  lemma PrefixedIsReply(b: String)
    requires PlainSubject(b)
    ensures IsReply("Re: " + b)
  {
    var s := "Re: " + b;
    TrimFacts(s);
    assert s[|s| - 1] == b[|b| - 1];
    assert Trim(s) == s;
    assert ToLower(s)[..3] == "re:";
  }

  lemma PrefixedBase(b: String)
    requires PlainSubject(b)
    ensures ExtractSubjectBase("Re: " + b) == b
  {
    var s := "Re: " + b;
    ExtractSteps(s);
    assert s[3..] == " " + b;
    assert AfterRe(s) == Some(" " + b);
    assert (" " + b)[1..] == b;
    assert TrimStart(" " + b) == TrimStart(b) == b;
    PlainIsOwnBase(b);
  }

  /** `Re: b` is a reply and its base is `b`; `b` itself is no reply and is its
      own base. */
  lemma ReplyBase(b: String)
    requires PlainSubject(b)
    ensures IsReply("Re: " + b) && ExtractSubjectBase("Re: " + b) == b
    ensures !IsReply(b) && ExtractSubjectBase(b) == b
  {
    PrefixedIsReply(b);
    PrefixedBase(b);
    PlainIsNoReply(b);
    PlainIsOwnBase(b);
  }

  /** Only one plain `re:` is removed, so the base of a base can differ. */
  lemma BaseNotIdempotent()
    ensures ExtractSubjectBase("Re: Re: x") == "Re: x"
    ensures ExtractSubjectBase(ExtractSubjectBase("Re: Re: x")) == "x"
  {
    var s := "Re: Re: x";
    ExtractSteps(s);
    OneReStripped();
    ReXKept();
    assert "Re: " + "x" == "Re: x";
    PrefixedBase("x");
  }

  lemma OneReStripped()
    ensures Strip(AfterRe("Re: Re: x"), "Re: Re: x") == "Re: x"
  {
    assert AfterRe("Re: Re: x") == Some(" Re: x");
    assert TrimStart(" Re: x") == "Re: x";
  }

  lemma ReXKept()
    ensures AfterReNumbered("Re: x").None? && AfterFw("Re: x").None? && Trim("Re: x") == "Re: x"
  {
    assert DigitRun(": x") == 0;
    assert TrimStart("Re: x") == "Re: x";
    assert TrimEnd("Re: x") == "Re: x";
  }

  // ---- The message-id index of the first pass

  /** `messageMap` after the first `n` articles: each non-empty id maps to the
      last article carrying it. */
  function MessageIndex(articles: seq<Article>, n: nat): (index: map<String, nat>)
    requires n <= |articles|
    ensures forall id :: id in index ==> index[id] < n
  {
    if n == 0 then map[]
    else
      var index := MessageIndex(articles, n - 1);
      var id := articles[n - 1].messageId;
      if id != [] then index[id := n - 1] else index
  }

  /** Some article among the first `n` carries the (non-empty) id. */
  predicate Carried(articles: seq<Article>, n: nat, id: String)
    requires n <= |articles|
  {
    id != [] && exists k :: 0 <= k < n && articles[k].messageId == id
  }

  /** An id is indexed exactly when some article carries it; articles without
      an id are not indexed. */
  lemma {:induction false} IndexDomain(articles: seq<Article>, n: nat, id: String)
    requires n <= |articles|
    ensures id in MessageIndex(articles, n) <==> Carried(articles, n, id)
  {
    if n > 0 {
      IndexDomain(articles, n - 1, id);
      if Carried(articles, n, id) && articles[n - 1].messageId != id {
        var k :| 0 <= k < n && articles[k].messageId == id;
        assert Carried(articles, n - 1, id);
      }
      if Carried(articles, n - 1, id) {
        var k :| 0 <= k < n - 1 && articles[k].messageId == id;
      }
    }
  }

  /** An indexed id names the last article carrying it: later duplicates win. */
  lemma {:induction false} IndexLastWins(articles: seq<Article>, n: nat, id: String)
    requires n <= |articles|
    requires id in MessageIndex(articles, n)
    ensures articles[MessageIndex(articles, n)[id]].messageId == id
    ensures forall j :: MessageIndex(articles, n)[id] < j < n ==> articles[j].messageId != id
  {
    var last := articles[n - 1].messageId;
    if id != last || last == [] {
      IndexDomain(articles, n - 1, id);
      IndexLastWins(articles, n - 1, id);
    }
  }

  // ---- Choosing the parent

  /** The node of the reference nearest the end of the list that is indexed. */
  function LastIndexed(refs: seq<String>, index: map<String, nat>): Option<nat>
  {
    if refs == [] then None
    else if refs[|refs| - 1] in index then Some(index[refs[|refs| - 1]])
    else LastIndexed(refs[..|refs| - 1], index)
  }

  /** No parent is chosen exactly when no reference is indexed; a chosen parent
      is the node of an indexed reference after which no reference is indexed. */
  lemma LastIndexedSpec(refs: seq<String>, index: map<String, nat>)
    ensures LastIndexed(refs, index).None? <==> forall i :: 0 <= i < |refs| ==> refs[i] !in index
    ensures LastIndexed(refs, index).Some? ==>
      exists i :: 0 <= i < |refs| && refs[i] in index && index[refs[i]] == LastIndexed(refs, index).value
        && forall j :: i < j < |refs| ==> refs[j] !in index
  {
    LastIndexedNone(refs, index);
    if LastIndexed(refs, index).Some? {
      LastIndexedSome(refs, index);
    }
  }

  lemma {:induction false} LastIndexedNone(refs: seq<String>, index: map<String, nat>)
    ensures LastIndexed(refs, index).None? <==> forall i :: 0 <= i < |refs| ==> refs[i] !in index
  {
    if refs != [] && refs[|refs| - 1] !in index {
      var init := refs[..|refs| - 1];
      LastIndexedNone(init, index);
      assert forall i :: 0 <= i < |init| ==> refs[i] == init[i];
    }
  }

  lemma {:induction false} LastIndexedSome(refs: seq<String>, index: map<String, nat>)
    requires LastIndexed(refs, index).Some?
    ensures exists i :: (0 <= i < |refs| && refs[i] in index && index[refs[i]] == LastIndexed(refs, index).value
                         && forall j :: i < j < |refs| ==> refs[j] !in index)
  {
    if refs[|refs| - 1] in index {
      var i := |refs| - 1;
      assert refs[i] in index && index[refs[i]] == LastIndexed(refs, index).value;
    } else {
      var init := refs[..|refs| - 1];
      LastIndexedSome(init, index);
      var i :| 0 <= i < |init| && init[i] in index && index[init[i]] == LastIndexed(init, index).value
        && forall j :: i < j < |init| ==> init[j] !in index;
      assert refs[i] == init[i];
      assert forall j :: i < j < |refs| ==> refs[j] !in index by {
        assert forall j :: i < j < |init| ==> refs[j] == init[j];
      }
    }
  }

  /** The loop of the second pass that walks the references from the end. */
  method ChooseParent(refs: seq<String>, index: map<String, nat>) returns (parent: Option<nat>)
    ensures parent == LastIndexed(refs, index)
  {
    var i := |refs|;
    assert refs[..i] == refs;
    while i > 0
      invariant 0 <= i <= |refs|
      invariant LastIndexed(refs, index) == LastIndexed(refs[..i], index)
    {
      assert refs[..i][..i - 1] == refs[..i - 1];
      if refs[i - 1] in index {
        return Some(index[refs[i - 1]]);
      }
      i := i - 1;
    }
    return None;
  }

  // ---- findParentBySubject

  /** Article `j` can be the subject parent of `current`: another article with the
      same base subject, ignoring ASCII case, and a date key strictly between 0
      and the current one. */
  predicate Candidate(articles: seq<Article>, current: nat, base: String, j: nat)
    requires current < |articles| && j < |articles|
  {
    j != current
    && ToLower(ExtractSubjectBase(articles[j].subject)) == ToLower(base)
    && 0 < articles[j].dateKey < articles[current].dateKey
  }

  function Candidates(articles: seq<Article>, current: nat, base: String): (c: seq<bool>)
    requires current < |articles|
    ensures |c| == |articles|
  {
    seq(|articles|, j requires 0 <= j < |articles| => Candidate(articles, current, base, j))
  }

  function DateKeys(articles: seq<Article>): (d: seq<int>)
    ensures |d| == |articles|
  {
    seq(|articles|, j requires 0 <= j < |articles| => articles[j].dateKey)
  }

  /** The scan of `findParentBySubject` over the first `n` entries: a candidate
      replaces the best so far only with a strictly later date, so the first of
      equal dates stays. */
  function BestUpTo(cands: seq<bool>, dates: seq<int>, n: nat): (r: Option<nat>)
    requires |cands| == |dates| && n <= |cands|
    ensures r.Some? ==> r.value < n && cands[r.value]
  {
    if n == 0 then None
    else
      var best := BestUpTo(cands, dates, n - 1);
      var bestDate := if best.None? then 0 else dates[best.value];
      if cands[n - 1] && dates[n - 1] > bestDate then Some(n - 1) else best
  }

  /** The chosen entry is a candidate with the latest date, and no earlier
      candidate has the same date; there is none exactly when there is no
      candidate (every candidate's date is positive). */
  lemma {:induction false} BestUpToSpec(cands: seq<bool>, dates: seq<int>, n: nat)
    requires |cands| == |dates| && n <= |cands|
    requires forall j :: 0 <= j < |cands| && cands[j] ==> dates[j] > 0
    ensures var r := BestUpTo(cands, dates, n);
      && (r.None? <==> forall j :: 0 <= j < n ==> !cands[j])
      && (r.Some? ==> forall j :: 0 <= j < n && cands[j] ==> dates[j] <= dates[r.value])
      && (r.Some? ==> forall j :: 0 <= j < r.value && cands[j] ==> dates[j] < dates[r.value])
  {
    if n > 0 {
      BestUpToSpec(cands, dates, n - 1);
    }
  }

  /** `findParentBySubject(subjectBase, threads, thread)`'s answer: none for an
      empty base, otherwise the latest earlier-dated article with the same base. */
  function BestMatch(articles: seq<Article>, current: nat, base: String): Option<nat>
    requires current < |articles|
  {
    if base == [] then None
    else BestUpTo(Candidates(articles, current, base), DateKeys(articles), |articles|)
  }

  lemma BestMatchSpec(articles: seq<Article>, current: nat, base: String)
    requires current < |articles| && base != []
    ensures var cands := Candidates(articles, current, base);
      var r := BestMatch(articles, current, base);
      && (r.None? <==> forall j :: 0 <= j < |articles| ==> !cands[j])
      && (r.Some? ==> r.value < |articles| && cands[r.value])
      && (r.Some? ==> forall j :: 0 <= j < |articles| && cands[j] ==>
            articles[j].dateKey <= articles[r.value].dateKey)
      && (r.Some? ==> forall j :: 0 <= j < r.value && cands[j] ==>
            articles[j].dateKey < articles[r.value].dateKey)
  {
    var cands := Candidates(articles, current, base);
    var dates := DateKeys(articles);
    forall j | 0 <= j < |cands| && cands[j]
      ensures dates[j] > 0
    {
      assert Candidate(articles, current, base, j);
    }
    BestUpToSpec(cands, dates, |articles|);
  }

  /** `findParentBySubject(subjectBase, threads, thread)`. */
  method FindParentBySubject(base: String, articles: seq<Article>, current: nat) returns (best: Option<nat>)
    requires current < |articles|
    ensures best == BestMatch(articles, current, base)
  {
    if base == [] {
      return None;
    }
    best := ScanSubjects(base, articles, current);
  }

  /** The loop of `findParentBySubject` over all threads. */
  method ScanSubjects(base: String, articles: seq<Article>, current: nat) returns (best: Option<nat>)
    requires current < |articles|
    ensures best == BestUpTo(Candidates(articles, current, base), DateKeys(articles), |articles|)
  {
    hide Candidate;
    ghost var cands := Candidates(articles, current, base);
    ghost var dates := DateKeys(articles);
    best := None;
    var bestDate := 0;
    var j := 0;
    while j < |articles|
      invariant 0 <= j <= |articles|
      invariant best == BestUpTo(cands, dates, j)
      invariant bestDate == if best.None? then 0 else dates[best.value]
    {
      assert cands[j] == Candidate(articles, current, base, j) && dates[j] == articles[j].dateKey;
      if Candidate(articles, current, base, j) && articles[j].dateKey > bestDate {
        best := Some(j);
        bestDate := articles[j].dateKey;
      }
      j := j + 1;
    }
  }

  /** The parent the second pass gives article `j`: the last indexed reference,
      else, for a reply-like subject only, the subject match. */
  function ParentChoice(articles: seq<Article>, j: nat): (r: Option<nat>)
    requires j < |articles|
    ensures r.Some? ==> r.value < |articles|
  {
    var index := MessageIndex(articles, |articles|);
    match LastIndexed(ParseReferences(articles[j].references), index)
    case Some(p) => LastIndexedBound(ParseReferences(articles[j].references), index, |articles|); Some(p)
    case None =>
      if IsReply(articles[j].subject) then BestMatch(articles, j, ExtractSubjectBase(articles[j].subject))
      else None
  }

  lemma {:induction false} LastIndexedBound(refs: seq<String>, index: map<String, nat>, n: nat)
    requires forall id :: id in index ==> index[id] < n
    ensures LastIndexed(refs, index).Some? ==> LastIndexed(refs, index).value < n
  {
    if refs != [] && refs[|refs| - 1] !in index {
      LastIndexedBound(refs[..|refs| - 1], index, n);
    }
  }

  /** The subject fallback applies only to reply-like subjects whose references
      name no indexed article. */
  lemma SubjectFallbackOnlyForReplies(articles: seq<Article>, j: nat)
    requires j < |articles|
    ensures var index := MessageIndex(articles, |articles|);
      var refs := ParseReferences(articles[j].references);
      ParentChoice(articles, j).Some? && LastIndexed(refs, index).None? ==> IsReply(articles[j].subject)
    ensures !IsReply(articles[j].subject) ==>
      ParentChoice(articles, j) == LastIndexed(ParseReferences(articles[j].references), MessageIndex(articles, |articles|))
  {
  }

  /** A parent chosen by the second pass is either the article indexed under
      one of the references, or, for a reply-like subject, a subject candidate. */
  lemma ParentChoiceSound(articles: seq<Article>, j: nat)
    requires j < |articles|
    ensures var refs := ParseReferences(articles[j].references);
      match ParentChoice(articles, j)
      case None => true
      case Some(p) =>
        (exists i :: 0 <= i < |refs| && articles[p].messageId == refs[i])
        || (IsReply(articles[j].subject)
            && Candidate(articles, j, ExtractSubjectBase(articles[j].subject), p))
  {
    var index := MessageIndex(articles, |articles|);
    var refs := ParseReferences(articles[j].references);
    LastIndexedSpec(refs, index);
    if LastIndexed(refs, index).Some? {
      var i :| 0 <= i < |refs| && refs[i] in index && index[refs[i]] == LastIndexed(refs, index).value
        && forall k :: i < k < |refs| ==> refs[k] !in index;
      IndexLastWins(articles, |articles|, refs[i]);
    } else if IsReply(articles[j].subject) && ExtractSubjectBase(articles[j].subject) != [] {
      BestMatchSpec(articles, j, ExtractSubjectBase(articles[j].subject));
    }
  }

  // ---- Sorting by date (`Array.prototype.sort` is stable)

  /** The comparator's key for node `x`: its date key (0 for an index out of
      range), negated when the newest come first. */
  function SortKey(keys: seq<int>, x: nat, descending: bool): int
  {
    var k := if x < |keys| then keys[x] else 0;
    if descending then -k else k
  }

  predicate SortedByKey(xs: seq<nat>, keys: seq<int>, descending: bool)
  {
    forall a, b :: 0 <= a < b < |xs| ==> SortKey(keys, xs[a], descending) <= SortKey(keys, xs[b], descending)
  }

  /** Inserts `x` after every entry whose key is not greater, so equal keys keep
      their order. */
  function InsertByKey(xs: seq<nat>, x: nat, keys: seq<int>, descending: bool): seq<nat>
  {
    if xs == [] then [x]
    else if SortKey(keys, xs[|xs| - 1], descending) <= SortKey(keys, x, descending) then xs + [x]
    else InsertByKey(xs[..|xs| - 1], x, keys, descending) + [xs[|xs| - 1]]
  }

  /** `sort((a, b) => dateA - dateB)`, or `dateB - dateA` when descending. */
  function SortByKey(xs: seq<nat>, keys: seq<int>, descending: bool): seq<nat>
  {
    if xs == [] then []
    else InsertByKey(SortByKey(xs[..|xs| - 1], keys, descending), xs[|xs| - 1], keys, descending)
  }

  predicate KeysAtMost(xs: seq<nat>, keys: seq<int>, descending: bool, bound: int)
  {
    forall a :: 0 <= a < |xs| ==> SortKey(keys, xs[a], descending) <= bound
  }

  lemma {:induction false} InsertKeysAtMost(xs: seq<nat>, x: nat, keys: seq<int>, descending: bool, bound: int)
    requires KeysAtMost(xs, keys, descending, bound) && SortKey(keys, x, descending) <= bound
    ensures KeysAtMost(InsertByKey(xs, x, keys, descending), keys, descending, bound)
  {
    if xs != [] && SortKey(keys, xs[|xs| - 1], descending) > SortKey(keys, x, descending) {
      InsertKeysAtMost(xs[..|xs| - 1], x, keys, descending, bound);
    }
  }

  lemma {:induction false} InsertByKeySorted(xs: seq<nat>, x: nat, keys: seq<int>, descending: bool)
    requires SortedByKey(xs, keys, descending)
    ensures SortedByKey(InsertByKey(xs, x, keys, descending), keys, descending)
  {
    if xs != [] {
      var init := xs[..|xs| - 1];
      var top := SortKey(keys, xs[|xs| - 1], descending);
      if top > SortKey(keys, x, descending) {
        InsertByKeySorted(init, x, keys, descending);
        InsertKeysAtMost(init, x, keys, descending, top);
      }
    }
  }

  lemma {:induction false} InsertByKeyPermutes(xs: seq<nat>, x: nat, keys: seq<int>, descending: bool)
    ensures multiset(InsertByKey(xs, x, keys, descending)) == multiset(xs) + multiset{x}
  {
    if xs != [] && SortKey(keys, xs[|xs| - 1], descending) > SortKey(keys, x, descending) {
      InsertByKeyPermutes(xs[..|xs| - 1], x, keys, descending);
      assert xs == xs[..|xs| - 1] + [xs[|xs| - 1]];
    }
  }

  /** The sorted nodes are in date order ... */
  lemma {:induction false} SortByKeySorted(xs: seq<nat>, keys: seq<int>, descending: bool)
    ensures SortedByKey(SortByKey(xs, keys, descending), keys, descending)
  {
    if xs != [] {
      SortByKeySorted(xs[..|xs| - 1], keys, descending);
      InsertByKeySorted(SortByKey(xs[..|xs| - 1], keys, descending), xs[|xs| - 1], keys, descending);
    }
  }

  /** ... and are the same nodes, none lost or repeated. */
  lemma {:induction false} SortByKeyPermutes(xs: seq<nat>, keys: seq<int>, descending: bool)
    ensures multiset(SortByKey(xs, keys, descending)) == multiset(xs)
  {
    if xs != [] {
      var init := xs[..|xs| - 1];
      SortByKeyPermutes(init, keys, descending);
      InsertByKeyPermutes(SortByKey(init, keys, descending), xs[|xs| - 1], keys, descending);
      assert xs == init + [xs[|xs| - 1]];
    }
  }

  /** Nodes already in order stay as they are: the sort is stable. */
  lemma {:induction false} SortedByKeyUnchanged(xs: seq<nat>, keys: seq<int>, descending: bool)
    requires SortedByKey(xs, keys, descending)
    ensures SortByKey(xs, keys, descending) == xs
  {
    if xs != [] {
      var init := xs[..|xs| - 1];
      assert SortedByKey(init, keys, descending);
      SortedByKeyUnchanged(init, keys, descending);
      if |init| > 0 {
        assert SortKey(keys, init[|init| - 1], descending) <= SortKey(keys, xs[|xs| - 1], descending);
      }
      assert init + [xs[|xs| - 1]] == xs;
    }
  }

  /** Appending to a sorted list and sorting again is sorting the whole list,
      which is why re-sorting the children after every `addChild` amounts to one
      stable sort of all of them. */
  lemma ResortAppend(xs: seq<nat>, x: nat, keys: seq<int>, descending: bool)
    ensures SortByKey(SortByKey(xs, keys, descending) + [x], keys, descending)
         == SortByKey(xs + [x], keys, descending)
  {
    var sorted := SortByKey(xs, keys, descending);
    SortByKeySorted(xs, keys, descending);
    SortedByKeyUnchanged(sorted, keys, descending);
    assert (sorted + [x])[..|sorted|] == sorted;
    assert (xs + [x])[..|xs|] == xs;
  }

  // ---- MessageThread nodes in an arena

  /** A `MessageThread`: node `i` of the arena wraps article `i`; `children` and
      `parent` are node indices. */
  datatype ThreadNode = ThreadNode(
    article: Article,
    references: seq<String>,
    children: seq<nat>,
    parent: Option<nat>,
    depth: int)

  /** `new MessageThread(article)`. */
  function NewNode(article: Article): ThreadNode
  {
    ThreadNode(article, ParseReferences(article.references), [], None, 0)
  }

  /** `parent.addChild(child)` on the arena: the child's parent and depth are
      set first (so a node made its own child reads its old depth), then the
      parent's children get the child appended and are sorted oldest first. */
  function Attach(nodes: seq<ThreadNode>, keys: seq<int>, p: nat, c: nat): (r: seq<ThreadNode>)
    requires p < |nodes| && c < |nodes|
    ensures |r| == |nodes|
  {
    var linked := nodes[c := nodes[c].(parent := Some(p), depth := nodes[p].depth + 1)];
    linked[p := linked[p].(children := SortByKey(linked[p].children + [c], keys, false))]
  }

  /** The nodes of the first pass, `articles.map(a => new MessageThread(a))`. */
  function Initial(articles: seq<Article>): (nodes: seq<ThreadNode>)
    ensures |nodes| == |articles|
    ensures forall i :: 0 <= i < |articles| ==>
      nodes[i].article == articles[i] && nodes[i].references == ParseReferences(articles[i].references)
  {
    seq(|articles|, i requires 0 <= i < |articles| => NewNode(articles[i]))
  }

  /** The parent the second pass chooses for every article. */
  function Choices(articles: seq<Article>): (choice: seq<Option<nat>>)
    ensures |choice| == |articles| && ChoicesInRange(choice, |articles|)
  {
    ChoicesUpTo(articles, |articles|)
  }

  /** The parents chosen for the first `n` articles. */
  function ChoicesUpTo(articles: seq<Article>, n: nat): (choice: seq<Option<nat>>)
    requires n <= |articles|
    ensures |choice| == n && ChoicesInRange(choice, |articles|)
  {
    if n == 0 then [] else ChoicesUpTo(articles, n - 1) + [ParentChoice(articles, n - 1)]
  }

  /** The choice recorded for article `j` is its parent. */
  lemma {:induction false} ChoiceAt(articles: seq<Article>, n: nat, j: nat)
    requires j < n <= |articles|
    ensures ChoicesUpTo(articles, n)[j] == ParentChoice(articles, j)
  {
    hide ParentChoice;
    if j < n - 1 {
      ChoiceAt(articles, n - 1, j);
    }
  }

  predicate ChoicesInRange(choice: seq<Option<nat>>, n: nat)
  {
    forall j :: 0 <= j < |choice| && choice[j].Some? ==> choice[j].value < n
  }

  /** Node `j` after the second pass has handled the first `k` articles, given
      the parent `choice[i]` of each article `i`: the `addChild` calls of the
      first `k` steps, seen from node `j`. */
  function NodeAt(nodes: seq<ThreadNode>, choice: seq<Option<nat>>, keys: seq<int>, k: nat, j: nat): ThreadNode
    requires |choice| == |nodes| && k <= |nodes| && ChoicesInRange(choice, |nodes|) && j < |nodes|
  {
    if k == 0 then nodes[j]
    else
      var prev := NodeAt(nodes, choice, keys, k - 1, j);
      match choice[k - 1]
      case None => prev
      case Some(q) =>
        var linked := if j == k - 1 then prev.(parent := Some(q), depth := NodeAt(nodes, choice, keys, k - 1, q).depth + 1)
                      else prev;
        if j == q then linked.(children := SortByKey(linked.children + [k - 1], keys, false)) else linked
  }

  /** All nodes after the first `k` steps of the second pass. */
  function Linked(nodes: seq<ThreadNode>, choice: seq<Option<nat>>, keys: seq<int>, k: nat): (r: seq<ThreadNode>)
    requires |choice| == |nodes| && k <= |nodes| && ChoicesInRange(choice, |nodes|)
    ensures |r| == |nodes|
  {
    seq(|nodes|, j requires 0 <= j < |nodes| => NodeAt(nodes, choice, keys, k, j))
  }

  /** One step of the second pass is one `addChild`, or nothing for a root. */
  lemma LinkedStep(nodes: seq<ThreadNode>, choice: seq<Option<nat>>, keys: seq<int>, k: nat)
    requires |choice| == |nodes| && k < |nodes| && ChoicesInRange(choice, |nodes|)
    ensures choice[k].Some? ==>
      Linked(nodes, choice, keys, k + 1) == Attach(Linked(nodes, choice, keys, k), keys, choice[k].value, k)
    ensures choice[k].None? ==> Linked(nodes, choice, keys, k + 1) == Linked(nodes, choice, keys, k)
  {
    var prev := Linked(nodes, choice, keys, k);
    var next := Linked(nodes, choice, keys, k + 1);
    if choice[k].Some? {
      var q := choice[k].value;
      forall j | 0 <= j < |nodes| ensures next[j] == Attach(prev, keys, q, k)[j] {
        AttachAt(prev, keys, q, k, j);
      }
    }
  }

  /** `rootThreads` after the first `k` articles, in the order they were pushed. */
  function Unattached(choice: seq<Option<nat>>, k: nat): seq<nat>
    requires k <= |choice|
  {
    if k == 0 then []
    else if choice[k - 1].None? then Unattached(choice, k - 1) + [k - 1]
    else Unattached(choice, k - 1)
  }

  /** The articles among the first `k` whose chosen parent is `p`, in article order. */
  function ChildrenOf(choice: seq<Option<nat>>, p: nat, k: nat): seq<nat>
    requires k <= |choice|
  {
    if k == 0 then []
    else if choice[k - 1] == Some(p) then ChildrenOf(choice, p, k - 1) + [k - 1]
    else ChildrenOf(choice, p, k - 1)
  }

  lemma {:induction false} UnattachedSpec(choice: seq<Option<nat>>, k: nat, j: nat)
    requires k <= |choice|
    ensures j in Unattached(choice, k) <==> j < k && choice[j].None?
  {
    if k > 0 {
      UnattachedSpec(choice, k - 1, j);
    }
  }

  lemma {:induction false} ChildrenOfSpec(choice: seq<Option<nat>>, p: nat, k: nat, c: nat)
    requires k <= |choice|
    ensures c in ChildrenOf(choice, p, k) <==> c < k && choice[c] == Some(p)
  {
    if k > 0 {
      ChildrenOfSpec(choice, p, k - 1, c);
    }
  }

  /** Each article is pushed at most once: the children of a node are distinct. */
  lemma {:induction false} ChildrenOfDistinct(choice: seq<Option<nat>>, p: nat, k: nat, c: nat)
    requires k <= |choice|
    ensures multiset(ChildrenOf(choice, p, k))[c] <= 1
  {
    if k > 0 {
      var prev := ChildrenOf(choice, p, k - 1);
      ChildrenOfDistinct(choice, p, k - 1, c);
      if choice[k - 1] == Some(p) {
        var x: nat := k - 1;
        CountSnoc(prev, x, c);
        if c == x {
          ChildrenOfSpec(choice, p, k - 1, c);
          CountAbsent(prev, c);
        }
      }
    }
  }

  /** Nodes as `new MessageThread` leaves them: no parent, no children, depth 0. */
  predicate Unlinked(nodes: seq<ThreadNode>)
  {
    forall i :: 0 <= i < |nodes| ==> nodes[i].parent.None? && nodes[i].children == [] && nodes[i].depth == 0
  }

  /** What `addChild` changes, node by node. */
  lemma AttachAt(nodes: seq<ThreadNode>, keys: seq<int>, p: nat, c: nat, i: nat)
    requires p < |nodes| && c < |nodes| && i < |nodes|
    ensures var r := Attach(nodes, keys, p, c);
      && r[i].parent == (if i == c then Some(p) else nodes[i].parent)
      && r[i].depth == (if i == c then nodes[p].depth + 1 else nodes[i].depth)
      && r[i].children == (if i == p then SortByKey(nodes[p].children + [c], keys, false) else nodes[i].children)
      && r[i].article == nodes[i].article && r[i].references == nodes[i].references
  {
  }

  /** Linking leaves every node's article and references as they were. */
  lemma {:induction false} LinkedKeeps(nodes: seq<ThreadNode>, choice: seq<Option<nat>>, keys: seq<int>, k: nat, j: nat)
    requires |choice| == |nodes| && k <= |nodes| && ChoicesInRange(choice, |nodes|) && j < |nodes|
    ensures NodeAt(nodes, choice, keys, k, j).article == nodes[j].article
    ensures NodeAt(nodes, choice, keys, k, j).references == nodes[j].references
  {
    if k > 0 {
      LinkedKeeps(nodes, choice, keys, k - 1, j);
    }
  }

  /** The second pass sets the parent of each article it has handled to the
      chosen parent, and of no other. */
  lemma {:induction false} LinkedParent(nodes: seq<ThreadNode>, choice: seq<Option<nat>>, keys: seq<int>, k: nat, j: nat)
    requires |choice| == |nodes| && k <= |nodes| && ChoicesInRange(choice, |nodes|) && j < |nodes|
    requires Unlinked(nodes)
    ensures NodeAt(nodes, choice, keys, k, j).parent == if j < k then choice[j] else None
  {
    if k > 0 {
      LinkedParent(nodes, choice, keys, k - 1, j);
    }
  }

  /** A step of the second pass adds the handled article to its parent's
      children and re-sorts them, and leaves every other child list alone. */
  lemma ChildrenStep(nodes: seq<ThreadNode>, choice: seq<Option<nat>>, keys: seq<int>, k: nat, p: nat)
    requires |choice| == |nodes| && 0 < k <= |nodes| && ChoicesInRange(choice, |nodes|) && p < |nodes|
    ensures var prev := NodeAt(nodes, choice, keys, k - 1, p).children;
      NodeAt(nodes, choice, keys, k, p).children ==
        if choice[k - 1] == Some(p) then SortByKey(prev + [k - 1], keys, false) else prev
  {
  }

  /** The children of a node are the articles that chose it, sorted oldest
      first, stably. */
  lemma {:induction false} LinkedChildren(nodes: seq<ThreadNode>, choice: seq<Option<nat>>, keys: seq<int>, k: nat, p: nat)
    requires |choice| == |nodes| && k <= |nodes| && ChoicesInRange(choice, |nodes|) && p < |nodes|
    requires nodes[p].children == []
    ensures NodeAt(nodes, choice, keys, k, p).children == SortByKey(ChildrenOf(choice, p, k), keys, false)
  {
    if k > 0 {
      var x: nat := k - 1;
      LinkedChildren(nodes, choice, keys, x, p);
      var prev := NodeAt(nodes, choice, keys, x, p).children;
      var before := ChildrenOf(choice, p, x);
      assert prev == SortByKey(before, keys, false);
      ChildrenStep(nodes, choice, keys, k, p);
      if choice[x] == Some(p) {
        assert NodeAt(nodes, choice, keys, k, p).children == SortByKey(prev + [x], keys, false);
        ResortAppend(before, x, keys, false);
        assert ChildrenOf(choice, p, k) == before + [x];
      } else {
        assert NodeAt(nodes, choice, keys, k, p).children == prev;
      }
    }
  }

  /** A linked article's depth is one more than its parent's depth at the moment
      it was linked; it is never updated afterwards. */
  lemma {:induction false} LinkedDepth(nodes: seq<ThreadNode>, choice: seq<Option<nat>>, keys: seq<int>, k: nat, j: nat)
    requires |choice| == |nodes| && k <= |nodes| && ChoicesInRange(choice, |nodes|) && j < |nodes|
    requires Unlinked(nodes)
    ensures NodeAt(nodes, choice, keys, k, j).depth ==
      if j < k && choice[j].Some? then NodeAt(nodes, choice, keys, j, choice[j].value).depth + 1
      else 0
  {
    if k > 0 {
      LinkedDepth(nodes, choice, keys, k - 1, j);
    }
  }

  /** After the whole second pass an article is a root exactly when it has no
      parent. */
  lemma ArenaRoots(nodes: seq<ThreadNode>, choice: seq<Option<nat>>, keys: seq<int>, j: nat)
    requires |choice| == |nodes| && ChoicesInRange(choice, |nodes|) && Unlinked(nodes)
    ensures j in SortByKey(Unattached(choice, |nodes|), keys, true) <==>
      j < |nodes| && NodeAt(nodes, choice, keys, |nodes|, j).parent.None?
  {
    SortByKeyPermutes(Unattached(choice, |nodes|), keys, true);
    SameMembers(SortByKey(Unattached(choice, |nodes|), keys, true), Unattached(choice, |nodes|), j);
    UnattachedSpec(choice, |nodes|, j);
    if j < |nodes| {
      LinkedParent(nodes, choice, keys, |nodes|, j);
    }
  }

  /** ... and a node's children are exactly the nodes whose parent it is, so
      every article is either a root or in the child list of its parent. */
  lemma ArenaChildren(nodes: seq<ThreadNode>, choice: seq<Option<nat>>, keys: seq<int>, p: nat, c: nat)
    requires |choice| == |nodes| && ChoicesInRange(choice, |nodes|) && Unlinked(nodes) && p < |nodes|
    ensures c in NodeAt(nodes, choice, keys, |nodes|, p).children <==>
      c < |nodes| && NodeAt(nodes, choice, keys, |nodes|, c).parent == Some(p)
  {
    LinkedChildren(nodes, choice, keys, |nodes|, p);
    SortByKeyPermutes(ChildrenOf(choice, p, |nodes|), keys, false);
    SameMembers(SortByKey(ChildrenOf(choice, p, |nodes|), keys, false), ChildrenOf(choice, p, |nodes|), c);
    ChildrenOfSpec(choice, p, |nodes|, c);
    if c < |nodes| {
      LinkedParent(nodes, choice, keys, |nodes|, c);
    }
  }

  /** Children lists are ordered oldest first and hold each child once. */
  lemma ArenaChildrenOrdered(nodes: seq<ThreadNode>, choice: seq<Option<nat>>, keys: seq<int>, p: nat, c: nat)
    requires |choice| == |nodes| && ChoicesInRange(choice, |nodes|) && Unlinked(nodes) && p < |nodes|
    ensures SortedByKey(NodeAt(nodes, choice, keys, |nodes|, p).children, keys, false)
    ensures multiset(NodeAt(nodes, choice, keys, |nodes|, p).children)[c] <= 1
  {
    LinkedChildren(nodes, choice, keys, |nodes|, p);
    SortByKeySorted(ChildrenOf(choice, p, |nodes|), keys, false);
    SortByKeyPermutes(ChildrenOf(choice, p, |nodes|), keys, false);
    ChildrenOfDistinct(choice, p, |nodes|, c);
  }

  lemma {:induction false} UnattachedDistinct(choice: seq<Option<nat>>, k: nat, j: nat)
    requires k <= |choice|
    ensures multiset(Unattached(choice, k))[j] <= 1
  {
    if k > 0 {
      var prev := Unattached(choice, k - 1);
      UnattachedDistinct(choice, k - 1, j);
      if choice[k - 1].None? {
        var x: nat := k - 1;
        CountSnoc(prev, x, j);
        if j == x {
          UnattachedSpec(choice, k - 1, j);
          CountAbsent(prev, j);
        }
      }
    }
  }

  /** The root threads are ordered newest first and hold each root once. */
  lemma RootsOrdered(choice: seq<Option<nat>>, keys: seq<int>, j: nat)
    ensures SortedByKey(SortByKey(Unattached(choice, |choice|), keys, true), keys, true)
    ensures multiset(SortByKey(Unattached(choice, |choice|), keys, true))[j] <= 1
  {
    SortByKeySorted(Unattached(choice, |choice|), keys, true);
    SortByKeyPermutes(Unattached(choice, |choice|), keys, true);
    UnattachedDistinct(choice, |choice|, j);
  }

  lemma InitialUnlinked(articles: seq<Article>)
    ensures Unlinked(Initial(articles))
  {
  }

  /** In the built tree every article's parent is the one the second pass chose. */
  lemma BuiltParent(articles: seq<Article>, j: nat)
    requires j < |articles|
    ensures BuiltNodes(articles)[j].parent == ParentChoice(articles, j)
  {
    hide ParentChoice;
    InitialUnlinked(articles);
    ChoiceAt(articles, |articles|, j);
    LinkedParent(Initial(articles), Choices(articles), DateKeys(articles), |articles|, j);
  }

  // ---- buildThreadTree

  /** The `MessageThread` objects of one `buildThreadTree` call, as an arena. */
  class Forest {
    var nodes: seq<ThreadNode>
    /** The date key of each node's article, which the sorts compare. */
    const keys: seq<int>

    /** The first pass: one fresh node per article. */
    constructor (articles: seq<Article>)
      ensures nodes == Initial(articles) && keys == DateKeys(articles)
    {
      nodes := Initial(articles);
      keys := DateKeys(articles);
    }

    /** `parent.addChild(child)`. */
    method AddChild(p: nat, c: nat)
      requires p < |nodes| && c < |nodes|
      modifies this
      ensures nodes == Attach(old(nodes), keys, p, c)
    {
      nodes := nodes[c := nodes[c].(parent := Some(p), depth := nodes[p].depth + 1)];
      var parent := nodes[p];
      nodes := nodes[p := parent.(children := SortByKey(parent.children + [c], keys, false))];
    }
  }

  /** The loop of the first pass that fills `messageMap`. */
  method BuildIndex(articles: seq<Article>) returns (index: map<String, nat>)
    ensures index == MessageIndex(articles, |articles|)
  {
    index := map[];
    var i := 0;
    while i < |articles|
      invariant i <= |articles|
      invariant index == MessageIndex(articles, i)
    {
      var id := articles[i].messageId;
      if id != [] {
        index := index[id := i];
      }
      i := i + 1;
    }
  }

  /** The parent search of the second pass for article `k`: by references, then
      for a reply-like subject by subject. */
  method FindParent(articles: seq<Article>, index: map<String, nat>, refs: seq<String>, k: nat)
    returns (parent: Option<nat>)
    requires k < |articles|
    requires index == MessageIndex(articles, |articles|) && refs == ParseReferences(articles[k].references)
    ensures parent == ParentChoice(articles, k)
  {
    parent := None;
    if |refs| > 0 {
      parent := ChooseParent(refs, index);
    }
    if parent.None? && IsReply(articles[k].subject) {
      parent := FindParentBySubject(ExtractSubjectBase(articles[k].subject), articles, k);
    }
  }

  /** The nodes `buildThreadTree(articles)` leaves behind. */
  function BuiltNodes(articles: seq<Article>): (nodes: seq<ThreadNode>)
    ensures |nodes| == |articles|
  {
    Linked(Initial(articles), Choices(articles), DateKeys(articles), |articles|)
  }

  /** The root threads `buildThreadTree(articles)` returns. */
  function BuiltRoots(articles: seq<Article>): seq<nat>
  {
    SortByKey(Unattached(Choices(articles), |articles|), DateKeys(articles), true)
  }

  /** `buildThreadTree(articles)`: the first pass makes the nodes and the id
      index, the second links every article to its chosen parent or makes it a
      root, and the roots are sorted newest first. */
  method BuildThreadTree(articles: seq<Article>) returns (forest: Forest, roots: seq<nat>)
    ensures fresh(forest)
    ensures forest.keys == DateKeys(articles)
    ensures forest.nodes == BuiltNodes(articles)
    ensures roots == BuiltRoots(articles)
  {
    hide ParentChoice;
    forest := new Forest(articles);
    var index := BuildIndex(articles);
    var rootThreads := LinkAll(forest, articles, index);
    roots := SortByKey(rootThreads, forest.keys, true);
  }

  /** The second pass over all articles, in order. */
  method LinkAll(forest: Forest, articles: seq<Article>, index: map<String, nat>) returns (rootThreads: seq<nat>)
    requires index == MessageIndex(articles, |articles|)
    requires forest.keys == DateKeys(articles) && forest.nodes == Initial(articles)
    modifies forest
    ensures forest.nodes == BuiltNodes(articles)
    ensures rootThreads == Unattached(Choices(articles), |articles|)
  {
    hide ParentChoice;
    hide Initial, ParseReferences;
    ghost var initial := Initial(articles);
    ghost var choice := Choices(articles);
    rootThreads := [];
    var k := 0;
    while k < |articles|
      invariant k <= |articles|
      invariant forest.keys == DateKeys(articles)
      invariant forest.nodes == Linked(initial, choice, forest.keys, k)
      invariant rootThreads == Unattached(choice, k)
    {
      rootThreads := LinkThread(forest, articles, index, rootThreads, k);
      k := k + 1;
    }
  }

  /** One turn of the second pass: article `k` becomes a child of its chosen
      parent, or is pushed onto the root threads. */
  method LinkThread(forest: Forest, articles: seq<Article>, index: map<String, nat>, rootThreads: seq<nat>, k: nat)
    returns (rootsAfter: seq<nat>)
    requires k < |articles| && index == MessageIndex(articles, |articles|)
    requires forest.keys == DateKeys(articles)
    requires forest.nodes == Linked(Initial(articles), Choices(articles), forest.keys, k)
    requires rootThreads == Unattached(Choices(articles), k)
    modifies forest
    ensures forest.nodes == Linked(Initial(articles), Choices(articles), forest.keys, k + 1)
    ensures rootsAfter == Unattached(Choices(articles), k + 1)
  {
    hide ParentChoice;
    ghost var initial := Initial(articles);
    ghost var choice := Choices(articles);
    LinkedKeeps(initial, choice, forest.keys, k, k);
    var parent := FindParent(articles, index, forest.nodes[k].references, k);
    ChoiceAt(articles, |articles|, k);
    assert parent == choice[k];
    LinkedStep(initial, choice, forest.keys, k);
    if parent.Some? {
      forest.AddChild(parent.value, k);
      rootsAfter := rootThreads;
    } else {
      rootsAfter := rootThreads + [k];
    }
  }
}

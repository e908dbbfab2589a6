/** Line framing for the NNTP byte stream: the behaviour of
    `completeData.split(/\r?\n/)` followed by `lines.pop()` in
    `StreamingNNTPClient.processChunk`, and the same split in the older client. */
module Framing {
  import opened Text

  predicate IsLf(c: char) { c == '\n' }

  /** The pieces of `s` between line feeds. */
  function LfPieces(s: String): (r: seq<String>)
    ensures |r| >= 1
    ensures forall k :: 0 <= k < |r| ==> '\n' !in r[k]
  {
    SplitOn(s, '\n')
  }

  /** Drops one carriage return from the end of a line, if there is one. */
  function StripCr(line: String): String
  {
    if line != [] && line[|line| - 1] == '\r' then line[..|line| - 1] else line
  }

  /** `s.split(/\r?\n/)`: every piece that a line feed ends loses the carriage
      return just before that line feed; the final piece is kept as it is. */
  function SplitLines(s: String): (r: seq<String>)
    ensures |r| == |LfPieces(s)| && r[|r| - 1] == LfPieces(s)[|r| - 1]
    ensures forall k :: 0 <= k < |r| - 1 ==> r[k] == StripCr(LfPieces(s)[k])
  {
    var p := LfPieces(s);
    seq(|p|, k requires 0 <= k < |p| => if k < |p| - 1 then StripCr(p[k]) else p[k])
  }

  /** The lines a chunk completes (everything the split yields except the last piece). */
  function CompleteLines(s: String): (r: seq<String>)
    ensures |r| == |LfPieces(s)| - 1
  {
    var l := SplitLines(s);
    l[..|l| - 1]
  }

  /** The new `lineBuffer`: the text after the last line feed. */
  function Fragment(s: String): (r: String)
    ensures '\n' !in r
  {
    var l := SplitLines(s);
    l[|l| - 1]
  }

  /** The split of a chunk is its complete lines followed by the new fragment. */
  lemma SplitLinesParts(s: String)
    ensures SplitLines(s) == CompleteLines(s) + [Fragment(s)]
  {
    InitLast(SplitLines(s));
  }

  /** Each piece followed by a line feed, concatenated. */
  function Terminated(pieces: seq<String>): String
  {
    if pieces == [] then [] else pieces[0] + "\n" + Terminated(pieces[1..])
  }

  lemma {:induction false} TerminatedJoin(pieces: seq<String>)
    requires |pieces| >= 1
    ensures Join(pieces, "\n") == Terminated(pieces[..|pieces| - 1]) + pieces[|pieces| - 1]
  {
    if |pieces| > 1 {
      TerminatedJoin(pieces[1..]);
      assert pieces[1..][..|pieces| - 2] == pieces[..|pieces| - 1][1..];
    }
  }

  /** Nothing is lost or reordered: the text is the complete lines, each
      followed by its line feed and, where the text had one, the carriage return
      before it, and then the fragment. */
  lemma Lossless(s: String)
    ensures var raw := LfPieces(s)[..|LfPieces(s)| - 1];
      && s == Terminated(raw) + Fragment(s)
      && |raw| == |CompleteLines(s)|
      && forall k :: 0 <= k < |raw| ==>
           raw[k] == CompleteLines(s)[k] || raw[k] == CompleteLines(s)[k] + "\r"
  {
    var p := LfPieces(s);
    JoinSplitOn(s, '\n');
    TerminatedJoin(p);
    forall k | 0 <= k < |p| - 1
      ensures p[k] == CompleteLines(s)[k] || p[k] == CompleteLines(s)[k] + "\r"
    {
      if p[k] != [] && p[k][|p[k]| - 1] == '\r' {
        assert p[k] == p[k][..|p[k]| - 1] + "\r";
      }
    }
  }

  /** Splitting a concatenation: the complete pieces of `s`, then the pieces of
      the fragment of `s` continued by `t`. */
  lemma LfPiecesAppend(s: String, t: String)
    ensures var p := LfPieces(s);
      LfPieces(s + t) == p[..|p| - 1] + LfPieces(p[|p| - 1] + t)
  {
    SplitWhereAppend(s, t, x => x == '\n');
  }

  lemma {:induction false} SplitLinesAppend(s: String, t: String)
    ensures CompleteLines(s + t) == CompleteLines(s) + CompleteLines(Fragment(s) + t)
    ensures Fragment(s + t) == Fragment(Fragment(s) + t)
  {
    hide LfPieces, SplitOn, SplitWhere;
    var p := LfPieces(s);
    var q := LfPieces(Fragment(s) + t);
    LfPiecesAppend(s, t);
    var all := LfPieces(s + t);
    assert all == p[..|p| - 1] + q;
    var a := CompleteLines(s + t);
    var b := CompleteLines(s) + CompleteLines(Fragment(s) + t);
    assert |a| == |b|;
    forall k | 0 <= k < |a| ensures a[k] == b[k] {
      if k < |p| - 1 {
        assert a[k] == StripCr(all[k]) == StripCr(p[k]);
      } else {
        assert a[k] == StripCr(all[k]) == StripCr(q[k - (|p| - 1)]);
      }
    }
  }

  /** Chunking invariance: feeding `c1` and then `c2` completes the same lines,
      in the same order, and leaves the same fragment as feeding `c1 + c2`. */
  lemma ChunkingInvariance(buffer: String, c1: String, c2: String)
    ensures CompleteLines(buffer + c1) + CompleteLines(Fragment(buffer + c1) + c2)
            == CompleteLines(buffer + c1 + c2)
    ensures Fragment(Fragment(buffer + c1) + c2) == Fragment(buffer + c1 + c2)
  {
    SplitLinesAppend(buffer + c1, c2);
  }

  /** Lines as written to the socket: each followed by CR LF. */
  function CrlfLines(lines: seq<String>): String
  {
    if lines == [] then [] else CrlfLines(lines[..|lines| - 1]) + lines[|lines| - 1] + "\r\n"
  }

  lemma OneCrlfLine(line: String)
    requires '\n' !in line
    ensures CompleteLines(line + "\r\n") == [line] && Fragment(line + "\r\n") == []
  {
    var isLf := (x: char) => x == '\n';
    var a := line + "\r";
    assert FreeOf(a, isLf);
    SplitWhereAt(a, '\n', [], isLf);
    assert a + ['\n'] + [] == line + "\r\n";
    assert LfPieces(line + "\r\n") == [a, []];
    assert StripCr(a) == line;
  }

  /** No line contains a line feed. */
  predicate LfFree(lines: seq<String>)
  {
    forall k :: 0 <= k < |lines| ==> '\n' !in lines[k]
  }

  /** CR LF framing round trip: the reader's split gives back exactly the lines
      written, whatever carriage returns they contain, as long as none contains a
      line feed; nothing is left in the buffer. */
  lemma {:induction false} FrameCrlfLines(lines: seq<String>)
    requires LfFree(lines)
    ensures CompleteLines(CrlfLines(lines)) == lines
    ensures Fragment(CrlfLines(lines)) == []
  {
    if lines == [] {
      assert LfPieces([]) == [[]];
    } else {
      var init := lines[..|lines| - 1];
      var last := lines[|lines| - 1];
      FrameCrlfLines(init);
      OneCrlfLine(last);
      var s := CrlfLines(init);
      SplitLinesAppend(s, last + "\r\n");
      AppendAssoc(s, last, "\r\n");
      AppendNil(last + "\r\n");
      assert init + [last] == lines;
    }
  }
}

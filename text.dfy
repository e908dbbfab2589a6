/** The JavaScript string operations the protocol code relies on: `trim`,
    `toLowerCase`, `startsWith`, `indexOf`, `split` on a character and on the
    regular expression `/\s+/`, `join`, `parseInt` and number-to-string. */
module Text {
  import opened Wrappers

  type String = seq<char>

  /** The characters matched by `\s` in a JavaScript regular expression; the same
      set is removed by `String.prototype.trim`. */
  predicate IsSpace(c: char)
  {
    c == ' ' || '\t' <= c <= '\r' || c == '\U{00A0}' || c == '\U{1680}'
    || '\U{2000}' <= c <= '\U{200A}' || c == '\U{2028}' || c == '\U{2029}'
    || c == '\U{202F}' || c == '\U{205F}' || c == '\U{3000}' || c == '\U{FEFF}'
  }

  /** `\d` in a JavaScript regular expression. */
  predicate IsDigit(c: char)
  {
    '0' <= c <= '9'
  }

  predicate NoSpace(s: String)
  {
    forall i :: 0 <= i < |s| ==> !IsSpace(s[i])
  }

  function TrimStart(s: String): String
  {
    if s != [] && IsSpace(s[0]) then TrimStart(s[1..]) else s
  }

  function TrimEnd(s: String): String
  {
    if s != [] && IsSpace(s[|s| - 1]) then TrimEnd(s[..|s| - 1]) else s
  }

  /** `s.trim()`. */
  function Trim(s: String): String
  {
    TrimEnd(TrimStart(s))
  }

  lemma {:induction false} TrimStartFacts(s: String)
    ensures var r := TrimStart(s);
      && |r| <= |s| && r == s[|s| - |r|..]
      && (forall i :: 0 <= i < |s| - |r| ==> IsSpace(s[i]))
      && (r != [] ==> !IsSpace(r[0]))
  {
    if s != [] && IsSpace(s[0]) {
      var t := s[1..];
      TrimStartFacts(t);
      var r := TrimStart(t);
      assert TrimStart(s) == r;
      assert s[|s| - |r|..] == t[|t| - |r|..];
      forall i | 0 <= i < |s| - |r|
        ensures IsSpace(s[i])
      {
        if i > 0 {
          assert s[i] == t[i - 1];
        }
      }
    }
  }

  lemma {:induction false} TrimEndFacts(s: String)
    ensures var r := TrimEnd(s);
      && |r| <= |s| && r == s[..|r|]
      && (forall i :: |r| <= i < |s| ==> IsSpace(s[i]))
      && (r != [] ==> !IsSpace(r[|r| - 1]))
  {
    if s != [] && IsSpace(s[|s| - 1]) {
      var t := s[..|s| - 1];
      TrimEndFacts(t);
      var r := TrimEnd(t);
      assert TrimEnd(s) == r;
      assert s[..|r|] == t[..|r|];
      forall i | |r| <= i < |s|
        ensures IsSpace(s[i])
      {
        if i < |t| {
          assert s[i] == t[i];
        }
      }
    }
  }

  /** Trimming drops whitespace from both ends and nothing else: the result is
      empty exactly for an all-whitespace string, otherwise it starts and ends with
      a non-space, and a string already so bounded is its own trim. */
  lemma TrimFacts(s: String)
    ensures var r := Trim(s);
      && |r| <= |s|
      && (r == [] <==> forall i :: 0 <= i < |s| ==> IsSpace(s[i]))
      && (r != [] ==> !IsSpace(r[0]) && !IsSpace(r[|r| - 1]))
      && (s != [] && !IsSpace(s[0]) && !IsSpace(s[|s| - 1]) ==> r == s)
  {
    var t := TrimStart(s);
    TrimStartFacts(s);
    TrimEndFacts(t);
    var r := TrimEnd(t);
    if r != [] {
      assert r[0] == t[0];
    }
    if s != [] && !IsSpace(s[0]) {
      assert t == s;
    }
  }

  function LowerChar(c: char): char
  {
    if 'A' <= c <= 'Z' then (c as int + 32) as char else c
  }

  /** `s.toLowerCase()`, for the ASCII letters. */
  function ToLower(s: String): (r: String)
    ensures |r| == |s|
    ensures forall i :: 0 <= i < |s| ==> r[i] == LowerChar(s[i])
  {
    seq(|s|, i requires 0 <= i < |s| => LowerChar(s[i]))
  }

  predicate StartsWith(s: String, prefix: String)
  {
    |prefix| <= |s| && s[..|prefix|] == prefix
  }

  /** `s.indexOf(c)`: the first position of `c`, or None where JavaScript gives -1. */
  function IndexOf(s: String, c: char): (r: Option<nat>)
    ensures r.None? <==> c !in s
    ensures r.Some? ==> r.value < |s| && s[r.value] == c && c !in s[..r.value]
  {
    if s == [] then None
    else if s[0] == c then Some(0)
    else match IndexOf(s[1..], c)
      case None => None
      case Some(k) => assert s[..k + 1] == [s[0]] + s[1..][..k]; Some(k + 1)
  }

  /** Splits `s` at every character that satisfies `isSep`; the separators are
      dropped and the pieces between them kept, empty ones included. */
  function SplitWhere(s: String, isSep: char -> bool): (r: seq<String>)
    ensures |r| >= 1
    ensures forall k, j :: 0 <= k < |r| && 0 <= j < |r[k]| ==> !isSep(r[k][j])
  {
    if s == [] then [[]]
    else
      var rest := SplitWhere(s[1..], isSep);
      if isSep(s[0]) then [[]] + rest
      else [[s[0]] + rest[0]] + rest[1..]
  }

  /** Splitting a concatenation: the pieces of `s` before its last separator,
      then the pieces of its last piece continued by `t`. */
  lemma {:induction false} SplitWhereAppend(s: String, t: String, isSep: char -> bool)
    ensures var p := SplitWhere(s, isSep);
      SplitWhere(s + t, isSep) == p[..|p| - 1] + SplitWhere(p[|p| - 1] + t, isSep)
  {
    if s == [] {
      assert s + t == t;
    } else {
      var rest := s[1..];
      assert s == [s[0]] + rest;
      SplitWhereAppend(rest, t, isSep);
      SplitWhereConsAppend(s[0], rest, t, isSep);
    }
  }

  /** One step of `SplitWhere`, for a string `[c] + rest`. */
  lemma SplitWhereCons(c: char, rest: String, isSep: char -> bool)
    ensures var p := SplitWhere(rest, isSep);
      SplitWhere([c] + rest, isSep) == if isSep(c) then [[]] + p else [[c] + p[0]] + p[1..]
  {
    var s := [c] + rest;
    assert s[0] == c && s[1..] == rest;
  }

  /** The step of `SplitWhereAppend` for a string `[c] + rest`. */
  lemma SplitWhereConsAppend(c: char, rest: String, t: String, isSep: char -> bool)
    requires var p := SplitWhere(rest, isSep);
      SplitWhere(rest + t, isSep) == p[..|p| - 1] + SplitWhere(p[|p| - 1] + t, isSep)
    ensures var p := SplitWhere([c] + rest, isSep);
      SplitWhere([c] + rest + t, isSep) == p[..|p| - 1] + SplitWhere(p[|p| - 1] + t, isSep)
  {
    hide SplitWhere;
    assert [c] + rest + t == [c] + (rest + t);
    SplitWhereCons(c, rest, isSep);
    SplitWhereCons(c, rest + t, isSep);
    var p' := SplitWhere(rest, isSep);
    if isSep(c) {
      SplitWhereSepAppend(p', SplitWhere(rest + t, isSep), SplitWhere(p'[|p'| - 1] + t, isSep));
    } else if |p'| == 1 {
      assert [c] + p'[0] + t == [c] + (p'[0] + t);
      SplitWhereCons(c, p'[0] + t, isSep);
      SplitWhereOneAppend(c, p', SplitWhere(rest + t, isSep), SplitWhere(p'[0] + t, isSep),
                          SplitWhere([c] + p'[0] + t, isSep));
    } else {
      SplitWhereWordAppend(c, p', SplitWhere(rest + t, isSep), SplitWhere(p'[|p'| - 1] + t, isSep));
    }
  }

  /** The separator case: an empty piece in front of both sides. */
  lemma SplitWhereSepAppend(p': seq<String>, r: seq<String>, x: seq<String>)
    requires |p'| >= 1 && r == p'[..|p'| - 1] + x
    ensures var p := [[]] + p'; [[]] + r == p[..|p| - 1] + x
  {
    var p := [[]] + p';
    assert p[..|p| - 1] == [[]] + p'[..|p'| - 1];
  }

  /** The case of a word character and no separator after it: the one piece
      grows by `c`. */
  lemma SplitWhereOneAppend(c: char, p': seq<String>, r: seq<String>, x: seq<String>, y: seq<String>)
    requires |p'| == 1 && r == p'[..0] + x && |x| >= 1 && y == [[c] + x[0]] + x[1..]
    ensures var p := [[c] + p'[0]] + p'[1..];
      |r| >= 1 && [[c] + r[0]] + r[1..] == p[..|p| - 1] + y && p[|p| - 1] == [c] + p'[0]
  {
    assert r == x;
  }

  /** The case of a word character before at least one separator: the first piece
      grows by `c` on both sides and the last piece is unchanged. */
  lemma SplitWhereWordAppend(c: char, p': seq<String>, r: seq<String>, x: seq<String>)
    requires |p'| >= 2 && r == p'[..|p'| - 1] + x
    ensures var p := [[c] + p'[0]] + p'[1..];
      |r| >= 1 && [[c] + r[0]] + r[1..] == p[..|p| - 1] + x && p[|p| - 1] == p'[|p'| - 1]
  {
    var p := [[c] + p'[0]] + p'[1..];
    assert r[0] == p'[0] && r[1..] == p'[1..|p'| - 1] + x;
    assert p[..|p| - 1] == [[c] + p'[0]] + p'[1..|p'| - 1];
  }

  /** `s.split(c)` for a one-character separator. */
  function SplitOn(s: String, c: char): (r: seq<String>)
    ensures |r| >= 1
    ensures forall k :: 0 <= k < |r| ==> c !in r[k]
  {
    var r := SplitWhere(s, x => x == c);
    assert forall k :: 0 <= k < |r| ==> c !in r[k] by {
      forall k | 0 <= k < |r| ensures c !in r[k] {
        assert forall j :: 0 <= j < |r[k]| ==> r[k][j] != c;
      }
    }
    r
  }

  function NonEmpty(parts: seq<String>): (r: seq<String>)
    ensures |r| <= |parts|
    ensures forall k :: 0 <= k < |r| ==> r[k] != []
  {
    if parts == [] then []
    else if parts[0] == [] then NonEmpty(parts[1..])
    else [parts[0]] + NonEmpty(parts[1..])
  }

  /** Dropping the empty parts keeps only parts that were there, and keeps every
      non-empty one. */
  lemma {:induction false} NonEmptyMembers(parts: seq<String>)
    ensures forall k :: 0 <= k < |NonEmpty(parts)| ==> NonEmpty(parts)[k] in parts
    ensures forall x :: x in NonEmpty(parts) <==> x in parts && x != []
  {
    if parts != [] {
      NonEmptyMembers(parts[1..]);
      var rest := NonEmpty(parts[1..]);
      assert forall k :: 0 <= k < |rest| ==> rest[k] in parts[1..];
      assert parts == [parts[0]] + parts[1..];
    }
  }

  /** `filter` distributes over concatenation, so together with the one-part
      case it fixes the order of the kept parts. */
  lemma {:induction false} NonEmptyAppend(a: seq<String>, b: seq<String>)
    ensures NonEmpty(a + b) == NonEmpty(a) + NonEmpty(b)
    ensures forall x :: NonEmpty([x]) == if x == [] then [] else [x]
  {
    NonEmptyConcat(a, b);
    forall x ensures NonEmpty([x]) == if x == [] then [] else [x] {
      assert [x][1..] == [];
    }
  }

  lemma {:induction false} NonEmptyConcat(a: seq<String>, b: seq<String>)
    ensures NonEmpty(a + b) == NonEmpty(a) + NonEmpty(b)
  {
    if a != [] {
      assert (a + b)[1..] == a[1..] + b;
      NonEmptyConcat(a[1..], b);
    } else {
      assert a + b == b;
    }
  }

  /** `s.split(/\s+/)`: the separators are the maximal runs of whitespace, so
      only the first and the last field can be empty. */
  function SplitWs(s: String): (r: seq<String>)
    ensures |r| >= 1
    ensures forall k :: 0 <= k < |r| ==> NoSpace(r[k])
    ensures forall k :: 0 < k < |r| - 1 ==> r[k] != []
  {
    var f := SplitWhere(s, IsSpace);
    if |f| == 1 then f
    else
      NonEmptyMembers(f[1..|f| - 1]);
      [f[0]] + NonEmpty(f[1..|f| - 1]) + [f[|f| - 1]]
  }

  /** `parts.join(sep)`. */
  function Join(parts: seq<String>, sep: String): String
  {
    if parts == [] then []
    else if |parts| == 1 then parts[0]
    else parts[0] + sep + Join(parts[1..], sep)
  }

  function DigitValue(c: char): nat
    requires IsDigit(c)
  {
    c as int - '0' as int
  }

  predicate AllDigits(s: String)
  {
    forall i :: 0 <= i < |s| ==> IsDigit(s[i])
  }

  /** The decimal value of a string of digits. */
  function DigitsValue(s: String): nat
    requires AllDigits(s)
  {
    if s == [] then 0 else 10 * DigitsValue(s[..|s| - 1]) + DigitValue(s[|s| - 1])
  }

  /** Length of the longest prefix of `s` made of digits. */
  function DigitRun(s: String): (n: nat)
    ensures n <= |s| && AllDigits(s[..n])
    ensures n < |s| ==> !IsDigit(s[n])
  {
    if s != [] && IsDigit(s[0]) then
      var k := DigitRun(s[1..]);
      assert s[..k + 1] == [s[0]] + s[1..][..k];
      k + 1
    else 0
  }

  /** `parseInt(s)` in base 10: leading whitespace and one sign are skipped, then
      the longest run of digits is read; None stands for `NaN`. */
  function ParseInt(s: String): (r: Option<int>)
  {
    var t := TrimStart(s);
    var neg := t != [] && t[0] == '-';
    var u := if t != [] && (t[0] == '-' || t[0] == '+') then t[1..] else t;
    var n := DigitRun(u);
    if n == 0 then None
    else
      var m: int := DigitsValue(u[..n]);
      var v: int := if neg then -m else m;
      Some(v)
  }

  /** `parseInt(s) || 0`: `NaN` (and zero) become 0. */
  function IntOrZero(s: String): int
  {
    match ParseInt(s)
    case None => 0
    case Some(v) => v
  }

  function DigitChar(d: nat): (c: char)
    requires d < 10
    ensures IsDigit(c) && DigitValue(c) == d
  {
    ('0' as int + d) as char
  }

  /** The decimal digits of `n`, as `${n}` prints them. */
  function NatToString(n: nat): (r: String)
    ensures r != [] && AllDigits(r)
    ensures r[0] != '0' || n == 0
  {
    if n < 10 then [DigitChar(n)] else NatToString(n / 10) + [DigitChar(n % 10)]
  }

  function IntToString(i: int): String
  {
    if i < 0 then "-" + NatToString(-i) else NatToString(i)
  }

  /** `${b}` for a boolean. */
  function BoolToString(b: bool): String
  {
    if b then "true" else "false"
  }

  // ---- Round trips of the splitting and number functions ----

  predicate FreeOf(s: String, isSep: char -> bool)
  {
    forall i :: 0 <= i < |s| ==> !isSep(s[i])
  }

  lemma {:induction false} SplitWhereNoSep(a: String, isSep: char -> bool)
    requires FreeOf(a, isSep)
    ensures SplitWhere(a, isSep) == [a]
  {
    if a != [] {
      SplitWhereNoSep(a[1..], isSep);
      assert [a[0]] + a[1..] == a;
    }
  }

  lemma {:induction false} SplitWhereAt(a: String, x: char, b: String, isSep: char -> bool)
    requires FreeOf(a, isSep) && isSep(x)
    ensures SplitWhere(a + [x] + b, isSep) == [a] + SplitWhere(b, isSep)
  {
    var s := a + [x] + b;
    if a == [] {
      assert s[1..] == b;
    } else {
      assert s[1..] == a[1..] + [x] + b;
      SplitWhereAt(a[1..], x, b, isSep);
      assert [a[0]] + a[1..] == a;
    }
  }

  /** Splitting a join of separator-free pieces gives the pieces back. */
  lemma {:induction false} SplitWhereJoin(parts: seq<String>, x: char, isSep: char -> bool)
    requires |parts| >= 1 && isSep(x)
    requires forall k :: 0 <= k < |parts| ==> FreeOf(parts[k], isSep)
    ensures SplitWhere(Join(parts, [x]), isSep) == parts
  {
    if |parts| == 1 {
      SplitWhereNoSep(parts[0], isSep);
    } else {
      SplitWhereJoin(parts[1..], x, isSep);
      SplitWhereAt(parts[0], x, Join(parts[1..], [x]), isSep);
      assert [parts[0]] + parts[1..] == parts;
    }
  }

  /** Joining the pieces of `s.split(c)` with `c` gives `s` back. */
  lemma {:induction false} JoinSplitOn(s: String, c: char)
    ensures Join(SplitWhere(s, x => x == c), [c]) == s
  {
    if s != [] {
      var rest := SplitWhere(s[1..], x => x == c);
      JoinSplitOn(s[1..], c);
      if s[0] != c {
        var r := [[s[0]] + rest[0]] + rest[1..];
        if |rest| == 1 {
          assert Join(r, [c]) == [s[0]] + rest[0];
        } else {
          assert Join(rest, [c]) == rest[0] + [c] + Join(rest[1..], [c]);
          assert r[1..] == rest[1..];
          assert Join(r, [c]) == ([s[0]] + rest[0]) + [c] + Join(rest[1..], [c]);
        }
      }
    }
  }

  /** `tokens.join(' ').split(/\s+/)` gives back non-empty, whitespace-free tokens. */
  lemma {:induction false} SplitWsJoin(tokens: seq<String>)
    requires |tokens| >= 1
    requires forall k :: 0 <= k < |tokens| ==> tokens[k] != [] && NoSpace(tokens[k])
    ensures SplitWs(Join(tokens, " ")) == tokens
  {
    forall k | 0 <= k < |tokens| ensures FreeOf(tokens[k], IsSpace) {
      assert NoSpace(tokens[k]);
    }
    SplitWhereJoin(tokens, ' ', IsSpace);
    if |tokens| > 1 {
      NonEmptyKeeps(tokens[1..|tokens| - 1]);
      assert tokens == [tokens[0]] + tokens[1..|tokens| - 1] + [tokens[|tokens| - 1]];
    }
  }

  predicate AllNonEmpty(parts: seq<String>)
  {
    forall k :: 0 <= k < |parts| ==> parts[k] != []
  }

  lemma {:induction false} NonEmptyKeeps(parts: seq<String>)
    requires AllNonEmpty(parts)
    ensures NonEmpty(parts) == parts
  {
    if parts != [] {
      NonEmptyKeeps(parts[1..]);
      assert [parts[0]] + parts[1..] == parts;
    }
  }

  lemma {:induction false} DigitsValueOfNat(n: nat)
    ensures DigitsValue(NatToString(n)) == n
  {
    if n >= 10 {
      DigitsValueOfNat(n / 10);
      var s := NatToString(n);
      assert s[..|s| - 1] == NatToString(n / 10);
    }
  }

  /** `parseInt(String(n)) === n` for every non-negative integer. */
  lemma {:induction false} ParseIntOfNat(n: nat)
    ensures ParseInt(NatToString(n)) == Some(n)
  {
    var s := NatToString(n);
    assert IsDigit(s[0]) && !IsSpace(s[0]) && s[0] != '-' && s[0] != '+';
    assert TrimStart(s) == s;
    assert DigitRun(s) == |s|;
    assert s[..|s|] == s;
    DigitsValueOfNat(n);
  }

  /** The decimal form of a number is one non-empty token without whitespace or tabs. */
  lemma NatToStringToken(n: nat)
    ensures var d := NatToString(n);
      d != [] && NoSpace(d) && FreeOf(d, x => x == '\t') && !IsSpace(d[0])
  {
    var d := NatToString(n);
    assert forall i :: 0 <= i < |d| ==> IsDigit(d[i]);
  }

  /** A string whose first character is not whitespace does not trim to nothing. */
  lemma TrimNonBlank(s: String)
    requires s != [] && !IsSpace(s[0])
    ensures Trim(s) != []
  {
    TrimFacts(s);
  }

  // ---- Sequence identities, stated generically so that proofs about sequences
  // ---- of strings need not rediscover them element by element.

  /** Appending `x` adds one occurrence of `x` and of nothing else. */
  lemma CountSnoc<T>(s: seq<T>, x: T, y: T)
    ensures multiset(s + [x])[y] == multiset(s)[y] + (if x == y then 1 else 0)
  {
    assert multiset(s + [x]) == multiset(s) + multiset{x};
  }

  lemma CountAbsent<T>(s: seq<T>, y: T)
    requires y !in s
    ensures multiset(s)[y] == 0
  {
  }

  lemma AppendAssoc<T>(a: seq<T>, b: seq<T>, c: seq<T>)
    ensures (a + b) + c == a + (b + c)
  {
  }

  lemma InitLast<T>(l: seq<T>)
    requires l != []
    ensures l == l[..|l| - 1] + [l[|l| - 1]]
  {
  }

  lemma Between<T>(a: T, body: seq<T>, b: T, c: T)
    ensures var l := [a] + body + [b] + [c];
      |l| == |body| + 3 && l[0] == a && l[|l| - 2] == b && l[1..|l| - 2] == body
  {
  }

  lemma TrimDot()
    ensures Trim(".") == "."
  {
    assert !IsSpace('.');
    assert TrimStart(".") == ".";
  }

  lemma AppendNil<T>(a: seq<T>)
    ensures a + [] == a && [] + a == a
  {
  }

  lemma TakeCons<T>(l: seq<T>, k: nat)
    requires k < |l|
    ensures l[..k + 1] == [l[0]] + l[1..][..k]
    ensures (l[..k + 1])[1..] == l[1..][..k]
  {
  }

  lemma ConsTail<T>(l: seq<T>)
    requires l != []
    ensures [l[0]] + l[1..] == l
  {
  }

  lemma TailOfAppend<T>(a: seq<T>, b: seq<T>)
    requires a != []
    ensures (a + b)[0] == a[0] && (a + b)[1..] == a[1..] + b
  {
  }

  /** Sequences with the same multiset have the same members. */
  lemma SameMembers<T>(a: seq<T>, b: seq<T>, x: T)
    requires multiset(a) == multiset(b)
    ensures x in a <==> x in b
  {
    assert x in a <==> x in multiset(a);
    assert x in b <==> x in multiset(b);
  }
}

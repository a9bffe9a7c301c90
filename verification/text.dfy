/**
 * The string operations of Rust's `str` that the clients use (`trim`, `lines`, `split`,
 * `splitn(2, _)`, `replace`, `trim_end_matches`, `starts_with`, `ends_with`), on `seq<char>`.
 */
module Text {
  import opened Wrappers

  /** Unicode White_Space, the set `char::is_whitespace` (and so `str::trim`) uses. */
  predicate IsWhitespace(c: char) {
    var n := c as int;
    (9 <= n <= 13) || n == 32 || n == 0x85 || n == 0xA0 || n == 0x1680
    || (0x2000 <= n <= 0x200A) || n == 0x2028 || n == 0x2029 || n == 0x202F
    || n == 0x205F || n == 0x3000
  }

  /** `str::trim_start`: drops the leading white space and nothing else. */
  function TrimStart(s: string): (r: string)
    ensures |r| <= |s| && r == s[|s| - |r|..]
    ensures r == [] || !IsWhitespace(r[0])
    ensures forall i :: 0 <= i < |s| - |r| ==> IsWhitespace(s[i])
  {
    if s != [] && IsWhitespace(s[0]) then TrimStart(s[1..]) else s
  }

  /** `str::trim_end`: drops the trailing white space and nothing else. */
  function TrimEnd(s: string): (r: string)
    ensures |r| <= |s| && r == s[..|r|]
    ensures r == [] || !IsWhitespace(r[|r| - 1])
    ensures forall i :: |r| <= i < |s| ==> IsWhitespace(s[i])
  {
    if s != [] && IsWhitespace(s[|s| - 1]) then TrimEnd(s[..|s| - 1]) else s
  }

  /** `str::trim`. */
  function Trim(s: string): (r: string) {
    TrimEnd(TrimStart(s))
  }

  /** Everything `str::trim` drops, before and after the piece it keeps, is white space. */
  lemma TrimDropsOnlyWhitespace(s: string)
    ensures forall i :: 0 <= i < |s| - |TrimStart(s)| ==> IsWhitespace(s[i])
    ensures forall i :: |s| - |TrimStart(s)| + |Trim(s)| <= i < |s| ==> IsWhitespace(s[i])
  {
    var u := TrimStart(s);
    var r := TrimEnd(u);
    var lo := |s| - |u|;
    forall i | lo + |r| <= i < |s| ensures IsWhitespace(s[i]) {
      assert s[i] == u[i - lo];
    }
  }

  /** The piece `str::trim` keeps neither starts nor ends with white space. */
  lemma TrimEdges(s: string)
    ensures var r := Trim(s); r == [] || (!IsWhitespace(r[0]) && !IsWhitespace(r[|r| - 1]))
  {
    var u := TrimStart(s);
    var r := TrimEnd(u);
    if r != [] {
      assert r[0] == u[0];
    }
  }

  /** Trimming the front of `k`, a visible `c`, then `v` only trims `k`. */
  lemma {:induction false} TrimStartAround(k: string, c: char, v: string)
    requires !IsWhitespace(c)
    ensures TrimStart(k + [c] + v) == TrimStart(k) + [c] + v
  {
    if k == [] {
      assert k + [c] + v == [c] + v;
    } else if IsWhitespace(k[0]) {
      assert (k + [c] + v)[1..] == k[1..] + [c] + v;
      TrimStartAround(k[1..], c, v);
    }
  }

  lemma {:induction false} TrimEndPrepend(a: string, b: string)
    requires a != [] && !IsWhitespace(a[|a| - 1])
    ensures TrimEnd(a + b) == a + TrimEnd(b)
  {
    if b == [] {
      assert a + b == a;
    } else if IsWhitespace(b[|b| - 1]) {
      assert (a + b)[..|a + b| - 1] == a + b[..|b| - 1];
      TrimEndPrepend(a, b[..|b| - 1]);
    }
  }

  /** Trimming text cut by a visible character trims the front of the left part and the back of the right. */
  lemma TrimAround(k: string, c: char, v: string)
    requires !IsWhitespace(c)
    ensures Trim(k + [c] + v) == TrimStart(k) + [c] + TrimEnd(v)
  {
    TrimStartAround(k, c, v);
    TrimEndPrepend(TrimStart(k) + [c], v);
  }

  lemma {:induction false} TrimEndCons(c: char, w: string)
    requires TrimEnd(w) != []
    ensures TrimEnd([c] + w) == [c] + TrimEnd(w)
  {
    if IsWhitespace(w[|w| - 1]) {
      assert ([c] + w)[..|[c] + w| - 1] == [c] + w[..|w| - 1];
      TrimEndCons(c, w[..|w| - 1]);
    }
  }

  lemma TrimEndBlank(v: string)
    requires forall i :: 0 <= i < |v| ==> IsWhitespace(v[i])
    ensures TrimEnd(v) == []
  {
  }

  lemma TrimEndVisibleFirst(v: string)
    requires v != [] && !IsWhitespace(v[0])
    ensures TrimEnd(v) != [] && TrimEnd(v)[0] == v[0]
  {
  }

  lemma TrimStartVisible(v: string)
    requires v != [] && !IsWhitespace(v[0])
    ensures TrimStart(v) == v
  {
  }

  lemma TrimStartSkip(c: char, x: string)
    requires IsWhitespace(c)
    ensures TrimStart([c] + x) == TrimStart(x)
  {
    var s := [c] + x;
    assert s != [] && IsWhitespace(s[0]);
    assert s[1..] == x;
  }

  /** Trimming the two ends is independent of the order. */
  lemma {:induction false} TrimStartEndCommute(v: string)
    ensures TrimStart(TrimEnd(v)) == TrimEnd(TrimStart(v))
  {
    if v == [] {
    } else if IsWhitespace(v[0]) {
      var w := v[1..];
      TrimStartSkip(v[0], w);
      assert v == [v[0]] + w;
      TrimStartEndCommute(w);
      if TrimEnd(w) == [] {
        forall i | 0 <= i < |v| ensures IsWhitespace(v[i]) {
          if i > 0 { assert v[i] == w[i - 1]; }
        }
        TrimEndBlank(v);
      } else {
        TrimEndCons(v[0], w);
        TrimStartSkip(v[0], TrimEnd(w));
      }
    } else {
      TrimEndVisibleFirst(v);
      TrimStartVisible(v);
      TrimStartVisible(TrimEnd(v));
    }
  }

  /** `trim` gives the same text whether or not the end was trimmed first. */
  lemma TrimOfTrimEnd(v: string)
    ensures Trim(TrimEnd(v)) == Trim(v)
  {
    TrimStartEndCommute(v);
  }

  /** The index of the first occurrence of `c`, as `str::find` with a char pattern. */
  function IndexOf(s: string, c: char): (r: Option<nat>)
    ensures r.Some? ==> r.value < |s| && s[r.value] == c && c !in s[..r.value]
    ensures r.None? ==> c !in s
  {
    if s == [] then None
    else if s[0] == c then Some(0)
    else match IndexOf(s[1..], c)
      case None => None
      case Some(i) => assert s[..i + 1] == [s[0]] + s[1..][..i]; Some(i + 1)
  }

  lemma {:induction false} IndexOfFirst(a: string, c: char, b: string)
    requires c !in a
    ensures IndexOf(a + [c] + b, c) == Some(|a|)
  {
    if a != [] {
      assert (a + [c] + b)[1..] == a[1..] + [c] + b;
      IndexOfFirst(a[1..], c, b);
    }
  }

  /**
   * `str::lines`: the pieces between line feeds; a carriage return just before a line feed
   * belongs to the line ending, and a final line feed does not start an empty last line.
   */
  function Lines(s: string): (lines: seq<string>)
    ensures s == [] <==> lines == []
    ensures forall i :: 0 <= i < |lines| ==> '\n' !in lines[i]
    decreases |s|
  {
    if s == [] then []
    else match IndexOf(s, '\n')
      case None => [s]
      case Some(i) => [StripCr(s[..i])] + Lines(s[i + 1..])
  }

  /** The line without one carriage return at its end. */
  function StripCr(line: string): (r: string)
    ensures r <= line
  {
    if line != [] && line[|line| - 1] == '\r' then line[..|line| - 1] else line
  }
  /** A line ended by a line feed, with any carriage return before it dropped, then the rest. */
  lemma LinesCons(a: string, b: string)
    requires '\n' !in a
    ensures Lines(a + "\n" + b) == [StripCr(a)] + Lines(b)
  {
    IndexOfFirst(a, '\n', b);
    var s := a + "\n" + b;
    assert s[..|a|] == a && s[|a| + 1..] == b;
  }

  /** A last line without a line feed is kept as it is, carriage return included. */
  lemma LinesLast(a: string)
    requires '\n' !in a && a != []
    ensures Lines(a) == [a]
  {
  }

  /** A CR LF ending and a final line feed start no extra line: `a` CR LF `b` LF gives `a`, `b`. */
  lemma LinesCrLfExample()
    ensures Lines("a\r\nb\n") == ["a", "b"]
  {
    LinesCons("a\r", "b\n");
    LinesCons("b", "");
    assert "a\r" + "\n" + "b\n" == "a\r\nb\n";
    assert "b" + "\n" + "" == "b\n";
    assert StripCr("a\r") == "a";
  }


  /** `str::split` with a char separator: always at least one piece, none holding `sep`. */
  function Split(s: string, sep: char): (parts: seq<string>)
    ensures |parts| >= 1
    ensures forall i :: 0 <= i < |parts| ==> sep !in parts[i]
    decreases |s|
  {
    match IndexOf(s, sep)
    case None => [s]
    case Some(i) => [s[..i]] + Split(s[i + 1..], sep)
  }

  /** The pieces glued back with `sep` between them: the inverse of `Split`. */
  function Join(parts: seq<string>, sep: char): string
    requires |parts| >= 1
  {
    if |parts| == 1 then parts[0] else parts[0] + [sep] + Join(parts[1..], sep)
  }

  lemma {:induction false} JoinSplit(s: string, sep: char)
    ensures Join(Split(s, sep), sep) == s
    decreases |s|
  {
    match IndexOf(s, sep)
    case None =>
    case Some(i) =>
      var rest := Split(s[i + 1..], sep);
      var parts := [s[..i]] + rest;
      assert Split(s, sep) == parts;
      assert parts[1..] == rest;
      assert Join(parts, sep) == s[..i] + [sep] + Join(rest, sep);
      JoinSplit(s[i + 1..], sep);
      assert s == s[..i] + [sep] + s[i + 1..];
  }

  lemma {:induction false} SplitJoin(parts: seq<string>, sep: char)
    requires |parts| >= 1
    requires forall i :: 0 <= i < |parts| ==> sep !in parts[i]
    ensures Split(Join(parts, sep), sep) == parts
  {
    if |parts| > 1 {
      var rest := Join(parts[1..], sep);
      IndexOfFirst(parts[0], sep, rest);
      var s := parts[0] + [sep] + rest;
      assert Join(parts, sep) == s;
      assert s[..|parts[0]|] == parts[0];
      assert s[|parts[0]| + 1..] == rest;
      SplitJoin(parts[1..], sep);
      assert parts == [parts[0]] + parts[1..];
    }
  }

  function Count(s: string, c: char): nat {
    if s == [] then 0 else (if s[0] == c then 1 else 0) + Count(s[1..], c)
  }

  lemma {:induction false} CountAppend(a: string, b: string, c: char)
    ensures Count(a + b, c) == Count(a, c) + Count(b, c)
  {
    if a == [] {
      assert a + b == b;
    } else {
      assert (a + b)[1..] == a[1..] + b;
      CountAppend(a[1..], b, c);
    }
  }

  lemma {:induction false} CountAbsent(a: string, c: char)
    requires c !in a
    ensures Count(a, c) == 0
  {
    if a != [] {
      CountAbsent(a[1..], c);
    }
  }

  /** `split` yields one more piece than there are separators. */
  lemma {:induction false} SplitCount(s: string, sep: char)
    ensures |Split(s, sep)| == Count(s, sep) + 1
    decreases |s|
  {
    match IndexOf(s, sep)
    case None =>
      CountAbsent(s, sep);
    case Some(i) =>
      SplitCount(s[i + 1..], sep);
      assert s == s[..i] + ([sep] + s[i + 1..]);
      CountAppend(s[..i], [sep] + s[i + 1..], sep);
      CountAppend([sep], s[i + 1..], sep);
      CountAbsent(s[..i], sep);
  }

  /** `pat` occurs in `s` starting at index `i`. */
  predicate OccursAt(s: string, pat: string, i: nat) {
    i + |pat| <= |s| && s[i..i + |pat|] == pat
  }

  lemma OccursAtStart(s: string, pat: string)
    ensures pat <= s <==> OccursAt(s, pat, 0)
  {
    if |pat| <= |s| {
      assert s[0..|pat|] == s[..|pat|];
    }
  }

  lemma OccursAtTail(s: string, pat: string, i: nat)
    requires s != []
    ensures OccursAt(s[1..], pat, i) <==> OccursAt(s, pat, i + 1)
  {
    if i + |pat| <= |s| - 1 {
      assert s[1..][i..i + |pat|] == s[i + 1..i + 1 + |pat|];
    }
  }

  /** `str::replace`: every non-overlapping occurrence of `pat`, left to right, becomes `rep`. */
  function ReplaceAll(s: string, pat: string, rep: string): string
    requires pat != []
    decreases |s|
  {
    if s == [] then []
    else if pat <= s then rep + ReplaceAll(s[|pat|..], pat, rep)
    else [s[0]] + ReplaceAll(s[1..], pat, rep)
  }

  /** Replacing the pattern by itself changes nothing. */
  lemma {:induction false} ReplaceAllSelf(s: string, pat: string)
    requires pat != []
    ensures ReplaceAll(s, pat, pat) == s
    decreases |s|
  {
    if s != [] {
      if pat <= s {
        ReplaceAllSelf(s[|pat|..], pat);
        assert s == pat + s[|pat|..];
      } else {
        ReplaceAllSelf(s[1..], pat);
        assert s == [s[0]] + s[1..];
      }
    }
  }

  /** Text without the pattern is returned unchanged. */
  lemma {:induction false} ReplaceAllAbsent(s: string, pat: string, rep: string)
    requires pat != []
    requires forall i :: 0 <= i < |s| ==> !OccursAt(s, pat, i)
    ensures ReplaceAll(s, pat, rep) == s
  {
    if s != [] {
      OccursAtStart(s, pat);
      forall i | 0 <= i < |s[1..]| ensures !OccursAt(s[1..], pat, i) {
        OccursAtTail(s, pat, i);
      }
      ReplaceAllAbsent(s[1..], pat, rep);
      assert s == [s[0]] + s[1..];
    }
  }

  /** The first occurrence of the pattern is replaced, and the scan resumes after it. */
  lemma {:induction false} ReplaceAllFirst(a: string, b: string, pat: string, rep: string)
    requires pat != []
    requires forall i :: 0 <= i < |a| ==> !OccursAt(a + pat + b, pat, i)
    ensures ReplaceAll(a + pat + b, pat, rep) == a + rep + ReplaceAll(b, pat, rep)
  {
    var s := a + pat + b;
    if a == [] {
      assert s == pat + b;
      assert s[|pat|..] == b;
    } else {
      OccursAtStart(s, pat);
      assert s[1..] == a[1..] + pat + b;
      forall i | 0 <= i < |a[1..]| ensures !OccursAt(a[1..] + pat + b, pat, i) {
        OccursAtTail(s, pat, i);
      }
      ReplaceAllFirst(a[1..], b, pat, rep);
      assert a == [a[0]] + a[1..];
    }
  }

  /** `str::trim_end_matches` with a char: drops every trailing `c` and nothing else. */
  function TrimEndChar(s: string, c: char): (r: string)
    ensures |r| <= |s| && r == s[..|r|]
    ensures r == [] || r[|r| - 1] != c
    ensures forall i :: |r| <= i < |s| ==> s[i] == c
  {
    if s != [] && s[|s| - 1] == c then TrimEndChar(s[..|s| - 1], c) else s
  }

  predicate EndsWith(s: string, suffix: string) {
    |suffix| <= |s| && s[|s| - |suffix|..] == suffix
  }

  /** `char::to_uppercase` on ASCII letters; every other character is left as it is. */
  function ToUpperAscii(c: char): char {
    if 'a' <= c <= 'z' then (c as int - 32) as char else c
  }
}

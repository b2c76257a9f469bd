/** The Python `str` operations the pipeline relies on, over `seq<char>`.
    Case mapping covers ASCII letters only; every other character is left
    as it is. */
module Strings {
  import opened Seqs

  /** Python's `str.isspace()` for one character; the same set is matched
      by `\s` in a `str` regular expression. */
  predicate IsSpace(c: char) {
    || c == ' '
    || ('\t' <= c <= '\r')
    || ('\U{1C}' <= c <= '\U{1F}')
    || c == '\U{85}' || c == '\U{A0}' || c == '\U{1680}'
    || ('\U{2000}' <= c <= '\U{200A}')
    || c == '\U{2028}' || c == '\U{2029}' || c == '\U{202F}' || c == '\U{205F}'
    || c == '\U{3000}'
  }

  predicate StartsWith(s: string, prefix: string) {
    |prefix| <= |s| && s[..|prefix|] == prefix
  }

  predicate EndsWith(s: string, suffix: string) {
    |suffix| <= |s| && s[|s| - |suffix|..] == suffix
  }

  /** `s[:n]` for `n >= 0`. */
  function Take(s: string, n: nat): (r: string)
    ensures |r| == if |s| <= n then |s| else n
    ensures r == s[..|r|]
  {
    if |s| <= n then s else s[..n]
  }

  /** `c * n` */
  function Repeat(c: char, n: nat): (r: string)
    ensures |r| == n
    ensures forall i :: 0 <= i < n ==> r[i] == c
  {
    if n == 0 then "" else [c] + Repeat(c, n - 1)
  }

  // ---------------------------------------------------------------------
  // Stripping

  /** Number of leading characters of `s` that satisfy `p`. */
  function LeadLen(s: string, p: char -> bool): (k: nat)
    ensures k <= |s|
    ensures forall i :: 0 <= i < k ==> p(s[i])
    ensures k < |s| ==> !p(s[k])
  {
    if |s| == 0 || !p(s[0]) then 0 else 1 + LeadLen(s[1..], p)
  }

  /** Number of trailing characters of `s` that satisfy `p`. */
  function TrailLen(s: string, p: char -> bool): (k: nat)
    ensures k <= |s|
    ensures forall i :: |s| - k <= i < |s| ==> p(s[i])
    ensures k < |s| ==> !p(s[|s| - 1 - k])
  {
    if |s| == 0 || !p(s[|s| - 1]) then 0 else 1 + TrailLen(s[..|s| - 1], p)
  }

  /** `s.rstrip(chars)` where `p` says which characters are in `chars`. */
  function RStripBy(s: string, p: char -> bool): (r: string)
    ensures StartsWith(s, r)
    ensures |r| == 0 || !p(r[|r| - 1])
    ensures forall i :: |r| <= i < |s| ==> p(s[i])
  {
    s[..|s| - TrailLen(s, p)]
  }

  /** `s.lstrip(chars)` where `p` says which characters are in `chars`. */
  function LStripBy(s: string, p: char -> bool): (r: string)
    ensures EndsWith(s, r)
    ensures |r| == 0 || !p(r[0])
    ensures forall i :: 0 <= i < |s| - |r| ==> p(s[i])
  {
    s[LeadLen(s, p)..]
  }

  /** `s.strip(chars)`: the infix `s[a..b]` left after dropping every
      leading and trailing character that satisfies `p`. */
  function StripBy(s: string, p: char -> bool): (r: string)
    ensures |r| <= |s|
    ensures |r| == 0 || (!p(r[0]) && !p(r[|r| - 1]))
    ensures LeadLen(s, p) + |r| <= |s| && r == s[LeadLen(s, p)..LeadLen(s, p) + |r|]
    ensures forall i :: LeadLen(s, p) + |r| <= i < |s| ==> p(s[i])
  {
    var a := LeadLen(s, p);
    var t := s[a..];
    var r := RStripBy(t, p);
    assert r == s[a..a + |r|];
    r
  }

  /** Left-stripping removes exactly a leading run of stripped characters. */
  lemma {:induction false} LStripExact(pre: string, rest: string, p: char -> bool)
    requires forall i :: 0 <= i < |pre| ==> p(pre[i])
    requires |rest| == 0 || !p(rest[0])
    ensures LStripBy(pre + rest, p) == rest
  {
    LeadExact(pre + rest, pre, rest, p);
    assert (pre + rest)[|pre|..] == rest;
  }

  /** `s.strip()` */
  function Strip(s: string): (r: string)
    ensures |r| <= |s|
    ensures |r| == 0 || (!IsSpace(r[0]) && !IsSpace(r[|r| - 1]))
  {
    StripBy(s, IsSpace)
  }

  /** Stripping is idempotent. */
  lemma StripIdempotent(s: string)
    ensures Strip(Strip(s)) == Strip(s)
  {
    var r := Strip(s);
    StripUnchanged(r, IsSpace);
  }

  /** A string with no strippable character at either end is its own strip. */
  lemma StripUnchanged(s: string, p: char -> bool)
    requires |s| == 0 || (!p(s[0]) && !p(s[|s| - 1]))
    ensures StripBy(s, p) == s
  {
    if |s| > 0 {
      assert LeadLen(s, p) == 0;
      assert TrailLen(s, p) == 0;
    }
  }

  /** Stripping only removes characters: what is left occurs in the input. */
  lemma StripWithin(s: string)
    ensures forall c :: c in Strip(s) ==> c in s
  {
    var k := LeadLen(s, IsSpace);
    var r := Strip(s);
    forall c | c in r ensures c in s {
      var i :| 0 <= i < |r| && r[i] == c;
      assert s[k + i] == c;
    }
  }

  /** Dropping exactly one leading `#`, as `if t.startswith("#"): t = t[1:]` does. */
  function DropHash(s: string): (r: string)
    ensures s == r || s == "#" + r
    ensures |s| > 0 && s[0] == '#' <==> |r| == |s| - 1
  {
    if |s| > 0 && s[0] == '#' then s[1..] else s
  }

  // ---------------------------------------------------------------------
  // Searching and replacing

  /** `sub in s` */
  predicate Contains(s: string, sub: string)
    decreases |s|
  {
    StartsWith(s, sub) || (|s| > 0 && Contains(s[1..], sub))
  }

  /** `Contains` agrees with "some position of `s` starts `sub`". */
  lemma {:induction false} ContainsIff(s: string, sub: string)
    ensures Contains(s, sub) <==> exists i :: 0 <= i <= |s| && StartsWith(s[i..], sub)
    decreases |s|
  {
    assert s[0..] == s;
    if |s| > 0 {
      ContainsIff(s[1..], sub);
      if Contains(s[1..], sub) {
        var i :| 0 <= i <= |s[1..]| && StartsWith(s[1..][i..], sub);
        assert s[1..][i..] == s[i + 1..];
      }
      if !StartsWith(s, sub) && exists i :: 0 <= i <= |s| && StartsWith(s[i..], sub) {
        var i :| 0 <= i <= |s| && StartsWith(s[i..], sub);
        assert i != 0;
        assert s[1..][i - 1..] == s[i..];
      }
    } else {
      assert s[0..] == s;
      if exists i :: 0 <= i <= |s| && StartsWith(s[i..], sub) {
        var i :| 0 <= i <= |s| && StartsWith(s[i..], sub);
        assert i == 0 && s[i..] == s;
      }
    }
  }

  /** A non-empty `sub` whose first character never occurs in `s` is not in `s`. */
  lemma {:induction false} NotContainsFirstChar(s: string, sub: string)
    requires |sub| > 0
    requires forall i :: 0 <= i < |s| ==> s[i] != sub[0]
    ensures !Contains(s, sub)
    decreases |s|
  {
    if |s| > 0 {
      NotContainsFirstChar(s[1..], sub);
      if |sub| <= |s| {
        assert s[..|sub|][0] == s[0];
      }
    }
  }

  /** Python's `s.replace(pat, rep)`: left-to-right, non-overlapping. An
      empty `pat` inserts `rep` before every character and at the end. */
  function ReplaceAll(s: string, pat: string, rep: string): string
    decreases |s|
  {
    if |pat| == 0 then
      (if |s| == 0 then rep else rep + [s[0]] + ReplaceAll(s[1..], pat, rep))
    else if |s| < |pat| then s
    else if s[..|pat|] == pat then rep + ReplaceAll(s[|pat|..], pat, rep)
    else [s[0]] + ReplaceAll(s[1..], pat, rep)
  }

  /** Replacing something that does not occur changes nothing. */
  lemma {:induction false} ReplaceAbsent(s: string, pat: string, rep: string)
    requires |pat| > 0 && !Contains(s, pat)
    ensures ReplaceAll(s, pat, rep) == s
    decreases |s|
  {
    if |s| >= |pat| {
      ReplaceAbsent(s[1..], pat, rep);
    }
  }

  /** A prefix `a` in which no occurrence of `pat` starts is copied through. */
  lemma {:induction false} ReplaceSkipsPrefix(a: string, rest: string, pat: string, rep: string)
    requires |pat| > 0
    requires forall i :: 0 <= i < |a| ==> !StartsWith(a[i..] + rest, pat)
    ensures ReplaceAll(a + rest, pat, rep) == a + ReplaceAll(rest, pat, rep)
    decreases |a|
  {
    if |a| > 0 {
      var s := a + rest;
      assert a[0..] == a;
      assert !StartsWith(s, pat);
      assert s[1..] == a[1..] + rest;
      forall i | 0 <= i < |a[1..]|
        ensures !StartsWith(a[1..][i..] + rest, pat)
      {
        assert a[1..][i..] == a[i + 1..];
      }
      ReplaceSkipsPrefix(a[1..], rest, pat, rep);
      if |s| >= |pat| {
        assert ReplaceAll(s, pat, rep) == [s[0]] + ReplaceAll(s[1..], pat, rep);
      } else {
        assert ReplaceAll(rest, pat, rep) == rest;
      }
      assert a == [a[0]] + a[1..];
    } else {
      assert a + rest == rest;
    }
  }

  /** A replacement no longer than its pattern never lengthens the string. */
  lemma {:induction false} ReplaceNoLonger(s: string, pat: string, rep: string)
    requires 0 < |pat| && |rep| <= |pat|
    ensures |ReplaceAll(s, pat, rep)| <= |s|
    decreases |s|
  {
    if |s| >= |pat| {
      if s[..|pat|] == pat {
        ReplaceNoLonger(s[|pat|..], pat, rep);
      } else {
        ReplaceNoLonger(s[1..], pat, rep);
      }
    }
  }

  /** An occurrence at the very start is replaced and scanning resumes after it. */
  lemma ReplaceAtStart(pat: string, rest: string, rep: string)
    requires |pat| > 0
    ensures ReplaceAll(pat + rest, pat, rep) == rep + ReplaceAll(rest, pat, rep)
  {
    var s := pat + rest;
    assert s[..|pat|] == pat;
    assert s[|pat|..] == rest;
  }

  /** `s.replace(c, "")` for one character: `s` with every `c` removed. */
  function Without(s: string, c: char): (r: string)
    ensures c !in r
    ensures |r| <= |s|
    ensures forall x :: x != c ==> multiset(r)[x] == multiset(s)[x]
  {
    if |s| == 0 then ""
    else if s[0] == c then (assert s == [s[0]] + s[1..]; Without(s[1..], c))
    else (assert s == [s[0]] + s[1..]; [s[0]] + Without(s[1..], c))
  }

  /** Removing a character is the same as replacing it with nothing. */
  lemma {:induction false} WithoutIsReplace(s: string, c: char)
    ensures Without(s, c) == ReplaceAll(s, [c], "")
    decreases |s|
  {
    if |s| > 0 {
      WithoutIsReplace(s[1..], c);
      assert s[..1] == [s[0]];
    }
  }

  /** `s.replace(a, b)` for single characters. */
  function MapChar(s: string, a: char, b: char): (r: string)
    ensures |r| == |s|
    ensures forall i :: 0 <= i < |s| ==> r[i] == (if s[i] == a then b else s[i])
  {
    if |s| == 0 then "" else [if s[0] == a then b else s[0]] + MapChar(s[1..], a, b)
  }

  /** The per-character map is `str.replace` of a one-character pattern. */
  lemma {:induction false} MapCharIsReplace(s: string, a: char, b: char)
    ensures MapChar(s, a, b) == ReplaceAll(s, [a], [b])
    decreases |s|
  {
    if |s| > 0 {
      MapCharIsReplace(s[1..], a, b);
      assert s[..1] == [s[0]];
    }
  }

  lemma {:induction false} MapCharAbsent(s: string, a: char, b: char)
    requires a !in s
    ensures MapChar(s, a, b) == s
    decreases |s|
  {
    if |s| > 0 {
      MapCharAbsent(s[1..], a, b);
    }
  }

  // ---------------------------------------------------------------------
  // Case and character classes (ASCII)

  predicate IsAsciiChar(c: char) {
    c < 128 as char
  }

  /** `s.isascii()`; true of the empty string. */
  predicate IsAscii(s: string) {
    forall i :: 0 <= i < |s| ==> IsAsciiChar(s[i])
  }

  predicate IsUpperChar(c: char) {
    'A' <= c <= 'Z'
  }

  predicate IsLowerChar(c: char) {
    'a' <= c <= 'z'
  }

  predicate IsDigit(c: char) {
    '0' <= c <= '9'
  }

  function LowerChar(c: char): (r: char)
    ensures !IsUpperChar(r)
    ensures IsAsciiChar(r) <==> IsAsciiChar(c)
  {
    if IsUpperChar(c) then (c as int + 32) as char else c
  }

  function UpperChar(c: char): (r: char)
    ensures !IsLowerChar(r)
    ensures IsAsciiChar(r) <==> IsAsciiChar(c)
  {
    if IsLowerChar(c) then (c as int - 32) as char else c
  }

  /** `s.lower()` */
  function Lower(s: string): (r: string)
    ensures |r| == |s|
    ensures forall i :: 0 <= i < |s| ==> r[i] == LowerChar(s[i])
  {
    if |s| == 0 then "" else [LowerChar(s[0])] + Lower(s[1..])
  }

  /** `s.upper()` */
  function Upper(s: string): (r: string)
    ensures |r| == |s|
    ensures forall i :: 0 <= i < |s| ==> r[i] == UpperChar(s[i])
  {
    if |s| == 0 then "" else [UpperChar(s[0])] + Upper(s[1..])
  }

  /** `s.capitalize()`: first character upper-cased, the rest lower-cased. */
  function Capitalize(s: string): (r: string)
    ensures |r| == |s|
    ensures |s| > 0 ==> r[0] == UpperChar(s[0]) && r[1..] == Lower(s[1..])
  {
    if |s| == 0 then "" else [UpperChar(s[0])] + Lower(s[1..])
  }

  lemma LowerIdempotent(s: string)
    ensures Lower(Lower(s)) == Lower(s)
  {
  }

  lemma LowerKeepsAscii(s: string)
    ensures IsAscii(Lower(s)) <==> IsAscii(s)
  {
  }

  /** `s.split(c, 1)[-1]`: the text after the first `c`, or all of `s`. */
  function AfterFirst(s: string, c: char): (r: string)
    ensures c !in s ==> r == s
    ensures c in s ==> |r| < |s| && EndsWith(s, r) && s[|s| - |r| - 1] == c && c !in s[..|s| - |r| - 1]
  {
    if c in s then s[FirstIndex(s, c) + 1..] else s
  }

  // ---------------------------------------------------------------------
  // Splitting and joining

  /** `s.split(c)` for a single-character separator: never empty, and no
      piece contains the separator. */
  function Split(s: string, c: char): (r: seq<string>)
    ensures |r| >= 1
    ensures forall i :: 0 <= i < |r| ==> c !in r[i]
  {
    if |s| == 0 then [""]
    else if s[0] == c then [""] + Split(s[1..], c)
    else
      var t := Split(s[1..], c);
      [[s[0]] + t[0]] + t[1..]
  }

  /** `sep.join(parts)` */
  function Join(parts: seq<string>, sep: string): string {
    if |parts| == 0 then ""
    else if |parts| == 1 then parts[0]
    else parts[0] + sep + Join(parts[1..], sep)
  }

  /** Joining one more part adds the separator and that part at the end. */
  lemma {:induction false} JoinAppend(parts: seq<string>, x: string, sep: string)
    requires |parts| > 0
    ensures Join(parts + [x], sep) == Join(parts, sep) + sep + x
  {
    if |parts| > 1 {
      assert (parts + [x])[1..] == parts[1..] + [x];
      JoinAppend(parts[1..], x, sep);
    }
  }

  /** Joining the pieces of a split with the same separator gives back the string. */
  lemma {:induction false} JoinSplit(s: string, c: char)
    ensures Join(Split(s, c), [c]) == s
    decreases |s|
  {
    if |s| > 0 {
      JoinSplit(s[1..], c);
      var t := Split(s[1..], c);
      if s[0] != c {
        var r := [[s[0]] + t[0]] + t[1..];
        assert Split(s, c) == r;
        if |t| == 1 {
          assert Join(t, [c]) == t[0];
        } else {
          assert Join(t, [c]) == t[0] + [c] + Join(t[1..], [c]);
          assert r[1..] == t[1..];
        }
      } else {
        assert Split(s, c) == [""] + t;
      }
    }
  }

  /** The first piece of a split is everything before the first separator,
      and the rest, joined back, is everything after it. */
  lemma {:induction false} SplitFirst(s: string, c: char)
    ensures StartsWith(s, Split(s, c)[0])
    ensures |Split(s, c)| > 1 ==>
              (|Split(s, c)[0]| < |s| && s[|Split(s, c)[0]|] == c
               && Join(Split(s, c)[1..], [c]) == s[|Split(s, c)[0]| + 1..])
    ensures |Split(s, c)| == 1 <==> c !in s
    decreases |s|
  {
    if |s| > 0 {
      SplitFirst(s[1..], c);
      var t := Split(s[1..], c);
      if s[0] == c {
        assert Split(s, c) == [""] + t;
        JoinSplit(s[1..], c);
        assert ([""] + t)[1..] == t;
      } else {
        var r := [[s[0]] + t[0]] + t[1..];
        assert Split(s, c) == r;
        assert r[1..] == t[1..];
        assert s == [s[0]] + s[1..];
      }
    }
  }

  /** Splitting a join of separator-free pieces gives back the pieces. */
  lemma {:induction false} SplitJoin(parts: seq<string>, c: char)
    requires |parts| >= 1
    requires forall i :: 0 <= i < |parts| ==> c !in parts[i]
    ensures Split(Join(parts, [c]), c) == parts
    decreases |parts|
  {
    if |parts| == 1 {
      SplitNoSep(parts[0], c);
    } else {
      SplitJoin(parts[1..], c);
      SplitConcat(parts[0], Join(parts[1..], [c]), c);
    }
  }

  lemma {:induction false} SplitNoSep(s: string, c: char)
    requires c !in s
    ensures Split(s, c) == [s]
    decreases |s|
  {
    if |s| > 0 {
      SplitNoSep(s[1..], c);
      assert s == [s[0]] + s[1..];
    }
  }

  lemma {:induction false} SplitConcat(a: string, b: string, c: char)
    requires c !in a
    ensures Split(a + [c] + b, c) == [a] + Split(b, c)
    decreases |a|
  {
    var s := a + [c] + b;
    if |a| == 0 {
      assert s == [c] + b;
      assert s[1..] == b;
    } else {
      assert s[1..] == a[1..] + [c] + b;
      SplitConcat(a[1..], b, c);
      assert a == [a[0]] + a[1..];
    }
  }

  /** The maximal runs of characters that are not separators, in order.
      Python's `re.split(r'[...]+', s)` returns exactly these, plus an
      empty string at either end when `s` starts or ends with a separator;
      `s.split()` returns exactly these for whitespace. */
  function Words(s: string, sep: char -> bool): (r: seq<string>)
    ensures forall i :: 0 <= i < |r| ==> IsWord(r[i], sep)
    decreases |s|
  {
    if |s| == 0 then []
    else if sep(s[0]) then Words(s[1..], sep)
    else
      var w := LeadLen(s, c => !sep(c));
      [s[..w]] + Words(s[w..], sep)
  }

  /** Words of a string made only of separators. */
  lemma {:induction false} WordsOfSeparators(s: string, sep: char -> bool)
    requires forall i :: 0 <= i < |s| ==> sep(s[i])
    ensures Words(s, sep) == []
    decreases |s|
  {
    if |s| > 0 {
      WordsOfSeparators(s[1..], sep);
    }
  }

  /** Words of `w + rest` when `w` is a non-empty word and `rest` is empty or starts with a separator. */
  lemma WordsCons(w: string, rest: string, sep: char -> bool)
    requires IsWord(w, sep)
    requires |rest| == 0 || sep(rest[0])
    ensures Words(w + rest, sep) == [w] + Words(rest, sep)
  {
    var s := w + rest;
    LeadExact(s, w, rest, (c: char) => !sep(c));
    assert s[..|w|] == w;
    assert s[|w|..] == rest;
  }

  lemma {:induction false} LeadExact(s: string, w: string, rest: string, p: char -> bool)
    requires s == w + rest
    requires forall i :: 0 <= i < |w| ==> p(w[i])
    requires |rest| == 0 || !p(rest[0])
    ensures LeadLen(s, p) == |w|
    decreases |w|
  {
    if |w| > 0 {
      assert s[1..] == w[1..] + rest;
      LeadExact(s[1..], w[1..], rest, p);
    }
  }

  /** A non-empty run of non-separator characters. */
  predicate IsWord(w: string, sep: char -> bool) {
    |w| > 0 && forall j :: 0 <= j < |w| ==> !sep(w[j])
  }

  lemma JoinStartsWith(parts: seq<string>, sep: string)
    requires |parts| > 0
    ensures StartsWith(Join(parts, sep), parts[0])
  {
  }

  /** The last character of a join is the last character of its last part. */
  lemma {:induction false} JoinEndsWith(parts: seq<string>, sep: string)
    requires |parts| > 0
    ensures EndsWith(Join(parts, sep), parts[|parts| - 1])
    decreases |parts|
  {
    if |parts| > 1 {
      JoinEndsWith(parts[1..], sep);
    }
  }

  /** A character in neither the parts nor the separator is not in the join. */
  lemma {:induction false} JoinNoChar(parts: seq<string>, sep: string, c: char)
    requires c !in sep
    requires forall i :: 0 <= i < |parts| ==> c !in parts[i]
    ensures c !in Join(parts, sep)
    decreases |parts|
  {
    if |parts| > 1 {
      JoinNoChar(parts[1..], sep, c);
    }
  }

  /** A non-empty stripped string has no space at either end. */
  lemma StrippedEnds(s: string)
    requires s != "" && Strip(s) == s
    ensures !IsSpace(s[0]) && !IsSpace(s[|s| - 1])
  {
  }

  /** A string whose end characters are not spaces is stripped. */
  lemma EndsNotSpace(s: string, a: char, b: char)
    requires s != "" && s[0] == a && s[|s| - 1] == b && !IsSpace(a) && !IsSpace(b)
    ensures Strip(s) == s
  {
    StripUnchanged(s, IsSpace);
  }

  /** A join whose first part starts, and whose last part ends, with
      something other than a space is stripped. */
  lemma StripJoinUnchanged(parts: seq<string>, sep: string)
    requires |parts| > 0 && parts[0] != "" && parts[|parts| - 1] != ""
    requires !IsSpace(parts[0][0]) && !IsSpace(parts[|parts| - 1][|parts[|parts| - 1]| - 1])
    ensures Strip(Join(parts, sep)) == Join(parts, sep)
  {
    var raw := Join(parts, sep);
    var first := parts[0];
    var last := parts[|parts| - 1];
    JoinEndsWith(parts, sep);
    JoinStartsWith(parts, sep);
    assert raw[0] == first[0];
    assert raw[|raw| - 1] == last[|last| - 1];
    EndsNotSpace(raw, first[0], last[|last| - 1]);
  }

  /** Stripped, non-empty end parts make a join that stripping leaves
      alone, so splitting it gives the parts back. */
  lemma SplitJoinStripped(parts: seq<string>, c: char)
    requires |parts| > 0 && parts[0] != "" && parts[|parts| - 1] != ""
    requires forall i :: 0 <= i < |parts| ==> c !in parts[i]
    requires Strip(parts[0]) == parts[0] && Strip(parts[|parts| - 1]) == parts[|parts| - 1]
    ensures Split(Strip(Join(parts, [c])), c) == parts
  {
    StrippedEnds(parts[0]);
    StrippedEnds(parts[|parts| - 1]);
    StripJoinUnchanged(parts, [c]);
    SplitJoin(parts, c);
  }

  /** `[t.strip() for t in ts]` */
  function StripAll(ts: seq<string>): (r: seq<string>)
    ensures |r| == |ts| && forall i :: 0 <= i < |ts| ==> r[i] == Strip(ts[i])
  {
    if |ts| == 0 then [] else [Strip(ts[0])] + StripAll(ts[1..])
  }

  lemma StripAllFixed(ts: seq<string>)
    requires forall i :: 0 <= i < |ts| ==> Strip(ts[i]) == ts[i]
    ensures StripAll(ts) == ts
  {
  }

  /** Joining words with a separator character and splitting into words
      gives the words back. */
  lemma {:induction false} WordsJoin(ws: seq<string>, c: char, sep: char -> bool)
    requires sep(c)
    requires forall i :: 0 <= i < |ws| ==> IsWord(ws[i], sep)
    ensures Words(Join(ws, [c]), sep) == ws
    decreases |ws|
  {
    if |ws| == 0 {
      assert Words("", sep) == [];
    } else if |ws| == 1 {
      assert IsWord(ws[0], sep);
      WordsCons(ws[0], "", sep);
      assert ws[0] + "" == ws[0];
      assert Words("", sep) == [];
    } else {
      var rest := Join(ws[1..], [c]);
      assert IsWord(ws[0], sep);
      assert Join(ws, [c]) == ws[0] + ([c] + rest);
      WordsCons(ws[0], [c] + rest, sep);
      WordsSkipSep(c, rest, sep);
      WordsJoin(ws[1..], c, sep);
      assert [ws[0]] + ws[1..] == ws;
    }
  }

  lemma WordsSkipSep(c: char, rest: string, sep: char -> bool)
    requires sep(c)
    ensures Words([c] + rest, sep) == Words(rest, sep)
  {
    assert ([c] + rest)[1..] == rest;
  }

  // ---------------------------------------------------------------------
  // Decimal numbers

  function DigitChar(d: nat): (c: char)
    requires d < 10
    ensures IsDigit(c)
  {
    ('0' as int + d) as char
  }

  /** `str(n)` for a natural number. */
  function NatToString(n: nat): (r: string)
    ensures |r| > 0
    ensures forall i :: 0 <= i < |r| ==> IsDigit(r[i])
    ensures r[0] == '0' ==> n == 0
  {
    if n < 10 then [DigitChar(n)] else NatToString(n / 10) + [DigitChar(n % 10)]
  }

  /** The value of a string of decimal digits. */
  function DigitsValue(s: string): nat
    requires forall i :: 0 <= i < |s| ==> IsDigit(s[i])
  {
    if |s| == 0 then 0
    else
      assert IsDigit(s[|s| - 1]);
      DigitsValue(s[..|s| - 1]) * 10 + (s[|s| - 1] as int - '0' as int)
  }

  /** `str` is injective on naturals: the digits read back as the number. */
  lemma {:induction false} NatToStringValue(n: nat)
    ensures DigitsValue(NatToString(n)) == n
  {
    if n >= 10 {
      NatToStringValue(n / 10);
      var s := NatToString(n);
      assert s[..|s| - 1] == NatToString(n / 10);
    }
  }

  /** `str(i)` for any integer. */
  function IntToString(i: int): (r: string)
    ensures |r| > 0
    ensures i < 0 <==> r[0] == '-'
  {
    if i < 0 then "-" + NatToString(-i) else NatToString(i)
  }
}

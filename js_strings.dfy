/**
 * The JavaScript string and array built-ins that the route handlers rely on:
 * `String.prototype.trim`, `split` with a one-character separator,
 * `Array.prototype.join`, `endsWith`, `startsWith`, and `replace` with a
 * regular expression anchored at the start (`/^p/`) or at the end (`/p$/`).
 * Strings are sequences of characters; the handlers never look at encodings.
 */
module JsStrings {

  /** The characters `trim` removes: ECMAScript's WhiteSpace (tab, vertical tab,
      form feed, space, no-break space, byte order mark and the Unicode space
      separators) and LineTerminator (line feed, carriage return, line and
      paragraph separator). */
  predicate IsWhitespace(c: char)
  {
    || c == '\t' || c == '\n' || c == '\U{000B}' || c == '\U{000C}' || c == '\r'
    || c == ' ' || c == '\U{00A0}' || c == '\U{1680}'
    || ('\U{2000}' <= c <= '\U{200A}')
    || c == '\U{2028}' || c == '\U{2029}' || c == '\U{202F}' || c == '\U{205F}'
    || c == '\U{3000}' || c == '\U{FEFF}'
  }

  predicate AllWhitespace(s: string)
  {
    forall i :: 0 <= i < |s| ==> IsWhitespace(s[i])
  }

  /** Neither end of `s` is whitespace. */
  predicate Trimmed(s: string)
  {
    s == [] || (!IsWhitespace(s[0]) && !IsWhitespace(s[|s| - 1]))
  }

  /** Drops the leading whitespace of `s`. */
  function TrimStart(s: string): (r: string)
    ensures |r| <= |s|
    ensures r == [] || !IsWhitespace(r[0])
    decreases |s|
  {
    if |s| > 0 && IsWhitespace(s[0]) then TrimStart(s[1..]) else s
  }

  /** Drops the trailing whitespace of `s`. */
  function TrimEnd(s: string): (r: string)
    ensures |r| <= |s|
    ensures r != [] ==> r[0] == s[0]
    ensures r == [] || !IsWhitespace(r[|r| - 1])
    decreases |s|
  {
    if |s| > 0 && IsWhitespace(s[|s| - 1]) then TrimEnd(s[..|s| - 1]) else s
  }

  /** `s.trim()`: the text of `s` between its leading and its trailing whitespace. */
  function Trim(s: string): (r: string)
    ensures Trimmed(r)
  {
    TrimEnd(TrimStart(s))
  }

  /** What `TrimStart` drops is a whitespace prefix. */
  lemma {:induction false} TrimStartIsSuffix(s: string)
    ensures var r := TrimStart(s);
            r == s[|s| - |r|..] && AllWhitespace(s[..|s| - |r|])
    decreases |s|
  {
    if |s| > 0 && IsWhitespace(s[0]) {
      TrimStartIsSuffix(s[1..]);
      var r := TrimStart(s);
      assert s[1..][..|s| - 1 - |r|] == s[1..|s| - |r|];
    }
  }

  /** What `TrimEnd` drops is a whitespace suffix. */
  lemma {:induction false} TrimEndIsPrefix(s: string)
    ensures var r := TrimEnd(s);
            r == s[..|r|] && AllWhitespace(s[|r|..])
    decreases |s|
  {
    if |s| > 0 && IsWhitespace(s[|s| - 1]) {
      TrimEndIsPrefix(s[..|s| - 1]);
    }
  }

  /** `trim` removes only whitespace, and only at the two ends. */
  lemma TrimIsInfix(s: string)
    ensures var i := |s| - |TrimStart(s)|;
            var j := i + |Trim(s)|;
            && i <= j <= |s|
            && s == s[..i] + Trim(s) + s[j..]
            && AllWhitespace(s[..i]) && AllWhitespace(s[j..])
  {
    var t := TrimStart(s);
    TrimStartIsSuffix(s);
    TrimEndIsPrefix(t);
    InfixOfSuffix(s, t, TrimEnd(t));
  }

  /** A prefix `r` of a suffix `t` of `s` sits between the rest of `s` and the rest of `t`. */
  lemma InfixOfSuffix(s: string, t: string, r: string)
    requires |t| <= |s| && t == s[|s| - |t|..]
    requires |r| <= |t| && r == t[..|r|]
    ensures var i := |s| - |t|;
            s == s[..i] + r + s[i + |r|..] && s[i + |r|..] == t[|r|..]
  {
    var i := |s| - |t|;
    assert s == s[..i] + t;
    assert t == r + t[|r|..];
  }

  lemma {:induction false} TrimStartOfPadded(lead: string, t: string)
    requires AllWhitespace(lead)
    requires t == [] || !IsWhitespace(t[0])
    ensures TrimStart(lead + t) == t
    decreases |lead|
  {
    if lead != [] {
      assert (lead + t)[1..] == lead[1..] + t;
      TrimStartOfPadded(lead[1..], t);
    }
  }

  lemma {:induction false} TrimEndOfPadded(t: string, trail: string)
    requires AllWhitespace(trail)
    requires t == [] || !IsWhitespace(t[|t| - 1])
    ensures TrimEnd(t + trail) == t
    decreases |trail|
  {
    if trail != [] {
      var n := |trail| - 1;
      assert (t + trail)[..|t + trail| - 1] == t + trail[..n];
      TrimEndOfPadded(t, trail[..n]);
    }
  }

  /** `Trim` is determined by its two properties: a trimmed text padded with
      whitespace on both sides trims back to itself. */
  lemma TrimOfPadded(lead: string, m: string, trail: string)
    requires AllWhitespace(lead) && AllWhitespace(trail) && Trimmed(m)
    ensures Trim(lead + m + trail) == m
  {
    if m == [] {
      assert lead + m + trail == (lead + trail) + [];
      TrimStartOfPadded(lead + trail, []);
    } else {
      assert lead + m + trail == lead + (m + trail);
      TrimStartOfPadded(lead, m + trail);
      TrimEndOfPadded(m, trail);
    }
  }

  /** A text with no whitespace at either end is left as it is. */
  lemma TrimTrimmed(s: string)
    requires Trimmed(s)
    ensures Trim(s) == s
  {
    assert s == [] + s + [];
    TrimOfPadded([], s, []);
  }

  /** Trimming twice is trimming once. */
  lemma TrimIdempotent(s: string)
    ensures Trim(Trim(s)) == Trim(s)
  {
    TrimTrimmed(Trim(s));
  }

  /** The position of the first `c` in `s`, or `|s|` when there is none. */
  function Find(s: string, c: char): (k: nat)
    ensures k <= |s|
    ensures c !in s[..k]
    ensures k < |s| ==> s[k] == c
  {
    if s == [] then 0
    else if s[0] == c then 0
    else 1 + Find(s[1..], c)
  }

  /** `s.split(sep)` for a one-character separator: the texts between
      consecutive separators, an empty text included (`"".split(",")` is `[""]`). */
  function Split(s: string, sep: char): (parts: seq<string>)
    ensures |parts| >= 1
    ensures forall i :: 0 <= i < |parts| ==> sep !in parts[i]
    decreases |s|
  {
    var k := Find(s, sep);
    if k == |s| then
      [s]
    else
      [s[..k]] + Split(s[k + 1..], sep)
  }

  /** A split has one part more than the text has separators. */
  lemma {:induction false} SplitCount(s: string, sep: char)
    ensures |Split(s, sep)| == multiset(s)[sep] + 1
    decreases |s|
  {
    var k := Find(s, sep);
    if k == |s| {
      assert s[..k] == s;
    } else {
      SplitCount(s[k + 1..], sep);
      assert s == s[..k] + [s[k]] + s[k + 1..];
      assert s[..k] == s[..k];
      assert multiset(s) == multiset(s[..k]) + multiset{sep} + multiset(s[k + 1..]);
    }
  }

  /** A text splits into more than one part exactly when it holds the separator. */
  lemma SplitMoreIff(s: string, sep: char)
    ensures |Split(s, sep)| > 1 <==> sep in s
  {
    var k := Find(s, sep);
    if k == |s| {
      assert s[..k] == s;
    }
  }

  /** `parts.join(sep)`. */
  function Join(parts: seq<string>, sep: string): (s: string)
    ensures |parts| == 1 ==> s == parts[0]
  {
    if |parts| == 0 then ""
    else if |parts| == 1 then parts[0]
    else parts[0] + sep + Join(parts[1..], sep)
  }

  lemma SplitNoSeparator(s: string, sep: char)
    requires sep !in s
    ensures Split(s, sep) == [s]
  {
  }

  lemma SplitAtFirst(a: string, sep: char, b: string)
    requires sep !in a
    ensures Split(a + [sep] + b, sep) == [a] + Split(b, sep)
  {
    var s := a + [sep] + b;
    var k := Find(s, sep);
    assert s[..|a|] == a;
    assert s[|a|] == sep;
    assert k <= |a| ==> s[..k] == a[..k];
    assert k == |a|;
    assert s[k + 1..] == b;
  }

  /** Joining the parts of a split with the separator gives back the text. */
  lemma {:induction false} JoinSplit(s: string, sep: char)
    ensures Join(Split(s, sep), [sep]) == s
    decreases |s|
  {
    var k := Find(s, sep);
    if k < |s| {
      var parts := Split(s, sep);
      var rest := Split(s[k + 1..], sep);
      JoinSplit(s[k + 1..], sep);
      assert parts[1..] == rest && |parts| >= 2;
      assert Join(parts, [sep]) == s[..k] + [sep] + Join(rest, [sep]);
      assert s == s[..k] + [s[k]] + s[k + 1..];
    }
  }

  /** Splitting a join of separator-free parts gives back the parts. */
  lemma {:induction false} SplitJoin(parts: seq<string>, sep: char)
    requires |parts| >= 1
    requires forall i :: 0 <= i < |parts| ==> sep !in parts[i]
    ensures Split(Join(parts, [sep]), sep) == parts
    decreases |parts|
  {
    if |parts| == 1 {
      SplitNoSeparator(parts[0], sep);
    } else {
      var tail := Join(parts[1..], [sep]);
      assert Join(parts, [sep]) == parts[0] + [sep] + tail;
      SplitJoin(parts[1..], sep);
      SplitAtFirst(parts[0], sep, tail);
      assert parts == [parts[0]] + parts[1..];
    }
  }

  /** `s.endsWith(suffix)`. */
  predicate EndsWith(s: string, suffix: string)
  {
    |suffix| <= |s| && s[|s| - |suffix|..] == suffix
  }

  lemma EndsWithIff(s: string, suffix: string)
    ensures EndsWith(s, suffix) <==> exists p: string :: s == p + suffix
  {
    if EndsWith(s, suffix) {
      assert s == s[..|s| - |suffix|] + suffix;
    }
    if p: string :| s == p + suffix {
      assert s[|s| - |suffix|..] == suffix;
    }
  }

  /** `s.startsWith(prefix)`; also what `/^prefix/` tests. */
  predicate StartsWith(s: string, prefix: string)
  {
    |prefix| <= |s| && s[..|prefix|] == prefix
  }

  /** Text appended after the length of the prefix does not change whether
      the prefix is there. */
  lemma StartsWithAppend(s: string, more: string, prefix: string)
    requires |prefix| <= |s|
    ensures StartsWith(s + more, prefix) <==> StartsWith(s, prefix)
  {
    assert (s + more)[..|prefix|] == s[..|prefix|];
  }

  /** Appending a non-whitespace character keeps a nonempty trimmed text trimmed. */
  lemma TrimmedAppend(s: string, c: char)
    requires Trimmed(s) && !IsWhitespace(c)
    ensures Trimmed(s + [c])
  {
    if s != [] {
      assert (s + [c])[0] == s[0];
    }
  }

  /** `s.replace(/^prefix/, '')`: removes one occurrence of `prefix` at the very start. */
  function StripLeading(s: string, prefix: string): (r: string)
    ensures StartsWith(s, prefix) ==> prefix + r == s
    ensures !StartsWith(s, prefix) ==> r == s
  {
    if StartsWith(s, prefix) then s[|prefix|..] else s
  }

  lemma StripLeadingOf(prefix: string, rest: string)
    ensures StripLeading(prefix + rest, prefix) == rest
  {
    assert (prefix + rest)[..|prefix|] == prefix;
  }

  /** `s.replace(/suffix$/, '')` (no `m` flag, so `$` is the end of the text):
      removes one occurrence of `suffix` at the very end. */
  function StripTrailing(s: string, suffix: string): (r: string)
    ensures EndsWith(s, suffix) ==> r + suffix == s
    ensures !EndsWith(s, suffix) ==> r == s
  {
    if EndsWith(s, suffix) then s[..|s| - |suffix|] else s
  }

  lemma StripTrailingOf(rest: string, suffix: string)
    ensures StripTrailing(rest + suffix, suffix) == rest
  {
    assert (rest + suffix)[|rest|..] == suffix;
  }
}

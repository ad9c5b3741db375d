/** The three Python string operations the pipeline relies on, on `seq<char>`:
    `str.strip()` with no argument, `sep.join(parts)` and `str.replace(old, new)`. */
module Text {

  /** Python's `str.isspace` for one character: the ASCII whitespace 0x09-0x0D,
      0x1C-0x1F and the space, plus the Unicode separators Python treats as
      whitespace.  This is the set that argument-less `str.strip()` removes. */
  predicate IsSpace(c: char) {
    ('\t' <= c <= '\r') || ('\U{1C}' <= c <= '\U{1F}') || c == ' '
    || c == '\U{85}' || c == '\U{A0}' || c == '\U{1680}'
    || ('\U{2000}' <= c <= '\U{200A}') || c == '\U{2028}' || c == '\U{2029}'
    || c == '\U{202F}' || c == '\U{205F}' || c == '\U{3000}'
  }

  predicate AllSpace(s: string) {
    forall i :: 0 <= i < |s| ==> IsSpace(s[i])
  }

  /** Neither end of `s` is whitespace (vacuously true of the empty string). */
  predicate NoEdgeSpace(s: string) {
    s == [] || (!IsSpace(s[0]) && !IsSpace(s[|s| - 1]))
  }

  /** `s` with its leading whitespace removed: a suffix of `s` whose cut-off part
      is all whitespace and which does not itself start with whitespace. */
  function TrimStart(s: string): (r: string)
    ensures |r| <= |s| && r == s[|s| - |r|..]
    ensures AllSpace(s[..|s| - |r|])
    ensures r == [] || !IsSpace(r[0])
    decreases |s|
  {
    if s != [] && IsSpace(s[0]) then
      var r := TrimStart(s[1..]);
      assert s[..|s| - |r|] == [s[0]] + s[1..][..|s[1..]| - |r|];
      r
    else s
  }

  /** `s` with its trailing whitespace removed: a prefix of `s` whose cut-off
      part is all whitespace and which does not itself end with whitespace. */
  function TrimEnd(s: string): (r: string)
    ensures |r| <= |s| && r == s[..|r|]
    ensures AllSpace(s[|r|..])
    ensures r == [] || !IsSpace(r[|r| - 1])
    decreases |s|
  {
    if s != [] && IsSpace(s[|s| - 1]) then
      var r := TrimEnd(s[..|s| - 1]);
      assert s[|r|..] == s[..|s| - 1][|r|..] + [s[|s| - 1]];
      r
    else s
  }

  /** Python's `s.strip()`: `s` is the result with whitespace around it, and
      neither end of the result is whitespace. */
  function Strip(s: string): (r: string)
    ensures NoEdgeSpace(r)
    ensures exists a, b :: s == a + r + b && AllSpace(a) && AllSpace(b)
  {
    var t := TrimStart(s);
    var r := TrimEnd(t);
    SliceAround(s, t, r);
    r
  }

  /** A prefix `r` of a suffix `t` of `s`, each cut off from whitespace only,
      is `s` with whitespace around it. */
  lemma SliceAround(s: string, t: string, r: string)
    requires |t| <= |s| && t == s[|s| - |t|..] && AllSpace(s[..|s| - |t|])
    requires |r| <= |t| && r == t[..|r|] && AllSpace(t[|r|..])
    ensures exists a, b :: s == a + r + b && AllSpace(a) && AllSpace(b)
  {
    var a, b := s[..|s| - |t|], t[|r|..];
    assert s == a + t;
    assert t == r + b;
    assert s == a + r + b;
  }

  lemma {:induction false} TrimStartOfSpaces(a: string, r: string)
    requires AllSpace(a) && (r == [] || !IsSpace(r[0]))
    ensures TrimStart(a + r) == r
    decreases |a|
  {
    if a != [] {
      assert (a + r)[1..] == a[1..] + r;
      TrimStartOfSpaces(a[1..], r);
    } else {
      assert a + r == r;
    }
  }

  lemma {:induction false} TrimEndOfSpaces(r: string, b: string)
    requires AllSpace(b) && (r == [] || !IsSpace(r[|r| - 1]))
    ensures TrimEnd(r + b) == r
    decreases |b|
  {
    if b != [] {
      assert (r + b)[..|r + b| - 1] == r + b[..|b| - 1];
      TrimEndOfSpaces(r, b[..|b| - 1]);
    } else {
      assert r + b == r;
    }
  }

  /** Strip is determined by its contract: whatever whitespace surrounds a
      string with non-space ends, stripping gives back exactly that string. */
  lemma {:induction false} StripUnique(a: string, r: string, b: string)
    requires AllSpace(a) && AllSpace(b) && NoEdgeSpace(r)
    ensures Strip(a + r + b) == r
  {
    if r == [] {
      assert a + r + b == a + b;
      assert AllSpace(a + b);
      TrimStartOfSpaces(a + b, []);
      assert a + b + [] == a + b;
      assert TrimStart(a + b) == [];
    } else {
      assert a + r + b == a + (r + b);
      TrimStartOfSpaces(a, r + b);
      TrimEndOfSpaces(r, b);
    }
  }

  /** Stripping twice is stripping once. */
  lemma StripIdempotent(s: string)
    ensures Strip(Strip(s)) == Strip(s)
  {
    var r := Strip(s);
    assert [] + r + [] == r;
    StripUnique([], r, []);
  }

  /** Python's `sep.join(parts)`: the parts in order with `sep` between
      neighbours, nothing before the first or after the last. */
  function Join(sep: string, parts: seq<string>): (r: string)
    decreases |parts|
  {
    if |parts| == 0 then []
    else if |parts| == 1 then parts[0]
    else parts[0] + sep + Join(sep, parts[1..])
  }

  /** Joining a concatenation of two non-empty lists puts exactly one
      separator between the two joined halves: the order of the parts is kept. */
  lemma {:induction false} JoinAppend(sep: string, a: seq<string>, b: seq<string>)
    requires a != [] && b != []
    ensures Join(sep, a + b) == Join(sep, a) + sep + Join(sep, b)
    decreases |a|
  {
    if |a| == 1 {
      assert (a + b)[1..] == b;
    } else {
      assert (a + b)[1..] == a[1..] + b;
      JoinAppend(sep, a[1..], b);
    }
  }

  /** The sum of the lengths of `parts`. */
  function TotalLength(parts: seq<string>): nat {
    if parts == [] then 0 else |parts[0]| + TotalLength(parts[1..])
  }

  /** Joining adds nothing but one separator between each pair of neighbours. */
  lemma {:induction false} JoinLength(sep: string, parts: seq<string>)
    ensures |Join(sep, parts)| == TotalLength(parts) + (if parts == [] then 0 else (|parts| - 1) * |sep|)
    decreases |parts|
  {
    if |parts| > 1 {
      JoinLength(sep, parts[1..]);
    } else if |parts| == 1 {
      assert parts[1..] == [];
    }
  }

  /** The joined string starts with the first part and ends with the last. */
  lemma {:induction false} JoinEnds(sep: string, parts: seq<string>)
    requires parts != []
    ensures |Join(sep, parts)| >= |parts[0]| && Join(sep, parts)[..|parts[0]|] == parts[0]
    ensures |Join(sep, parts)| >= |parts[|parts| - 1]|
    ensures Join(sep, parts)[|Join(sep, parts)| - |parts[|parts| - 1]|..] == parts[|parts| - 1]
    decreases |parts|
  {
    if |parts| > 1 {
      JoinEnds(sep, parts[1..]);
    }
  }

  /** `pat` occurs in `s` starting at index `i`. */
  predicate MatchAt(s: string, pat: string, i: int) {
    0 <= i && i + |pat| <= |s| && s[i..i + |pat|] == pat
  }

  /** `pat` occurs in `s` at index `k` and nowhere else. */
  predicate OnlyMatchAt(s: string, pat: string, k: nat) {
    MatchAt(s, pat, k) && forall i :: 0 <= i <= |s| && i != k ==> !MatchAt(s, pat, i)
  }

  /** Python's `s.replace(pat, rep)` for a non-empty `pat`: scanning from the
      left, every occurrence of `pat` that does not overlap an earlier
      replaced one becomes `rep`; the inserted text is not scanned again. */
  function Replace(s: string, pat: string, rep: string): (r: string)
    requires pat != []
    decreases |s|
  {
    if |s| < |pat| then s
    else if s[..|pat|] == pat then rep + Replace(s[|pat|..], pat, rep)
    else [s[0]] + Replace(s[1..], pat, rep)
  }

  /** Matching in a suffix of `s` is matching in `s`, shifted. */
  lemma MatchInSuffix(s: string, pat: string, d: nat, i: nat)
    requires d <= |s|
    ensures MatchAt(s[d..], pat, i) <==> MatchAt(s, pat, i + d)
  {
    if i + |pat| <= |s[d..]| {
      assert s[d..][i..i + |pat|] == s[i + d..i + d + |pat|];
    }
  }

  /** A string in which `pat` does not occur is left unchanged. */
  lemma {:induction false} ReplaceAbsent(s: string, pat: string, rep: string)
    requires pat != []
    requires forall i :: 0 <= i <= |s| ==> !MatchAt(s, pat, i)
    ensures Replace(s, pat, rep) == s
    decreases |s|
  {
    if |s| >= |pat| {
      assert !MatchAt(s, pat, 0);
      forall i | 0 <= i <= |s[1..]|
        ensures !MatchAt(s[1..], pat, i)
      {
        assert !MatchAt(s, pat, i + 1);
        MatchInSuffix(s, pat, 1, i);
      }
      ReplaceAbsent(s[1..], pat, rep);
    }
  }

  /** Text before the first occurrence of `pat` is copied through unchanged. */
  lemma {:induction false} ReplaceKeepsPrefix(pre: string, rest: string, pat: string, rep: string)
    requires pat != []
    requires forall i :: 0 <= i < |pre| ==> !MatchAt(pre + rest, pat, i)
    ensures Replace(pre + rest, pat, rep) == pre + Replace(rest, pat, rep)
    decreases |pre|
  {
    var s := pre + rest;
    if pre == [] {
      assert s == rest;
    } else if |s| >= |pat| {
      assert !MatchAt(s, pat, 0);
      assert s[..|pat|] != pat;
      assert Replace(s, pat, rep) == [s[0]] + Replace(s[1..], pat, rep);
      assert s[1..] == pre[1..] + rest;
      forall i | 0 <= i < |pre[1..]|
        ensures !MatchAt(pre[1..] + rest, pat, i)
      {
        assert !MatchAt(s, pat, i + 1);
        MatchInSuffix(s, pat, 1, i);
      }
      ReplaceKeepsPrefix(pre[1..], rest, pat, rep);
      assert [pre[0]] + pre[1..] == pre;
    }
  }

  /** When `pat` occurs exactly once, between `pre` and `suf`, replacing it
      changes that occurrence and nothing else. */
  lemma ReplaceOnce(pre: string, pat: string, suf: string, rep: string)
    requires pat != []
    requires OnlyMatchAt(pre + pat + suf, pat, |pre|)
    ensures Replace(pre + pat + suf, pat, rep) == pre + rep + suf
  {
    var s := pre + pat + suf;
    assert s == pre + (pat + suf);
    ReplaceKeepsPrefix(pre, pat + suf, pat, rep);
    assert (pat + suf)[..|pat|] == pat;
    assert (pat + suf)[|pat|..] == suf;
    forall i | 0 <= i <= |suf|
      ensures !MatchAt(suf, pat, i)
    {
      assert !MatchAt(s, pat, i + (|pre| + |pat|));
      assert s[|pre| + |pat|..] == suf;
      MatchInSuffix(s, pat, |pre| + |pat|, i);
    }
    ReplaceAbsent(suf, pat, rep);
  }
}

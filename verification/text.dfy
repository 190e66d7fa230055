/**
 Python 2 string operations on which the line parsers rest: `str.strip()`,
 `str.split()` with no argument, `str.split(sep)` and `str.upper()`.
 */
module Text {

  /** The characters Python 2's `str.isspace` accepts: space, tab, LF, VT, FF and CR. */
  predicate IsSpace(c: char) {
    c == ' ' || c == '\t' || c == '\n' || c == '\r' || c == '\U{000B}' || c == '\U{000C}'
  }

  predicate AllSpace(s: string) {
    forall i :: 0 <= i < |s| ==> IsSpace(s[i])
  }

  /** A token of `split()`: non-empty and free of whitespace. */
  predicate IsWord(w: string) {
    |w| > 0 && forall i :: 0 <= i < |w| ==> !IsSpace(w[i])
  }

  /** The length of the run of non-whitespace characters that begins `s`. */
  function WordLen(s: string): (n: nat)
    ensures n <= |s|
    ensures forall i :: 0 <= i < n ==> !IsSpace(s[i])
    ensures n < |s| ==> IsSpace(s[n])
  {
    if |s| == 0 || IsSpace(s[0]) then 0 else 1 + WordLen(s[1..])
  }

  /**
   `s.split()`: the maximal runs of non-whitespace characters, in order.
   `TokensAreRuns` shows that `s` is exactly these tokens woven with runs of
   whitespace.
   */
  function Tokens(s: string): (ts: seq<string>)
    ensures forall i :: 0 <= i < |ts| ==> IsWord(ts[i])
    ensures |ts| == 0 <==> AllSpace(s)
    decreases |s|
  {
    if |s| == 0 then []
    else if IsSpace(s[0]) then Tokens(s[1..])
    else
      var n := WordLen(s);
      [s[..n]] + Tokens(s[n..])
  }

  /**
   `gaps[0] + ts[0] + gaps[1] + ... + ts[n - 1] + gaps[n]`: the tokens with the
   text between them.
   */
  function Weave(gaps: seq<string>, ts: seq<string>): string
    requires |gaps| == |ts| + 1
  {
    if |ts| == 0 then gaps[0] else gaps[0] + ts[0] + Weave(gaps[1..], ts[1..])
  }

  /**
   The converse of `TokensOfJoinedWords`: every string is its tokens woven
   with whitespace, where the text between two tokens is a non-empty run of
   whitespace and the text before the first and after the last is whitespace
   (possibly empty). Words separated that way can be read back only as these
   tokens, so this pins down `split()`.
   */
  lemma {:induction false} TokensAreRuns(s: string) returns (gaps: seq<string>)
    ensures |gaps| == |Tokens(s)| + 1
    ensures forall i :: 0 <= i < |gaps| ==> AllSpace(gaps[i])
    ensures forall i :: 0 < i < |Tokens(s)| ==> |gaps[i]| > 0
    ensures Weave(gaps, Tokens(s)) == s
    decreases |s|
  {
    if |s| == 0 {
      gaps := [""];
    } else if IsSpace(s[0]) {
      var g' := TokensAreRuns(s[1..]);
      WeaveLeadingSpace([s[0]], g', Tokens(s[1..]));
      gaps := [[s[0]] + g'[0]] + g'[1..];
      assert s == [s[0]] + s[1..];
    } else {
      var n := WordLen(s);
      var rest := s[n..];
      var g' := TokensAreRuns(rest);
      WeaveWord(s[..n], g', Tokens(rest));
      if |Tokens(rest)| > 0 && |g'[0]| == 0 {
        WeaveStartsWithToken(g', Tokens(rest));
      }
      gaps := [""] + g';
      assert s == s[..n] + rest;
    }
  }

  lemma WeaveLeadingSpace(c: string, gaps: seq<string>, ts: seq<string>)
    requires |gaps| == |ts| + 1
    ensures Weave([c + gaps[0]] + gaps[1..], ts) == c + Weave(gaps, ts)
  {
    var g := [c + gaps[0]] + gaps[1..];
    assert g[1..] == gaps[1..];
  }

  lemma WeaveWord(w: string, gaps: seq<string>, ts: seq<string>)
    requires |gaps| == |ts| + 1
    ensures Weave([""] + gaps, [w] + ts) == w + Weave(gaps, ts)
  {
    var g, t := [""] + gaps, [w] + ts;
    assert g[0] == "" && t[0] == w && g[1..] == gaps && t[1..] == ts;
    assert Weave(g, t) == g[0] + t[0] + Weave(g[1..], t[1..]);
    assert "" + w == w;
  }

  lemma WeaveStartsWithToken(gaps: seq<string>, ts: seq<string>)
    requires |gaps| == |ts| + 1 && |ts| > 0 && |gaps[0]| == 0 && |ts[0]| > 0
    ensures |Weave(gaps, ts)| > 0 && Weave(gaps, ts)[0] == ts[0][0]
  {
    assert Weave(gaps, ts) == gaps[0] + ts[0] + Weave(gaps[1..], ts[1..]);
  }

  /** The number of whitespace characters `s.lstrip()` removes. */
  function LeadingSpaces(s: string): (n: nat)
    ensures n <= |s|
    ensures forall k :: 0 <= k < n ==> IsSpace(s[k])
    ensures n < |s| ==> !IsSpace(s[n])
  {
    if |s| > 0 && IsSpace(s[0]) then 1 + LeadingSpaces(s[1..]) else 0
  }

  /** The number of whitespace characters `s.rstrip()` removes. */
  function TrailingSpaces(s: string): (n: nat)
    ensures n <= |s|
    ensures forall k :: |s| - n <= k < |s| ==> IsSpace(s[k])
    ensures n < |s| ==> !IsSpace(s[|s| - n - 1])
  {
    if |s| > 0 && IsSpace(s[|s| - 1]) then 1 + TrailingSpaces(s[..|s| - 1]) else 0
  }

  /**
   `r` sits in `s` at index `i` with only whitespace before and after it:
   `s` is `r` with margins of whitespace.
   */
  predicate PaddedAt(s: string, r: string, i: int) {
    && 0 <= i <= |s| - |r|
    && s[i..i + |r|] == r
    && (forall k :: 0 <= k < i ==> IsSpace(s[k]))
    && (forall k :: i + |r| <= k < |s| ==> IsSpace(s[k]))
  }

  /**
   `s.strip()`: the infix of `s` left once the whitespace at both ends is
   removed; it neither starts nor ends with whitespace.
   */
  function Strip(s: string): (r: string)
    ensures |r| == 0 || (!IsSpace(r[0]) && !IsSpace(r[|r| - 1]))
    ensures exists i :: PaddedAt(s, r, i)
  {
    var i := LeadingSpaces(s);
    var t := s[i..];
    var r := t[..|t| - TrailingSpaces(t)];
    StripIsPadded(s, i, t, r);
    r
  }

  lemma StripIsPadded(s: string, i: nat, t: string, r: string)
    requires i == LeadingSpaces(s) && t == s[i..] && r == t[..|t| - TrailingSpaces(t)]
    ensures PaddedAt(s, r, i)
    ensures |r| == 0 || (!IsSpace(r[0]) && !IsSpace(r[|r| - 1]))
  {
    assert s[i..i + |r|] == r;
    forall k | i + |r| <= k < |s|
      ensures IsSpace(s[k])
    {
      assert s[k] == t[k - i];
    }
  }

  /** `sep` occurs in `s` starting at index `j`. */
  predicate OccursAt(s: string, sep: string, j: int) {
    0 <= j && j + |sep| <= |s| && s[j..j + |sep|] == sep
  }

  predicate Contains(s: string, sep: string) {
    exists j :: 0 <= j <= |s| && OccursAt(s, sep, j)
  }

  lemma OccursShift(s: string, sep: string, j: int)
    requires |s| > 0 && 0 <= j
    ensures OccursAt(s[1..], sep, j) <==> OccursAt(s, sep, j + 1)
  {
    if 0 <= j && j + |sep| <= |s| - 1 {
      assert s[1..][j..j + |sep|] == s[j + 1..j + 1 + |sep|];
    }
  }

  lemma OccursPrefix(s: string, sep: string, k: int, j: int)
    requires 0 <= k <= |s|
    ensures OccursAt(s[..k], sep, j) ==> OccursAt(s, sep, j)
  {
    if OccursAt(s[..k], sep, j) {
      assert s[..k][j..j + |sep|] == s[j..j + |sep|];
    }
  }

  /** The index of the leftmost occurrence of `sep` in `s`, or `|s|` when there is none. */
  function Find(s: string, sep: string): (k: nat)
    requires |sep| > 0
    ensures k <= |s|
    ensures k < |s| ==> OccursAt(s, sep, k)
    ensures forall j :: 0 <= j < k ==> !OccursAt(s, sep, j)
    ensures k == |s| ==> !Contains(s, sep)
  {
    if |s| < |sep| then |s|
    else if s[..|sep|] == sep then 0
    else
      var k := 1 + Find(s[1..], sep);
      assert forall j :: 0 <= j < k ==> !OccursAt(s, sep, j) by {
        forall j | 0 <= j < k
          ensures !OccursAt(s, sep, j)
        {
          if j > 0 {
            OccursShift(s, sep, j - 1);
          }
        }
      }
      k
  }

  /** The fields joined back together with `sep` between consecutive ones: Python's `sep.join(fields)`. */
  function Join(fields: seq<string>, sep: string): string {
    if |fields| == 0 then ""
    else if |fields| == 1 then fields[0]
    else fields[0] + sep + Join(fields[1..], sep)
  }

  /**
   `s.split(sep)` for a non-empty literal separator: cuts at each leftmost
   occurrence of `sep`, keeping empty fields.
   */
  function SplitOn(s: string, sep: string): (fields: seq<string>)
    requires |sep| > 0
    ensures |fields| > 0
    ensures Join(fields, sep) == s
    ensures forall i :: 0 <= i < |fields| ==> !Contains(fields[i], sep)
    ensures forall i :: 0 <= i < |fields| - 1 ==> !Contains(fields[i] + sep[..|sep| - 1], sep)
    decreases |s|
  {
    var k := Find(s, sep);
    if k == |s| then [s]
    else
      var rest := SplitOn(s[k + |sep|..], sep);
      SplitStep(s, sep, k, rest);
      LeftmostCut(s, sep, k);
      var fields := [s[..k]] + rest;
      assert forall i :: 0 < i < |fields| ==> fields[i] == rest[i - 1];
      fields
  }

  /**
   No occurrence of `sep` starts inside the field before the leftmost cut `k`,
   not even one that would run on into the separator itself.
   */
  lemma LeftmostCut(s: string, sep: string, k: nat)
    requires |sep| > 0 && k < |s| && k == Find(s, sep)
    ensures !Contains(s[..k] + sep[..|sep| - 1], sep)
  {
    var u := s[..k] + sep[..|sep| - 1];
    CutAtOccurrence(s, sep, k);
    assert u == s[..k + |sep| - 1];
    forall j | 0 <= j <= |u| && OccursAt(u, sep, j)
      ensures false
    {
      OccursPrefix(s, sep, k + |sep| - 1, j);
    }
  }

  /** The facts SplitOn needs about one cut at the leftmost occurrence `k`. */
  lemma SplitStep(s: string, sep: string, k: nat, rest: seq<string>)
    requires |sep| > 0 && k < |s| && k == Find(s, sep)
    requires |rest| > 0 && Join(rest, sep) == s[k + |sep|..]
    ensures Join([s[..k]] + rest, sep) == s
    ensures !Contains(s[..k], sep)
  {
    var fields := [s[..k]] + rest;
    assert fields[1..] == rest;
    assert Join(fields, sep) == s[..k] + sep + s[k + |sep|..];
    CutAtOccurrence(s, sep, k);
    forall j | 0 <= j <= k && OccursAt(s[..k], sep, j)
      ensures false
    {
      OccursPrefix(s, sep, k, j);
    }
  }

  lemma CutAtOccurrence(s: string, sep: string, k: nat)
    requires OccursAt(s, sep, k)
    ensures s[..k] + sep + s[k + |sep|..] == s
  {
    assert s == s[..k] + s[k..k + |sep|] + s[k + |sep|..];
  }

  function UpperChar(c: char): char {
    if 'a' <= c <= 'z' then (c as int - 32) as char else c
  }

  /** `s.upper()` on a Python 2 byte string: only the ASCII letters change. */
  function Upper(s: string): (r: string)
    ensures |r| == |s|
    ensures forall i :: 0 <= i < |s| ==> !('a' <= r[i] <= 'z')
    ensures forall i :: 0 <= i < |s| && !('a' <= s[i] <= 'z') ==> r[i] == s[i]
    ensures forall i :: 0 <= i < |s| && 'a' <= s[i] <= 'z' ==> 'A' <= r[i] <= 'Z' && r[i] as int - 'A' as int == s[i] as int - 'a' as int
  {
    seq(|s|, i requires 0 <= i < |s| => UpperChar(s[i]))
  }

  lemma WordLenAppend(a: string, b: string)
    ensures WordLen(a + b) == if WordLen(a) < |a| then WordLen(a) else |a| + WordLen(b)
    decreases |a|
  {
    if |a| == 0 {
      assert a + b == b;
    } else if !IsSpace(a[0]) {
      assert (a + b)[1..] == a[1..] + b;
      WordLenAppend(a[1..], b);
    }
  }

  /** A word followed by nothing or by whitespace is read back as one token. */
  lemma TokensOfWord(w: string, rest: string)
    requires IsWord(w)
    requires |rest| == 0 || IsSpace(rest[0])
    ensures Tokens(w + rest) == [w] + Tokens(rest)
  {
    WordLenAppend(w, rest);
    assert (w + rest)[..|w|] == w;
    assert (w + rest)[|w|..] == rest;
  }

  lemma {:induction false} TokensSkipSpaces(p: string, s: string)
    requires AllSpace(p)
    ensures Tokens(p + s) == Tokens(s)
    decreases |p|
  {
    if |p| > 0 {
      assert (p + s)[1..] == p[1..] + s;
      TokensSkipSpaces(p[1..], s);
    } else {
      assert p + s == s;
    }
  }

  lemma {:induction false} TokensDropTrailingSpaces(r: string, q: string)
    requires AllSpace(q)
    ensures Tokens(r + q) == Tokens(r)
    decreases |r|
  {
    if |r| == 0 {
      assert r + q == q + "";
      TokensSkipSpaces(q, "");
    } else if IsSpace(r[0]) {
      assert (r + q)[1..] == r[1..] + q;
      TokensDropTrailingSpaces(r[1..], q);
    } else {
      var n := WordLen(r);
      WordLenAppend(r, q);
      assert (r + q)[..n] == r[..n];
      if n < |r| {
        assert (r + q)[n..] == r[n..] + q;
        TokensDropTrailingSpaces(r[n..], q);
      } else {
        assert (r + q)[n..] == q + "";
        TokensSkipSpaces(q, "");
        assert r[n..] == "";
      }
    }
  }

  /** `line.strip().split()` and `line.split()` give the same tokens. */
  lemma StripThenTokens(s: string)
    ensures Tokens(Strip(s)) == Tokens(s)
  {
    var i := LeadingSpaces(s);
    var t := s[i..];
    var j := |t| - TrailingSpaces(t);
    assert Strip(s) == t[..j];
    LeadingSpacesDropped(s, i);
    TrailingSpacesDropped(t, j);
  }

  lemma LeadingSpacesDropped(s: string, i: nat)
    requires i == LeadingSpaces(s)
    ensures Tokens(s[i..]) == Tokens(s)
  {
    assert s == s[..i] + s[i..];
    TokensSkipSpaces(s[..i], s[i..]);
  }

  lemma TrailingSpacesDropped(t: string, j: nat)
    requires j == |t| - TrailingSpaces(t)
    ensures Tokens(t[..j]) == Tokens(t)
  {
    assert t == t[..j] + t[j..];
    assert AllSpace(t[j..]);
    TokensDropTrailingSpaces(t[..j], t[j..]);
  }

  /** Round trip: words joined by single spaces are split back into the same words. */
  lemma {:induction false} TokensOfJoinedWords(ws: seq<string>)
    requires forall i :: 0 <= i < |ws| ==> IsWord(ws[i])
    ensures Tokens(Join(ws, " ")) == ws
  {
    if |ws| == 1 {
      TokensOfWord(ws[0], "");
      assert ws[0] + "" == ws[0];
    } else if |ws| > 1 {
      var rest := Join(ws[1..], " ");
      assert Join(ws, " ") == ws[0] + (" " + rest);
      TokensOfWord(ws[0], " " + rest);
      assert (" " + rest)[1..] == rest;
      TokensOfJoinedWords(ws[1..]);
      assert ws == [ws[0]] + ws[1..];
    }
  }
}

/**
 Models of the Python `str` operations the utterance encoder relies on:
 `strip()` and `split()` called without arguments, `lower()`, and
 `sep.join(parts)`. Strings are sequences of characters.
 */
module PyStr {

  /** The characters Python's `str.isspace` accepts; `strip()` and `split()`
      without arguments treat exactly these as whitespace. */
  predicate IsWhitespace(c: char) {
    || ('\t' <= c <= '\r')
    || ('\U{1C}' <= c <= ' ')
    || c == '\U{85}' || c == '\U{A0}' || c == '\U{1680}'
    || ('\U{2000}' <= c <= '\U{200A}')
    || c == '\U{2028}' || c == '\U{2029}' || c == '\U{202F}' || c == '\U{205F}'
    || c == '\U{3000}'
  }

  /** Upper-case letters of ASCII and of the Latin-1 supplement. */
  predicate IsUpper(c: char) {
    ('A' <= c <= 'Z') || ('\U{C0}' <= c <= '\U{DE}' && c != '\U{D7}')
  }

  /** `c.lower()` for the letters `IsUpper` knows: each maps to the letter
      32 code points above it. */
  function ToLower(c: char): (d: char)
    ensures !IsUpper(d)
    ensures IsWhitespace(d) == IsWhitespace(c)
    ensures !IsUpper(c) ==> d == c
  {
    if IsUpper(c) then (c as int + 32) as char else c
  }

  predicate AllWhitespace(s: string) {
    forall i :: 0 <= i < |s| ==> IsWhitespace(s[i])
  }

  predicate NoWhitespace(s: string) {
    forall i :: 0 <= i < |s| ==> !IsWhitespace(s[i])
  }

  predicate NoUpper(s: string) {
    forall i :: 0 <= i < |s| ==> !IsUpper(s[i])
  }

  /** `s.lower()`: lower-cases every character and keeps the length and the
      positions of the whitespace. */
  function Lower(s: string): (r: string)
    ensures |r| == |s| && NoUpper(r)
    ensures forall i :: 0 <= i < |s| ==> IsWhitespace(r[i]) == IsWhitespace(s[i])
  {
    seq(|s|, i requires 0 <= i < |s| => ToLower(s[i]))
  }

  /** Number of whitespace characters at the start of `s`. */
  function LeadingSpace(s: string): (n: nat)
    ensures n <= |s| && AllWhitespace(s[..n])
    ensures n == |s| || !IsWhitespace(s[n])
  {
    if s != [] && IsWhitespace(s[0]) then
      var n := 1 + LeadingSpace(s[1..]);
      assert s[..n] == [s[0]] + s[1..][..n - 1];
      n
    else
      0
  }

  /** Number of whitespace characters at the end of `s`. */
  function TrailingSpace(s: string): (n: nat)
    ensures n <= |s| && AllWhitespace(s[|s| - n..])
    ensures n == |s| || !IsWhitespace(s[|s| - n - 1])
  {
    if s != [] && IsWhitespace(s[|s| - 1]) then
      var t := s[..|s| - 1];
      var m := TrailingSpace(t);
      assert s[|s| - 1 - m..] == t[|t| - m..] + [s[|s| - 1]];
      assert m < |t| ==> s[|s| - m - 2] == t[|t| - m - 1];
      1 + m
    else
      0
  }

  /** Where the text that `strip()` keeps ends: the end of the string less
      its trailing whitespace, or the start when all of it is whitespace. */
  function StripEnd(s: string): (j: nat)
    ensures LeadingSpace(s) <= j <= |s| && AllWhitespace(s[j..])
    ensures j == LeadingSpace(s) <==> AllWhitespace(s)
  {
    var i := LeadingSpace(s);
    if i == |s| then
      assert s[..i] == s;
      i
    else
      var j := |s| - TrailingSpace(s);
      assert i < j;
      assert !AllWhitespace(s) by { assert !IsWhitespace(s[i]); }
      j
  }

  /** `s.strip()`: `s` without its leading and trailing whitespace. The result
      neither starts nor ends with whitespace, and it is empty exactly when
      `s` is all whitespace. */
  function Strip(s: string): (r: string)
    ensures r == [] || (!IsWhitespace(r[0]) && !IsWhitespace(r[|r| - 1]))
    ensures r == [] <==> AllWhitespace(s)
  {
    var i, j := LeadingSpace(s), StripEnd(s);
    assert j == i || !IsWhitespace(s[j - 1]) by {
      if i < j < |s| {
        assert j == |s| - TrailingSpace(s);
      }
    }
    s[i..j]
  }

  /** Length of the run of non-whitespace characters that starts `s`. */
  function WordLength(s: string): (n: nat)
    ensures n <= |s|
    ensures NoWhitespace(s[..n])
    ensures n == |s| || IsWhitespace(s[n])
  {
    if s == [] || IsWhitespace(s[0]) then 0
    else
      var n := 1 + WordLength(s[1..]);
      assert s[..n] == [s[0]] + s[1..][..n - 1];
      n
  }

  /** `s.split()`: the maximal runs of non-whitespace characters, in order. */
  function Split(s: string): seq<string>
    decreases |s|
  {
    if s == [] then []
    else if IsWhitespace(s[0]) then Split(s[1..])
    else
      var n := WordLength(s);
      [s[..n]] + Split(s[n..])
  }

  /** `sep.join(parts)`: the parts in order with `sep` between neighbours. */
  function Join(sep: string, parts: seq<string>): string
  {
    if |parts| == 0 then ""
    else if |parts| == 1 then parts[0]
    else parts[0] + sep + Join(sep, parts[1..])
  }

  /** `words` with `Lower` applied to each, in order. */
  function LowerAll(words: seq<string>): (r: seq<string>)
    ensures |r| == |words|
    ensures forall k :: 0 <= k < |words| ==> r[k] == Lower(words[k])
  {
    if words == [] then [] else [Lower(words[0])] + LowerAll(words[1..])
  }

  /** Every word of `s.split()` is non-empty and holds no whitespace, and
      there are no words exactly when `s` is all whitespace. */
  lemma {:induction false} SplitWords(s: string)
    ensures forall k :: 0 <= k < |Split(s)| ==> Split(s)[k] != [] && NoWhitespace(Split(s)[k])
    ensures Split(s) == [] <==> AllWhitespace(s)
    decreases |s|
  {
    if s == [] {
    } else if IsWhitespace(s[0]) {
      SplitWords(s[1..]);
      assert AllWhitespace(s) <==> AllWhitespace(s[1..]) by {
        assert forall i :: 0 < i < |s| ==> s[i] == s[1..][i - 1];
      }
    } else {
      var n := WordLength(s);
      SplitWords(s[n..]);
    }
  }

  /** A word is determined by where its first whitespace character is. */
  lemma {:induction false} WordLengthUnique(s: string, n: nat)
    requires n <= |s| && NoWhitespace(s[..n]) && (n == |s| || IsWhitespace(s[n]))
    ensures WordLength(s) == n
  {
  }

  /** A word ends no later than the first whitespace character that follows it. */
  lemma {:induction false} WordLengthBeforeWhitespace(a: string, t: string)
    requires t != [] && IsWhitespace(t[0])
    ensures WordLength(a + t) == WordLength(a)
  {
    var n := WordLength(a);
    assert (a + t)[..n] == a[..n];
    if n < |a| {
      assert (a + t)[n] == a[n];
    } else {
      assert (a + t)[n] == t[0];
    }
    WordLengthUnique(a + t, n);
  }

  /** Splitting at a whitespace character splits the two sides separately. */
  lemma {:induction false} SplitAtWhitespace(a: string, c: char, b: string)
    requires IsWhitespace(c)
    ensures Split(a + [c] + b) == Split(a) + Split(b)
    decreases |a|
  {
    var s := a + [c] + b;
    if a == [] {
      assert s[1..] == b;
    } else if IsWhitespace(a[0]) {
      assert s[1..] == a[1..] + [c] + b;
      SplitAtWhitespace(a[1..], c, b);
    } else {
      WordLengthBeforeWhitespace(a, [c] + b);
      assert s == a + ([c] + b);
      assert s[0] == a[0];
      var n := WordLength(a);
      assert Split(s) == [s[..n]] + Split(s[n..]);
      assert s[..n] == a[..n];
      assert s[n..] == a[n..] + [c] + b;
      SplitAtWhitespace(a[n..], c, b);
    }
  }

  /** Leading whitespace does not change the words. */
  lemma {:induction false} SplitSkipsLeadingWhitespace(w: string, s: string)
    requires AllWhitespace(w)
    ensures Split(w + s) == Split(s)
  {
    if w != [] {
      var last := |w| - 1;
      assert w + s == w[..last] + [w[last]] + s;
      SplitAtWhitespace(w[..last], w[last], s);
      assert forall i :: 0 <= i < last ==> w[..last][i] == w[i];
      SplitWords(w[..last]);
      assert Split(w + s) == [] + Split(s);
    } else {
      assert w + s == s;
    }
  }

  /** Trailing whitespace does not change the words. */
  lemma {:induction false} SplitSkipsTrailingWhitespace(s: string, w: string)
    requires AllWhitespace(w)
    ensures Split(s + w) == Split(s)
  {
    if w == [] {
      assert s + w == s;
    } else {
      assert s + w == s + [w[0]] + w[1..];
      SplitAtWhitespace(s, w[0], w[1..]);
      assert AllWhitespace(w[1..]);
      SplitWords(w[1..]);
    }
  }

  /** A non-empty string without whitespace is one word. */
  lemma {:induction false} SplitSingleWord(t: string)
    requires t != [] && NoWhitespace(t)
    ensures Split(t) == [t]
  {
    assert t[..|t|] == t;
    WordLengthUnique(t, |t|);
    assert t[|t|..] == [];
  }

  /** A `" ;"` appended to a string adds the word `";"` after its words. */
  lemma {:induction false} SplitBeforeSemicolon(s: string)
    ensures Split(s + " ;") == Split(s) + [";"]
  {
    assert s + " ;" == s + [' '] + ";";
    SplitAtWhitespace(s, ' ', ";");
    SplitSingleWord(";");
  }

  /** A `" ; "` between two strings becomes the word `";"` between their words. */
  lemma {:induction false} SplitAroundSemicolon(a: string, b: string)
    ensures Split(a + " ; " + b) == Split(a) + [";"] + Split(b)
  {
    assert a + " ; " + b == a + [' '] + (";" + [' '] + b);
    SplitAtWhitespace(a, ' ', ";" + [' '] + b);
    SplitAtWhitespace(";", ' ', b);
    SplitSingleWord(";");
  }

  /** `s.strip()` is what lies between the leading and the trailing
      whitespace of `s`: together with the two runs it makes up `s`. */
  lemma StripDecomposition(s: string)
    ensures var i, j := LeadingSpace(s), StripEnd(s);
      && s == s[..i] + Strip(s) + s[j..]
      && AllWhitespace(s[..i]) && AllWhitespace(s[j..])
  {
    var i, j := LeadingSpace(s), StripEnd(s);
    assert s == s[..i] + s[i..j] + s[j..];
  }

  /** `s.strip().split() == s.split()`. */
  lemma {:induction false} SplitIgnoresStrip(s: string)
    ensures Split(Strip(s)) == Split(s)
  {
    var i, j := LeadingSpace(s), StripEnd(s);
    var r := Strip(s);
    StripDecomposition(s);
    assert s == s[..i] + (r + s[j..]);
    SplitSkipsLeadingWhitespace(s[..i], r + s[j..]);
    SplitSkipsTrailingWhitespace(r, s[j..]);
  }

  /** `s.lower().split()` is `s.split()` with every word lower-cased. */
  lemma {:induction false} SplitLower(s: string)
    ensures Split(Lower(s)) == LowerAll(Split(s))
    decreases |s|
  {
    var l := Lower(s);
    if s == [] {
    } else if IsWhitespace(s[0]) {
      assert l[1..] == Lower(s[1..]);
      SplitLower(s[1..]);
    } else {
      var n := WordLength(s);
      assert l[..n] == Lower(s[..n]);
      assert l[n..] == Lower(s[n..]);
      WordLengthUnique(l, n);
      SplitLower(s[n..]);
    }
  }

  /** Joining non-empty whitespace-free words with a space and splitting the
      result gives the words back. */
  lemma {:induction false} SplitJoinRoundTrip(words: seq<string>)
    requires forall k :: 0 <= k < |words| ==> words[k] != [] && NoWhitespace(words[k])
    ensures Split(Join(" ", words)) == words
  {
    if |words| == 1 {
      SplitSingleWord(words[0]);
    } else if |words| > 1 {
      var rest := Join(" ", words[1..]);
      assert Join(" ", words) == words[0] + [' '] + rest;
      SplitAtWhitespace(words[0], ' ', rest);
      SplitSingleWord(words[0]);
      SplitJoinRoundTrip(words[1..]);
    }
  }

  /** Stripping twice is stripping once. */
  lemma {:induction false} StripIdempotent(s: string)
    ensures Strip(Strip(s)) == Strip(s)
  {
    var r := Strip(s);
    if r != [] {
      assert LeadingSpace(r) == 0;
      assert TrailingSpace(r) == 0;
      assert r[0..|r|] == r;
    }
  }

  /** Joining strings without upper-case letters gives none. */
  lemma {:induction false} JoinNoUpper(sep: string, parts: seq<string>)
    requires NoUpper(sep)
    requires forall k :: 0 <= k < |parts| ==> NoUpper(parts[k])
    ensures NoUpper(Join(sep, parts))
  {
    if |parts| > 1 {
      JoinNoUpper(sep, parts[1..]);
      var rest := Join(sep, parts[1..]);
      assert Join(sep, parts) == parts[0] + sep + rest;
      ConcatNoUpper(parts[0], sep);
      ConcatNoUpper(parts[0] + sep, rest);
    }
  }

  /** Stripping a string without upper-case letters leaves none. */
  lemma {:induction false} StripNoUpper(s: string)
    requires NoUpper(s)
    ensures NoUpper(Strip(s))
  {
    var r, i := Strip(s), LeadingSpace(s);
    assert forall k :: 0 <= k < |r| ==> r[k] == s[i + k];
  }

  /** Two strings without upper-case letters concatenate to one without. */
  lemma ConcatNoUpper(a: string, b: string)
    requires NoUpper(a) && NoUpper(b)
    ensures NoUpper(a + b)
  {
    assert forall i :: |a| <= i < |a + b| ==> (a + b)[i] == b[i - |a|];
  }
}

/** The handful of JavaScript string operations the bot relies on, over
    `seq<char>`: `trim`, `toLowerCase`, `indexOf`, `split` and `join` on a
    single separator character, `replace` of the first occurrence of a
    character, and `substring(0, n)`. */
module JsString {

  /** The characters `String.prototype.trim` and `parseFloat` skip: the
      ECMAScript WhiteSpace set (tab, vertical tab, form feed, space, no-break
      space, zero-width no-break space and the Unicode Zs category) and the
      LineTerminator set (LF, CR, line and paragraph separators). */
  predicate IsSpace(c: char) {
    || c == '\t' || c == '\n' || c == '\U{B}' || c == '\U{C}' || c == '\r' || c == ' '
    || c == '\U{A0}' || c == '\U{1680}' || ('\U{2000}' <= c <= '\U{200A}')
    || c == '\U{2028}' || c == '\U{2029}' || c == '\U{202F}' || c == '\U{205F}'
    || c == '\U{3000}' || c == '\U{FEFF}'
  }

  /** Drops the leading white space: the result is the longest suffix of `s`
      that does not start with white space. */
  function TrimStart(s: string): (r: string)
    ensures |r| <= |s| && r == s[|s| - |r|..]
    ensures forall k :: 0 <= k < |s| - |r| ==> IsSpace(s[k])
    ensures |r| > 0 ==> !IsSpace(r[0])
    decreases |s|
  {
    if |s| > 0 && IsSpace(s[0]) then TrimStart(s[1..]) else s
  }

  /** Drops the trailing white space: the result is the longest prefix of `s`
      that does not end with white space. */
  function TrimEnd(s: string): (r: string)
    ensures |r| <= |s| && r == s[..|r|]
    ensures forall k :: |r| <= k < |s| ==> IsSpace(s[k])
    ensures |r| > 0 ==> !IsSpace(r[|r| - 1])
    decreases |s|
  {
    if |s| > 0 && IsSpace(s[|s| - 1]) then TrimEnd(s[..|s| - 1]) else s
  }

  /** `s.trim()`: the contiguous middle of `s` left once white space is removed
      from both ends; it neither starts nor ends with white space. */
  function Trim(s: string): (r: string)
    ensures |r| > 0 ==> !IsSpace(r[0]) && !IsSpace(r[|r| - 1])
    ensures var lo := |s| - |TrimStart(s)|;
      && lo + |r| <= |s|
      && r == s[lo..lo + |r|]
      && (forall k :: 0 <= k < lo ==> IsSpace(s[k]))
      && (forall k :: lo + |r| <= k < |s| ==> IsSpace(s[k]))
  {
    TrimEnd(TrimStart(s))
  }

  /** Text that neither starts nor ends with white space is its own trim. */
  lemma TrimUnpadded(s: string)
    requires |s| > 0 && !IsSpace(s[0]) && !IsSpace(s[|s| - 1])
    ensures Trim(s) == s
  {
    assert TrimStart(s) == s;
  }

  /** Leading white space makes no difference to `TrimStart`. */
  lemma {:induction false} TrimStartSkips(pre: string, s: string)
    requires forall i :: 0 <= i < |pre| ==> IsSpace(pre[i])
    ensures TrimStart(pre + s) == TrimStart(s)
    decreases |pre|
  {
    if |pre| == 0 {
      assert pre + s == s;
    } else {
      assert (pre + s)[0] == pre[0];
      assert (pre + s)[1..] == pre[1..] + s;
      TrimStartSkips(pre[1..], s);
    }
  }

  /** Trailing white space makes no difference to `TrimEnd`. */
  lemma {:induction false} TrimEndSkips(s: string, post: string)
    requires forall i :: 0 <= i < |post| ==> IsSpace(post[i])
    ensures TrimEnd(s + post) == TrimEnd(s)
    decreases |post|
  {
    if |post| == 0 {
      assert s + post == s;
    } else {
      assert (s + post)[..|s + post| - 1] == s + post[..|post| - 1];
      TrimEndSkips(s, post[..|post| - 1]);
    }
  }

  /** Trimming text padded with white space on both sides gives the text
      back, provided the text itself neither starts nor ends with white
      space. */
  lemma TrimPadded(pre: string, core: string, post: string)
    requires forall i :: 0 <= i < |pre| ==> IsSpace(pre[i])
    requires forall i :: 0 <= i < |post| ==> IsSpace(post[i])
    requires |core| > 0 && !IsSpace(core[0]) && !IsSpace(core[|core| - 1])
    ensures Trim(pre + core + post) == core
  {
    assert pre + core + post == pre + (core + post);
    TrimStartSkips(pre, core + post);
    assert (core + post)[0] == core[0];
    assert TrimStart(core + post) == core + post;
    TrimEndSkips(core, post);
    TrimUnpadded(core);
  }

  /** Trimming twice is trimming once. */
  lemma TrimIdempotent(s: string)
    ensures Trim(Trim(s)) == Trim(s)
  {
    var t := Trim(s);
    if |t| > 0 {
      assert TrimStart(t) == t;
      assert TrimEnd(t) == t;
    }
  }

  /** `toLowerCase` on one character, for the ASCII letters. */
  function LowerChar(c: char): char {
    if IsUpper(c) then (c as int + 32) as char else c
  }

  predicate IsUpper(c: char) {
    'A' <= c <= 'Z'
  }

  /** `s.toLowerCase()` restricted to ASCII: the length is kept, no upper-case
      letter is left, and a character changes only when it is an upper-case
      letter, which becomes its lower-case letter. */
  function ToLower(s: string): (r: string)
    ensures |r| == |s|
    ensures forall k :: 0 <= k < |r| ==> !IsUpper(r[k])
    ensures forall k :: 0 <= k < |s| && r[k] != s[k] ==>
              IsUpper(s[k]) && r[k] as int == s[k] as int + 32
  {
    seq(|s|, k requires 0 <= k < |s| => LowerChar(s[k]))
  }

  /** What comparing a lower-cased text with a lower-case word tests: the
      text has the word's length and each of its characters is the word's
      character or that character's upper-case letter. */
  lemma LowerMatches(s: string, w: string)
    requires forall k :: 0 <= k < |w| ==> !IsUpper(w[k])
    ensures ToLower(s) == w <==>
              && |s| == |w|
              && forall k :: 0 <= k < |s| ==>
                   s[k] == w[k] || (IsUpper(s[k]) && s[k] as int + 32 == w[k] as int)
  {
  }

  /** `s.indexOf(c)`, with "not found" reported as `|s|` rather than -1. */
  function IndexOf(s: string, c: char): (k: nat)
    ensures k <= |s|
    ensures k < |s| ==> s[k] == c
    ensures forall i :: 0 <= i < k ==> s[i] != c
  {
    if |s| == 0 then 0
    else if s[0] == c then 0
    else 1 + IndexOf(s[1..], c)
  }

  /** `c` is first found at `k` when it is there and nowhere before. */
  lemma IndexOfIs(s: string, c: char, k: nat)
    requires k <= |s|
    requires k < |s| ==> s[k] == c
    requires forall i :: 0 <= i < k ==> s[i] != c
    ensures IndexOf(s, c) == k
  {
  }

  /** `s.split(sep)` for a one-character separator: the maximal runs between
      separators, always at least one (possibly empty) piece. */
  function Split(s: string, sep: char): (parts: seq<string>)
    ensures |parts| >= 1
    ensures forall p :: p in parts ==> sep !in p
    ensures parts[0] == s[..IndexOf(s, sep)]
    decreases |s|
  {
    var k := IndexOf(s, sep);
    if k == |s| then [s] else [s[..k]] + Split(s[k + 1..], sep)
  }

  /** `parts.join(sep)`; the join of no pieces is the empty string. */
  function Join(parts: seq<string>, sep: char): string
  {
    if |parts| == 0 then ""
    else if |parts| == 1 then parts[0]
    else parts[0] + [sep] + Join(parts[1..], sep)
  }

  /** Splitting and joining back on the same separator gives the string back. */
  lemma {:induction false} JoinSplit(s: string, sep: char)
    ensures Join(Split(s, sep), sep) == s
    decreases |s|
  {
    var k := IndexOf(s, sep);
    if k < |s| {
      var rest := s[k + 1..];
      var tail := Split(rest, sep);
      var parts := Split(s, sep);
      assert parts == [s[..k]] + tail;
      assert parts[0] == s[..k] && parts[1..] == tail;
      assert Join(parts, sep) == s[..k] + [sep] + Join(tail, sep);
      JoinSplit(rest, sep);
      assert s == s[..k] + [s[k]] + rest;
    }
  }

  /** The first occurrence of `sep` in `p + [sep] + q` is right after `p`
      when `p` holds none. */
  lemma IndexOfAfterPiece(p: string, q: string, sep: char)
    requires sep !in p
    ensures IndexOf(p + [sep] + q, sep) == |p|
  {
    var s := p + [sep] + q;
    assert forall i :: 0 <= i < |p| ==> s[i] == p[i];
    assert s[|p|] == sep;
  }

  /** A separator-free piece, a separator and more text split into that
      piece followed by the pieces of the rest. */
  lemma SplitCons(p: string, rest: string, sep: char)
    requires sep !in p
    ensures Split(p + [sep] + rest, sep) == [p] + Split(rest, sep)
  {
    var s := p + [sep] + rest;
    IndexOfAfterPiece(p, rest, sep);
    assert s[..|p|] == p;
    assert s[|p| + 1..] == rest;
  }

  /** Joining pieces that hold no separator and splitting again gives the
      pieces back: split and join are inverse on separator-free pieces. */
  lemma {:induction false} SplitJoin(parts: seq<string>, sep: char)
    requires |parts| >= 1
    requires forall p :: p in parts ==> sep !in p
    ensures Split(Join(parts, sep), sep) == parts
    decreases |parts|
  {
    if |parts| == 1 {
      var s := parts[0];
      assert sep !in s;
      assert IndexOf(s, sep) == |s|;
    } else {
      var tail := parts[1..];
      assert sep !in parts[0] by { assert parts[0] in parts; }
      assert forall p :: p in tail ==> p in parts;
      SplitCons(parts[0], Join(tail, sep), sep);
      SplitJoin(tail, sep);
      assert parts == [parts[0]] + tail;
    }
  }

  /** The pieces after the first are the pieces of the text after the first
      separator. */
  lemma SplitTail(s: string, sep: char)
    requires IndexOf(s, sep) < |s|
    ensures Split(s, sep)[1..] == Split(s[IndexOf(s, sep) + 1..], sep)
  {
  }

  /** `s.substring(0, n)`: the first `n` characters, or all of `s` when it is
      shorter. */
  function Take(s: string, n: nat): (r: string)
    ensures r <= s
    ensures |r| <= n
    ensures |r| == n || r == s
  {
    if n < |s| then s[..n] else s
  }

  /** `s.replace(from, to)` with a one-character pattern: only the FIRST
      occurrence of `from` is replaced, every other character is kept. */
  function ReplaceFirst(s: string, from: char, to: char): (r: string)
    ensures |r| == |s|
    ensures from !in s ==> r == s
    ensures forall i :: 0 <= i < |s| && i != IndexOf(s, from) ==> r[i] == s[i]
    ensures from in s ==> r[IndexOf(s, from)] == to
  {
    var k := IndexOf(s, from);
    if k == |s| then s else s[..k] + [to] + s[k + 1..]
  }
}

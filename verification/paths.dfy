/**
 * The classpath helper of the weave runtime: `Paths.getClassPath` takes an
 * ordered list of classpath entries, strips the whitespace around each entry
 * and joins the stripped entries with the path delimiter `:`.
 *
 * The whitespace set below is a modelling assumption: the behaviour pinned
 * down for the helper only involves the space and the line feed.
 */
module Paths {

  /** The literal separator placed between two consecutive entries. */
  const Delimiter: char := ':'

  /** Characters stripped from both ends of an entry (space, tab, line feed, carriage return). */
  predicate IsWhitespace(c: char) {
    c == ' ' || c == '\t' || c == '\n' || c == '\r'
  }

  predicate AllWhitespace(s: string) {
    forall k :: 0 <= k < |s| ==> IsWhitespace(s[k])
  }

  /** Neither end of `s` is a whitespace character. */
  predicate IsTrimmed(s: string) {
    s == [] || (!IsWhitespace(s[0]) && !IsWhitespace(s[|s| - 1]))
  }

  /** Number of occurrences of `c` in `s`. */
  function Occurrences(s: string, c: char): nat {
    if s == [] then 0 else (if s[0] == c then 1 else 0) + Occurrences(s[1..], c)
  }

  // ---------------------------------------------------------------------------
  // Trimming one entry
  // ---------------------------------------------------------------------------

  /** Drops the leading whitespace of `s`. */
  function TrimStart(s: string): string {
    if s != [] && IsWhitespace(s[0]) then TrimStart(s[1..]) else s
  }

  /** Drops the trailing whitespace of `s`. */
  function TrimEnd(s: string): string {
    if s != [] && IsWhitespace(s[|s| - 1]) then TrimEnd(s[..|s| - 1]) else s
  }

  /** TrimStart keeps the suffix of `s` that starts at its first non-whitespace character. */
  lemma {:induction false} TrimStartSpec(s: string)
    ensures |TrimStart(s)| <= |s| && TrimStart(s) == s[|s| - |TrimStart(s)|..]
    ensures AllWhitespace(s[..|s| - |TrimStart(s)|])
    ensures TrimStart(s) == [] || !IsWhitespace(TrimStart(s)[0])
  {
    if s != [] && IsWhitespace(s[0]) {
      TrimStartSpec(s[1..]);
      var r := TrimStart(s[1..]);
      assert s[..|s| - |r|] == [s[0]] + s[1..][..|s| - 1 - |r|];
    }
  }

  /** TrimEnd keeps the prefix of `s` that ends at its last non-whitespace character. */
  lemma {:induction false} TrimEndSpec(s: string)
    ensures |TrimEnd(s)| <= |s| && TrimEnd(s) == s[..|TrimEnd(s)|]
    ensures AllWhitespace(s[|TrimEnd(s)|..])
    ensures TrimEnd(s) == [] || !IsWhitespace(TrimEnd(s)[|TrimEnd(s)| - 1])
  {
    if s != [] && IsWhitespace(s[|s| - 1]) {
      TrimEndSpec(s[..|s| - 1]);
      var r := TrimEnd(s[..|s| - 1]);
      assert s[|r|..] == s[..|s| - 1][|r|..] + [s[|s| - 1]];
    }
  }

  /**
   * Strips leading and trailing whitespace from one entry. The result has no
   * whitespace at either end; TrimSlice and TrimPadded below show that it is
   * the part of `s` between an all-whitespace prefix and an all-whitespace
   * suffix, inner characters kept verbatim.
   */
  function Trim(s: string): (r: string)
    ensures IsTrimmed(r)
    ensures |r| <= |s|
  {
    TrimStartSpec(s);
    TrimEndSpec(TrimStart(s));
    TrimEnd(TrimStart(s))
  }

  /** What Trim removes: an all-whitespace prefix and an all-whitespace suffix, and nothing in between. */
  lemma TrimSlice(s: string)
    ensures exists i :: 0 <= i <= |s| - |Trim(s)| && AllWhitespace(s[..i]) && s[i..i + |Trim(s)|] == Trim(s) && AllWhitespace(s[i + |Trim(s)|..])
  {
    var t := TrimStart(s);
    var r := TrimEnd(t);
    TrimStartSpec(s);
    TrimEndSpec(t);
    var i := |s| - |t|;
    assert s[i..i + |r|] == r;
    assert s[i + |r|..] == t[|r|..];
  }

  lemma {:induction false} TrimStartPadded(pre: string, s: string)
    requires AllWhitespace(pre)
    requires s == [] || !IsWhitespace(s[0])
    ensures TrimStart(pre + s) == s
  {
    if pre != [] {
      assert (pre + s)[1..] == pre[1..] + s;
      TrimStartPadded(pre[1..], s);
    }
  }

  lemma {:induction false} TrimEndPadded(s: string, post: string)
    requires AllWhitespace(post)
    requires s == [] || !IsWhitespace(s[|s| - 1])
    ensures TrimEnd(s + post) == s
  {
    if post != [] {
      var n := |post| - 1;
      assert (s + post)[..|s + post| - 1] == s + post[..n];
      TrimEndPadded(s, post[..n]);
    }
  }

  /**
   * The converse of TrimSlice: whatever whitespace surrounds a string with
   * no whitespace at its ends, trimming gives back exactly that string, its
   * inner whitespace included.
   */
  lemma TrimPadded(pre: string, mid: string, post: string)
    requires AllWhitespace(pre) && AllWhitespace(post)
    requires IsTrimmed(mid)
    ensures Trim(pre + mid + post) == mid
  {
    if mid == [] {
      assert pre + mid + post == (pre + post) + [];
      TrimStartPadded(pre + post, []);
    } else {
      assert pre + mid + post == pre + (mid + post);
      TrimStartPadded(pre, mid + post);
      TrimEndPadded(mid, post);
    }
  }

  /** Trimming leaves a string unchanged exactly when it has no whitespace at either end. */
  lemma TrimFixpoint(s: string)
    ensures Trim(s) == s <==> IsTrimmed(s)
  {
    if IsTrimmed(s) {
      assert [] + s + [] == s;
      TrimPadded([], s, []);
    }
  }

  /** Trimming twice is the same as trimming once. */
  lemma TrimIdempotent(s: string)
    ensures Trim(Trim(s)) == Trim(s)
  {
    TrimFixpoint(Trim(s));
  }

  /** Trimming only removes characters, so it cannot introduce a delimiter. */
  lemma TrimKeepsDelimiterOut(s: string)
    requires Delimiter !in s
    ensures Delimiter !in Trim(s)
  {
    var r := Trim(s);
    TrimSlice(s);
    var i :| 0 <= i <= |s| - |r| && AllWhitespace(s[..i]) && s[i..i + |r|] == r && AllWhitespace(s[i + |r|..]);
    assert forall k :: 0 <= k < |r| ==> r[k] == s[i + k];
  }

  // ---------------------------------------------------------------------------
  // Joining and its inverse, splitting
  // ---------------------------------------------------------------------------

  /** Puts the delimiter between consecutive parts, none before the first and none after the last; no parts give the empty string. */
  function Join(parts: seq<string>): string {
    if |parts| == 0 then []
    else if |parts| == 1 then parts[0]
    else parts[0] + [Delimiter] + Join(parts[1..])
  }

  /**
   * Cuts `s` at every delimiter. This is the inverse of Join: the pieces are
   * free of delimiters, there is one more piece than there are delimiters,
   * and joining the pieces gives back `s`.
   */
  function Split(s: string): (r: seq<string>)
    ensures |r| == Occurrences(s, Delimiter) + 1
    ensures forall i :: 0 <= i < |r| ==> Delimiter !in r[i]
    ensures Join(r) == s
  {
    if s == [] then [[]]
    else
      var rest := Split(s[1..]);
      if s[0] == Delimiter then
        assert ([[]] + rest)[1..] == rest;
        [[]] + rest
      else
        var r := [[s[0]] + rest[0]] + rest[1..];
        assert r[1..] == rest[1..];
        assert |rest| > 1 ==> Join(rest) == rest[0] + [Delimiter] + Join(rest[1..]);
        assert s == [s[0]] + s[1..];
        r
  }

  lemma {:induction false} SplitSingle(a: string)
    requires Delimiter !in a
    ensures Split(a) == [a]
  {
    if a != [] {
      SplitSingle(a[1..]);
      assert [a[0]] + a[1..] == a;
    }
  }

  lemma {:induction false} SplitAfterPart(a: string, b: string)
    requires Delimiter !in a
    ensures Split(a + [Delimiter] + b) == [a] + Split(b)
  {
    var s := a + [Delimiter] + b;
    if a == [] {
      assert s[1..] == b;
    } else {
      assert s[1..] == a[1..] + [Delimiter] + b;
      SplitAfterPart(a[1..], b);
      assert [a[0]] + a[1..] == a;
    }
  }

  /** Joining delimiter-free parts and splitting the result gives the parts back, in order. */
  lemma {:induction false} SplitJoin(parts: seq<string>)
    requires |parts| >= 1
    requires forall i :: 0 <= i < |parts| ==> Delimiter !in parts[i]
    ensures Split(Join(parts)) == parts
  {
    if |parts| == 1 {
      SplitSingle(parts[0]);
    } else {
      SplitAfterPart(parts[0], Join(parts[1..]));
      SplitJoin(parts[1..]);
      assert [parts[0]] + parts[1..] == parts;
    }
  }

  /** Joining trimmed parts gives a string with no whitespace at either end (each end is a part's end or a delimiter). */
  lemma {:induction false} JoinTrimmed(parts: seq<string>)
    requires forall i :: 0 <= i < |parts| ==> IsTrimmed(parts[i])
    ensures IsTrimmed(Join(parts))
  {
    if |parts| > 1 {
      JoinTrimmed(parts[1..]);
      var tail := Join(parts[1..]);
      var r := parts[0] + [Delimiter] + tail;
      assert r[0] == if parts[0] == [] then Delimiter else parts[0][0];
      assert r[|r| - 1] == if tail == [] then Delimiter else tail[|tail| - 1];
    }
  }

  // ---------------------------------------------------------------------------
  // getClassPath
  // ---------------------------------------------------------------------------

  /** Every entry trimmed, in input order. */
  function TrimAll(entries: seq<string>): seq<string> {
    seq(|entries|, i requires 0 <= i < |entries| => Trim(entries[i]))
  }

  /**
   * Paths.getClassPath: trims each entry and joins the results with `:`.
   * The classpath never starts or ends with whitespace, a single entry gives
   * its own trimmed value, and (a modelling choice) no entries give "".
   */
  function GetClassPath(entries: seq<string>): (r: string)
    ensures IsTrimmed(r)
    ensures |entries| == 0 ==> r == []
    ensures |entries| == 1 ==> r == Trim(entries[0])
  {
    var parts := TrimAll(entries);
    JoinTrimmed(parts);
    Join(parts)
  }

  /** The classpath is the join of the trimmed entries, position by position. */
  lemma ClassPathIsJoin(entries: seq<string>, parts: seq<string>)
    requires |parts| == |entries|
    requires forall i :: 0 <= i < |entries| ==> Trim(entries[i]) == parts[i]
    ensures GetClassPath(entries) == Join(parts)
  {
    assert TrimAll(entries) == parts;
  }

  /** Entries that carry no surrounding whitespace are joined as they are, in input order. */
  lemma ClassPathOfTrimmed(entries: seq<string>)
    requires forall i :: 0 <= i < |entries| ==> IsTrimmed(entries[i])
    ensures GetClassPath(entries) == Join(entries)
  {
    forall i | 0 <= i < |entries|
      ensures TrimAll(entries)[i] == entries[i]
    {
      TrimFixpoint(entries[i]);
    }
    assert TrimAll(entries) == entries;
  }

  /**
   * When no entry contains the delimiter, cutting the classpath at every `:`
   * yields exactly the trimmed entries, one per input entry and in input order.
   */
  lemma ClassPathSegments(entries: seq<string>)
    requires |entries| >= 1
    requires forall i :: 0 <= i < |entries| ==> Delimiter !in entries[i]
    ensures |Split(GetClassPath(entries))| == |entries|
    ensures forall i :: 0 <= i < |entries| ==> Split(GetClassPath(entries))[i] == Trim(entries[i])
  {
    var parts := TrimAll(entries);
    forall i | 0 <= i < |parts|
      ensures Delimiter !in parts[i]
    {
      TrimKeepsDelimiterOut(entries[i]);
    }
    SplitJoin(parts);
  }

  /** Nothing is dropped or added: n delimiter-free entries give exactly n - 1 delimiters. */
  lemma ClassPathDelimiterCount(entries: seq<string>)
    requires |entries| >= 1
    requires forall i :: 0 <= i < |entries| ==> Delimiter !in entries[i]
    ensures Occurrences(GetClassPath(entries), Delimiter) == |entries| - 1
  {
    ClassPathSegments(entries);
  }

  /** Each segment of the classpath is a trimmed entry, so no whitespace survives next to a delimiter. */
  lemma ClassPathSegmentsTrimmed(entries: seq<string>)
    requires |entries| >= 1
    requires forall i :: 0 <= i < |entries| ==> Delimiter !in entries[i]
    ensures forall i :: 0 <= i < |Split(GetClassPath(entries))| ==> IsTrimmed(Split(GetClassPath(entries))[i])
  {
    ClassPathSegments(entries);
  }
}

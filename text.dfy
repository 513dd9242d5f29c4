/**
 * The handful of Go `strings` operations the encoder relies on, on ASCII text:
 * case-insensitive equality, whitespace trimming, splitting and joining on a
 * one-character separator, and removal of every occurrence of a character.
 */
module Text {

  /** The ASCII lower-case form of a character; every other character is itself. */
  function Lower(c: char): char
  {
    if 'A' <= c <= 'Z' then (c as int + 32) as char else c
  }

  /** Case-insensitive equality (`strings.EqualFold`, restricted to ASCII letters). */
  predicate EqualFold(a: string, b: string): (r: bool)
    ensures r <==> ToLower(a) == ToLower(b)
  {
    |a| == |b| && forall i :: 0 <= i < |a| ==> Lower(a[i]) == Lower(b[i])
  }

  /** The lower-case form of a whole string. */
  function ToLower(s: string): (r: string)
    ensures |r| == |s| && forall i :: 0 <= i < |s| ==> r[i] == Lower(s[i])
  {
    seq(|s|, i requires 0 <= i < |s| => Lower(s[i]))
  }

  /** ASCII white space as `strings.TrimSpace` sees it. */
  predicate IsSpace(c: char)
  {
    c == ' ' || c == '\t' || c == '\n' || c == '\r' || c == '\U{000B}' || c == '\U{000C}'
  }

  /** The number of white-space characters `s` starts with. */
  function LeadingSpaces(s: string): (n: nat)
    ensures n <= |s|
    ensures forall k :: 0 <= k < n ==> IsSpace(s[k])
    ensures n < |s| ==> !IsSpace(s[n])
    decreases |s|
  {
    if |s| > 0 && IsSpace(s[0]) then
      var n := LeadingSpaces(s[1..]);
      assert forall k :: 1 <= k < n + 1 ==> s[k] == s[1..][k - 1];
      n + 1
    else 0
  }

  /** The length of `s` once its trailing white space is dropped. */
  function TrimmedEnd(s: string): (n: nat)
    ensures n <= |s|
    ensures forall k :: n <= k < |s| ==> IsSpace(s[k])
    ensures n > 0 ==> !IsSpace(s[n - 1])
    decreases |s|
  {
    if |s| > 0 && IsSpace(s[|s| - 1]) then
      var n := TrimmedEnd(s[..|s| - 1]);
      assert forall k :: 0 <= k < |s| - 1 ==> s[k] == s[..|s| - 1][k];
      n
    else |s|
  }

  /**
   * `strings.TrimSpace`: the slice of `s` left once leading and trailing white
   * space is cut; what is cut is white space, and the slice neither starts nor
   * ends with white space.
   */
  function TrimSpace(s: string): (r: string)
    ensures var a := LeadingSpaces(s);
      a + |r| <= |s| && r == s[a..a + |r|]
      && (forall k :: 0 <= k < a ==> IsSpace(s[k]))
      && (forall k :: a + |r| <= k < |s| ==> IsSpace(s[k]))
    ensures r != [] ==> !IsSpace(r[0]) && !IsSpace(r[|r| - 1])
    ensures (forall k :: 0 <= k < |s| ==> !IsSpace(s[k])) ==> r == s
  {
    var a := LeadingSpaces(s);
    var b := TrimmedEnd(s);
    if a < b then s[a..b] else []
  }

  /** The position of the first character of `s` in `cs`, or `|s|` when there is none. */
  function IndexOfAny(s: string, cs: set<char>): (i: nat)
    ensures i <= |s|
    ensures i < |s| ==> s[i] in cs
    ensures forall k :: 0 <= k < i ==> s[k] !in cs
    decreases |s|
  {
    if |s| == 0 then 0
    else if s[0] in cs then 0
    else 1 + IndexOfAny(s[1..], cs)
  }

  /** `strings.Split(s, string(sep))` for a separator of one character. */
  function Split(s: string, sep: char): (parts: seq<string>)
    ensures |parts| >= 1
    ensures forall p :: p in parts ==> sep !in p
    decreases |s|
  {
    var i := IndexOfAny(s, {sep});
    if i == |s| then [s] else [s[..i]] + Split(s[i + 1..], sep)
  }

  /** `strings.Join(parts, string(sep))`. */
  function Join(parts: seq<string>, sep: char): (r: string)
    ensures |parts| >= 1 ==> parts[0] <= r
    ensures |parts| >= 2 ==> |r| > |parts[0]| && r[|parts[0]|] == sep
    decreases |parts|
  {
    if |parts| == 0 then ""
    else if |parts| == 1 then parts[0]
    else
      parts[0] + [sep] + Join(parts[1..], sep)
  }

  /** `strings.Replace(s, string(c), "", -1)`: every `c` removed, the rest kept in order. */
  function RemoveAll(s: string, c: char): (r: string)
    ensures c !in r
    ensures forall d :: d != c ==> multiset(r)[d] == multiset(s)[d]
    decreases |s|
  {
    if |s| == 0 then ""
    else
      assert s == [s[0]] + s[1..];
      if s[0] == c then RemoveAll(s[1..], c) else [s[0]] + RemoveAll(s[1..], c)
  }

  /** Removal works piece by piece: the surviving characters keep their order. */
  lemma {:induction false} RemoveAllConcat(a: string, b: string, c: char)
    ensures RemoveAll(a + b, c) == RemoveAll(a, c) + RemoveAll(b, c)
    decreases |a|
  {
    if |a| > 0 {
      assert (a + b)[1..] == a[1..] + b;
      RemoveAllConcat(a[1..], b, c);
    } else {
      assert a + b == b;
    }
  }

  /** Text free of `c` comes out of RemoveAll unchanged. */
  lemma {:induction false} RemoveAllAbsent(s: string, c: char)
    requires c !in s
    ensures RemoveAll(s, c) == s
    decreases |s|
  {
    if |s| > 0 {
      RemoveAllAbsent(s[1..], c);
      assert s == [s[0]] + s[1..];
    }
  }

  /** A separator-free list of at least one part is recovered by splitting its join. */
  lemma {:induction false} SplitJoin(parts: seq<string>, sep: char)
    requires |parts| >= 1
    requires forall k :: 0 <= k < |parts| ==> sep !in parts[k]
    ensures Split(Join(parts, sep), sep) == parts
    decreases |parts|
  {
    var s := Join(parts, sep);
    var p := parts[0];
    if |parts| == 1 {
      var i := IndexOfAny(s, {sep});
      assert i == |s|;
    } else {
      var rest := Join(parts[1..], sep);
      assert parts == [p] + parts[1..];
      JoinCons(p, parts[1..], sep);
      FirstSeparator(p, rest, sep);
      SplitAt(s, sep, |p|);
      assert s[..|p|] == p && s[|p| + 1..] == rest;
      SplitJoin(parts[1..], sep);
    }
  }

  /** In a piece free of the separator followed by the separator, the first separator ends the piece. */
  lemma FirstSeparator(p: string, rest: string, sep: char)
    requires sep !in p
    ensures IndexOfAny(p + [sep] + rest, {sep}) == |p|
  {
    var s := p + [sep] + rest;
    assert s[|p|] == sep;
    assert forall k :: 0 <= k < |p| ==> s[k] == p[k];
  }

  /** Joining the pieces of a split gives the original text back. */
  lemma {:induction false} JoinSplit(s: string, sep: char)
    ensures Join(Split(s, sep), sep) == s
    decreases |s|
  {
    var i := IndexOfAny(s, {sep});
    if i < |s| {
      SplitAt(s, sep, i);
      JoinSplit(s[i + 1..], sep);
      JoinCons(s[..i], Split(s[i + 1..], sep), sep);
      assert s == s[..i] + [sep] + s[i + 1..];
    }
  }

  /** Split at the first separator: the piece before it, then the split of the rest. */
  lemma SplitAt(s: string, sep: char, i: nat)
    requires i == IndexOfAny(s, {sep}) && i < |s|
    ensures Split(s, sep) == [s[..i]] + Split(s[i + 1..], sep)
  {
  }

  /** Join of a first piece and at least one more: the piece, the separator, the rest joined. */
  lemma JoinCons(first: string, rest: seq<string>, sep: char)
    requires |rest| >= 1
    ensures Join([first] + rest, sep) == first + [sep] + Join(rest, sep)
  {
    assert ([first] + rest)[1..] == rest;
  }

  /** Joining pieces that avoid `c` with a separator other than `c` gives text that avoids `c`. */
  lemma {:induction false} JoinAvoids(parts: seq<string>, sep: char, c: char)
    requires c != sep
    requires forall k :: 0 <= k < |parts| ==> c !in parts[k]
    ensures c !in Join(parts, sep)
    decreases |parts|
  {
    if |parts| > 1 {
      JoinAvoids(parts[1..], sep, c);
    }
  }

  /** Every piece of a split is a slice of the text, so it avoids what the text avoids. */
  lemma {:induction false} SplitAvoids(s: string, sep: char, c: char)
    requires c !in s
    ensures forall p :: p in Split(s, sep) ==> c !in p
    decreases |s|
  {
    var i := IndexOfAny(s, {sep});
    if i < |s| {
      SplitAvoids(s[i + 1..], sep, c);
      assert c !in s[..i];
    }
  }

  /** Trimming only removes characters. */
  lemma TrimSpaceAvoids(s: string, c: char)
    requires c !in s
    ensures c !in TrimSpace(s)
  {
    var r := TrimSpace(s);
    var a := LeadingSpaces(s);
    forall j | 0 <= j < |r|
      ensures r[j] != c
    {
      assert r[j] == s[a + j];
    }
  }
}

/**
 * The string operations of Rust's `str` that the modelled code relies on:
 * splitting on a character, `splitn(2, ..)`, `trim`, `trim_matches` and
 * taking the last piece of a split. Strings are sequences of characters.
 */
module Text {
  import opened Wrappers

  /** Position of the first `c` in `s`, if any. */
  function IndexOf(s: string, c: char): (r: Option<nat>)
    ensures r.Some? ==> r.value < |s| && s[r.value] == c && c !in s[..r.value]
    ensures r.None? ==> c !in s
  {
    if s == [] then None
    else if s[0] == c then Some(0)
    else match IndexOf(s[1..], c)
      case None => None
      case Some(i) => assert s[..i + 1] == [s[0]] + s[1..][..i]; Some(i + 1)
  }

  /** `s.split(c)`: the pieces between occurrences of `c`; always at least one. */
  function Split(s: string, c: char): (parts: seq<string>)
    ensures |parts| >= 1
    ensures forall k :: 0 <= k < |parts| ==> c !in parts[k]
    decreases |s|
  {
    match IndexOf(s, c)
      case None => [s]
      case Some(i) => [s[..i]] + Split(s[i + 1..], c)
  }

  /** The inverse of `Split`: the pieces glued back with `c` between them. */
  function Join(parts: seq<string>, c: char): string
  {
    if |parts| <= 1 then (if parts == [] then "" else parts[0])
    else parts[0] + [c] + Join(parts[1..], c)
  }

  lemma {:induction false} JoinSplit(s: string, c: char)
    ensures Join(Split(s, c), c) == s
    decreases |s|
  {
    match IndexOf(s, c)
      case None =>
      case Some(i) =>
        var rest := Split(s[i + 1..], c);
        assert Split(s, c) == [s[..i]] + rest;
        JoinSplit(s[i + 1..], c);
        assert ([s[..i]] + rest)[1..] == rest;
        assert Join(Split(s, c), c) == s[..i] + [c] + Join(rest, c);
        assert s == s[..i] + [c] + s[i + 1..];
  }

  lemma {:induction false} IndexOfAfter(d: string, c: char, rest: string)
    requires c !in d
    ensures IndexOf(d + [c] + rest, c) == Some(|d|)
    decreases |d|
  {
    if d != [] {
      assert (d + [c] + rest)[1..] == d[1..] + [c] + rest;
      IndexOfAfter(d[1..], c, rest);
    }
  }

  /** Splitting `d + c + rest` when `d` has no `c` peels off `d`. */
  lemma SplitConcat(d: string, c: char, rest: string)
    requires c !in d
    ensures Split(d + [c] + rest, c) == [d] + Split(rest, c)
  {
    var s := d + [c] + rest;
    IndexOfAfter(d, c, rest);
    assert s[..|d|] == d;
    assert s[|d| + 1..] == rest;
  }

  /** Splitting at one `c` between two strings joins their splits. */
  lemma {:induction false} SplitAround(p: string, c: char, q: string)
    ensures Split(p + [c] + q, c) == Split(p, c) + Split(q, c)
    decreases |p|
  {
    var o := IndexOf(p, c);
    if o.None? {
      SplitConcat(p, c, q);
    } else {
      var d, tail := p[..o.value], p[o.value + 1..];
      assert p == d + [c] + tail;
      SplitAround(tail, c, q);
      SplitAroundStep(d, c, tail, q);
    }
  }

  /** One peeled piece: the step of `SplitAround`. */
  lemma SplitAroundStep(d: string, c: char, tail: string, q: string)
    requires c !in d
    requires Split(tail + [c] + q, c) == Split(tail, c) + Split(q, c)
    ensures Split(d + [c] + tail + [c] + q, c) == Split(d + [c] + tail, c) + Split(q, c)
  {
    var rest := tail + [c] + q;
    Regroup(d, c, tail, q);
    SplitConcat(d, c, rest);
    SplitConcat(d, c, tail);
    ConsAssoc(d, Split(tail, c), Split(q, c));
  }

  lemma ConsAssoc(d: string, st: seq<string>, sq: seq<string>)
    ensures [d] + (st + sq) == ([d] + st) + sq
  {
  }

  lemma Regroup(d: string, c: char, tail: string, q: string)
    ensures d + [c] + tail + [c] + q == d + [c] + (tail + [c] + q)
  {
  }

  lemma SplitNone(s: string, c: char)
    requires c !in s
    ensures Split(s, c) == [s]
  {
  }

  /** `s.splitn(2, c)`: the text before the first `c` and the text after it. */
  function SplitOnce(s: string, c: char): (r: Option<(string, string)>)
    ensures r.None? <==> c !in s
    ensures r.Some? ==> s == r.value.0 + [c] + r.value.1 && c !in r.value.0
  {
    match IndexOf(s, c)
      case None => None
      case Some(i) =>
        assert s == s[..i] + [c] + s[i + 1..];
        Some((s[..i], s[i + 1..]))
  }

  /** The ASCII part of Rust's `char::is_whitespace`. */
  predicate IsWhitespace(ch: char)
  {
    ch == ' ' || ch == '\t' || ch == '\n' || ch == '\r' || ch == '\U{0B}' || ch == '\U{0C}'
  }

  /** Drops every leading character satisfying `IsWhitespace` (when `ws`) or equal to `m`. */
  function TrimStartWith(s: string, ws: bool, m: char): (r: string)
    ensures |r| <= |s| && r == s[|s| - |r|..]
    ensures r != [] ==> !(if ws then IsWhitespace(r[0]) else r[0] == m)
  {
    if s != [] && (if ws then IsWhitespace(s[0]) else s[0] == m) then TrimStartWith(s[1..], ws, m) else s
  }

  function TrimEndWith(s: string, ws: bool, m: char): (r: string)
    ensures |r| <= |s| && r == s[..|r|]
    ensures r != [] ==> !(if ws then IsWhitespace(r[|r| - 1]) else r[|r| - 1] == m)
  {
    if s != [] && (if ws then IsWhitespace(s[|s| - 1]) else s[|s| - 1] == m) then TrimEndWith(s[..|s| - 1], ws, m) else s
  }

  lemma TrimUnchanged(s: string)
    requires s != [] ==> !IsWhitespace(s[0]) && !IsWhitespace(s[|s| - 1])
    ensures Trim(s) == s
  {
  }

  lemma TrimLeadingSpace(s: string)
    requires s != [] ==> !IsWhitespace(s[0]) && !IsWhitespace(s[|s| - 1])
    ensures Trim(" " + s) == s
  {
    assert (" " + s)[1..] == s;
    assert TrimStartWith(" " + s, true, ' ') == TrimStartWith(s, true, ' ') == s;
    assert TrimEndWith(s, true, ' ') == s;
  }

  lemma TrimTrailingSpace(s: string)
    requires s != [] ==> !IsWhitespace(s[0]) && !IsWhitespace(s[|s| - 1])
    ensures Trim(s + " ") == s
  {
    var t := s + " ";
    assert t[..|t| - 1] == s;
    if s != [] {
      assert t[0] == s[0];
      assert TrimStartWith(t, true, ' ') == t;
      assert TrimEndWith(t, true, ' ') == TrimEndWith(s, true, ' ') == s;
    } else {
      assert TrimStartWith(t, true, ' ') == TrimStartWith([], true, ' ') == [];
    }
  }

  /** `s.trim()`. */
  function Trim(s: string): (r: string)
    ensures |r| <= |s|
    ensures r != [] ==> !IsWhitespace(r[0]) && !IsWhitespace(r[|r| - 1])
  {
    TrimEndWith(TrimStartWith(s, true, ' '), true, ' ')
  }

  /** `s.trim_matches(m)`: every leading and trailing `m` removed. */
  function TrimMatches(s: string, m: char): (r: string)
    ensures |r| <= |s|
    ensures r != [] ==> r[0] != m && r[|r| - 1] != m
  {
    TrimEndWith(TrimStartWith(s, false, m), false, m)
  }

  /** `s.split(c).last()`, which always exists: the text after the last `c`. */
  function LastPiece(s: string, c: char): (r: string)
    ensures c !in r
    ensures |r| <= |s| && r == s[|s| - |r|..]
    ensures |r| < |s| ==> s[|s| - |r| - 1] == c
    decreases |s|
  {
    match IndexOf(s, c)
      case None => s
      case Some(i) => LastPiece(s[i + 1..], c)
  }
}

/**
 * String helpers shared by both clients: the `filename` parameter of a
 * Content-Disposition header (a simplified reading of section 4.1 of
 * RFC 6266), `truncate_up_to` and `to_maybe_string`.
 */
module Extensions {
  import opened Wrappers
  import opened Text
  import Numbers

  /** What `HeaderValue::to_str` accepts: visible ASCII and horizontal tab. */
  predicate IsVisibleAscii(s: string)
  {
    forall i :: 0 <= i < |s| ==> (' ' <= s[i] <= '~' || s[i] == '\t')
  }

  /** A `key=value` section's trimmed key, or None when it has no `=`. */
  function SectionKey(section: string): Option<string>
  {
    match SplitOnce(section, '=')
      case None => None
      case Some((k, _)) => Some(Trim(k))
  }

  /** A section whose trimmed key is exactly `filename`. */
  predicate IsFileNameSection(section: string)
  {
    SectionKey(section) == Some("filename")
  }

  /** A `key=value` section with some other key. */
  predicate IsOtherSection(section: string)
  {
    SectionKey(section).Some? && SectionKey(section).value != "filename"
  }

  /** The filename a `filename=` section carries: trimmed, then stripped of quotes. */
  function SectionValue(section: string): string
  {
    match SplitOnce(section, '=')
      case None => ""
      case Some((_, v)) => TrimMatches(Trim(v), '"')
  }

  /** The outcome of scanning the sections after the disposition type, in order. */
  function FileNameIn(sections: seq<string>): (r: Result<string, string>)
    ensures r.Ok? ==> exists i :: 0 <= i < |sections| && IsFileNameSection(sections[i]) && r.value == SectionValue(sections[i])
    ensures r.Err? ==> r.error == "no filename in header" || r.error == "no val"
  {
    if sections == [] then Err("no filename in header")
    else match SectionKey(sections[0])
      case None => Err("no val")
      case Some(key) => if key == "filename" then Ok(SectionValue(sections[0])) else FileNameIn(sections[1..])
  }

  /** The whole rule, from the (possibly missing) raw header value. */
  function ContentDispositionSpec(header: Option<string>): Result<string, string>
  {
    match header
      case None => Err("no content-disposition header")
      case Some(h) =>
        if !IsVisibleAscii(h) then Err("no valid ascii") else FileNameIn(Split(h, ';')[1..])
  }

  /** `content_disposition_file_name`: the segment loop with its early returns. */
  method ContentDispositionFileName(header: Option<string>) returns (r: Result<string, string>)
    ensures r == ContentDispositionSpec(header)
  {
    if header.None? {
      return Err("no content-disposition header");
    }
    var value := header.value;
    if !IsVisibleAscii(value) {
      return Err("no valid ascii");
    }
    var disposition := Split(value, ';')[1..];
    var i := 0;
    while i < |disposition|
      invariant 0 <= i <= |disposition|
      invariant FileNameIn(disposition[i..]) == ContentDispositionSpec(header)
    {
      assert disposition[i..][1..] == disposition[i + 1..];
      var parts := SplitOnce(disposition[i], '=');
      if parts.None? {
        return Err("no val");
      }
      var key := Trim(parts.value.0);
      var val := Trim(parts.value.1);
      if key == "filename" {
        return Ok(TrimMatches(val, '"'));
      }
      i := i + 1;
    }
    return Err("no filename in header");
  }

  /** A leading `key=value` section with another key is skipped. */
  lemma FileNameInSkip(sections: seq<string>)
    requires sections != [] && IsOtherSection(sections[0])
    ensures FileNameIn(sections) == FileNameIn(sections[1..])
  {
  }

  /** Every section after the first `i` others, shifted one place left. */
  lemma OthersShift(sections: seq<string>, i: nat)
    requires 0 < i <= |sections|
    requires forall j :: 0 <= j < i ==> IsOtherSection(sections[j])
    ensures forall j :: 0 <= j < i - 1 ==> IsOtherSection(sections[1..][j])
  {
    forall j | 0 <= j < i - 1
      ensures IsOtherSection(sections[1..][j])
    {
      assert sections[1..][j] == sections[j + 1];
    }
  }

  /** The first `filename` section wins when every section before it is `key=value`. */
  lemma {:induction false} FileNameInFound(sections: seq<string>, i: nat)
    requires i < |sections|
    requires forall j :: 0 <= j < i ==> IsOtherSection(sections[j])
    requires IsFileNameSection(sections[i])
    ensures FileNameIn(sections) == Ok(SectionValue(sections[i]))
  {
    if i > 0 {
      OthersShift(sections, i);
      FileNameInFound(sections[1..], i - 1);
      FileNameInSkip(sections);
    }
  }

  /** A section without `=` before any `filename` section is an error, not skipped. */
  lemma {:induction false} FileNameInMissingValue(sections: seq<string>, i: nat)
    requires i < |sections|
    requires forall j :: 0 <= j < i ==> IsOtherSection(sections[j])
    requires '=' !in sections[i]
    ensures FileNameIn(sections) == Err("no val")
  {
    if i > 0 {
      OthersShift(sections, i);
      FileNameInMissingValue(sections[1..], i - 1);
      FileNameInSkip(sections);
    }
  }

  /** Without a `filename` key the result is an error. */
  lemma {:induction false} FileNameInAbsent(sections: seq<string>)
    requires forall j :: 0 <= j < |sections| ==> !IsFileNameSection(sections[j])
    ensures FileNameIn(sections).Err?
  {
    if sections != [] {
      FileNameInAbsent(sections[1..]);
    }
  }

  lemma VisibleAsciiConcat(a: string, b: string)
    ensures IsVisibleAscii(a + b) <==> IsVisibleAscii(a) && IsVisibleAscii(b)
  {
    if IsVisibleAscii(a + b) {
      assert forall i :: 0 <= i < |a| ==> a[i] == (a + b)[i];
      assert forall i :: 0 <= i < |b| ==> b[i] == (a + b)[|a| + i];
    }
  }

  /** The disposition type before the first `;` never influences the result. */
  lemma DispositionTypeIgnored(d1: string, d2: string, rest: string)
    requires ';' !in d1 && ';' !in d2
    requires IsVisibleAscii(d1) && IsVisibleAscii(d2)
    ensures ContentDispositionSpec(Some(d1 + ";" + rest)) == ContentDispositionSpec(Some(d2 + ";" + rest))
  {
    SplitConcat(d1, ';', rest);
    SplitConcat(d2, ';', rest);
    VisibleAsciiConcat(d1 + ";", rest);
    VisibleAsciiConcat(d2 + ";", rest);
    VisibleAsciiConcat(d1, ";");
    VisibleAsciiConcat(d2, ";");
    assert ([d1] + Split(rest, ';'))[1..] == Split(rest, ';');
    assert ([d2] + Split(rest, ';'))[1..] == Split(rest, ';');
  }

  /** `truncate_up_to(n)`: the first `n` characters, or the whole string when shorter. */
  function TruncateUpTo(s: string, n: nat): (r: string)
    ensures |r| == Numbers.Min(n, |s|)
    ensures r <= s
    ensures |s| <= n ==> r == s
  {
    var upTo := if n < |s| then n else |s|;
    s[..upTo]
  }

  lemma TruncateUpToIdempotent(s: string, n: nat)
    ensures TruncateUpTo(TruncateUpTo(s, n), n) == TruncateUpTo(s, n)
  {
  }

  /** `to_maybe_string`: presence and content of the optional text are kept. */
  function ToMaybeString(o: Option<string>): (r: Option<string>)
    ensures r.Some? <==> o.Some?
    ensures r.Some? ==> r.value == o.value
  {
    match o
      case None => None
      case Some(v) => Some(v)
  }
}

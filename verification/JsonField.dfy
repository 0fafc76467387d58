/**
 Extraction of one field from a JSON text (src/parser_neon.c:79-194 and 291-354). The vector form
 filters 16 bytes at a time by the first byte of the pattern and finishes with a scalar tail;
 the scalar form searches the NUL-terminated text. Both then read the value in the same way.
 */
module JsonFields {

  const BLOCK: nat := 16
  const MAX_PATTERN: nat := 256

  const QUOTE: char := '\"'
  const BACKSLASH: char := '\\'
  const NUL: char := '\0'

  // ---- Searching -----------------------------------------------------------------------------------------

  predicate MatchAt(json: string, p: string, i: nat) {
    i + |p| <= |json| && json[i..i + |p|] == p
  }

  /** The first match at or after `from`, or -1. */
  function FirstMatch(json: string, p: string, from: nat): (r: int)
    requires from <= |json|
    ensures r == -1 ==> forall k: nat | from <= k :: !MatchAt(json, p, k)
    ensures r != -1 ==> from <= r && MatchAt(json, p, r) && forall k: nat | from <= k < r :: !MatchAt(json, p, k)
    decreases |json| - from
  {
    if MatchAt(json, p, from) then from
    else if from == |json| then -1
    else FirstMatch(json, p, from + 1)
  }

  lemma FirstMatchUnique(json: string, p: string, m: nat)
    requires MatchAt(json, p, m) && forall k: nat | k < m :: !MatchAt(json, p, k)
    ensures FirstMatch(json, p, 0) == m
  {}

  /** The only match the vector search overlooks: one that ends the text and starts behind the last whole block. */
  predicate Overlooked(json: string, p: string, m: int) {
    m != -1 && m >= |json| / BLOCK * BLOCK && m + |p| == |json|
  }

  lemma OverlookedIsMatch(json: string, p: string, m: int)
    ensures Overlooked(json, p, m) ==> m != -1
  {}

  /** One block: look at the positions whose byte equals the first byte of the pattern. */
  method SearchBlock(json: string, p: string, i: nat) returns (found: bool, at: nat)
    requires 0 < |p| && i + BLOCK <= |json|
    ensures found ==> i <= at < i + BLOCK && MatchAt(json, p, at) && forall k: nat | i <= k < at :: !MatchAt(json, p, k)
    ensures !found ==> forall k: nat | i <= k < i + BLOCK :: !MatchAt(json, p, k)
  {
    found, at := false, 0;
    var j := 0;
    while j < BLOCK && i + j < |json|
      invariant 0 <= j <= BLOCK
      invariant forall k: nat | i <= k < i + j :: !MatchAt(json, p, k)
    {
      if json[i + j] == p[0] {
        if i + j + |p| <= |json| {
          if json[i + j..i + j + |p|] == p {
            return true, i + j;
          }
        }
      } else {
        FilterRejects(json, p, i + j);
      }
      j := j + 1;
    }
  }

  lemma FilterRejects(json: string, p: string, k: nat)
    requires 0 < |p| && k < |json| && json[k] != p[0]
    ensures !MatchAt(json, p, k)
  {
    if k + |p| <= |json| { assert json[k..k + |p|][0] == json[k]; }
  }

  /** Blocks, then the scalar tail: finds the first match unless it is the overlooked one. */
  method VectorSearch(json: string, p: string) returns (r: int)
    requires 0 < |p| <= |json|
    ensures var m := FirstMatch(json, p, 0);
      r == if Overlooked(json, p, m) then -1 else m
  {
    var i: nat, found: bool, at: nat := 0, false, 0;
    while i + BLOCK <= |json| && !found
      invariant i <= |json| && i % BLOCK == 0
      invariant found ==> at < i && MatchAt(json, p, at) && forall k: nat | k < at :: !MatchAt(json, p, k)
      invariant !found ==> forall k: nat | k < i :: !MatchAt(json, p, k)
    {
      found, at := SearchBlock(json, p, i);
      i := i + BLOCK;
    }
    if found {
      FirstMatchUnique(json, p, at);
      assert at < |json| / BLOCK * BLOCK;
      return at;
    }
    assert i == |json| / BLOCK * BLOCK;
    while i < |json| - |p|
      invariant |json| / BLOCK * BLOCK <= i <= |json|
      invariant forall k: nat | k < i :: !MatchAt(json, p, k)
    {
      if json[i..i + |p|] == p {
        FirstMatchUnique(json, p, i);
        return i;
      }
      i := i + 1;
    }
    return -1;
  }

  /** The part of the text a C string function sees. */
  function UpToNul(json: string): (s: string)
    ensures s <= json
    ensures NUL !in json ==> s == json
  {
    if json == [] || json[0] == NUL then [] else [json[0]] + UpToNul(json[1..])
  }

  /** Sixteen other bytes and then the bare pattern: the match is there and is overlooked. */
  lemma OverlookedExample(p: string, filler: char)
    requires 0 < |p| < BLOCK && filler != p[0]
    ensures var json := seq(BLOCK, _ => filler) + p;
      FirstMatch(json, p, 0) == BLOCK && Overlooked(json, p, FirstMatch(json, p, 0))
  {
    var json := seq(BLOCK, _ => filler) + p;
    forall k: nat | k < BLOCK ensures !MatchAt(json, p, k) { FilterRejects(json, p, k); }
    assert json[BLOCK..BLOCK + |p|] == p;
    FirstMatchUnique(json, p, BLOCK);
  }

  // ---- Reading the value ------------------------------------------------------------------------------------

  predicate IsBlank(c: char) { c == ' ' || c == '\t' }

  predicate IsDelimiter(c: char) {
    c == ',' || c == '}' || c == ']' || c == ' ' || c == '\t' || c == '\n' || c == '\r'
  }

  function SkipBlanks(json: string, i: nat): (r: nat)
    requires i <= |json|
    ensures i <= r <= |json|
    ensures forall k | i <= k < r :: IsBlank(json[k])
    ensures r < |json| ==> !IsBlank(json[r])
    decreases |json| - i
  {
    if i < |json| && IsBlank(json[i]) then SkipBlanks(json, i + 1) else i
  }

  /** The length of the run of backslashes that ends just before k, not looking below `from`. */
  function BackslashRun(json: string, from: nat, k: nat): nat
    requires from <= k <= |json|
  {
    if from < k && json[k - 1] == BACKSLASH then 1 + BackslashRun(json, from, k - 1) else 0
  }

  /** Position k ends a string value that starts at `from`: a quote or NUL not escaped by an odd run of backslashes. */
  predicate EndsString(json: string, from: nat, k: nat)
    requires from <= k < |json|
  {
    (json[k] == QUOTE || json[k] == NUL) && BackslashRun(json, from, k) % 2 == 0
  }

  /** The end of a value: the first unescaped quote of a string, or else the first delimiter, or the end of the text. */
  ghost predicate IsValueEnd(json: string, from: nat, isString: bool, end: nat) {
    && from <= end <= |json|
    && (forall k | from <= k < end :: if isString then !EndsString(json, from, k) else !IsDelimiter(json[k]))
    && (end < |json| ==> if isString then EndsString(json, from, end) else IsDelimiter(json[end]))
  }

  lemma ValueEndUnique(json: string, from: nat, isString: bool, a: nat, b: nat)
    requires IsValueEnd(json, from, isString, a) && IsValueEnd(json, from, isString, b)
    ensures a == b
  {}

  /** The loop over a string value, stepping over escape pairs; it never passes the end of the text. */
  method ScanString(json: string, from: nat) returns (end: nat)
    requires from <= |json|
    ensures IsValueEnd(json, from, true, end)
  {
    end := from;
    while end < |json| && json[end] != QUOTE && json[end] != NUL
      invariant from <= end <= |json|
      invariant BackslashRun(json, from, end) % 2 == 0 || end == |json|
      invariant forall k | from <= k < end :: !EndsString(json, from, k)
    {
      if json[end] == BACKSLASH && end + 1 < |json| {
        assert BackslashRun(json, from, end + 1) == 1 + BackslashRun(json, from, end);
        end := end + 2;
      } else {
        end := end + 1;
      }
    }
  }

  method ScanScalar(json: string, from: nat) returns (end: nat)
    requires from <= |json|
    ensures IsValueEnd(json, from, false, end)
  {
    end := from;
    while end < |json| && !IsDelimiter(json[end])
      invariant from <= end <= |json|
      invariant forall k | from <= k < end :: !IsDelimiter(json[k])
    {
      end := end + 1;
    }
  }

  datatype Extract = NotFound | Value(text: string)

  /** Where a value read from position i starts, and whether it is a string. */
  function ValueStart(json: string, i: nat): (r: (nat, bool))
    requires i <= |json|
    ensures i <= r.0 <= |json|
  {
    var start := SkipBlanks(json, i);
    if start < |json| && json[start] == QUOTE then (start + 1, true) else (start, false)
  }

  ghost predicate IsValueUpTo(json: string, i: nat, bufSize: nat, text: string, end: nat)
    requires 0 < bufSize && i <= |json|
  {
    var (from, isString) := ValueStart(json, i);
    && IsValueEnd(json, from, isString, end)
    && text == json[from..if end - from < bufSize then end else from + bufSize - 1]
  }

  /** The value text found from position i on, cut to the size of the caller's buffer. */
  ghost predicate IsValueAt(json: string, i: nat, bufSize: nat, text: string)
    requires 0 < bufSize
  {
    i <= |json| && exists end: nat :: IsValueUpTo(json, i, bufSize, text, end)
  }

  /** There is exactly one such text. */
  lemma ValueUnique(json: string, i: nat, bufSize: nat, a: string, b: string)
    requires 0 < bufSize && IsValueAt(json, i, bufSize, a) && IsValueAt(json, i, bufSize, b)
    ensures a == b
  {
    var (from, isString) := ValueStart(json, i);
    var x: nat :| IsValueUpTo(json, i, bufSize, a, x);
    var y: nat :| IsValueUpTo(json, i, bufSize, b, y);
    ValueEndUnique(json, from, isString, x, y);
  }

  method ReadValue(json: string, fieldStart: nat, bufSize: nat) returns (text: string)
    requires fieldStart <= |json| && 0 < bufSize
    ensures IsValueAt(json, fieldStart, bufSize, text)
  {
    var start := fieldStart;
    while start < |json| && (json[start] == ' ' || json[start] == '\t')
      invariant fieldStart <= start <= |json|
      invariant SkipBlanks(json, fieldStart) == SkipBlanks(json, start)
    {
      start := start + 1;
    }
    var from: nat, end: nat := start, start;
    if start < |json| {
      if json[start] == QUOTE {
        from := start + 1;
        end := ScanString(json, from);
      } else {
        end := ScanScalar(json, from);
      }
    }
    var length := end - from;
    if length >= bufSize { length := bufSize - 1; }
    text := json[from..from + length];
    assert IsValueUpTo(json, fieldStart, bufSize, text, end);
  }

  function Pattern(field: string): string { [QUOTE] + field + [QUOTE, ':'] }

  /** What the vector extractor returns. */
  ghost predicate IsVectorResult(json: string, field: string, bufSize: nat, r: Extract)
    requires 0 < bufSize
  {
    var p, m := Pattern(field), FirstMatch(json, Pattern(field), 0);
    if |p| >= MAX_PATTERN || m == -1 || Overlooked(json, p, m) then r == NotFound
    else r.Value? && IsValueAt(json, m + |p|, bufSize, r.text)
  }

  method VectorExtract(json: string, field: string, bufSize: nat) returns (r: Extract)
    requires |Pattern(field)| <= |json| && 0 < bufSize
    ensures IsVectorResult(json, field, bufSize, r)
  {
    hide IsValueAt;
    var p := Pattern(field);
    if |p| >= MAX_PATTERN {
      return NotFound;
    }
    var m := VectorSearch(json, p);
    if m == -1 {
      return NotFound;
    }
    var text := ReadValue(json, m + |p|, bufSize);
    return Value(text);
  }

  /** What the scalar extractor returns. */
  ghost predicate IsScalarResult(json: string, field: string, bufSize: nat, r: Extract)
    requires 0 < bufSize
  {
    var p, m := Pattern(field), FirstMatch(UpToNul(json), Pattern(field), 0);
    if |p| >= MAX_PATTERN || m == -1 then r == NotFound
    else r.Value? && IsValueAt(json, m + |p|, bufSize, r.text)
  }

  method ScalarExtract(json: string, field: string, bufSize: nat) returns (r: Extract)
    requires 0 < bufSize
    ensures IsScalarResult(json, field, bufSize, r)
  {
    hide IsValueAt;
    var p := Pattern(field);
    if |p| >= MAX_PATTERN {
      return NotFound;
    }
    var m := FirstMatch(UpToNul(json), p, 0);
    if m == -1 {
      return NotFound;
    }
    var text := ReadValue(json, m + |p|, bufSize);
    return Value(text);
  }

  /**
   On NUL-free text at least as long as the pattern, the two extractors return the same result exactly if the first
   match is not the overlooked one.
   */
  lemma ExtractorsAgreeIff(json: string, field: string, bufSize: nat, vector: Extract, scalar: Extract)
    requires |Pattern(field)| <= |json| && 0 < bufSize && NUL !in json
    requires IsVectorResult(json, field, bufSize, vector) && IsScalarResult(json, field, bufSize, scalar)
    ensures vector == scalar <==>
      |Pattern(field)| >= MAX_PATTERN || !Overlooked(json, Pattern(field), FirstMatch(json, Pattern(field), 0))
  {
    hide FirstMatch, IsValueAt, Overlooked, MatchAt, Pattern, UpToNul;
    assert UpToNul(json) == json;
    OverlookedIsMatch(json, Pattern(field), FirstMatch(json, Pattern(field), 0));
    if vector.Value? && scalar.Value? {
      var m := FirstMatch(json, Pattern(field), 0);
      ValueUnique(json, m + |Pattern(field)|, bufSize, vector.text, scalar.text);
    }
  }

  // ---- Whole texts ----------------------------------------------------------------------------------------

  function Escaped(c: char): string { if c == '\"' || c == '\\' then ['\\', c] else [c] }

  /** A string as JSON writes it: quotes and backslashes behind a backslash. */
  function Escape(x: string): string {
    if x == [] then [] else Escape(x[..|x| - 1]) + Escaped(x[|x| - 1])
  }

  ghost predicate Blanks(s: string) { forall i | 0 <= i < |s| :: s[i] == ' ' || s[i] == '\t' }

  /** An object whose first field is this one, up to the value. */
  function Opening(field: string, blanks: string): string { "{\"" + field + "\":" + blanks }

  lemma {:induction false} SkipAll(json: string, i: nat, j: nat)
    requires i <= j <= |json| && forall k | i <= k < j :: IsBlank(json[k])
    requires j < |json| ==> !IsBlank(json[j])
    ensures SkipBlanks(json, i) == j
    decreases j - i
  {
    if i == j {
    } else {
      SkipAll(json, i + 1, j);
    }
  }

  /** Where the value of the first field is looked for. */
  lemma OpeningMatches(field: string, blanks: string, tail: string)
    requires Blanks(blanks) && tail != [] && tail[0] != ' ' && tail[0] != '\t'
    ensures var json, p := Opening(field, blanks) + tail, Pattern(field);
      && FirstMatch(json, p, 0) == 1 && 1 + |p| <= |json|
      && SkipBlanks(json, 1 + |p|) == |Opening(field, blanks)|
      && !Overlooked(json, p, 1)
  {
    var json, p := Opening(field, blanks) + tail, Pattern(field);
    assert json[1..1 + |p|] == p;
    FilterRejects(json, p, 0);
    FirstMatchUnique(json, p, 1);
    SkipAll(json, 1 + |p|, |Opening(field, blanks)|);
  }

  /** Inside an escaped string no quote ends it, and behind each of its characters an even run is left. */
  lemma {:induction false} EscapeHides(json: string, from: nat, x: string)
    requires from + |Escape(x)| <= |json| && json[from..from + |Escape(x)|] == Escape(x)
    requires forall i | 0 <= i < |x| :: x[i] != '\0'
    ensures forall k | from <= k < from + |Escape(x)| :: !EndsString(json, from, k)
    ensures BackslashRun(json, from, from + |Escape(x)|) % 2 == 0
  {
    if x == [] {
    } else {
      var y, c := x[..|x| - 1], x[|x| - 1];
      var b := from + |Escape(y)|;
      assert json[from..b] == json[from..from + |Escape(x)|][..|Escape(y)|] == Escape(y);
      assert json[b..b + |Escaped(c)|] == json[from..from + |Escape(x)|][|Escape(y)|..] == Escaped(c);
      EscapeHides(json, from, y);
      EscapedHides(json, from, b, c);
    }
  }

  lemma EscapedHides(json: string, from: nat, b: nat, c: char)
    requires from <= b && b + |Escaped(c)| <= |json| && json[b..b + |Escaped(c)|] == Escaped(c) && c != '\0'
    requires BackslashRun(json, from, b) % 2 == 0
    ensures forall k | b <= k < b + |Escaped(c)| :: !EndsString(json, from, k)
    ensures BackslashRun(json, from, b + |Escaped(c)|) % 2 == 0
  {
    var e := json[b..b + |Escaped(c)|];
    assert json[b] == e[0];
    if c == '\"' || c == '\\' {
      assert json[b + 1] == e[1];
      assert BackslashRun(json, from, b + 1) == 1 + BackslashRun(json, from, b);
    }
  }

  function CutTo(text: string, bufSize: nat): string
    requires 0 < bufSize
  {
    if |text| < bufSize then text else text[..bufSize - 1]
  }

  lemma StringValueThere(field: string, blanks: string, x: string, rest: string, bufSize: nat)
    requires Blanks(blanks) && 0 < bufSize && forall i | 0 <= i < |x| :: x[i] != '\0'
    ensures var json := Opening(field, blanks) + ("\"" + Escape(x) + "\"" + rest);
      IsValueAt(json, 1 + |Pattern(field)|, bufSize, CutTo(Escape(x), bufSize))
  {
    hide Escape, FirstMatch, Opening, BackslashRun, SkipBlanks, IsValueEnd, Overlooked, IsValueAt, CutTo, Pattern;
    var e := Escape(x);
    var tail := "\"" + e + "\"" + rest;
    var opening := Opening(field, blanks);
    var json, from := opening + tail, |opening| + 1;
    OpeningMatches(field, blanks, tail);
    Layout(opening, e, rest);
    EscapeEnds(json, from, x);
    assert ValueStart(json, 1 + |Pattern(field)|) == (from, true);
    ValueThere(json, 1 + |Pattern(field)|, bufSize, from, true, from + |e|);
  }

  lemma Layout(opening: string, e: string, rest: string)
    ensures var json, from := opening + ("\"" + e + "\"" + rest), |opening| + 1;
      && from + |e| < |json| && json[from - 1] == '\"'
      && json[from..from + |e|] == e && json[from + |e|] == '\"'
  {}

  lemma ValueThere(json: string, i: nat, bufSize: nat, from: nat, isString: bool, end: nat)
    requires 0 < bufSize && i <= |json| && ValueStart(json, i) == (from, isString)
    requires IsValueEnd(json, from, isString, end)
    ensures from <= end <= |json| && IsValueAt(json, i, bufSize, CutTo(json[from..end], bufSize))
  {
    hide BackslashRun, SkipBlanks, EndsString, IsDelimiter;
    var text := CutTo(json[from..end], bufSize);
    assert text == json[from..if end - from < bufSize then end else from + bufSize - 1];
    assert IsValueUpTo(json, i, bufSize, text, end);
  }

  lemma EscapeEnds(json: string, from: nat, x: string)
    requires var e := Escape(x);
      from + |e| < |json| && json[from..from + |e|] == e && json[from + |e|] == '\"'
    requires forall i | 0 <= i < |x| :: x[i] != '\0'
    ensures IsValueEnd(json, from, true, from + |Escape(x)|)
  {
    hide Escape, BackslashRun;
    EscapeHides(json, from, x);
  }

  /** Whatever extractor is asked, the value of the first field comes back as it stands, cut to the buffer. */
  lemma FirstFieldFound(json: string, field: string, bufSize: nat, text: string, r: Extract)
    requires 0 < bufSize && |field| < 253 && NUL !in json
    requires FirstMatch(json, Pattern(field), 0) == 1 && !Overlooked(json, Pattern(field), 1)
    requires IsValueAt(json, 1 + |Pattern(field)|, bufSize, text)
    requires IsVectorResult(json, field, bufSize, r) || IsScalarResult(json, field, bufSize, r)
    ensures r == Value(text)
  {
    hide FirstMatch, IsValueAt;
    ValueUnique(json, 1 + |Pattern(field)|, bufSize, text, r.text);
  }

  /** A string value in the first field comes back, in its escaped form. */
  lemma StringRoundTrip(field: string, blanks: string, x: string, rest: string, bufSize: nat, r: Extract)
    requires Blanks(blanks) && 0 < bufSize && |field| < 253
    requires forall i | 0 <= i < |x| :: x[i] != '\0'
    requires var json := Opening(field, blanks) + ("\"" + Escape(x) + "\"" + rest);
      && NUL !in json
      && (IsVectorResult(json, field, bufSize, r) || IsScalarResult(json, field, bufSize, r))
    ensures r == Value(CutTo(Escape(x), bufSize))
  {
    hide Escape, FirstMatch, IsValueAt, Opening, IsVectorResult, IsScalarResult;
    var tail := "\"" + Escape(x) + "\"" + rest;
    OpeningMatches(field, blanks, tail);
    StringValueThere(field, blanks, x, rest, bufSize);
    FirstFieldFound(Opening(field, blanks) + tail, field, bufSize, CutTo(Escape(x), bufSize), r);
  }

  /** A field name whose pattern does not fit its buffer is not looked for. */
  lemma LongFieldRefused(json: string, field: string, bufSize: nat, r: Extract)
    requires 0 < bufSize && |field| >= 253
    requires IsVectorResult(json, field, bufSize, r) || IsScalarResult(json, field, bufSize, r)
    ensures r == NotFound
  {}

  ghost predicate Delimits(c: char) { c in [',', '}', ']', ' ', '\t', '\n', '\r'] }

  /** A number or word in the first field comes back up to the delimiter behind it. */
  lemma ScalarRoundTrip(
    field: string, blanks: string, v: string, d: char, rest: string, bufSize: nat, r: Extract)
    requires Blanks(blanks) && 0 < bufSize && |field| < 253
    requires v != [] && v[0] != '\"' && (forall i | 0 <= i < |v| :: !Delimits(v[i])) && Delimits(d)
    requires var json := Opening(field, blanks) + (v + [d] + rest);
      && NUL !in json
      && (IsVectorResult(json, field, bufSize, r) || IsScalarResult(json, field, bufSize, r))
    ensures r == Value(CutTo(v, bufSize))
  {
    hide FirstMatch, IsVectorResult, IsScalarResult;
    var tail := v + [d] + rest;
    assert tail[0] == v[0];
    assert !Delimits(v[0]);
    OpeningMatches(field, blanks, tail);
    ScalarValueThere(field, blanks, v, d, rest, bufSize);
    FirstFieldFound(Opening(field, blanks) + tail, field, bufSize, CutTo(v, bufSize), r);
  }

  lemma ScalarValueThere(field: string, blanks: string, v: string, d: char, rest: string, bufSize: nat)
    requires Blanks(blanks) && 0 < bufSize
    requires v != [] && v[0] != '\"' && (forall i | 0 <= i < |v| :: !Delimits(v[i])) && Delimits(d)
    ensures var json := Opening(field, blanks) + (v + [d] + rest);
      IsValueAt(json, 1 + |Pattern(field)|, bufSize, CutTo(v, bufSize))
  {
    hide FirstMatch, Opening, SkipBlanks, Overlooked, IsValueAt, CutTo, Pattern, IsValueEnd;
    var tail, opening := v + [d] + rest, Opening(field, blanks);
    assert tail[0] == v[0] && !Delimits(v[0]);
    var json, from := opening + tail, |opening|;
    OpeningMatches(field, blanks, tail);
    assert json[from..from + |v|] == v && json[from + |v|] == d && json[from] == v[0];
    ScalarEnds(json, from, v);
    ValueThere(json, 1 + |Pattern(field)|, bufSize, from, false, from + |v|);
  }

  lemma ScalarEnds(json: string, from: nat, v: string)
    requires from + |v| < |json| && json[from..from + |v|] == v
    requires (forall i | 0 <= i < |v| :: !Delimits(v[i])) && Delimits(json[from + |v|])
    ensures IsValueEnd(json, from, false, from + |v|)
  {
    forall k | from <= k < from + |v| ensures !IsDelimiter(json[k]) {
      assert json[k] == v[k - from] && !Delimits(v[k - from]);
    }
  }
}

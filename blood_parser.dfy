/**
 * The blood test parser: one biomarker per line, e.g.
 *   HomocysteÏne + 18.0 Opt:<8.0 V.N 3.7-13.9 µmol/L
 * with the status of each value judged against its optimal (functional) range.
 */
module BloodParser {
  import opened Wrappers
  import opened Text
  import opened Decimal

  datatype Status = Critical | Warning | Optimal

  /** The standalone `+` or `-` token a lab prints beside an out-of-range value. */
  datatype Flag = NoFlag | Plus | Minus

  datatype Biomarker = Biomarker(
    name: string,
    value: real,
    unit: string,
    optimalRange: string,
    normalRange: string,
    status: Status,
    flag: Flag)

  // ---------------------------------------------------------------------------
  // determine_status
  // ---------------------------------------------------------------------------

  /** Without a usable optimal range, any flag means warning. */
  function FlagStatus(flag: Flag): Status {
    if flag == Plus then Warning
    else if flag == Minus then Warning
    else Optimal
  }

  /** `<X`: more than 50% over X is critical, over X is a warning. */
  function UpperLimitVerdict(value: real, maxVal: real): Status {
    if value > maxVal * 1.5 then Critical
    else if value > maxVal then Warning
    else Optimal
  }

  /** `>X`: more than 30% under X is critical, under X is a warning. */
  function LowerLimitVerdict(value: real, minVal: real): Status {
    if value < minVal * 0.7 then Critical
    else if value < minVal then Warning
    else Optimal
  }

  /** `X-Y`: more than 20% outside the interval is critical, outside it is a warning. */
  function IntervalVerdict(value: real, minVal: real, maxVal: real): Status {
    if value < minVal then
      if value < minVal * 0.8 then Critical else Warning
    else if value > maxVal then
      if value > maxVal * 1.2 then Critical else Warning
    else Optimal
  }

  /**
   * The status of a value against an optimal range `<X`, `>X` or `X-Y`.
   * None is the ValueError float() raises on a range whose numbers do not
   * convert, and it is raised exactly on those ranges.
   */
  function DetermineStatus(value: real, optimalRange: string, flag: Flag): (r: Option<Status>)
    ensures r.None? <==> !RangeConverts(optimalRange)
  {
    DashParts(optimalRange);
    if optimalRange == [] then
      Some(FlagStatus(flag))
    else if '<' in optimalRange then
      match ParseDecimal(RemoveChar(optimalRange, '<'))
      case None => None
      case Some(maxVal) => Some(UpperLimitVerdict(value, maxVal))
    else if '>' in optimalRange then
      match ParseDecimal(RemoveChar(optimalRange, '>'))
      case None => None
      case Some(minVal) => Some(LowerLimitVerdict(value, minVal))
    else if '-' in optimalRange then
      var parts := Split(optimalRange, '-');
      match ParseDecimal(parts[0])
      case None => None
      case Some(minVal) =>
        match ParseDecimal(parts[1])
        case None => None
        case Some(maxVal) => Some(IntervalVerdict(value, minVal, maxVal))
    else
      Some(FlagStatus(flag))
  }

  // ---------------------------------------------------------------------------
  // The regular expressions of _parse_line, one position at a time
  // ---------------------------------------------------------------------------

  /** The class [\d\.\-]. */
  predicate IsRangeChar(c: char) { IsDigit(c) || c == '.' || c == '-' }

  /** The class [µmg/dLIUngpmol%]. */
  predicate IsUnitChar(c: char) {
    c == 'µ' || c == 'm' || c == 'g' || c == '/' || c == 'd' || c == 'L' || c == 'I' ||
    c == 'U' || c == 'n' || c == 'p' || c == 'o' || c == 'l' || c == '%'
  }

  predicate IsRangeText(r: string) {
    r != [] && forall i :: 0 <= i < |r| ==> IsRangeChar(r[i])
  }

  /** What the optimal-range patterns can capture: `[<>]?[\d\.\-]+`, or nothing. */
  predicate IsOptimalRangeText(r: string) {
    r == [] || IsRangeText(r) || (|r| >= 2 && (r[0] == '<' || r[0] == '>') && IsRangeText(r[1..]))
  }

  /** `Opt:([<>]?[\d\.\-]+)` at position p. */
  function OptPrefixPattern(s: string, p: nat): (r: Option<string>)
    ensures r.Some? ==> IsOptimalRangeText(r.value) && r.value != []
    ensures r.Some? ==> LiteralAt(s, p, "Opt:") && LiteralAt(s, p + 4, r.value)
    ensures r.Some? ==> p + 4 + |r.value| < |s| ==> !IsRangeChar(s[p + 4 + |r.value|])
  {
    var q := p + 4;
    if !LiteralAt(s, p, "Opt:") then None
    else if q + 1 < |s| && (s[q] == '<' || s[q] == '>') && IsRangeChar(s[q + 1]) then
      var r := s[q..RunEnd(s, q + 1, IsRangeChar)];
      assert r[1..] == s[q + 1..RunEnd(s, q + 1, IsRangeChar)];
      Some(r)
    else if q < |s| && IsRangeChar(s[q]) then Some(s[q..RunEnd(s, q, IsRangeChar)])
    else None
  }

  /** `([\d\.\-]+)` followed by the literal tag, at position p. */
  function TaggedRangePattern(s: string, p: nat, tag: string): (r: Option<string>)
    ensures r.Some? ==> IsRangeText(r.value)
  {
    if p < |s| && IsRangeChar(s[p]) then
      var j := RunEnd(s, p, IsRangeChar);
      if LiteralAt(s, j, tag) then Some(s[p..j]) else None
    else None
  }

  /**
   * `([\d\.\-]+):opt\.?` at position p. It shares its body with
   * NormalSuffixPattern because the two source regexes differ only in the tag.
   */
  function OptSuffixPattern(s: string, p: nat): (r: Option<string>)
    ensures r.Some? ==> IsRangeText(r.value)
  {
    TaggedRangePattern(s, p, ":opt")
  }

  /** `([\d\.\-]+):VN` at position p: the normal-range counterpart of OptSuffixPattern, a separate source regex. */
  function NormalSuffixPattern(s: string, p: nat): (r: Option<string>)
    ensures r.Some? ==> IsRangeText(r.value)
  {
    TaggedRangePattern(s, p, ":VN")
  }

  /** `V\.?N\.?\s+([\d\.\-]+)` at position p. */
  function NormalPrefixPattern(s: string, p: nat): (r: Option<string>)
    ensures r.Some? ==> IsRangeText(r.value)
  {
    if !(p < |s| && s[p] == 'V') then None
    else
      var n := if p + 1 < |s| && s[p + 1] == '.' then p + 2 else p + 1;
      if !(n < |s| && s[n] == 'N') then None
      else
        var w := if n + 1 < |s| && s[n + 1] == '.' then n + 2 else n + 1;
        if !(w < |s| && IsSpace(s[w])) then None
        else
          var v := RunEnd(s, w, IsSpace);
          if v < |s| && IsRangeChar(s[v]) then Some(s[v..RunEnd(s, v, IsRangeChar)]) else None
  }

  /** `([µmg/dLIUngpmol%]+)$` at position p. */
  function UnitPattern(s: string, p: nat): Option<string> {
    if p < |s| && IsUnitChar(s[p]) && RunEnd(s, p, IsUnitChar) == |s| then Some(s[p..]) else None
  }

  /** The optimal range: the leftmost `Opt:` capture wins; failing that the leftmost `:opt` one; else empty. */
  function OptimalRange(line: string): (r: string)
    ensures IsOptimalRangeText(r)
  {
    var r := CaptureWithFallback(line, OptPrefixPattern, OptSuffixPattern);
    assert r != [] ==> exists p: nat :: p <= |line| && (OptPrefixPattern(line, p) == Some(r) || OptSuffixPattern(line, p) == Some(r));
    r
  }

  /** The normal range: the leftmost `V.N` capture wins; failing that the leftmost `:VN` one; else empty. */
  function NormalRange(line: string): (r: string)
    ensures r == [] || IsRangeText(r)
  {
    var r := CaptureWithFallback(line, NormalPrefixPattern, NormalSuffixPattern);
    assert r != [] ==> exists p: nat :: p <= |line| && (NormalPrefixPattern(line, p) == Some(r) || NormalSuffixPattern(line, p) == Some(r));
    r
  }

  /** The unit: the longest run of unit characters the line ends with. */
  function Unit(line: string): (u: string)
    ensures |u| <= |line| && u == line[|line| - |u|..]
    ensures forall i :: 0 <= i < |u| ==> IsUnitChar(u[i])
    ensures |u| < |line| ==> !IsUnitChar(line[|line| - |u| - 1])
  {
    var m := Search(line, UnitPattern, 0);
    if m.Some? then
      var p := m.value.pos;
      assert 0 < p ==> !IsUnitChar(line[p - 1]) by {
        assert 0 < p && IsUnitChar(line[p - 1]) ==> UnitPattern(line, p - 1).Some?;
      }
      m.value.capture
    else
      assert 0 < |line| ==> !IsUnitChar(line[|line| - 1]) by {
        assert 0 < |line| && IsUnitChar(line[|line| - 1]) ==> UnitPattern(line, |line| - 1).Some?;
      }
      []
  }

  // ---------------------------------------------------------------------------
  // _parse_line
  // ---------------------------------------------------------------------------

  predicate IsFlagToken(token: string) { token == "+" || token == "-" }

  function FlagOf(token: string): Flag {
    if token == "+" then Plus else if token == "-" then Minus else NoFlag
  }

  /** The index of the value token: right after a flag at index > 0, else the first numeral (0 if none). */
  function ValueIndex(parts: seq<string>): nat {
    var f := FirstIndex(parts, IsFlagToken);
    var n := FirstIndex(parts, IsNumeral);
    if 0 < f < |parts| then f + 1 else if n < |parts| then n else 0
  }

  /** The name: the tokens before a flag at index > 0, else the tokens before the first numeral. */
  function NameOf(parts: seq<string>): string {
    var f := FirstIndex(parts, IsFlagToken);
    if 0 < f < |parts| then Join(parts[..f], " ") else Join(parts[..FirstIndex(parts, IsNumeral)], " ")
  }

  /** The flag recorded for a line: the first `+` or `-` token, wherever it stands. */
  function FlagOfParts(parts: seq<string>): Flag {
    var f := FirstIndex(parts, IsFlagToken);
    if f < |parts| then FlagOf(parts[f]) else NoFlag
  }

  /** The record built once the tokens are classified; None when float() raises. */
  function BuildRecord(line: string, parts: seq<string>, flag: Flag, name: string, valueIdx: nat): Option<Biomarker> {
    if valueIdx >= |parts| then None
    else
      match ParseDecimal(parts[valueIdx])
      case None => None
      case Some(value) =>
        var optimal := OptimalRange(line);
        match DetermineStatus(value, optimal, flag)
        case None => None
        case Some(status) =>
          Some(Biomarker(Strip(name), value, Unit(line), optimal, NormalRange(line), status, flag))
  }

  /**
   * What _parse_line returns for one line; None when it returns None or raises.
   * That happens exactly when the line has fewer than three tokens; or a flag
   * after the first token is last or followed by a token that is not a number;
   * or, without such a flag, no token is a number; or its optimal range does
   * not convert. Every other line yields a record.
   */
  function ParseLineSpec(line: string): (r: Option<Biomarker>)
    ensures var parts := Tokens(line);
      var f := FirstIndex(parts, IsFlagToken);
      var n := FirstIndex(parts, IsNumeral);
      r.None? <==>
        |parts| < 3 ||
        (0 < f < |parts| && (f + 1 == |parts| || !IsNumeral(parts[f + 1]))) ||
        (!(0 < f < |parts|) && n == |parts|) ||
        !RangeConverts(OptimalRange(line))
  {
    var parts := Tokens(line);
    ValueTokenMissing(parts);
    if |parts| < 3 then None
    else BuildRecord(line, parts, FlagOfParts(parts), NameOf(parts), ValueIndex(parts))
  }

  /**
   * The fallback scan of _parse_line when no flag follows the name: the tokens
   * before the first value token form the name, and the value index is that
   * token's (0 if there is none). The source's test for a value token is whether
   * float() accepts it; the scan is stated for any such test.
   */
  method ScanForValue(parts: seq<string>, isValue: string -> bool) returns (nameParts: seq<string>, valueIdx: nat)
    ensures nameParts == parts[..FirstIndex(parts, isValue)]
    ensures valueIdx == (if FirstIndex(parts, isValue) < |parts| then FirstIndex(parts, isValue) else 0)
  {
    nameParts := [];
    valueIdx := 0;
    var k := 0;
    while k < |parts|
      invariant 0 <= k <= |parts|
      invariant nameParts == parts[..k]
      invariant forall j :: 0 <= j < k ==> !isValue(parts[j])
      invariant valueIdx == 0
    {
      if isValue(parts[k]) {
        valueIdx := k;
        break;
      }
      nameParts := nameParts + [parts[k]];
      k := k + 1;
    }
    FirstIndexIs(parts, isValue, k);
  }

  /** _parse_line: scan for the flag, then for the value, then read the ranges and the unit. */
  method ParseLine(line: string) returns (r: Option<Biomarker>)
    ensures r == ParseLineSpec(line)
  {
    var parts := Tokens(line);
    if |parts| < 3 {
      return None;
    }

    var flag := NoFlag;
    var flagIdx := -1;
    var i := 0;
    while i < |parts|
      invariant 0 <= i <= |parts|
      invariant forall j :: 0 <= j < i ==> !IsFlagToken(parts[j])
      invariant flagIdx == -1 && flag == NoFlag
    {
      if IsFlagToken(parts[i]) {
        flag := FlagOf(parts[i]);
        flagIdx := i;
        break;
      }
      i := i + 1;
    }

    FirstIndexIs(parts, IsFlagToken, i);
    assert flagIdx == (if i < |parts| then i else -1);
    assert flag == FlagOfParts(parts);

    var name: string;
    var valueIdx := 0;
    if flagIdx > 0 {
      name := Join(parts[..flagIdx], " ");
      valueIdx := flagIdx + 1;
    } else {
      var nameParts;
      nameParts, valueIdx := ScanForValue(parts, IsNumeral);
      name := Join(nameParts, " ");
    }
    assert name == NameOf(parts) && valueIdx == ValueIndex(parts);

    if valueIdx >= |parts| {
      return None;  // IndexError: the flag is the last token
    }
    var value := ParseDecimal(parts[valueIdx]);
    if value.None? {
      return None;  // ValueError
    }
    var optimal := OptimalRange(line);
    var normal := NormalRange(line);
    var unit := Unit(line);
    var status := DetermineStatus(value.value, optimal, flag);
    if status.None? {
      return None;  // ValueError from a malformed optimal range
    }
    r := Some(Biomarker(Strip(name), value.value, unit, optimal, normal, status.value, flag));
  }

  // ---------------------------------------------------------------------------
  // parse
  // ---------------------------------------------------------------------------

  /** Blank lines and header lines starting with `Naam` are skipped. */
  predicate IsSkippedLine(line: string) {
    Strip(line) == [] || StartsWith(line, "Naam")
  }

  /** The records one line contributes: none or one. */
  function LineRecords(line: string): (r: seq<Biomarker>)
    ensures |r| <= 1
  {
    if IsSkippedLine(line) then []
    else
      match ParseLineSpec(line)
      case None => []
      case Some(b) => [b]
  }

  /** The records of the lines, in line order. */
  function ParseLines(lines: seq<string>): (r: seq<Biomarker>)
    ensures |r| <= |lines|
  {
    FlatMapAtMostOne(lines, LineRecords);
    FlatMap(lines, LineRecords)
  }

  lemma ParseLinesNext(lines: seq<string>, i: nat)
    requires i < |lines|
    ensures ParseLines(lines[..i + 1]) == ParseLines(lines[..i]) + LineRecords(lines[i])
  {
    FlatMapStep(lines, LineRecords, i);
  }

  /** What parse returns for a whole report: empty for blank text, else at most one record per line. */
  function ParseSpec(text: string): (r: seq<Biomarker>)
    ensures IsBlank(text) ==> r == []
    ensures |r| <= |Split(Strip(text), '\n')|
  {
    var body := Strip(text);
    if body == [] then [] else ParseLines(Split(body, '\n'))
  }

  /** parse: strip the text, split it into lines and keep the record of every line that yields one. */
  method Parse(text: string) returns (biomarkers: seq<Biomarker>)
    ensures biomarkers == ParseSpec(text)
  {
    var body := Strip(text);
    if body == [] {
      return [];
    }
    var lines := Split(body, '\n');
    biomarkers := [];
    for i := 0 to |lines|
      invariant biomarkers == ParseLines(lines[..i])
    {
      var line := lines[i];
      ParseLinesNext(lines, i);
      if IsSkippedLine(line) {
        assert LineRecords(line) == [];
        assert ParseLines(lines[..i + 1]) == biomarkers + [] == biomarkers;
        continue;
      }
      var biomarker := ParseLine(line);
      assert LineRecords(line) == if biomarker.Some? then [biomarker.value] else [];
      if biomarker.Some? {
        biomarkers := biomarkers + [biomarker.value];
      } else {
        assert ParseLines(lines[..i + 1]) == biomarkers + [] == biomarkers;
      }
    }
    assert lines[..|lines|] == lines;
  }

  // ---------------------------------------------------------------------------
  // Properties of determine_status
  // ---------------------------------------------------------------------------

  /** How bad a status is: optimal < warning < critical. */
  function Rank(status: Status): nat {
    match status
    case Optimal => 0
    case Warning => 1
    case Critical => 2
  }

  lemma RemoveLeading(t: string, c: char)
    requires c !in t
    ensures RemoveChar([c] + t, c) == t
  {
    assert ([c] + t)[1..] == t;
  }

  /** A range without `<`, `>` or `-` (the empty range included) leaves the decision to the flag: warning iff flagged. */
  lemma StatusWithoutRange(value: real, optimalRange: string, flag: Flag)
    requires '<' !in optimalRange && '>' !in optimalRange && '-' !in optimalRange
    ensures DetermineStatus(value, optimalRange, flag).Some?
    ensures DetermineStatus(value, optimalRange, flag).value == Warning <==> flag != NoFlag
    ensures DetermineStatus(value, optimalRange, flag).value != Critical
  {
  }

  /** `<X` with X >= 0: critical beyond 1.5·X, warning in (X, 1.5·X], optimal up to X. */
  lemma UpperLimitBands(value: real, x: real)
    requires x >= 0.0
    ensures UpperLimitVerdict(value, x) == Critical <==> value > 1.5 * x
    ensures UpperLimitVerdict(value, x) == Warning <==> x < value <= 1.5 * x
    ensures UpperLimitVerdict(value, x) == Optimal <==> value <= x
  {
  }

  /** `<X` with X >= 0: a larger value never gets a better status. */
  lemma UpperLimitMonotone(v1: real, v2: real, x: real)
    requires x >= 0.0 && v1 <= v2
    ensures Rank(UpperLimitVerdict(v1, x)) <= Rank(UpperLimitVerdict(v2, x))
  {
  }

  /** `>X` with X >= 0: critical under 0.7·X, warning in [0.7·X, X), optimal from X on. */
  lemma LowerLimitBands(value: real, x: real)
    requires x >= 0.0
    ensures LowerLimitVerdict(value, x) == Critical <==> value < 0.7 * x
    ensures LowerLimitVerdict(value, x) == Warning <==> 0.7 * x <= value < x
    ensures LowerLimitVerdict(value, x) == Optimal <==> value >= x
  {
  }

  /** `>X` with X >= 0: a smaller value never gets a better status. */
  lemma LowerLimitAntitone(v1: real, v2: real, x: real)
    requires x >= 0.0 && v1 <= v2
    ensures Rank(LowerLimitVerdict(v2, x)) <= Rank(LowerLimitVerdict(v1, x))
  {
  }

  /** `X-Y` with 0 <= X <= Y: optimal exactly inside [X, Y], critical exactly beyond 20% outside it. */
  lemma IntervalBands(value: real, lo: real, hi: real)
    requires 0.0 <= lo <= hi
    ensures IntervalVerdict(value, lo, hi) == Optimal <==> lo <= value <= hi
    ensures IntervalVerdict(value, lo, hi) == Critical <==> value < 0.8 * lo || value > 1.2 * hi
  {
  }

  /**
   * With a negative limit or a reversed interval the percentage bands turn
   * over: a value within `<-2` or `>-2` is critical, and 55 inside the
   * reversed `60-45` is a warning.
   */
  lemma InvertedLimitsExample()
    ensures UpperLimitVerdict(-2.5, -2.0) == Critical && -2.5 <= -2.0
    ensures LowerLimitVerdict(-1.5, -2.0) == Critical && -1.5 >= -2.0
    ensures IntervalVerdict(55.0, 60.0, 45.0) == Warning
  {
  }

  /** A range `<X` is judged by the upper-limit rule on X, whatever the flag. */
  lemma UpperLimitRange(value: real, t: string, x: real, flag: Flag)
    requires '<' !in t && ParseDecimal(t) == Some(x)
    ensures DetermineStatus(value, "<" + t, flag) == Some(UpperLimitVerdict(value, x))
  {
    RemoveLeading(t, '<');
  }

  /** A range `>X` is judged by the lower-limit rule on X, whatever the flag. */
  lemma LowerLimitRange(value: real, t: string, x: real, flag: Flag)
    requires '<' !in t && '>' !in t && ParseDecimal(t) == Some(x)
    ensures DetermineStatus(value, ">" + t, flag) == Some(LowerLimitVerdict(value, x))
  {
    RemoveLeading(t, '>');
    assert '<' !in ">" + t;
  }

  /** A range `X-Y` is judged by the interval rule on X and Y, whatever the flag. */
  lemma IntervalRange(value: real, a: string, b: string, lo: real, hi: real, flag: Flag)
    requires '<' !in a && '<' !in b && '>' !in a && '>' !in b && '-' !in a && '-' !in b
    requires ParseDecimal(a) == Some(lo) && ParseDecimal(b) == Some(hi)
    ensures DetermineStatus(value, a + "-" + b, flag) == Some(IntervalVerdict(value, lo, hi))
  {
    var r := a + "-" + b;
    IntervalShape(a, b);
    assert r != [] && '-' in r && '<' !in r && '>' !in r;
    assert Split(r, '-') == [a, b];
  }

  /** The text `a-b` holds the dash, holds `<` or `>` only if a or b does, and splits into a and b. */
  lemma IntervalShape(a: string, b: string)
    requires '<' !in a && '<' !in b && '>' !in a && '>' !in b && '-' !in a && '-' !in b
    ensures var r := a + "-" + b; r[|a|] == '-' && '<' !in r && '>' !in r && Split(r, '-') == [a, b]
  {
    var r := a + "-" + b;
    assert r == a + ['-'] + b;
    assert forall i :: 0 <= i < |a| ==> r[i] == a[i];
    assert forall i :: |a| < i < |r| ==> r[i] == b[i - |a| - 1];
    SplitAtFirstSeparator(a, '-', b);
    SplitWithoutSeparator(b, '-');
  }

  /**
   * The optimal ranges whose numbers float() converts: with a `<` or `>`, the
   * text without it is a numeral; otherwise, with a dash, the text before the
   * first dash and the text between it and the next dash are numerals; any
   * other range (the empty one included) needs no conversion.
   */
  predicate RangeConverts(r: string) {
    if '<' in r then IsNumeral(RemoveChar(r, '<'))
    else if '>' in r then IsNumeral(RemoveChar(r, '>'))
    else if '-' in r then
      var d := SeparatorIndex(r, '-');
      var rest := r[d + 1..];
      IsNumeral(r[..d]) && IsNumeral(rest[..SeparatorIndex(rest, '-')])
    else true
  }

  /** str.split('-') puts the text before the first dash first and the text up to the next dash second. */
  lemma DashParts(r: string)
    ensures '-' in r ==>
      var d := SeparatorIndex(r, '-');
      var rest := r[d + 1..];
      |Split(r, '-')| >= 2 && Split(r, '-')[0] == r[..d] && Split(r, '-')[1] == rest[..SeparatorIndex(rest, '-')]
  {
    if '-' !in r {
      return;
    }
    var d := SeparatorIndex(r, '-');
    var rest := r[d + 1..];
    var e := SeparatorIndex(rest, '-');
    assert Split(r, '-') == [r[..d]] + Split(rest, '-');
    assert Split(rest, '-')[0] == rest[..e] by {
      if e == |rest| {
        assert rest[..e] == rest;
      }
    }
  }

  /** An interval missing its upper bound, `45-`, drops the line. */
  lemma OpenIntervalFails(value: real, flag: Flag)
    ensures DetermineStatus(value, "45-", flag) == None
  {
    SplitAtFirstSeparator("45", '-', "");
    SplitWithoutSeparator("", '-');
    assert "45-" == "45" + ['-'] + "";
    assert '<' !in "45-" && '>' !in "45-" && '-' in "45-";
    assert Split("45-", '-')[1] == "";
    assert ParseDecimal("") == None;
  }

  /** An upper limit whose number does not convert, `<8-9`, drops the line. */
  lemma MalformedUpperLimitFails(value: real, flag: Flag)
    ensures DetermineStatus(value, "<8-9", flag) == None
  {
    RemoveLeading("8-9", '<');
    assert "<8-9" == ['<'] + "8-9";
    DashedIsNotNumeral();
    assert "<8-9"[0] == '<';
  }

  lemma DashedIsNotNumeral()
    ensures ParseDecimal("8-9") == None
  {
    assert SeparatorIndex("8-9", '.') == 3;
    assert !IsDigit("8-9"[1]);
  }

  /** The examples of determine_status the test suite checks: 18.0 against `<8.0` is critical. */
  lemma StatusExampleCritical()
    ensures DetermineStatus(18.0, "<8.0", Plus) == Some(Critical)
  {
    ParseNumeral8();
    UpperLimitRange(18.0, "8.0", 8.0, Plus);
  }

  /** 39.7 against `45-60` is a warning, 55.0 is optimal. */
  lemma StatusExamplesInterval()
    ensures DetermineStatus(39.7, "45-60", Minus) == Some(Warning)
    ensures DetermineStatus(55.0, "45-60", NoFlag) == Some(Optimal)
  {
    ParseNumerals4560();
    assert "45-60" == "45" + "-" + "60";
    IntervalRange(39.7, "45", "60", 45.0, 60.0, Minus);
    IntervalRange(55.0, "45", "60", 45.0, 60.0, NoFlag);
  }

  lemma ParseNumeral8()
    ensures ParseDecimal("8.0") == Some(8.0)
  {
    assert SeparatorIndex("8.0", '.') == 1;
    assert "8.0"[..1] == "8" && "8.0"[2..] == "0";
  }

  lemma ParseNumerals4560()
    ensures ParseDecimal("45") == Some(45.0) && ParseDecimal("60") == Some(60.0)
  {
    assert NatText(45) == "45" && NatText(60) == "60";
    ParseNatText(45);
    ParseNatText(60);
  }

  // ---------------------------------------------------------------------------
  // Properties of _parse_line and parse
  // ---------------------------------------------------------------------------

  /** A line of fewer than three tokens yields no record. */
  lemma ShortLineYieldsNothing(line: string)
    requires |Tokens(line)| < 3
    ensures ParseLineSpec(line) == None
  {
  }

  /**
   * A flag after the first token splits the line: the name is the tokens before
   * it joined by single spaces, the value is the token right after it, and a
   * flag in last position (no value token) yields no record.
   */
  lemma FlaggedLine(line: string, parts: seq<string>, f: nat)
    requires parts == Tokens(line) && |parts| >= 3
    requires f == FirstIndex(parts, IsFlagToken) && 0 < f < |parts|
    ensures f + 1 == |parts| ==> ParseLineSpec(line) == None
    ensures f + 1 < |parts| && !IsNumeral(parts[f + 1]) ==> ParseLineSpec(line) == None
    ensures ParseLineSpec(line).Some? ==>
      var b := ParseLineSpec(line).value;
      b.name == Join(parts[..f], " ") && f + 1 < |parts| &&
      ParseDecimal(parts[f + 1]) == Some(b.value) && b.flag == FlagOf(parts[f]) && b.flag != NoFlag
  {
    var name := Join(parts[..f], " ");
    assert NameOf(parts) == name && ValueIndex(parts) == f + 1 && FlagOfParts(parts) == FlagOf(parts[f]);
    assert ParseLineSpec(line) == BuildRecord(line, parts, FlagOf(parts[f]), name, f + 1);
    StripJoinedWords(parts[..f]);
  }

  /**
   * Without a flag after the first token, the name is the tokens before the first
   * numeral and that numeral is the value; the flag, if it is the first token,
   * is still recorded. A line with no numeral yields no record.
   */
  lemma UnflaggedLine(line: string, parts: seq<string>, n: nat)
    requires parts == Tokens(line) && |parts| >= 3
    requires FirstIndex(parts, IsFlagToken) == 0 || FirstIndex(parts, IsFlagToken) == |parts|
    requires n == FirstIndex(parts, IsNumeral)
    ensures n == |parts| ==> ParseLineSpec(line) == None
    ensures ParseLineSpec(line).Some? ==>
      var b := ParseLineSpec(line).value;
      b.name == Join(parts[..n], " ") && n < |parts| && ParseDecimal(parts[n]) == Some(b.value) &&
      (b.flag != NoFlag <==> IsFlagToken(parts[0]))
  {
    StripJoinedWords(parts[..n]);
    if n == |parts| {
      SignIsNotNumeral();
      assert !IsNumeral(parts[0]);
    }
  }

  /**
   * Every record a line yields is consistent: its status is what determine_status
   * gives for its value, optimal range and flag; its ranges and unit are the ones
   * the patterns extract from the line; its flag is the first flag token; its
   * name is stripped.
   */
  lemma RecordFields(line: string)
    requires ParseLineSpec(line).Some?
    ensures var b := ParseLineSpec(line).value;
      DetermineStatus(b.value, b.optimalRange, b.flag) == Some(b.status) &&
      b.optimalRange == OptimalRange(line) && b.normalRange == NormalRange(line) && b.unit == Unit(line) &&
      b.flag == FlagOfParts(Tokens(line)) && Strip(b.name) == b.name
  {
    var parts := Tokens(line);
    StripIdempotent(NameOf(parts));
  }

  /** The value token is missing or not a number exactly in the two token cases of ParseLineSpec's contract. */
  lemma ValueTokenMissing(parts: seq<string>)
    ensures var f := FirstIndex(parts, IsFlagToken);
      var n := FirstIndex(parts, IsNumeral);
      var v := ValueIndex(parts);
      (v >= |parts| || !IsNumeral(parts[v])) <==>
        (0 < f < |parts| && (f + 1 == |parts| || !IsNumeral(parts[f + 1]))) ||
        (!(0 < f < |parts|) && n == |parts|)
  {
    var f := FirstIndex(parts, IsFlagToken);
    if !(0 < f < |parts|) && FirstIndex(parts, IsNumeral) == |parts| && |parts| > 0 {
      assert !IsNumeral(parts[0]);
    }
  }

  /** Header lines and blank lines contribute nothing. */
  lemma SkippedLinesYieldNothing(line: string)
    requires Strip(line) == [] || StartsWith(line, "Naam")
    ensures LineRecords(line) == []
  {
  }

  /** Line by line: the records of a concatenation are the records of the parts, in order. */
  lemma ParseLinesAppend(a: seq<string>, b: seq<string>)
    ensures ParseLines(a + b) == ParseLines(a) + ParseLines(b)
  {
    FlatMapAppend(a, b, LineRecords);
  }

  /** One line contributes exactly the record _parse_line gives it, unless it is skipped. */
  lemma ParseOneLine(line: string)
    ensures ParseLines([line]) == if IsSkippedLine(line) || ParseLineSpec(line).None? then [] else [ParseLineSpec(line).value]
  {
    assert [line][..0] == [];
    assert FlatMap([line], LineRecords) == FlatMap([], LineRecords) + LineRecords(line);
  }

  // ---------------------------------------------------------------------------
  // The example line of the test suite
  // ---------------------------------------------------------------------------

  /** The homocysteine line of the test suite: flagged `+`, value 18.0, optimal below 8.0, reference 3.7-13.9 µmol/L. */
  const ExampleLine: string := "HomocysteÏne + 18.0 " + "Opt:<8.0 V.N 3.7-13.9 µmol/L"

  /** The seven whitespace-separated tokens of the example line. */
  const ExampleTokens: seq<string> := ["HomocysteÏne", "+", "18.0", "Opt:<8.0", "V.N", "3.7-13.9", "µmol/L"]

  /** The example line is its tokens joined by single spaces. */
  lemma ExampleLineJoined()
    ensures Join(ExampleTokens, " ") == ExampleLine
  {
    var sp := " ";
    JoinSeven("HomocysteÏne", "+", "18.0", "Opt:<8.0", "V.N", "3.7-13.9", "µmol/L", sp);
    ExampleLineGlued();
  }

  lemma ExampleLineGlued()
    ensures "HomocysteÏne" + " " + "+" + " " + "18.0" + " " + "Opt:<8.0" + " " + "V.N" + " " + "3.7-13.9" + " " + "µmol/L" == ExampleLine
  {
    ExampleHeadGlued();
    ExampleRangesGlued();
    ExampleHalvesGlued();
  }

  lemma ExampleHeadGlued()
    ensures "HomocysteÏne" + " " + "+" + " " + "18.0" + " " == "HomocysteÏne + 18.0 "
  {
  }

  lemma ExampleRangesGlued()
    ensures "Opt:<8.0" + " " + "V.N" + " " + "3.7-13.9" + " " + "µmol/L" == "Opt:<8.0 V.N 3.7-13.9 µmol/L"
  {
  }

  lemma ExampleHalvesGlued()
    ensures "HomocysteÏne + 18.0 " + "Opt:<8.0 V.N 3.7-13.9 µmol/L" == ExampleLine
  {
  }

  lemma JoinSeven(a: string, b: string, c: string, d: string, e: string, f: string, g: string, sep: string)
    ensures Join([a, b, c, d, e, f, g], sep) == a + sep + b + sep + c + sep + d + sep + e + sep + f + sep + g
  {
    JoinCons(a, [b, c, d, e, f, g], sep);
    JoinCons(b, [c, d, e, f, g], sep);
    JoinCons(c, [d, e, f, g], sep);
    JoinFour(d, e, f, g, sep);
  }

  lemma JoinFour(d: string, e: string, f: string, g: string, sep: string)
    ensures Join([d, e, f, g], sep) == d + sep + e + sep + f + sep + g
  {
    JoinCons(d, [e, f, g], sep);
    JoinCons(e, [f, g], sep);
    JoinCons(f, [g], sep);
  }

  lemma ExampleLineTokens()
    ensures Tokens(ExampleLine) == ExampleTokens
  {
    ExampleLineJoined();
    ExampleTokensAreWords();
    TokensOfJoin(ExampleTokens);
  }

  lemma ExampleTokensAreWords()
    ensures forall k :: 0 <= k < |ExampleTokens| ==> IsWord(ExampleTokens[k])
  {
    assert IsWord("HomocysteÏne") && IsWord("+") && IsWord("18.0");
    assert IsWord("Opt:<8.0") && IsWord("V.N");
    assert IsWord("3.7-13.9") && IsWord("µmol/L");
  }

  /** The first 29 characters of the example line, up to its `V.N`. */
  lemma ExampleLineHead()
    ensures |ExampleLine| == 48 && ExampleLine[0] == 'H'
    ensures forall q :: 0 <= q < 20 ==> ExampleLine[q] != 'O'
    ensures forall q :: 0 <= q < 29 ==> ExampleLine[q] != 'V' && ExampleLine[q] != '\n'
  {
    assert forall q :: 0 <= q < 29 ==> ExampleLine[q] == "HomocysteÏne + 18.0 Opt:<8.0 "[q];
  }

  /** The characters of the example line that the patterns look at. */
  lemma ExampleLineChars()
    ensures |ExampleLine| == 48
    ensures forall q :: 0 <= q < 20 ==> ExampleLine[q] != 'O'
    ensures forall q :: 0 <= q < 29 ==> ExampleLine[q] != 'V'
    ensures ExampleLine[20] == 'O' && ExampleLine[21] == 'p' && ExampleLine[22] == 't' && ExampleLine[23] == ':'
    ensures ExampleLine[24] == '<' && ExampleLine[25] == '8' && ExampleLine[26] == '.' && ExampleLine[27] == '0' && ExampleLine[28] == ' '
    ensures ExampleLine[29] == 'V' && ExampleLine[30] == '.' && ExampleLine[31] == 'N' && ExampleLine[32] == ' '
    ensures ExampleLine[33] == '3' && ExampleLine[34] == '.' && ExampleLine[35] == '7' && ExampleLine[36] == '-'
    ensures ExampleLine[37] == '1' && ExampleLine[38] == '3' && ExampleLine[39] == '.' && ExampleLine[40] == '9' && ExampleLine[41] == ' '
    ensures ExampleLine[42] == 'µ' && ExampleLine[43] == 'm' && ExampleLine[44] == 'o' && ExampleLine[45] == 'l' && ExampleLine[46] == '/' && ExampleLine[47] == 'L'
  {
    ExampleLineHead();
    ExampleLineRanges();
    ExampleLineUnit();
  }

  lemma ExampleLineRanges()
    ensures ExampleLine[20] == 'O' && ExampleLine[21] == 'p' && ExampleLine[22] == 't' && ExampleLine[23] == ':'
    ensures ExampleLine[24] == '<' && ExampleLine[25] == '8' && ExampleLine[26] == '.' && ExampleLine[27] == '0' && ExampleLine[28] == ' '
    ensures ExampleLine[29] == 'V' && ExampleLine[30] == '.' && ExampleLine[31] == 'N' && ExampleLine[32] == ' '
  {
    var h, r := "HomocysteÏne + 18.0 ", "Opt:<8.0 V.N 3.7-13.9 µmol/L";
    assert |h| == 20 && ExampleLine == h + r;
  }

  lemma ExampleLineUnit()
    ensures ExampleLine[33] == '3' && ExampleLine[34] == '.' && ExampleLine[35] == '7' && ExampleLine[36] == '-'
    ensures ExampleLine[37] == '1' && ExampleLine[38] == '3' && ExampleLine[39] == '.' && ExampleLine[40] == '9' && ExampleLine[41] == ' '
    ensures ExampleLine[42] == 'µ' && ExampleLine[43] == 'm' && ExampleLine[44] == 'o' && ExampleLine[45] == 'l' && ExampleLine[46] == '/' && ExampleLine[47] == 'L'
  {
    var h, r := "HomocysteÏne + 18.0 ", "Opt:<8.0 V.N 3.7-13.9 µmol/L";
    assert |h| == 20 && ExampleLine == h + r;
  }

  /** `Opt:<8.0` matches at position 20 and captures `<8.0`. */
  lemma ExampleOptMatch()
    ensures OptPrefixPattern(ExampleLine, 20) == Some("<8.0")
  {
    var s := ExampleLine;
    ExampleLineChars();
    assert s[20..24] == "Opt:";
    RunEndIs(s, 25, IsRangeChar, 28);
    assert s[24..28] == "<8.0";
  }

  lemma ExampleOptimalRange()
    ensures OptimalRange(ExampleLine) == "<8.0"
  {
    var s := ExampleLine;
    ExampleLineChars();
    ExampleOptMatch();
    forall q | 0 <= q < 20
      ensures !LiteralAt(s, q, "Opt:")
    {
      LiteralAtHead(s, q, "Opt:");
    }
    assert LeftmostMatch(s, OptPrefixPattern, 20, "<8.0");
    CaptureOfLeftmost(s, OptPrefixPattern, OptSuffixPattern, 20, "<8.0");
  }

  /** `V.N 3.7-13.9` matches at position 29 and captures `3.7-13.9`. */
  lemma ExampleNormalMatch(s: string)
    requires |s| == 48 && s[29] == 'V' && s[30] == '.' && s[31] == 'N' && s[32] == ' '
    requires s[33] == '3' && s[34] == '.' && s[35] == '7' && s[36] == '-'
    requires s[37] == '1' && s[38] == '3' && s[39] == '.' && s[40] == '9' && s[41] == ' '
    ensures NormalPrefixPattern(s, 29) == Some("3.7-13.9")
  {
    RunEndIs(s, 32, IsSpace, 33);
    RunEndIs(s, 33, IsRangeChar, 41);
    assert s[33..41] == "3.7-13.9";
  }

  lemma ExampleNormalRange()
    ensures NormalRange(ExampleLine) == "3.7-13.9"
  {
    var s := ExampleLine;
    ExampleLineChars();
    ExampleNormalMatch(s);
    assert LeftmostMatch(s, NormalPrefixPattern, 29, "3.7-13.9");
    CaptureOfLeftmost(s, NormalPrefixPattern, NormalSuffixPattern, 29, "3.7-13.9");
  }

  lemma ExampleUnitChars()
    ensures !IsUnitChar(ExampleLine[41]) && forall k :: 42 <= k < 48 ==> IsUnitChar(ExampleLine[k])
    ensures ExampleLine[42..] == "µmol/L"
  {
    ExampleLineChars();
  }

  lemma ExampleUnit()
    ensures Unit(ExampleLine) == "µmol/L"
  {
    ExampleLineChars();
    ExampleUnitChars();
    var u := Unit(ExampleLine);
    assert |u| == 6;
  }


  lemma ExampleValue()
    ensures ParseDecimal("18.0") == Some(18.0)
  {
    assert SeparatorIndex("18.0", '.') == 2;
    assert "18.0"[..2] == "18" && "18.0"[3..] == "0";
    assert NatText(18) == "18";
    DigitsValueOfNatText(18);
  }

  /** The record the test suite expects from its example line. */
  const ExampleRecord: Biomarker := Biomarker("HomocysteÏne", 18.0, "µmol/L", "<8.0", "3.7-13.9", Critical, Plus)

  /**
   * `HomocysteÏne + 18.0 Opt:<8.0 V.N 3.7-13.9 µmol/L` reads as HomocysteÏne,
   * 18.0 µmol/L, optimal range `<8.0`, normal range `3.7-13.9`, critical, flag `+`.
   */
  lemma ExampleLineRecord()
    ensures ParseLineSpec(ExampleLine) == Some(ExampleRecord)
  {
    ExampleLineTokens();
    ExampleClassify();
    ExampleOptimalRange();
    ExampleNormalRange();
    ExampleUnit();
    ExampleBuild(ExampleLine, ExampleTokens);
  }

  lemma ExampleBuild(line: string, parts: seq<string>)
    requires |parts| > 2 && ParseDecimal(parts[2]) == Some(18.0)
    requires OptimalRange(line) == "<8.0" && NormalRange(line) == "3.7-13.9" && Unit(line) == "µmol/L"
    ensures BuildRecord(line, parts, Plus, "HomocysteÏne", 2) == Some(ExampleRecord)
  {
    StripTrimmed("HomocysteÏne");
    StatusExampleCritical();
  }

  /** The flag is the second token, so the name is the first token and the value the third. */
  lemma ExampleClassify()
    ensures FlagOfParts(ExampleTokens) == Plus
    ensures NameOf(ExampleTokens) == "HomocysteÏne"
    ensures ValueIndex(ExampleTokens) == 2 && ParseDecimal(ExampleTokens[2]) == Some(18.0)
  {
    ExampleValue();
    var parts := ExampleTokens;
    assert !IsFlagToken(parts[0]) && IsFlagToken(parts[1]);
    assert FirstIndex(parts, IsFlagToken) == 1;
    assert parts[..1] == ["HomocysteÏne"];
  }

  lemma ExampleLineText()
    ensures Strip(ExampleLine) == ExampleLine && '\n' !in ExampleLine && !IsSkippedLine(ExampleLine)
  {
    ExampleLineHead();
    ExampleLineChars();
    assert forall q :: 29 <= q < 48 ==> ExampleLine[q] != '\n';
    StripTrimmed(ExampleLine);
    assert ExampleLine[..4][0] == 'H';
  }

  /** A report holding only the example line parses to exactly the expected record. */
  lemma ExampleReport()
    ensures ParseSpec(ExampleLine) == [ExampleRecord]
  {
    ExampleLineText();
    SplitWithoutSeparator(ExampleLine, '\n');
    ParseOneLine(ExampleLine);
    ExampleLineRecord();
  }

  /** A first line that yields nothing leaves the example line's record alone. */
  lemma ExampleAfter(first: string)
    requires first != [] && !IsSpace(first[0]) && '\n' !in first && LineRecords(first) == []
    ensures ParseSpec(first + "\n" + ExampleLine) == [ExampleRecord]
  {
    var text := first + "\n" + ExampleLine;
    ExampleLineText();
    ExampleLineHead();
    assert text == first + ['\n'] + ExampleLine;
    assert text[0] == first[0] && text[|text| - 1] == ExampleLine[47] == 'L';
    StripTrimmed(text);
    SplitAtFirstSeparator(first, '\n', ExampleLine);
    SplitWithoutSeparator(ExampleLine, '\n');
    assert Split(text, '\n') == [first] + [ExampleLine];
    ParseLinesAppend([first], [ExampleLine]);
    ParseOneLine(first);
    ParseOneLine(ExampleLine);
    ExampleLineRecord();
  }

  /** A header line starting with `Naam` is skipped. */
  lemma ExampleWithHeader()
    ensures ParseSpec("Naam Waarde Range" + "\n" + ExampleLine) == [ExampleRecord]
  {
    HeaderLine();
    ExampleAfter("Naam Waarde Range");
  }

  lemma HeaderLine()
    ensures var h := "Naam Waarde Range"; h[0] == 'N' && '\n' !in h && LineRecords(h) == []
  {
    var h := "Naam Waarde Range";
    assert StartsWith(h, "Naam") by { assert h[..4] == "Naam"; }
  }

  lemma InvalidLineYieldsNothing()
    ensures LineRecords("Invalid line") == []
  {
    assert Join(["Invalid", "line"], " ") == "Invalid line";
    assert IsWord("Invalid") && IsWord("line");
    TokensOfJoin(["Invalid", "line"]);
  }

  /** A line of two tokens is skipped as malformed. */
  lemma ExampleWithMalformedLine()
    ensures ParseSpec("Invalid line" + "\n" + ExampleLine) == [ExampleRecord]
  {
    var h := "Invalid line";
    InvalidLineYieldsNothing();
    assert '\n' !in h;
    ExampleAfter(h);
  }
}

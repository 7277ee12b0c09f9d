/**
 * The DNA methylation panel parser: one variant per line, e.g.
 *   MTHFR rs1801133 AG [C677T] Up to 40% reduction in gene function
 * with a severity judged first from the gene and genotype, then from the
 * wording of the impact text.
 */
module DnaParser {
  import opened Wrappers
  import opened Text

  datatype Severity = Critical | Warning | Info

  datatype Variant = Variant(
    gene: string,
    rsNumber: string,
    genotype: string,
    variantName: string,
    impact: string,
    severity: Severity)

  // ---------------------------------------------------------------------------
  // determine_severity
  // ---------------------------------------------------------------------------

  /** The markers of a strongly increased activity, looked for in the lower-cased impact. */
  predicate HasCriticalMarker(text: string) {
    Contains(text, "10x") || Contains(text, "ten times")
  }

  /** The words that describe an impaired function. */
  const ImpairmentWords: seq<string> := ["reduction", "decreased", "reduced", "impaired", "deficiency", "impairment", "compromise"]

  predicate HasImpairmentWord(text: string) {
    exists k :: 0 <= k < |ImpairmentWords| && Contains(text, ImpairmentWords[k])
  }

  /** The gene rules, in the order they are tried; None when none of them applies. */
  function GeneRule(gene: string, rsNumber: string, genotype: string): (r: Option<Severity>)
    ensures r != Some(Info)
  {
    if gene == "CBS" && rsNumber == "rs234706" && genotype == "AA" then Some(Critical)
    else if gene == "PEMT" && genotype == "TT" then Some(Warning)
    else if gene == "MTHFR" && (genotype == "AG" || genotype == "GT" || genotype == "CT") then Some(Warning)
    else if gene == "BHMT" && (genotype == "TT" || genotype == "CC") then Some(Warning)
    else None
  }

  /** The verdict of the impact text alone. */
  function ImpactSeverity(impact: string): Severity {
    var lower := Lower(impact);
    if HasCriticalMarker(lower) then Critical
    else if HasImpairmentWord(lower) then Warning
    else Info
  }

  /**
   * determine_severity: the first gene rule that applies, else the verdict of
   * the impact text. Its three outcomes, each as an if and only if: the gene
   * rules come first, then the critical markers of the lower-cased impact,
   * then its impairment words.
   */
  function DetermineSeverity(gene: string, rsNumber: string, genotype: string, impact: string): (s: Severity)
    ensures var lower := Lower(impact);
      && (s == Critical <==> CbsUpregulation(gene, rsNumber, genotype)
                             || (!WarningGenotype(gene, genotype) && HasCriticalMarker(lower)))
      && (s == Warning <==> WarningGenotype(gene, genotype)
                            || (!CbsUpregulation(gene, rsNumber, genotype) && !HasCriticalMarker(lower) && HasImpairmentWord(lower)))
      && (s == Info <==> !CbsUpregulation(gene, rsNumber, genotype) && !WarningGenotype(gene, genotype)
                         && !HasCriticalMarker(lower) && !HasImpairmentWord(lower))
  {
    assert GeneRule(gene, rsNumber, genotype) == Some(Critical) <==> CbsUpregulation(gene, rsNumber, genotype);
    assert GeneRule(gene, rsNumber, genotype) == Some(Warning) <==> WarningGenotype(gene, genotype);
    match GeneRule(gene, rsNumber, genotype)
    case Some(s) => s
    case None => ImpactSeverity(impact)
  }

  // ---------------------------------------------------------------------------
  // The patterns of _parse_line
  // ---------------------------------------------------------------------------

  predicate IsBase(c: char) { c == 'A' || c == 'G' || c == 'T' || c == 'C' }

  /** Two letters from {A, G, T, C}. */
  predicate IsGenotype(g: string) { |g| == 2 && IsBase(g[0]) && IsBase(g[1]) }

  /** `rs` followed by one or more digits. */
  predicate IsRsNumber(r: string) {
    |r| >= 3 && r[0] == 'r' && r[1] == 's' && forall i :: 2 <= i < |r| ==> IsDigit(r[i])
  }

  /** A letter, one or more digits and a letter, as in C677T. */
  predicate IsVariantName(v: string) {
    |v| >= 3 && IsUpper(v[0]) && IsUpper(v[|v| - 1]) && forall i :: 1 <= i < |v| - 1 ==> IsDigit(v[i])
  }

  /** The end of the digits of an `rs` number that starts at p, when one does. */
  function RsEnd(s: string, p: nat): (e: Option<nat>)
    ensures e.Some? ==> p + 3 <= e.value <= |s| && LiteralAt(s, p, "rs")
    ensures e.Some? ==> (forall k :: p + 2 <= k < e.value ==> IsDigit(s[k])) && (e.value < |s| ==> !IsDigit(s[e.value]))
  {
    if LiteralAt(s, p, "rs") && p + 2 < |s| && IsDigit(s[p + 2]) then Some(RunEnd(s, p + 2, IsDigit)) else None
  }

  /** `(rs\d+)` tried at position p: the greedy digit run is captured whole. */
  function RsPattern(s: string, p: nat): (r: Option<string>)
    ensures r.Some? ==> IsRsNumber(r.value) && LiteralAt(s, p, r.value)
  {
    match RsEnd(s, p)
    case None => None
    case Some(e) =>
      assert s[p..e][..2] == s[p..p + 2];
      Some(s[p..e])
  }

  /**
   * `rs\d+\s+([AGTC]{2})` tried at position p. No backtracking can help: the
   * character after the digits must be whitespace, and the one after the
   * whitespace a base.
   */
  function GenotypePattern(s: string, p: nat): (r: Option<string>)
    ensures r.Some? ==> IsGenotype(r.value)
    ensures r.Some? ==> RsEnd(s, p).Some? && RsEnd(s, p).value < |s| && IsSpace(s[RsEnd(s, p).value])
    ensures r.Some? ==> var w := RunEnd(s, RsEnd(s, p).value, IsSpace); w + 2 <= |s| && r.value == s[w..w + 2]
  {
    match RsEnd(s, p)
    case None => None
    case Some(d) =>
      if !(d < |s| && IsSpace(s[d])) then None
      else
        var w := RunEnd(s, d, IsSpace);
        if w + 2 <= |s| && IsBase(s[w]) && IsBase(s[w + 1]) then
          assert LiteralAt(s, w, s[w..w + 2]);
          Some(s[w..w + 2])
        else None
  }

  /** `\[([A-Z]\d+[A-Z])\]` tried at position p. */
  function VariantPattern(s: string, p: nat): (r: Option<string>)
    ensures r.Some? ==> IsVariantName(r.value) && LiteralAt(s, p + |r.value| + 1, "]")
    ensures r.Some? ==> s[p] == '[' && r.value == s[p + 1..p + 1 + |r.value|]
  {
    if !(p + 2 < |s| && s[p] == '[' && IsUpper(s[p + 1]) && IsDigit(s[p + 2])) then None
    else
      var d := RunEnd(s, p + 2, IsDigit);
      if d + 1 < |s| && IsUpper(s[d]) && s[d + 1] == ']' then
        assert s[d + 1..d + 2] == "]";
        Some(s[p + 1..d + 1])
      else None
  }

  /** `^([A-Z]+)`: the leading run of capital letters, empty when the line does not start with one. */
  function Gene(line: string): (r: string)
    ensures |r| <= |line| && r == line[..|r|]
    ensures forall i :: 0 <= i < |r| ==> IsUpper(r[i])
    ensures |r| < |line| ==> !IsUpper(line[|r|])
  {
    line[..RunEnd(line, 0, IsUpper)]
  }

  /** The capture of the leftmost match, or empty when the pattern matches nowhere. */
  function CaptureOrEmpty(s: string, at: (string, nat) -> Option<string>): string {
    match Search(s, at, 0)
    case None => []
    case Some(m) => m.capture
  }

  /**
   * Where the impact starts: after the first `]` when there is a variant name,
   * otherwise after the first occurrence of the genotype text.
   */
  function ImpactStart(line: string, genotype: string, variantName: string): (k: nat)
    requires |genotype| == 2 && |line| >= 1
    ensures k <= |line|
  {
    if variantName != [] then Find(line, "]") + 1
    else Find(line, genotype) + |genotype|
  }

  /**
   * What _parse_line returns for one line; None when it returns None. That
   * happens exactly when the line does not start with a capital letter, or no
   * rs number in it is followed by whitespace and a genotype; a line without
   * any rs number is a special case of the latter.
   */
  function ParseLineSpec(line: string): (r: Option<Variant>)
    ensures r.None? <==> line == [] || !IsUpper(line[0]) || MatchesNowhere(line, GenotypePattern)
    ensures MatchesNowhere(line, RsPattern) ==> r.None?
  {
    GenotypeMatchHasRs(line);
    var gene := Gene(line);
    if gene == [] then None
    else
      match Search(line, RsPattern, 0)
      case None => None
      case Some(rs) =>
        match Search(line, GenotypePattern, 0)
        case None => None
        case Some(g) =>
          var genotype := g.capture;
          var variantName := CaptureOrEmpty(line, VariantPattern);
          var impact := Strip(line[ImpactStart(line, genotype, variantName)..]);
          Some(Variant(gene, rs.capture, genotype, variantName, impact,
                       DetermineSeverity(gene, rs.capture, genotype, impact)))
  }

  // ---------------------------------------------------------------------------
  // parse
  // ---------------------------------------------------------------------------

  /** The records one line contributes: none for a blank line, else what _parse_line gives. */
  function LineRecords(line: string): (r: seq<Variant>)
    ensures |r| <= 1
  {
    if Strip(line) == [] then []
    else
      match ParseLineSpec(line)
      case None => []
      case Some(v) => [v]
  }

  /** The records of the lines, in line order. */
  function ParseLines(lines: seq<string>): (r: seq<Variant>)
    ensures |r| <= |lines|
  {
    FlatMapAtMostOne(lines, LineRecords);
    FlatMap(lines, LineRecords)
  }

  lemma ParseLinesNext(lines: seq<string>, i: nat)
    requires i < |lines|
    ensures ParseLines(lines[..i + 1]) == ParseLines(lines[..i]) + LineRecords(lines[i])
  {
    FlatMapStep(lines, LineRecords, i);
  }

  /** What parse returns for a whole report: empty for blank text, else at most one record per line. */
  function ParseSpec(text: string): (r: seq<Variant>)
    ensures IsBlank(text) ==> r == []
    ensures |r| <= |Split(Strip(text), '\n')|
  {
    var body := Strip(text);
    if body == [] then [] else ParseLines(Split(body, '\n'))
  }

  /** parse: strip the text, split it into lines and keep the record of every non-blank line that yields one. */
  method Parse(text: string) returns (variants: seq<Variant>)
    ensures variants == ParseSpec(text)
  {
    var body := Strip(text);
    if body == [] {
      return [];
    }
    var lines := Split(body, '\n');
    variants := [];
    for i := 0 to |lines|
      invariant variants == ParseLines(lines[..i])
    {
      var line := lines[i];
      ParseLinesNext(lines, i);
      if Strip(line) == [] {
        assert LineRecords(line) == [];
        assert ParseLines(lines[..i + 1]) == variants + [] == variants;
        continue;
      }
      var variant := ParseLineSpec(line);
      if variant.Some? {
        variants := variants + [variant.value];
      } else {
        assert ParseLines(lines[..i + 1]) == variants + [] == variants;
      }
    }
    assert lines[..|lines|] == lines;
  }

  // ---------------------------------------------------------------------------
  // Properties of _parse_line
  // ---------------------------------------------------------------------------

  /** Wherever the genotype pattern matches, an rs number starts at the same place. */
  lemma GenotypeNeedsRs(s: string, p: nat)
    requires GenotypePattern(s, p).Some?
    ensures RsPattern(s, p).Some?
  {
  }

  /** A line where the genotype pattern matches has an rs number too. */
  lemma GenotypeMatchHasRs(line: string)
    ensures !MatchesNowhere(line, GenotypePattern) ==> !MatchesNowhere(line, RsPattern)
  {
    var g := Search(line, GenotypePattern, 0);
    if g.Some? {
      GenotypeNeedsRs(line, g.value.pos);
    }
  }

  /** The gene of a record is the leading run of capital letters of its line, and is not empty. */
  lemma GeneField(line: string)
    requires ParseLineSpec(line).Some?
    ensures var gene := ParseLineSpec(line).value.gene;
      && gene != [] && line[..|gene|] == gene
      && (forall i :: 0 <= i < |gene| ==> IsUpper(gene[i]))
      && (|gene| < |line| ==> !IsUpper(line[|gene|]))
  {
  }

  /**
   * The rs number of a record is the leftmost `rs` + digits of its line, and
   * its genotype the leftmost pair of bases after an rs number and whitespace.
   */
  lemma MatchFields(line: string)
    requires ParseLineSpec(line).Some?
    ensures var v := ParseLineSpec(line).value;
      && IsRsNumber(v.rsNumber) && (exists p: nat :: LeftmostMatch(line, RsPattern, p, v.rsNumber))
      && IsGenotype(v.genotype) && (exists p: nat :: LeftmostMatch(line, GenotypePattern, p, v.genotype))
  {
    var v := ParseLineSpec(line).value;
    var rs := Search(line, RsPattern, 0).value;
    assert LeftmostMatch(line, RsPattern, rs.pos, v.rsNumber);
    var g := Search(line, GenotypePattern, 0).value;
    assert LeftmostMatch(line, GenotypePattern, g.pos, v.genotype);
  }

  /** The variant name of a record is its leftmost bracketed variant, or empty when there is none. */
  lemma VariantNameField(line: string)
    requires ParseLineSpec(line).Some?
    ensures var name := ParseLineSpec(line).value.variantName;
      && (name == [] <==> MatchesNowhere(line, VariantPattern))
      && (name != [] ==> IsVariantName(name) && exists p: nat :: LeftmostMatch(line, VariantPattern, p, name))
  {
    var m := Search(line, VariantPattern, 0);
    if m.Some? {
      assert LeftmostMatch(line, VariantPattern, m.value.pos, m.value.capture);
    }
  }

  /** The impact of a record is trimmed, and its severity is judged from the record's own fields. */
  lemma ImpactAndSeverityFields(line: string)
    requires ParseLineSpec(line).Some?
    ensures var v := ParseLineSpec(line).value;
      Strip(v.impact) == v.impact && v.severity == DetermineSeverity(v.gene, v.rsNumber, v.genotype, v.impact)
  {
    var v := ParseLineSpec(line).value;
    ImpactOf(line);
    StripIdempotent(line[ImpactStart(line, v.genotype, v.variantName)..]);
  }


  /** The rs number reported never lies after the rs number the genotype follows. */
  lemma RsNotAfterGenotype(line: string, p: nat, rs: string, q: nat, g: string)
    requires LeftmostMatch(line, RsPattern, p, rs) && LeftmostMatch(line, GenotypePattern, q, g)
    ensures p <= q
  {
    GenotypeNeedsRs(line, q);
  }

  /** The impact of a record is the trimmed line from ImpactStart on. */
  lemma ImpactOf(line: string)
    requires ParseLineSpec(line).Some?
    ensures var v := ParseLineSpec(line).value;
      |line| >= 1 && |v.genotype| == 2
      && v.impact == Strip(line[ImpactStart(line, v.genotype, v.variantName)..])
  {
  }

  /** Where a text occurs at all, Find reports its first occurrence. */
  lemma FindFirst(line: string, sub: string, j: nat)
    requires LiteralAt(line, j, sub)
    ensures Find(line, sub) >= 0
    ensures LiteralAt(line, Find(line, sub), sub) && forall q :: 0 <= q < Find(line, sub) ==> !LiteralAt(line, q, sub)
  {
  }

  /** A non-empty variant name was matched somewhere in the line. */
  lemma VariantFound(line: string)
    requires ParseLineSpec(line).Some? && ParseLineSpec(line).value.variantName != []
    ensures exists p: nat :: VariantPattern(line, p) == Some(ParseLineSpec(line).value.variantName)
  {
    var m := Search(line, VariantPattern, 0).value;
    assert VariantPattern(line, m.pos) == Some(m.capture);
  }

  /** A variant name is closed by a `]` right after it. */
  lemma VariantClosed(s: string, p: nat, name: string)
    requires VariantPattern(s, p) == Some(name)
    ensures LiteralAt(s, p + |name| + 1, "]")
    ensures Find(s, "]") >= 0
  {
    FindFirst(s, "]", p + |name| + 1);
  }

  /** Once a `]` occurs, an impact taken from ImpactStart with a variant name follows the first `]`. */
  lemma BracketImpact(line: string, genotype: string, name: string, impact: string)
    requires |genotype| == 2 && |line| >= 1 && name != [] && Find(line, "]") >= 0
    requires impact == Strip(line[ImpactStart(line, genotype, name)..])
    ensures exists k: nat :: LiteralAt(line, k, "]") && (forall q :: 0 <= q < k ==> !LiteralAt(line, q, "]"))
                             && impact == Strip(line[k + 1..])
  {
    var k: nat := Find(line, "]");
    assert ImpactStart(line, genotype, name) == k + 1;
    assert impact == Strip(line[k + 1..]);
  }

  /** Once the genotype occurs, an impact taken from ImpactStart without a variant name follows its first occurrence. */
  lemma GenotypeImpact(line: string, genotype: string, impact: string, j: nat)
    requires |genotype| == 2 && |line| >= 1 && LiteralAt(line, j, genotype)
    requires impact == Strip(line[ImpactStart(line, genotype, [])..])
    ensures exists k: nat :: LiteralAt(line, k, genotype) && (forall q :: 0 <= q < k ==> !LiteralAt(line, q, genotype))
                             && impact == Strip(line[k + 2..])
  {
    FindFirst(line, genotype, j);
    var k: nat := Find(line, genotype);
    assert ImpactStart(line, genotype, []) == k + 2;
    assert impact == Strip(line[k + 2..]);
  }

  /** With a variant name, the impact is the trimmed rest of the line after its first `]`. */
  lemma ImpactAfterBracket(line: string)
    requires ParseLineSpec(line).Some? && ParseLineSpec(line).value.variantName != []
    ensures exists k: nat :: LiteralAt(line, k, "]") && (forall q :: 0 <= q < k ==> !LiteralAt(line, q, "]"))
                             && ParseLineSpec(line).value.impact == Strip(line[k + 1..])
  {
    var v := ParseLineSpec(line).value;
    ImpactOf(line);
    VariantFound(line);
    var p: nat :| VariantPattern(line, p) == Some(v.variantName);
    VariantClosed(line, p, v.variantName);
    BracketImpact(line, v.genotype, v.variantName, v.impact);
  }

  /** Without a variant name, the impact is the trimmed rest of the line after the first occurrence of the genotype text. */
  lemma ImpactAfterGenotype(line: string)
    requires ParseLineSpec(line).Some? && ParseLineSpec(line).value.variantName == []
    ensures var g := ParseLineSpec(line).value.genotype;
      exists k: nat :: LiteralAt(line, k, g) && (forall q :: 0 <= q < k ==> !LiteralAt(line, q, g))
                       && ParseLineSpec(line).value.impact == Strip(line[k + 2..])
  {
    var v := ParseLineSpec(line).value;
    ImpactOf(line);
    GenotypeFound(line);
    var w: nat :| LiteralAt(line, w, v.genotype);
    GenotypeImpact(line, v.genotype, v.impact, w);
  }

  /** The genotype of a record occurs in its line. */
  lemma GenotypeFound(line: string)
    requires ParseLineSpec(line).Some?
    ensures exists w: nat :: LiteralAt(line, w, ParseLineSpec(line).value.genotype)
  {
    var m := Search(line, GenotypePattern, 0).value;
    assert ParseLineSpec(line).value.genotype == m.capture;
    GenotypeOccurs(line, m.pos);
  }

  /** What the genotype pattern captures occurs in the text. */
  lemma GenotypeOccurs(s: string, p: nat)
    requires GenotypePattern(s, p).Some?
    ensures exists w: nat :: LiteralAt(s, w, GenotypePattern(s, p).value)
  {
    var w := RunEnd(s, RsEnd(s, p).value, IsSpace);
    assert LiteralAt(s, w, GenotypePattern(s, p).value);
  }

  /**
   * The first occurrence of the genotype text may come before the genotype
   * itself: a line that starts with it (a gene named like a genotype, as GC)
   * and has no variant name gets everything after the gene as its impact.
   */
  lemma ImpactAfterLeadingGenotype(line: string)
    requires ParseLineSpec(line).Some?
    requires ParseLineSpec(line).value.variantName == [] && LiteralAt(line, 0, ParseLineSpec(line).value.genotype)
    ensures ParseLineSpec(line).value.impact == Strip(line[2..])
  {
    var v := ParseLineSpec(line).value;
    ImpactOf(line);
    FindIs(line, v.genotype, 0);
  }

  // ---------------------------------------------------------------------------
  // Properties of determine_severity
  // ---------------------------------------------------------------------------

  /** The one critical gene rule: CBS rs234706 AA (upregulation). */
  predicate CbsUpregulation(gene: string, rsNumber: string, genotype: string) {
    gene == "CBS" && rsNumber == "rs234706" && genotype == "AA"
  }

  /** The warning gene rules: PEMT TT, heterozygous MTHFR, BHMT TT or CC. */
  predicate WarningGenotype(gene: string, genotype: string) {
    || (gene == "PEMT" && genotype == "TT")
    || (gene == "MTHFR" && genotype in {"AG", "GT", "CT"})
    || (gene == "BHMT" && genotype in {"TT", "CC"})
  }

  /** When a gene rule applies, the impact text makes no difference. */
  lemma GeneRuleOverridesImpact(gene: string, rsNumber: string, genotype: string, impact: string, impact': string)
    requires CbsUpregulation(gene, rsNumber, genotype) || WarningGenotype(gene, genotype)
    ensures DetermineSeverity(gene, rsNumber, genotype, impact) == DetermineSeverity(gene, rsNumber, genotype, impact')
  {
  }

  /** The impact text is read without regard to case. */
  lemma SeverityIgnoresCase(gene: string, rsNumber: string, genotype: string, impact: string)
    ensures DetermineSeverity(gene, rsNumber, genotype, impact) == DetermineSeverity(gene, rsNumber, genotype, Lower(impact))
  {
    LowerIdempotent(impact);
  }

  /** An impairment word found anywhere in the lower-cased impact makes it at least a warning. */
  lemma ImpairmentWordWarns(impact: string, k: nat, p: nat)
    requires k < |ImpairmentWords| && LiteralAt(Lower(impact), p, ImpairmentWords[k])
    ensures ImpactSeverity(impact) != Info
  {
    ContainsAt(Lower(impact), ImpairmentWords[k], p);
  }

  /** CBS rs234706 AA is critical, whatever the impact says (e.g. "increased (up to 10x) CBS activity"). */
  lemma SeverityExampleCbs(impact: string)
    ensures DetermineSeverity("CBS", "rs234706", "AA", impact) == Critical
  {
  }

  /** PEMT TT is a warning, whatever the impact says (e.g. "reduced choline synthesis"). */
  lemma SeverityExamplePemt(impact: string)
    ensures DetermineSeverity("PEMT", "rs7946", "TT", impact) == Warning
  {
  }

  /** Heterozygous MTHFR is a warning, whatever the impact says (e.g. "40% reduction in gene function"). */
  lemma SeverityExampleMthfr(impact: string)
    ensures DetermineSeverity("MTHFR", "rs1801133", "AG", impact) == Warning
  {
  }

  // ---------------------------------------------------------------------------
  // Properties of parse
  // ---------------------------------------------------------------------------

  /** Line by line: the records of a concatenation are the records of the parts, in order. */
  lemma ParseLinesAppend(a: seq<string>, b: seq<string>)
    ensures ParseLines(a + b) == ParseLines(a) + ParseLines(b)
  {
    FlatMapAppend(a, b, LineRecords);
  }

  /** A report of one trimmed line parses to that line's record. */
  lemma SingleLineReport(line: string, v: Variant)
    requires line != [] && Strip(line) == line && '\n' !in line && ParseLineSpec(line) == Some(v)
    ensures ParseSpec(line) == [v]
  {
    SplitWithoutSeparator(line, '\n');
    ParseOneLine(line);
  }

  /** One line contributes exactly the record _parse_line gives it, unless it is blank. */
  lemma ParseOneLine(line: string)
    ensures ParseLines([line]) == if Strip(line) == [] || ParseLineSpec(line).None? then [] else [ParseLineSpec(line).value]
  {
    assert [line][..0] == [];
    assert FlatMap([line], LineRecords) == FlatMap([], LineRecords) + LineRecords(line);
  }

  // ---------------------------------------------------------------------------
  // The example line of the test suite
  // ---------------------------------------------------------------------------

  const ExampleHead: string := "MTHFR rs1801133 AG [C677T]"
  const ExampleImpact: string := "Up to 40% reduction in gene function"
  const ExampleLine: string := ExampleHead + " " + ExampleImpact

  lemma ExampleHeadAbsent()
    ensures |ExampleHead| == 26
    ensures forall q :: 0 <= q < 6 ==> ExampleHead[q] != 'r'
    ensures forall q :: 0 <= q < 19 ==> ExampleHead[q] != '['
    ensures forall q :: 0 <= q < 25 ==> ExampleHead[q] != ']'
  {
  }

  lemma ExampleHeadGene()
    ensures ExampleHead[0] == 'M' && ExampleHead[1] == 'T' && ExampleHead[2] == 'H' && ExampleHead[3] == 'F' && ExampleHead[4] == 'R' && ExampleHead[5] == ' '
  {
  }

  lemma ExampleHeadRs()
    ensures ExampleHead[6] == 'r' && ExampleHead[7] == 's' && ExampleHead[8] == '1' && ExampleHead[9] == '8' && ExampleHead[10] == '0'
    ensures ExampleHead[11] == '1' && ExampleHead[12] == '1' && ExampleHead[13] == '3' && ExampleHead[14] == '3' && ExampleHead[15] == ' '
  {
  }

  lemma ExampleHeadVariant()
    ensures ExampleHead[16] == 'A' && ExampleHead[17] == 'G' && ExampleHead[18] == ' ' && ExampleHead[19] == '['
    ensures ExampleHead[20] == 'C' && ExampleHead[21] == '6' && ExampleHead[22] == '7' && ExampleHead[23] == '7' && ExampleHead[24] == 'T'
    ensures ExampleHead[25] == ']'
  {
  }

  /** The first 27 characters of the example line, which the patterns look at. */
  predicate HeadShape(s: string) {
    && |s| >= 27
    && (forall q :: 0 <= q < 6 ==> s[q] != 'r')
    && (forall q :: 0 <= q < 19 ==> s[q] != '[')
    && (forall q :: 0 <= q < 25 ==> s[q] != ']')
    && s[0] == 'M' && s[1] == 'T' && s[2] == 'H' && s[3] == 'F' && s[4] == 'R' && s[5] == ' '
    && s[6] == 'r' && s[7] == 's' && s[8] == '1' && s[9] == '8' && s[10] == '0'
    && s[11] == '1' && s[12] == '1' && s[13] == '3' && s[14] == '3' && s[15] == ' '
    && s[16] == 'A' && s[17] == 'G' && s[18] == ' ' && s[19] == '['
    && s[20] == 'C' && s[21] == '6' && s[22] == '7' && s[23] == '7' && s[24] == 'T'
    && s[25] == ']' && s[26] == ' '
  }

  lemma ExampleLineChars()
    ensures |ExampleLine| == 63 && ExampleLine[62] == 'n'
    ensures HeadShape(ExampleLine)
    ensures ExampleLine[27..] == ExampleImpact
  {
    ExampleHeadAbsent();
    ExampleHeadGene();
    ExampleHeadRs();
    ExampleHeadVariant();
    ExampleImpactEnds();
    assert forall q :: 0 <= q < 26 ==> ExampleLine[q] == ExampleHead[q];
    assert ExampleLine[26] == ' ';
    assert ExampleLine[27..] == ExampleImpact;
  }

  /** The gene of the example line. */
  lemma ExampleGene(s: string)
    requires HeadShape(s)
    ensures Gene(s) == "MTHFR"
  {
    RunEndIs(s, 0, IsUpper, 5);
    assert s[..5] == "MTHFR";
  }

  /** The rs number of the example line starts at 6 and its digits end at 15. */
  lemma ExampleRsEnd(s: string)
    requires HeadShape(s)
    ensures RsEnd(s, 6) == Some(15) && s[6..15] == "rs1801133"
    ensures forall q :: 0 <= q < 6 ==> RsEnd(s, q).None?
  {
    forall q | 0 <= q < 6
      ensures RsEnd(s, q).None?
    {
      LiteralAtHead(s, q, "rs");
    }
    assert LiteralAt(s, 6, "rs") by { assert s[6..8] == "rs"; }
    RunEndIs(s, 8, IsDigit, 15);
    assert s[6..15] == "rs1801133";
  }

  /** The rs number of the example line. */
  lemma ExampleRs(s: string)
    requires HeadShape(s)
    ensures Search(s, RsPattern, 0) == Some(Match(6, "rs1801133"))
  {
    ExampleRsEnd(s);
    SearchFinds(s, RsPattern, 0, 6);
  }

  /** The genotype of the example line follows its rs number. */
  lemma ExampleGenotype(s: string)
    requires HeadShape(s)
    ensures Search(s, GenotypePattern, 0) == Some(Match(6, "AG"))
  {
    ExampleRsEnd(s);
    RunEndIs(s, 15, IsSpace, 16);
    assert s[16..18] == "AG";
    SearchFinds(s, GenotypePattern, 0, 6);
  }

  /** The variant name of the example line is the bracketed C677T. */
  lemma ExampleVariantName(s: string)
    requires HeadShape(s)
    ensures CaptureOrEmpty(s, VariantPattern) == "C677T"
  {
    RunEndIs(s, 21, IsDigit, 24);
    assert s[20..25] == "C677T";
    SearchFinds(s, VariantPattern, 0, 19);
  }

  /** The impact of the example line starts after its `]`. */
  lemma ExampleImpactText(s: string)
    requires HeadShape(s) && s[27..] == ExampleImpact
    ensures ImpactStart(s, "AG", "C677T") == 26
    ensures Strip(s[26..]) == ExampleImpact
  {
    forall q | 0 <= q < 25
      ensures !LiteralAt(s, q, "]")
    {
      LiteralAtHead(s, q, "]");
    }
    assert LiteralAt(s, 25, "]") by { assert s[25..26] == "]"; }
    FindIs(s, "]", 25);
    ExampleImpactEnds();
    var t := s[26..];
    assert t[1..] == ExampleImpact && t[0] == ' ';
    StripFrom(t, 1);
  }

  lemma ExampleImpactEnds()
    ensures |ExampleImpact| == 36 && ExampleImpact[0] == 'U' && ExampleImpact[35] == 'n'
  {
  }


  /** The record the example line parses to. */
  const ExampleRecord: Variant := Variant("MTHFR", "rs1801133", "AG", "C677T", ExampleImpact, Warning)

  /**
   * `MTHFR rs1801133 AG [C677T] Up to 40% reduction in gene function` reads as
   * gene MTHFR, rs1801133, genotype AG, variant C677T, the rest of the line as
   * its impact, and a warning (heterozygous MTHFR).
   */
  lemma ExampleLineRecord()
    ensures ParseLineSpec(ExampleLine) == Some(ExampleRecord)
  {
    ExampleLineChars();
    ExampleGene(ExampleLine);
    ExampleRs(ExampleLine);
    ExampleGenotype(ExampleLine);
    ExampleVariantName(ExampleLine);
    ExampleImpactText(ExampleLine);
    RecordOf(ExampleLine, "MTHFR", Match(6, "rs1801133"), Match(6, "AG"), "C677T", 26, ExampleImpact);
    SeverityExampleMthfr(ExampleImpact);
  }

  /** The record of a line, assembled from its matches. */
  lemma RecordOf(line: string, gene: string, rs: Match, g: Match, name: string, start: nat, impact: string)
    requires gene != [] && Gene(line) == gene
    requires Search(line, RsPattern, 0) == Some(rs) && Search(line, GenotypePattern, 0) == Some(g)
    requires CaptureOrEmpty(line, VariantPattern) == name
    requires |g.capture| == 2 && |line| >= 1 && ImpactStart(line, g.capture, name) == start
    requires start <= |line| && Strip(line[start..]) == impact
    ensures ParseLineSpec(line) == Some(Variant(gene, rs.capture, g.capture, name, impact,
                                                DetermineSeverity(gene, rs.capture, g.capture, impact)))
  {
  }

  /** The impact mentions a reduction, whatever the case. */
  lemma ExampleImpactMentionsReduction()
    ensures Contains(Lower(ExampleImpact), "reduction")
  {
    var lower := Lower(ExampleImpact);
    forall k | 0 <= k < 9
      ensures lower[10 + k] == "reduction"[k]
    {
      assert ExampleImpact[10 + k] == "reduction"[k];
    }
    assert lower[10..19] == "reduction";
    ContainsAt(lower, "reduction", 10);
  }


  /** The example line is trimmed and a single line. */
  lemma ExampleLineText()
    ensures ExampleLine != [] && Strip(ExampleLine) == ExampleLine && '\n' !in ExampleLine
  {
    ExampleLineChars();
    StripTrimmed(ExampleLine);
    ExampleNoNewline();
  }

  lemma ExampleNoNewline()
    ensures '\n' !in ExampleLine
  {
    assert '\n' !in ExampleHead;
    assert '\n' !in ExampleImpact;
  }

  /** A report holding only the example line parses to exactly its record. */
  lemma ExampleReport()
    ensures ParseSpec(ExampleLine) == [ExampleRecord]
  {
    ExampleLineText();
    ExampleLineRecord();
    SingleLineReport(ExampleLine, ExampleRecord);
  }
}

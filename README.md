# Precision-medicine dashboard: parsers and rule engine

This project models the data core of the precision-medicine dashboard generator in Dafny. The generator takes a patient's blood test results and DNA methylation panel, both as plain text. It produces an HTML dashboard with critical alerts, a timed supplement protocol and a three-month action plan. The model covers everything up to the HTML:

- **Blood parser** (`BloodParser`). A report is stripped and split into lines. Blank lines and header lines that start with `Naam` are skipped. Every other line is read as `Name [+/-] Value Opt:range V.N range unit`, for example `HomocysteÏne + 18.0 Opt:<8.0 V.N 3.7-13.9 µmol/L`.
  - The value is the token after a `+`/`-` flag, or the first numeric token.
  - The optimal range, normal range and unit come from the same regular expressions the source uses.
  - The status comes from the optimal range: `<X` (critical beyond 1.5·X), `>X` (critical under 0.7·X), `X-Y` (critical more than 20% outside), or else the flag.
  - These percentage bands hold for non-negative limits with X ≤ Y. The source also accepts negative or reversed limits such as `Opt:<-2` or `60-45`, and there the bands turn over: a value within the limit can be critical (`BloodParser.InvertedLimitsExample`). The model computes the source's comparisons for every limit.
  - A line whose value or range does not convert is dropped, as the source's `except` clause drops it.
  - `Parse` and `ParseLine` are methods with loops. Each is proved equal to a specification function (`ParseSpec`, `ParseLineSpec`).
- **DNA parser** (`DnaParser`). Every non-blank line is read as `GENE rsNNN GT [VARIANT] impact`, for example `MTHFR rs1801133 AG [C677T] Up to 40% reduction in gene function`.
  - The gene, rs number, genotype and variant name come from the source's regular expressions.
  - The impact is the rest of the line after the bracket, or after the genotype.
  - The severity comes from four gene rules (CBS rs234706 AA critical; PEMT TT, heterozygous MTHFR, BHMT TT/CC warning). After those it comes from the lower-cased impact text (`10x`/`ten times` critical, impairment words warning, else info).
- **Dashboard rules** (`Dashboard`).
  - Alerts: at most three, in the fixed order homocysteine, ferritin, vitamin D. Each alert is raised by the first marker of its kind when that marker is out of range.
  - Supplement protocol: six independent rules (choline, vitamin D3+K2, zinc, magnesium, methylated B-complex, TMG), sorted by time of day.
  - Plan: three phases. Only phase 1 depends on the input.
  - `GenerateDashboard` parses both reports and runs the three rule sets. It returns what the HTML builder receives.

Supporting modules:

- `Text`: whitespace (Python's full `str.isspace()` set) splitting, stripping, joining, ASCII lower-casing, substring search and a generic leftmost-match search for the regular expressions.
- `Decimal`: Python's `float()` on plain decimal numerals.
- `Wrappers`: `Option`.

Each regular expression is a matcher `(string, nat) -> Option<string>` at one position. `Text.Search` finds its leftmost match. Every pattern the source uses is deterministic at a given start position, so this gives the capture Python's `re.search` gives.

Where the prose documentation and the code disagree, the model follows the code:

- The genotype may follow any `rs` number in the line, not only the first one.
- A variant name must have the shape letter-digits-letter.
- The impact starts after the first `]` in the line, or after the first occurrence of the genotype text. That occurrence can lie inside the gene name (`DnaParser.ImpactAfterLeadingGenotype`).
- The value is the token directly after the flag, whatever it is. A flag as the very first token makes the parser fall back to the numeric scan, and the flag is still recorded.
- The two CBS tests differ:
  - The protocol's "CBS upregulation" test requires `rs234706` in the rs number.
  - The plan's test only looks for `AA` in the genotype.
  - Consequence: a CBS AA variant at another rs number next to an MTHFR variant gets a phase 1 warning against the B-complex before week 6, while the protocol schedules the B-complex as KERN with no deferral (`Dashboard.CbsTestsDisagree`).
  - The model keeps both tests as written.

## Model

Source paths are relative to the repository root.

| member | source | states |
|---|---|---|
| Decimal.ParseDecimal | skills/precision-medicine/parsers/blood_parser.py:82 | `float()` succeeds exactly on a numeral: an optional sign, then digits with at most one decimal point and at least one digit (its value: `ParseNatText`, `ParseFixedText`) |
| Decimal.NumeralHasDigit | skills/precision-medicine/parsers/blood_parser.py:72-78 | every token the numeric scan accepts as a value holds a digit |
| Decimal.SignIsNotNumeral | skills/precision-medicine/parsers/blood_parser.py:58-78 | the flag tokens `+` and `-` are never read as a value |
| Decimal.ParseNatText | skills/precision-medicine/parsers/blood_parser.py:82 | printing a whole number in decimal, with or without a minus sign, and reading it back with `float()` round-trips |
| Decimal.ParseFixedText | skills/precision-medicine/parsers/blood_parser.py:82 | a fixed-point numeral `w.f` with k fraction digits, with or without a minus sign, reads back as exactly w + f/10^k |
| Text.NoBreakSpaceSeparates | skills/precision-medicine/parsers/blood_parser.py:50 | `str.split()` also splits at a no-break space: `+\xa0307` is the two tokens `+` and `307` |
| BloodParser.StatusWithoutRange | skills/precision-medicine/parsers/blood_parser.py:135-141 | a range holding none of `<`, `>`, `-` (the empty range included) gives warning exactly when the line is flagged, never critical |
| BloodParser.UpperLimitRange | skills/precision-medicine/parsers/blood_parser.py:144-152 | a range `<X` is judged by the upper-limit rule on X, whatever the flag |
| BloodParser.UpperLimitBands | skills/precision-medicine/parsers/blood_parser.py:147-152 | under `<X` with X ≥ 0: critical iff value > 1.5·X, warning iff X < value ≤ 1.5·X, optimal iff value ≤ X |
| BloodParser.UpperLimitMonotone | skills/precision-medicine/parsers/blood_parser.py:147-152 | under `<X` with X ≥ 0 a larger value never gets a better status |
| BloodParser.LowerLimitRange | skills/precision-medicine/parsers/blood_parser.py:154-162 | a range `>X` is judged by the lower-limit rule on X, whatever the flag |
| BloodParser.LowerLimitBands | skills/precision-medicine/parsers/blood_parser.py:157-162 | under `>X` with X ≥ 0: critical iff value < 0.7·X, warning iff 0.7·X ≤ value < X, optimal iff value ≥ X |
| BloodParser.LowerLimitAntitone | skills/precision-medicine/parsers/blood_parser.py:157-162 | under `>X` with X ≥ 0 a smaller value never gets a better status |
| BloodParser.IntervalRange | skills/precision-medicine/parsers/blood_parser.py:164-168 | a range `X-Y` is split at the dash and judged by the interval rule on X and Y, whatever the flag |
| BloodParser.IntervalBands | skills/precision-medicine/parsers/blood_parser.py:170-184 | under `X-Y` with 0 ≤ X ≤ Y: optimal iff X ≤ value ≤ Y, critical iff value < 0.8·X or value > 1.2·Y |
| BloodParser.InvertedLimitsExample | skills/precision-medicine/parsers/blood_parser.py:147-184 | with negative or reversed limits the bands turn over: -2.5 under `<-2` and -1.5 under `>-2` are critical although within the limit, and 55 under `60-45` is a warning |
| BloodParser.IntervalShape | skills/precision-medicine/parsers/blood_parser.py:164-166 | `a-b` contains the dash, contains `<`/`>` only if a or b does, and splits into exactly a and b |
| BloodParser.DetermineStatus | skills/precision-medicine/parsers/blood_parser.py:129-192 | `determine_status` gives a status exactly when the optimal range converts and raises otherwise: with `<`/`>`, the rest must be a numeral; otherwise, with a dash, the text before the first dash and the text between it and the next dash must be numerals; any other range needs no conversion |
| BloodParser.DashParts | skills/precision-medicine/parsers/blood_parser.py:166-168 | `split('-')` of a dashed range gives at least two parts: the text before the first dash, then the text up to the next dash |
| BloodParser.OpenIntervalFails | skills/precision-medicine/parsers/blood_parser.py:164-168 | `45-` has no upper bound: `float('')` raises and the line is dropped |
| BloodParser.MalformedUpperLimitFails | skills/precision-medicine/parsers/blood_parser.py:144-146 | `<8-9` does not convert, so the line is dropped |
| BloodParser.StatusExampleCritical | skills/precision-medicine/tests/test_blood_parser.py:36-42 | 18.0 against `<8.0` is critical |
| BloodParser.StatusExamplesInterval | skills/precision-medicine/tests/test_blood_parser.py:45-60 | 39.7 against `45-60` is a warning; 55.0 is optimal |
| BloodParser.OptPrefixPattern | skills/precision-medicine/parsers/blood_parser.py:87 | a match of `Opt:([<>]?[\d\.\-]+)` at p has `Opt:` at p and captures the text right after it: a non-empty range text with at most a leading `<`/`>`, not followed by another range character |
| BloodParser.OptimalRange | skills/precision-medicine/parsers/blood_parser.py:85-94 | the optimal range is always empty or of the form `[<>]?[\d.-]+` |
| BloodParser.NormalRange | skills/precision-medicine/parsers/blood_parser.py:96-104 | the normal range is empty or made of digits, dots and dashes only |
| BloodParser.Unit | skills/precision-medicine/parsers/blood_parser.py:106-110 | the unit is the longest suffix of the line made of unit characters |
| BloodParser.ScanForValue | skills/precision-medicine/parsers/blood_parser.py:69-79 | the name tokens are the tokens before the first numeral; the value index is that numeral's index, or 0 when there is none |
| BloodParser.ParseLine | skills/precision-medicine/parsers/blood_parser.py:44-127 | the loop-based line parser returns exactly `ParseLineSpec(line)` |
| BloodParser.ParseLineSpec | skills/precision-medicine/parsers/blood_parser.py:44-127 | a line yields no record exactly when it has fewer than three tokens, or a flag after the first token is last or followed by a non-number, or (without such a flag) no token is a number, or its optimal range does not convert; every other line yields one |
| BloodParser.ValueTokenMissing | skills/precision-medicine/parsers/blood_parser.py:56-82 | the value token is missing or not a number exactly in the flagged and unflagged cases of `ParseLineSpec`'s contract |
| BloodParser.ShortLineYieldsNothing | skills/precision-medicine/parsers/blood_parser.py:50-52 | a line of fewer than three tokens gives no record |
| BloodParser.FlaggedLine | skills/precision-medicine/parsers/blood_parser.py:56-67 | with a flag after the first token: name = tokens before it joined by spaces, value = the next token, flag recorded; no record when the flag is last or the next token is not a number |
| BloodParser.UnflaggedLine | skills/precision-medicine/parsers/blood_parser.py:68-82 | otherwise: name = tokens before the first numeral, value = that numeral, no record without a numeral; a leading flag is still recorded |
| BloodParser.RecordFields | skills/precision-medicine/parsers/blood_parser.py:84-123 | a record's status is `determine_status` of its own value, optimal range and flag; its ranges and unit are the pattern results; its name is stripped |
| BloodParser.LineRecords | skills/precision-medicine/parsers/blood_parser.py:34-40 | a line contributes at most one record |
| BloodParser.ParseLinesNext | skills/precision-medicine/parsers/blood_parser.py:34-40 | the records of the first i+1 lines are those of the first i plus those of line i (the loop's invariant) |
| BloodParser.Parse | skills/precision-medicine/parsers/blood_parser.py:9-42 | the loop-based parser returns exactly `ParseSpec(text)` |
| BloodParser.SkippedLinesYieldNothing | skills/precision-medicine/parsers/blood_parser.py:35-36 | blank lines and lines starting with `Naam` contribute nothing |
| BloodParser.ParseSpec | skills/precision-medicine/parsers/blood_parser.py:28-42 | empty or whitespace-only text gives no records; otherwise at most one record per line of the stripped text |
| BloodParser.ParseLinesAppend | skills/precision-medicine/parsers/blood_parser.py:31-42 | the records of two blocks of lines are the records of each, in order |
| BloodParser.ParseOneLine | skills/precision-medicine/parsers/blood_parser.py:34-40 | one line gives exactly its `_parse_line` record unless skipped or malformed |
| BloodParser.ExampleLineRecord | skills/precision-medicine/tests/test_blood_parser.py:5-18 | the test line parses to name `HomocysteÏne`, value 18.0, unit `µmol/L`, optimal `<8.0`, normal `3.7-13.9`, flag `+`, critical |
| BloodParser.ExampleReport | skills/precision-medicine/tests/test_blood_parser.py:5-18 | a report of only that line parses to that one record |
| BloodParser.ExampleAfter | skills/precision-medicine/tests/test_blood_parser.py:70-90 | a first line that yields nothing leaves the following line's record alone |
| BloodParser.ExampleWithHeader | skills/precision-medicine/tests/test_blood_parser.py:81-90 | a `Naam Waarde Range` header before the line is skipped |
| BloodParser.ExampleWithMalformedLine | skills/precision-medicine/tests/test_blood_parser.py:70-78 | a two-token line `Invalid line` before it is skipped |
| DnaParser.GeneRule | skills/precision-medicine/parsers/dna_parser.py:108-122 | the gene rules give only critical or warning, never info |
| DnaParser.DetermineSeverity | skills/precision-medicine/parsers/dna_parser.py:96-139 | the three severities, each as an iff: CBS rs234706 AA or (no warning genotype and a critical marker) is critical; a warning genotype or (no gene rule, no critical marker, an impairment word) is warning; otherwise info |
| DnaParser.GeneRuleOverridesImpact | skills/precision-medicine/parsers/dna_parser.py:108-122 | when a gene rule applies the impact text makes no difference |
| DnaParser.SeverityIgnoresCase | skills/precision-medicine/parsers/dna_parser.py:125 | the impact is judged lower-cased: lower-casing it first changes nothing |
| DnaParser.ImpairmentWordWarns | skills/precision-medicine/parsers/dna_parser.py:132-136 | any impairment word in the lower-cased impact makes it at least a warning |
| DnaParser.SeverityExampleCbs | skills/precision-medicine/tests/test_dna_parser.py:37-48 | CBS rs234706 AA is critical whatever the impact |
| DnaParser.SeverityExamplePemt | skills/precision-medicine/tests/test_dna_parser.py:51-62 | PEMT TT is a warning whatever the impact |
| DnaParser.SeverityExampleMthfr | skills/precision-medicine/tests/test_dna_parser.py:65-76 | MTHFR AG is a warning whatever the impact |
| DnaParser.RsPattern | skills/precision-medicine/parsers/dna_parser.py:56 | a match of `(rs\d+)` is `rs` and one or more digits, found where it starts |
| DnaParser.GenotypePattern | skills/precision-medicine/parsers/dna_parser.py:62 | a match of `rs\d+\s+([AGTC]{2})` at p has an rs number at p followed by whitespace, and captures the two bases right after the whitespace run |
| DnaParser.VariantPattern | skills/precision-medicine/parsers/dna_parser.py:69 | a match of `\[([A-Z]\d+[A-Z])\]` at p opens with `[` at p and captures the letter-digits-letter name between it and the closing `]` |
| DnaParser.Gene | skills/precision-medicine/parsers/dna_parser.py:50-53 | the gene is the longest run of capital letters the line starts with |
| DnaParser.GenotypeNeedsRs | skills/precision-medicine/parsers/dna_parser.py:56-65 | wherever the genotype pattern matches, the rs pattern matches too, so the rs check never rejects a line the genotype check accepts |
| DnaParser.ParseLineSpec | skills/precision-medicine/parsers/dna_parser.py:43-94 | a line gives no record exactly when it does not start with a capital letter or no rs number in it is followed by whitespace and a genotype; a line without an rs number gives none |
| DnaParser.GenotypeMatchHasRs | skills/precision-medicine/parsers/dna_parser.py:56-65 | a line where the genotype pattern matches somewhere has an rs number too |
| DnaParser.GeneField | skills/precision-medicine/parsers/dna_parser.py:50-53 | a record's gene is the non-empty leading run of capitals of its line |
| DnaParser.MatchFields | skills/precision-medicine/parsers/dna_parser.py:55-65 | a record's rs number and genotype are the captures of the leftmost matches |
| DnaParser.RsNotAfterGenotype | skills/precision-medicine/parsers/dna_parser.py:56-65 | the rs number reported never lies after the one the genotype follows |
| DnaParser.VariantNameField | skills/precision-medicine/parsers/dna_parser.py:67-71 | the variant name is empty exactly when no bracketed name matches; otherwise it is the leftmost one |
| DnaParser.ImpactAfterBracket | skills/precision-medicine/parsers/dna_parser.py:74-78 | with a variant name, the impact is the stripped rest of the line after its first `]` |
| DnaParser.ImpactAfterGenotype | skills/precision-medicine/parsers/dna_parser.py:76-78 | without one, the impact is the stripped rest after the first occurrence of the genotype text |
| DnaParser.ImpactAfterLeadingGenotype | skills/precision-medicine/parsers/dna_parser.py:76-78 | a line that starts with its own genotype text, as a gene GC with genotype GC does, takes everything after the first two characters as impact |
| DnaParser.ImpactAndSeverityFields | skills/precision-medicine/parsers/dna_parser.py:78-81 | the impact is stripped and the severity is `determine_severity` of the record's own fields |
| DnaParser.LineRecords | skills/precision-medicine/parsers/dna_parser.py:33-39 | a line contributes at most one record |
| DnaParser.ParseLinesNext | skills/precision-medicine/parsers/dna_parser.py:33-39 | the records of the first i+1 lines extend those of the first i by line i's (the loop's invariant) |
| DnaParser.Parse | skills/precision-medicine/parsers/dna_parser.py:9-41 | the loop-based parser returns exactly `ParseSpec(text)` |
| DnaParser.ParseSpec | skills/precision-medicine/parsers/dna_parser.py:27-41 | empty or whitespace-only text gives no variants; otherwise at most one variant per line of the stripped text |
| DnaParser.ParseLinesAppend | skills/precision-medicine/parsers/dna_parser.py:30-41 | the records of two blocks of lines are the records of each, in order |
| DnaParser.SingleLineReport | skills/precision-medicine/parsers/dna_parser.py:28-41 | a report of one trimmed line parses to that line's record |
| DnaParser.ParseOneLine | skills/precision-medicine/parsers/dna_parser.py:33-39 | one line gives exactly its `_parse_line` record unless blank or malformed |
| DnaParser.ExampleLineRecord | skills/precision-medicine/tests/test_dna_parser.py:6-19 | the test line parses to MTHFR, rs1801133, AG, C677T, its impact text, warning |
| DnaParser.ExampleImpactMentionsReduction | skills/precision-medicine/tests/test_dna_parser.py:79-86 | the example's impact contains `reduction` once lower-cased |
| DnaParser.ExampleReport | skills/precision-medicine/tests/test_dna_parser.py:6-19 | a report of only that line parses to that one record |
| Dashboard.FirstMarker | skills/precision-medicine/held_dashboard_generator.py:97 | `next(...)` gives None iff no marker qualifies, else the first qualifying marker |
| Dashboard.DetectProtocolFindings | skills/precision-medicine/held_dashboard_generator.py:162-191 | without variants no variant finding holds, without markers no marker finding holds, and CBS upregulation implies a CBS variant with `AA` |
| Dashboard.KindAlert | skills/precision-medicine/held_dashboard_generator.py:97-129 | each priority contributes at most one alert, of its own kind |
| Dashboard.IdentifyCriticalAlerts | skills/precision-medicine/held_dashboard_generator.py:85-131 | at most three alerts, in strictly increasing priority (homocysteine, ferritin, vitamin D) |
| Dashboard.AlertsUncapped | skills/precision-medicine/held_dashboard_generator.py:94-131 | the alerts are the three optional alerts concatenated by priority |
| Dashboard.KindAlertIff | skills/precision-medicine/held_dashboard_generator.py:97-129 | a priority's alert is there iff the first marker of its kind is warning or critical, and it is built from that marker |
| Dashboard.AlertRaisedIff | skills/precision-medicine/held_dashboard_generator.py:94-131 | an alert of a kind is raised iff the first marker of that kind is out of range; later markers of the kind are not consulted |
| Dashboard.AlertDetails | skills/precision-medicine/held_dashboard_generator.py:97-129 | every alert shows its marker's name, value, unit and optimal range; homocysteine is titled "Kritieke Afwijking" and red iff critical; ferritin is red iff critical; vitamin D is yellow |
| Dashboard.UnrelatedMarkersRaiseNothing | skills/precision-medicine/held_dashboard_generator.py:97-129 | markers whose names mention none of the three terms raise no alert |
| Dashboard.LoneFerritinAlert | skills/precision-medicine/held_dashboard_generator.py:108-116 | a lone out-of-range ferritin marker gives exactly the ferritin alert |
| Dashboard.HomocysteineAlertExample | skills/precision-medicine/tests/test_dashboard_generator.py:25-44 | a critical `HomocysteÏne` marker gives one red "Kritieke Afwijking" alert showing that marker |
| Dashboard.HomocysteineName | skills/precision-medicine/tests/test_dashboard_generator.py:25-44 | the name `HomocysteÏne` counts as homocysteine and as none of the other marker kinds |
| Dashboard.ProtocolTable | skills/precision-medicine/held_dashboard_generator.py:194-294 | six rules, choline through TMG, in declaration order, at times 07:30, 08:00, 12:30, 15:00, 20:00, 22:00 |
| Dashboard.Insert | skills/precision-medicine/held_dashboard_generator.py:297 | inserting adds exactly one entry and loses none |
| Dashboard.InsertSorted | skills/precision-medicine/held_dashboard_generator.py:297 | inserting into a time-sorted list keeps it sorted |
| Dashboard.SortByTime | skills/precision-medicine/held_dashboard_generator.py:297 | the sorted protocol is a permutation of its input and sorted by time |
| Dashboard.SortSorted | skills/precision-medicine/held_dashboard_generator.py:297 | sorting a list already in time order leaves it unchanged |
| Dashboard.GenerateSupplementProtocol | skills/precision-medicine/held_dashboard_generator.py:142-297 | the protocol is sorted by time and a permutation of the entries of the firing rules |
| Dashboard.ProtocolInRuleOrder | skills/precision-medicine/held_dashboard_generator.py:194-297 | the sort changes nothing: the protocol is the firing rules' entries in rule order, at most six, times strictly increasing |
| Dashboard.RuleTimesIncrease | skills/precision-medicine/held_dashboard_generator.py:194-294 | the six rule times strictly increase as strings |
| Dashboard.ProductNamesDistinct | skills/precision-medicine/held_dashboard_generator.py:194-294 | the six supplements carry six different names |
| Dashboard.RecommendsIffFires | skills/precision-medicine/held_dashboard_generator.py:194-294 | a supplement is in the list iff its own rule fires |
| Dashboard.EntryFromRule | skills/precision-medicine/held_dashboard_generator.py:194-294 | each entry is exactly the entry its rule builds |
| Dashboard.ProtocolTriggers | skills/precision-medicine/held_dashboard_generator.py:162-291 | the six triggers as iffs: choline ⇔ PEMT TT or BHMT issue; vitamin D ⇔ low vitamin D marker or VDR; zinc ⇔ BHMT, MTHFR or critical homocysteine; magnesium ⇔ slow COMT or MTHFR; B-complex ⇔ MTHFR; TMG ⇔ BHMT or CBS upregulation |
| Dashboard.ProtocolBadges | skills/precision-medicine/held_dashboard_generator.py:194-294 | badges and times per supplement; vitamin D is KRITIEK iff a vitamin D marker is out of range; the B-complex is FASE 2 and opens with the six-week deferral iff CBS upregulation |
| Dashboard.ProtocolReasons | skills/precision-medicine/held_dashboard_generator.py:194-263 | choline names PEMT iff PEMT TT and BHMT iff a BHMT issue; vitamin D opens with the first vitamin D marker's value when there is one and asks for a higher dose iff VDR; magnesium names COMT iff slow COMT |
| Dashboard.EntryReasons | skills/precision-medicine/held_dashboard_generator.py:194-263 | the same reason facts, stated on the entry builders for given findings |
| Dashboard.EmptyProtocol | skills/precision-medicine/held_dashboard_generator.py:142-297 | no variants and no markers give an empty protocol |
| Dashboard.PemtExample | skills/precision-medicine/tests/test_dashboard_generator.py:85-107 | PEMT TT alone gives only the choline entry, KERN at 07:30, naming the missing endogenous choline |
| Dashboard.CbsUpregulationExample | skills/precision-medicine/tests/test_dashboard_generator.py:110-139 | CBS rs234706 AA with MTHFR: the B-complex is FASE 2 with the deferral first, and the plan warns |
| Dashboard.HighHomocysteineProtocol | skills/precision-medicine/held_dashboard_generator.py:239-247 | a lone critical homocysteine marker gives zinc as the only supplement |
| Dashboard.HighHomocysteineFindings | skills/precision-medicine/held_dashboard_generator.py:162-191 | a lone critical homocysteine marker sets only the high-homocysteine finding, and there is no vitamin D marker |
| Dashboard.Generate3MonthPlan | skills/precision-medicine/held_dashboard_generator.py:299-444 | always three phases; phases 2 and 3 are fixed |
| Dashboard.PlanShape | skills/precision-medicine/held_dashboard_generator.py:375-442 | phase names and durations; phases 2 and 3 have four actions, no warnings and do not depend on the input |
| Dashboard.Phase1Content | skills/precision-medicine/held_dashboard_generator.py:323-380 | phase 1 is choline iff critical homocysteine, then vitamin D always, then inflammation iff ferritin/CRP out of range, then COMT iff a COMT variant; one warning iff a CBS variant has AA |
| Dashboard.EmptyPlan | skills/precision-medicine/tests/test_dashboard_generator.py:161-173 | empty inputs: phase 1 is the vitamin D action alone, no warnings |
| Dashboard.HomocysteinePlanExample | skills/precision-medicine/tests/test_dashboard_generator.py:198-215 | a critical homocysteine marker puts the choline action first in phase 1 |
| Dashboard.CbsUpregulationImpliesCbsAA | skills/precision-medicine/held_dashboard_generator.py:170-173 | whatever the protocol counts as CBS upregulation the plan counts too |
| Dashboard.CbsAtOtherRs | skills/precision-medicine/held_dashboard_generator.py:333-336 | CBS AA at rs4680 passes the plan's test and fails the protocol's |
| Dashboard.CbsDisagreementExample | skills/precision-medicine/held_dashboard_generator.py:333-336 | CBS AA at rs4680 next to an MTHFR variant meets the disagreement's conditions |
| Dashboard.CbsTestsDisagree | skills/precision-medicine/held_dashboard_generator.py:266-283 | with a CBS AA variant not at rs234706 and an MTHFR variant, the plan warns against the B-complex before week 6 while the protocol schedules it as KERN without deferral |
| Dashboard.ProtocolHasBComplex | skills/precision-medicine/held_dashboard_generator.py:266-283 | with an MTHFR variant the B-complex is in the protocol, deferred iff CBS upregulation |
| Dashboard.GenerateDashboard | skills/precision-medicine/held_dashboard_generator.py:58-68 | parses both reports and runs the three rule sets: at most three alerts, a time-sorted protocol, three phases |
| Dashboard.DashboardSpec | skills/precision-medicine/held_dashboard_generator.py:58-68 | at most three alerts, a time-sorted protocol and three phases; two blank reports give no records, no alerts, no supplements and phase 1 with the vitamin D action alone and no warning |
| Dashboard.DashboardExample | skills/precision-medicine/tests/test_dashboard_generator.py:25-44 | the test blood line with an empty DNA report gives its record, one critical homocysteine alert, zinc only, and choline and vitamin D in phase 1 |

## Left out

- HTML: `build_html` and the `_build_*_html` helpers, the CSS, `save_dashboard` and the command-line `main` are rendering and I/O. The model stops at the data they receive.
- Configuration loading (`_load_config`), file reading and the generation date are I/O and clock.
- `generate_priorities` is a stub that always returns an empty list. It does not feed the HTML data modelled here. The consultation notes and the order link are passed straight to the HTML and are left out with it.
- `Decimal.ParseDecimal`: does not accept the rest of Python's `float()` grammar (`nan`, `inf`, exponents, underscores, surrounding whitespace). None of these is a range or value token in a lab report. The numeric scan of blood_parser.py:72-78 also calls `float()` on the name tokens, so a name token such as `inf`, `nan` or `1e3` would become the value in Python, while the model keeps it in the name.
- Values are exact reals: IEEE rounding of `float()` and of the `1.5`/`0.7`/`0.8`/`1.2` products is not modelled.
- `Text.IsDigit`: the regex class `\d` and `float()` accept only the ASCII digits here. Python also accepts every other Unicode decimal digit (Arabic-Indic, fullwidth and so on), so a value or range written in such digits gives no record in the model.
- Lower-casing is ASCII only. Python's `str.lower()` also folds non-ASCII capitals; none of the terms looked for contains one.
- Alert and action descriptions, phase 2 and 3 action texts, supplement reason sentences and the warning text are kept as enumerations (`Reason`, `Action`, `PlanWarning`) rather than their Dutch prose. Names, dosages, time labels, action icons and titles are kept as text per enumeration value.
- The alert's marker line and the vitamin D reason are kept structured (`Reading`, `CurrentVitaminD`) rather than formatted with Python's float printing.
- `Dashboard.VitaminDReason`: the source falls back to the unit `ng/ml` when a marker has none. A parsed record always has a unit field, so the fallback cannot occur.
- `Dashboard.SortByTime`: it is an insertion sort that is stable like Python's `sorted`. Stability is not proved separately, because the six rule times are distinct and the protocol is shown to come out in rule order.
- Exceptions are modelled as `None`: the `ValueError`/`IndexError` of the blood line parser and the catch-all of the DNA line parser. No other exception can reach the modelled code.
- The test suite's hand-built dictionaries with missing keys do not arise from parsed records and are not modelled.

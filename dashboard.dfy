/**
 * The rule engine of the dashboard generator. From the parsed biomarkers and
 * variants it derives the critical alerts (at most three, in a fixed priority
 * order), the supplement protocol (six independent rules, ordered by time of
 * day) and the three-phase action plan (only phase 1 depends on the input).
 */
module Dashboard {
  import opened Wrappers
  import opened Text
  import BloodParser
  import DnaParser

  type Biomarker = BloodParser.Biomarker
  type Variant = DnaParser.Variant

  // ---------------------------------------------------------------------------
  // Recognising markers and variants
  // ---------------------------------------------------------------------------

  /** Python's any(p(x) for x in xs). */
  predicate Any<T>(xs: seq<T>, p: T -> bool) {
    exists k :: 0 <= k < |xs| && p(xs[k])
  }

  /** `term in b['name'].lower()`. */
  predicate NameMentions(b: Biomarker, term: string) {
    Contains(Lower(b.name), term)
  }

  predicate IsHomocysteine(b: Biomarker) { NameMentions(b, "homocyst") }

  predicate IsFerritin(b: Biomarker) { NameMentions(b, "ferritin") }

  predicate IsVitaminD(b: Biomarker) { NameMentions(b, "vitamine d") || NameMentions(b, "vitamin d") }

  /** `b['status'] in ['critical', 'warning']`. */
  predicate OutOfRange(b: Biomarker) { b.status.Critical? || b.status.Warning? }

  /** `next((b for b in bs if p(b)), None)`: the first marker satisfying p. */
  function FirstMarker(bs: seq<Biomarker>, p: Biomarker -> bool): (r: Option<Biomarker>)
    ensures r.None? <==> !Any(bs, p)
    ensures r.Some? ==> exists k :: 0 <= k < |bs| && bs[k] == r.value && p(bs[k]) && forall j :: 0 <= j < k ==> !p(bs[j])
  {
    var k := FirstIndex(bs, p);
    if k < |bs| then Some(bs[k]) else None
  }

  /** The element, when the condition holds: one conditional `append`. */
  function Optional<T>(condition: bool, x: T): seq<T> {
    if condition then [x] else []
  }

  // ---------------------------------------------------------------------------
  // identify_critical_alerts
  // ---------------------------------------------------------------------------

  /** The three alert priorities, highest first. */
  datatype AlertKind = Homocysteine | Ferritin | VitaminD

  /** The red (🔴) or yellow (🟡) icon of an alert. */
  datatype Icon = Red | Yellow

  /** The marker line of an alert, `{name}: {value} {unit}`, before the number is formatted. */
  datatype Reading = Reading(name: string, value: real, unit: string)

  /**
   * An alert: its title, icon, marker reading and the optimal range it is shown
   * against. The description is a fixed sentence per kind.
   */
  datatype Alert = Alert(kind: AlertKind, title: string, icon: Icon, marker: Reading, optimalRange: string)

  function Priority(kind: AlertKind): nat {
    match kind
    case Homocysteine => 0
    case Ferritin => 1
    case VitaminD => 2
  }

  /** Which markers each alert looks at. */
  function Matches(kind: AlertKind): Biomarker -> bool {
    match kind
    case Homocysteine => IsHomocysteine
    case Ferritin => IsFerritin
    case VitaminD => IsVitaminD
  }

  const CriticalHomocysteineTitle: string := "Kritieke Afwijking"
  const HighHomocysteineTitle: string := "Verhoogd HomocysteÏne"

  function Title(kind: AlertKind, status: BloodParser.Status): string {
    match kind
    case Homocysteine => if status.Critical? then CriticalHomocysteineTitle else HighHomocysteineTitle
    case Ferritin => "Verhoogd Inflammatieprofiel"
    case VitaminD => "Vitamine D Deficiëntie"
  }

  function IconOf(kind: AlertKind, status: BloodParser.Status): Icon {
    if kind == VitaminD then Yellow
    else if status.Critical? then Red
    else Yellow
  }

  function AlertFor(kind: AlertKind, b: Biomarker): Alert {
    Alert(kind, Title(kind, b.status), IconOf(kind, b.status), Reading(b.name, b.value, b.unit), b.optimalRange)
  }

  /** The alert of one priority: raised by the first marker of its kind when that one is out of range. */
  function KindAlert(bs: seq<Biomarker>, kind: AlertKind): (r: seq<Alert>)
    ensures |r| <= 1
    ensures forall k :: 0 <= k < |r| ==> r[k].kind == kind
  {
    match FirstMarker(bs, Matches(kind))
    case Some(b) => Optional(OutOfRange(b), AlertFor(kind, b))
    case None => []
  }

  /** identify_critical_alerts: homocysteine, ferritin, vitamin D, capped at three. */
  function IdentifyCriticalAlerts(bs: seq<Biomarker>): (r: seq<Alert>)
    ensures |r| <= 3
    ensures forall i, j :: 0 <= i < j < |r| ==> Priority(r[i].kind) < Priority(r[j].kind)
  {
    var h, f, v := KindAlert(bs, Homocysteine), KindAlert(bs, Ferritin), KindAlert(bs, VitaminD);
    var alerts := h + f + v;
    var n := if |alerts| < 3 then |alerts| else 3;
    InPriorityOrder(h, f, v, n);
    alerts[..n]
  }

  /** At most one alert of each kind, concatenated by priority and cut anywhere, are in strictly increasing priority. */
  lemma InPriorityOrder(h: seq<Alert>, f: seq<Alert>, v: seq<Alert>, n: nat)
    requires n <= |h + f + v|
    requires |h| <= 1 && |f| <= 1 && |v| <= 1
    requires forall k :: 0 <= k < |h| ==> h[k].kind == Homocysteine
    requires forall k :: 0 <= k < |f| ==> f[k].kind == Ferritin
    requires forall k :: 0 <= k < |v| ==> v[k].kind == VitaminD
    ensures var r := (h + f + v)[..n]; forall i, j :: 0 <= i < j < |r| ==> Priority(r[i].kind) < Priority(r[j].kind)
  {
    var r := h + f + v;
    forall i | 0 <= i < |r|
      ensures Priority(r[i].kind) == if i < |h| then 0 else if i < |h| + |f| then 1 else 2
    {
      if i < |h| {
        assert r[i] == h[i];
      } else if i < |h| + |f| {
        assert r[i] == f[i - |h|];
      } else {
        assert r[i] == v[i - |h| - |f|];
      }
    }
  }

  // ---------------------------------------------------------------------------
  // The rule table shared by the protocol and the plan
  // ---------------------------------------------------------------------------

  /** One row of a rule table: whether its condition holds, and what it adds. */
  datatype Rule<T> = Rule(fires: bool, effect: T)

  /** The effects of the rules whose condition holds, in table order. */
  function Fired<T>(rules: seq<Rule<T>>): (r: seq<T>)
    ensures |r| <= |rules|
    decreases |rules|
  {
    if rules == [] then []
    else Optional(rules[0].fires, rules[0].effect) + Fired(rules[1..])
  }

  /** An effect is produced exactly when some rule with that effect fires. */
  lemma {:induction false} FiredMember<T>(rules: seq<Rule<T>>, x: T)
    ensures x in Fired(rules) <==> exists k :: 0 <= k < |rules| && rules[k].fires && rules[k].effect == x
    decreases |rules|
  {
    if rules != [] {
      FiredMember(rules[1..], x);
      if x in Fired(rules[1..]) {
        var k :| 1 <= k + 1 < |rules| && rules[1..][k].fires && rules[1..][k].effect == x;
        assert rules[k + 1].fires && rules[k + 1].effect == x;
      }
      if exists k :: 0 <= k < |rules| && rules[k].fires && rules[k].effect == x {
        var k :| 0 <= k < |rules| && rules[k].fires && rules[k].effect == x;
        if k > 0 {
          assert rules[1..][k - 1] == rules[k];
        }
      }
    }
  }

  /** A table where exactly one rule fires adds that rule's effect alone. */
  lemma {:induction false} FiredOnly<T>(rules: seq<Rule<T>>, i: nat)
    requires i < |rules|
    requires forall k :: 0 <= k < |rules| ==> (rules[k].fires <==> k == i)
    ensures Fired(rules) == [rules[i].effect]
    decreases |rules|
  {
    if i == 0 {
      NothingFires(rules[1..]);
    } else {
      FiredOnly(rules[1..], i - 1);
    }
  }

  /** Splitting a table splits what it fires. */
  lemma {:induction false} FiredAppend<T>(a: seq<Rule<T>>, b: seq<Rule<T>>)
    ensures Fired(a + b) == Fired(a) + Fired(b)
    decreases |a|
  {
    if a != [] {
      assert (a + b)[0] == a[0] && (a + b)[1..] == a[1..] + b;
      FiredAppend(a[1..], b);
      calc {
        Fired(a + b);
        Optional(a[0].fires, a[0].effect) + Fired(a[1..] + b);
        Optional(a[0].fires, a[0].effect) + (Fired(a[1..]) + Fired(b));
        (Optional(a[0].fires, a[0].effect) + Fired(a[1..])) + Fired(b);
        Fired(a) + Fired(b);
      }
    } else {
      assert a + b == b;
    }
  }

  // ---------------------------------------------------------------------------
  // generate_supplement_protocol
  // ---------------------------------------------------------------------------

  predicate IsPemtTT(v: Variant) { v.gene == "PEMT" && v.genotype == "TT" }

  predicate IsBhmtIssue(v: Variant) { v.gene == "BHMT" && (v.severity.Warning? || v.severity.Critical?) }

  predicate IsMthfr(v: Variant) { v.gene == "MTHFR" }

  /** CBS upregulation as the protocol tests it: gene CBS, `AA` in the genotype and `rs234706` in the rs number. */
  predicate IsCbsUpregulation(v: Variant) {
    v.gene == "CBS" && Contains(v.genotype, "AA") && Contains(v.rsNumber, "rs234706")
  }

  predicate IsSlowComt(v: Variant) { v.gene == "COMT" && (v.severity.Warning? || v.severity.Info?) }

  predicate IsVdr(v: Variant) { v.gene == "VDR" }

  predicate IsLowVitaminD(b: Biomarker) { IsVitaminD(b) && OutOfRange(b) }

  predicate IsHighHomocysteine(b: Biomarker) { IsHomocysteine(b) && b.status.Critical? }

  /** What the protocol rules look at, detected once from the inputs. */
  datatype ProtocolFindings = ProtocolFindings(
    pemtTT: bool,
    bhmtIssues: bool,
    mthfr: bool,
    cbsUpregulation: bool,
    comtSlow: bool,
    vdrVariants: bool,
    lowVitaminD: bool,
    highHomocysteine: bool)

  /**
   * The findings of held_dashboard_generator.py's `any(...)` tests. Variant
   * findings need a variant and marker findings a marker. A variant the
   * protocol counts as CBS upregulation also passes the plan's looser CBS test.
   */
  function DetectProtocolFindings(variants: seq<Variant>, biomarkers: seq<Biomarker>): (r: ProtocolFindings)
    ensures variants == [] ==> !r.pemtTT && !r.bhmtIssues && !r.mthfr && !r.cbsUpregulation && !r.comtSlow && !r.vdrVariants
    ensures biomarkers == [] ==> !r.lowVitaminD && !r.highHomocysteine
    ensures r.cbsUpregulation ==> Any(variants, IsCbsAA)
  {
    ProtocolFindings(
      Any(variants, IsPemtTT),
      Any(variants, IsBhmtIssue),
      Any(variants, IsMthfr),
      Any(variants, IsCbsUpregulation),
      Any(variants, IsSlowComt),
      Any(variants, IsVdr),
      Any(biomarkers, IsLowVitaminD),
      Any(biomarkers, IsHighHomocysteine))
  }

  /** The priority tier printed on a supplement. */
  datatype Badge = Kern | Kritiek | Essentieel | Support | Fase2

  /**
   * The sentences a reason is joined from (with single spaces, by the renderer).
   * Only the current vitamin D value varies with the input.
   */
  datatype Reason =
    | NoEndogenousCholine
    | BhmtShortcutSupport
    | HomocysteineConversion
    | CurrentVitaminD(value: real, unit: string)
    | LiquidFormWithK2
    | VdrNeedsHigherDose
    | ZincCofactor
    | ComtSupport
    | SameCofactor
    | StartAfterSixWeeks
    | MthfrActiveForms
    | P5PForCbs
    | TmgShortcut

  /** The six supplements the protocol can schedule, in the order their rules are declared. */
  datatype Product = Choline | VitaminD3K2 | Zinc | Magnesium | BComplex | Tmg

  /**
   * One protocol entry: its time of day, the supplement, the reason and the
   * badge. The time label, name and dosage are fixed text per supplement.
   */
  datatype Supplement = Supplement(time: string, product: Product, reason: seq<Reason>, badge: Badge)

  function ProductName(p: Product): string {
    match p
    case Choline => "Fosfatidylcholine"
    case VitaminD3K2 => "Vitamine D3 + K2 (vloeibaar)"
    case Zinc => "Zink Bisglycinaat"
    case Magnesium => "Magnesium Glycinaat"
    case BComplex => "Methylated B-Complex"
    case Tmg => "Trimethylglycine (TMG/Betaine)"
  }

  function TimeLabel(p: Product): string {
    match p
    case Choline => "Ochtend (nuchter)"
    case VitaminD3K2 => "Bij Ontbijt"
    case Zinc => "Lunch"
    case Magnesium => "Middag"
    case BComplex => "Avond"
    case Tmg => "Voor Bed"
  }

  function Dosage(p: Product): string {
    match p
    case Choline => "600-800 mg (Sunflower Lecithin vorm)"
    case VitaminD3K2 => "4000-5000 IU D3 + 100 mcg K2-MK7"
    case Zinc => "25-30 mg elementair zink"
    case Magnesium => "400 mg elementair magnesium"
    case BComplex => "5-MTHF 400mcg, Methylcobalamin 500mcg, P5P 25mg, R5P 25mg"
    case Tmg => "500-1000 mg"
  }

  /** The supplements of the six rules, in rule order. */
  const Products: seq<Product> := [Choline, VitaminD3K2, Zinc, Magnesium, BComplex, Tmg]

  /** The times of the six rules, in rule order. */
  const RuleTimes: seq<string> := ["07:30", "08:00", "12:30", "15:00", "20:00", "22:00"]

  /** The reason of the vitamin D entry: the current value when a vitamin D marker was measured. */
  function VitaminDReason(f: ProtocolFindings, marker: Option<Biomarker>): seq<Reason> {
    (match marker
     case Some(b) => [CurrentVitaminD(b.value, b.unit)]
     case None => [])
    + [LiquidFormWithK2] + Optional(f.vdrVariants, VdrNeedsHigherDose)
  }

  function CholineEntry(f: ProtocolFindings): Supplement {
    Supplement("07:30", Choline,
               Optional(f.pemtTT, NoEndogenousCholine) + Optional(f.bhmtIssues, BhmtShortcutSupport) + [HomocysteineConversion],
               Kern)
  }

  function VitaminDEntry(f: ProtocolFindings, marker: Option<Biomarker>): Supplement {
    Supplement("08:00", VitaminD3K2, VitaminDReason(f, marker), if f.lowVitaminD then Kritiek else Essentieel)
  }

  const ZincEntry: Supplement := Supplement("12:30", Zinc, [ZincCofactor], Essentieel)

  function MagnesiumEntry(f: ProtocolFindings): Supplement {
    Supplement("15:00", Magnesium, Optional(f.comtSlow, ComtSupport) + [SameCofactor], Support)
  }

  /** The B-complex entry; under CBS upregulation it is deferred to phase 2. */
  function BComplexEntry(cbsUpregulation: bool): Supplement {
    Supplement("20:00", BComplex,
               Optional(cbsUpregulation, StartAfterSixWeeks) + [MthfrActiveForms] + Optional(cbsUpregulation, P5PForCbs),
               if cbsUpregulation then Fase2 else Kern)
  }

  const TmgEntry: Supplement := Supplement("22:00", Tmg, [TmgShortcut], Kern)

  /** The six protocol rules, in the order the source declares them. */
  function ProtocolTable(f: ProtocolFindings, vitaminDMarker: Option<Biomarker>): (t: seq<Rule<Supplement>>)
    ensures |t| == 6
    ensures forall k :: 0 <= k < 6 ==> t[k].effect.product == Products[k] && t[k].effect.time == RuleTimes[k]
  {
    [ Rule(f.pemtTT || f.bhmtIssues, CholineEntry(f)),
      Rule(f.lowVitaminD || f.vdrVariants, VitaminDEntry(f, vitaminDMarker)),
      Rule(f.bhmtIssues || f.mthfr || f.highHomocysteine, ZincEntry),
      Rule(f.comtSlow || f.mthfr, MagnesiumEntry(f)),
      Rule(f.mthfr, BComplexEntry(f.cbsUpregulation)),
      Rule(f.bhmtIssues || f.cbsUpregulation, TmgEntry) ]
  }

  /** The entries the rules add, before sorting. */
  function ProtocolEntries(variants: seq<Variant>, biomarkers: seq<Biomarker>): seq<Supplement> {
    Fired(ProtocolTable(DetectProtocolFindings(variants, biomarkers), FirstMarker(biomarkers, IsVitaminD)))
  }

  /** Times never decrease along the list. */
  predicate SortedByTime(s: seq<Supplement>) {
    forall i, j :: 0 <= i < j < |s| ==> !Before(s[j].time, s[i].time)
  }

  /** Insert e before the first entry whose time is not earlier than its own. */
  function Insert(e: Supplement, s: seq<Supplement>): (r: seq<Supplement>)
    ensures multiset(r) == multiset(s) + multiset{e}
    decreases |s|
  {
    if s == [] || !Before(s[0].time, e.time) then [e] + s
    else
      assert s == [s[0]] + s[1..];
      [s[0]] + Insert(e, s[1..])
  }

  lemma {:induction false} InsertSorted(e: Supplement, s: seq<Supplement>)
    requires SortedByTime(s)
    ensures SortedByTime(Insert(e, s))
    decreases |s|
  {
    var r := Insert(e, s);
    if s == [] || !Before(s[0].time, e.time) {
      forall j | 0 <= j < |s|
        ensures !Before(s[j].time, e.time)
      {
        if j > 0 {
          NotBeforeTransitive(e.time, s[0].time, s[j].time);
        }
      }
      assert forall j :: 1 <= j < |r| ==> r[j] == s[j - 1];
    } else {
      var rest := Insert(e, s[1..]);
      InsertSorted(e, s[1..]);
      forall j | 0 <= j < |rest|
        ensures !Before(rest[j].time, s[0].time)
      {
        assert rest[j] in multiset(rest);
        if rest[j] == e {
          BeforeAsymmetric(s[0].time, e.time);
        } else {
          assert rest[j] in multiset(s[1..]);
          var k :| 0 <= k < |s[1..]| && s[1..][k] == rest[j];
          assert s[k + 1] == rest[j];
        }
      }
      assert r == [s[0]] + rest;
    }
  }

  /** Python's sorted(protocol, key=lambda x: x['time']): an insertion sort, stable like Python's. */
  function SortByTime(s: seq<Supplement>): (r: seq<Supplement>)
    ensures multiset(r) == multiset(s)
    ensures SortedByTime(r)
    decreases |s|
  {
    if s == [] then []
    else
      assert s == [s[0]] + s[1..];
      InsertSorted(s[0], SortByTime(s[1..]));
      Insert(s[0], SortByTime(s[1..]))
  }

  /** Sorting a list that is already in time order leaves it as it is. */
  lemma {:induction false} SortSorted(s: seq<Supplement>)
    requires SortedByTime(s)
    ensures SortByTime(s) == s
    decreases |s|
  {
    if s != [] {
      assert SortedByTime(s[1..]) by {
        assert forall i :: 0 <= i < |s[1..]| ==> s[1..][i] == s[i + 1];
      }
      SortSorted(s[1..]);
      assert s == [s[0]] + s[1..];
    }
  }

  /** generate_supplement_protocol: the entries of the firing rules, sorted by time. */
  function GenerateSupplementProtocol(variants: seq<Variant>, biomarkers: seq<Biomarker>): (r: seq<Supplement>)
    ensures SortedByTime(r)
    ensures multiset(r) == multiset(ProtocolEntries(variants, biomarkers))
  {
    SortByTime(ProtocolEntries(variants, biomarkers))
  }

  // ---------------------------------------------------------------------------
  // generate_3month_plan
  // ---------------------------------------------------------------------------

  /** The actions of the three phases; the icon, title and description are fixed text per action. */
  datatype Action =
    | CholinePathway | NormaliseVitaminD | InflammationWorkup | StartComtSupport
    | RetestWeek6 | AddBComplex | OptimiseDiet | AntioxidantSupport
    | SymptomTracking | AdjustDosage | OptimiseLifestyle | RetestWeek12

  function ActionIcon(a: Action): string {
    match a
    case CholinePathway => "🥚"
    case NormaliseVitaminD => "☀️"
    case InflammationWorkup => "🧘"
    case StartComtSupport => "🧠"
    case RetestWeek6 => "📊"
    case AddBComplex => "💊"
    case OptimiseDiet => "🥬"
    case AntioxidantSupport => "🔬"
    case SymptomTracking => "🎯"
    case AdjustDosage => "⚖️"
    case OptimiseLifestyle => "🔄"
    case RetestWeek12 => "📋"
  }

  function ActionTitle(a: Action): string {
    match a
    case CholinePathway => "Choline Pathway Herstellen (PRIORITEIT)"
    case NormaliseVitaminD => "Vitamine D Normaliseren"
    case InflammationWorkup => "Inflammatie Onderzoek"
    case StartComtSupport => "COMT Support Starten"
    case RetestWeek6 => "Hertest & Evaluatie (Week 6)"
    case AddBComplex => "B-Complex Toevoegen (NA Week 6)"
    case OptimiseDiet => "Voeding Optimaliseren"
    case AntioxidantSupport => "Antioxidant Support"
    case SymptomTracking => "Symptoom Tracking"
    case AdjustDosage => "Dosering Aanpassen"
    case OptimiseLifestyle => "Lifestyle Optimalisatie"
    case RetestWeek12 => "Week 12: Complete Hertest"
  }

  /** The phase 1 warning not to start the methylated B-complex before week 6. */
  datatype PlanWarning = NoBComplexBeforeWeek6

  datatype Phase = Phase(name: string, duration: string, actions: seq<Action>, warnings: seq<PlanWarning>)

  predicate IsInflammation(b: Biomarker) { (IsFerritin(b) || NameMentions(b, "crp")) && OutOfRange(b) }

  /** CBS upregulation as the plan tests it: gene CBS and `AA` in the genotype; the rs number is not looked at. */
  predicate IsCbsAA(v: Variant) { v.gene == "CBS" && Contains(v.genotype, "AA") }

  predicate IsComt(v: Variant) { v.gene == "COMT" }

  /** The four phase 1 actions and their conditions, in order; vitamin D is always there. */
  function Phase1Table(variants: seq<Variant>, biomarkers: seq<Biomarker>): seq<Rule<Action>> {
    [ Rule(Any(biomarkers, IsHighHomocysteine), CholinePathway),
      Rule(true, NormaliseVitaminD),
      Rule(Any(biomarkers, IsInflammation), InflammationWorkup),
      Rule(Any(variants, IsComt), StartComtSupport) ]
  }

  const Phase2: Phase := Phase("Fase 2: Methylatie Optimaliseren", "Week 6-8",
    [RetestWeek6, AddBComplex, OptimiseDiet, AntioxidantSupport], [])

  const Phase3: Phase := Phase("Fase 3: Fine-tuning & Monitoring", "Week 8-12",
    [SymptomTracking, AdjustDosage, OptimiseLifestyle, RetestWeek12], [])

  /** generate_3month_plan: the input-dependent phase 1, then the two fixed phases. */
  function Generate3MonthPlan(variants: seq<Variant>, biomarkers: seq<Biomarker>): (plan: seq<Phase>)
    ensures |plan| == 3
    ensures plan[1] == Phase2 && plan[2] == Phase3
  {
    var phase1 := Phase("Fase 1: Fundament Leggen", "Week 1-6",
                        Fired(Phase1Table(variants, biomarkers)),
                        Optional(Any(variants, IsCbsAA), NoBComplexBeforeWeek6));
    [phase1, Phase2, Phase3]
  }

  // ---------------------------------------------------------------------------
  // generate_dashboard, without the HTML
  // ---------------------------------------------------------------------------

  /** Everything the renderer receives. */
  datatype Report = Report(
    biomarkers: seq<Biomarker>,
    variants: seq<Variant>,
    alerts: seq<Alert>,
    protocol: seq<Supplement>,
    plan: seq<Phase>)

  function ReportOf(biomarkers: seq<Biomarker>, variants: seq<Variant>): Report {
    Report(biomarkers, variants, IdentifyCriticalAlerts(biomarkers),
           GenerateSupplementProtocol(variants, biomarkers), Generate3MonthPlan(variants, biomarkers))
  }

  /**
   * What generate_dashboard hands to build_html for the two reports: at most
   * three alerts, a time-sorted protocol and three phases; two blank reports
   * give no records, no alerts, no supplements and phase 1 with the vitamin D
   * action alone.
   */
  function DashboardSpec(bloodText: string, dnaText: string): (r: Report)
    ensures |r.alerts| <= 3 && |r.plan| == 3 && SortedByTime(r.protocol)
    ensures IsBlank(bloodText) && IsBlank(dnaText) ==>
      r.biomarkers == [] && r.variants == [] && r.alerts == [] && r.protocol == [] &&
      r.plan[0].actions == [NormaliseVitaminD] && r.plan[0].warnings == []
  {
    var biomarkers := BloodParser.ParseSpec(bloodText);
    var variants := DnaParser.ParseSpec(dnaText);
    assert IsBlank(bloodText) && IsBlank(dnaText) ==> biomarkers == [] && variants == [];
    EmptyReport();
    ReportOf(biomarkers, variants)
  }

  /** No markers and no variants: no alerts, no supplements, phase 1 with the vitamin D action alone. */
  lemma EmptyReport()
    ensures var r := ReportOf([], []);
      r.alerts == [] && r.protocol == [] && r.plan[0].actions == [NormaliseVitaminD] && r.plan[0].warnings == []
  {
    EmptyProtocol();
    EmptyPlan();
    AlertsUncapped([]);
  }

  /** generate_dashboard up to the HTML: parse both reports, then run the three rule sets. */
  method GenerateDashboard(bloodText: string, dnaText: string) returns (report: Report)
    ensures report == DashboardSpec(bloodText, dnaText)
  {
    var biomarkers := BloodParser.Parse(bloodText);
    var variants := DnaParser.Parse(dnaText);
    var alerts := IdentifyCriticalAlerts(biomarkers);
    var protocol := GenerateSupplementProtocol(variants, biomarkers);
    var plan := Generate3MonthPlan(variants, biomarkers);
    report := Report(biomarkers, variants, alerts, protocol, plan);
  }

  // ---------------------------------------------------------------------------
  // Properties of identify_critical_alerts
  // ---------------------------------------------------------------------------

  /** The alerts before the cap: one optional alert per priority. */
  lemma AlertsUncapped(bs: seq<Biomarker>)
    ensures IdentifyCriticalAlerts(bs) == KindAlert(bs, Homocysteine) + KindAlert(bs, Ferritin) + KindAlert(bs, VitaminD)
  {
    var alerts := KindAlert(bs, Homocysteine) + KindAlert(bs, Ferritin) + KindAlert(bs, VitaminD);
    assert alerts[..|alerts|] == alerts;
  }

  /** The alert of one priority is there exactly when the first marker of its kind is out of range. */
  lemma KindAlertIff(bs: seq<Biomarker>, kind: AlertKind)
    ensures var m := FirstMarker(bs, Matches(kind));
      && (KindAlert(bs, kind) != [] <==> m.Some? && OutOfRange(m.value))
      && (KindAlert(bs, kind) != [] ==> KindAlert(bs, kind) == [AlertFor(kind, m.value)])
  {
  }

  /** Whether the alerts hold one of the given kind. */
  predicate Raises(r: seq<Alert>, kind: AlertKind) {
    exists i :: 0 <= i < |r| && r[i].kind == kind
  }

  /**
   * An alert of a kind is raised exactly when the first marker whose name
   * mentions that kind's term exists and is out of range (warning or critical);
   * later markers of the same kind are not consulted.
   */
  lemma AlertRaisedIff(bs: seq<Biomarker>, kind: AlertKind)
    ensures var m := FirstMarker(bs, Matches(kind));
      Raises(IdentifyCriticalAlerts(bs), kind) <==> m.Some? && OutOfRange(m.value)
  {
    AlertsUncapped(bs);
    KindAlertIff(bs, kind);
    var h, f, v := KindAlert(bs, Homocysteine), KindAlert(bs, Ferritin), KindAlert(bs, VitaminD);
    RaisesAppend(h + f, v, kind);
    RaisesAppend(h, f, kind);
    RaisesKind(bs, Homocysteine, kind);
    RaisesKind(bs, Ferritin, kind);
    RaisesKind(bs, VitaminD, kind);
  }

  lemma RaisesAppend(a: seq<Alert>, b: seq<Alert>, kind: AlertKind)
    ensures Raises(a + b, kind) <==> Raises(a, kind) || Raises(b, kind)
  {
    var r := a + b;
    if Raises(r, kind) {
      var i :| 0 <= i < |r| && r[i].kind == kind;
      if i < |a| {
        assert r[i] == a[i];
      } else {
        assert r[i] == b[i - |a|];
      }
    }
    if Raises(a, kind) {
      var i :| 0 <= i < |a| && a[i].kind == kind;
      assert r[i] == a[i];
    }
    if Raises(b, kind) {
      var i :| 0 <= i < |b| && b[i].kind == kind;
      assert r[|a| + i] == b[i];
    }
  }

  /** The alert of one priority raises that kind and no other. */
  lemma RaisesKind(bs: seq<Biomarker>, k: AlertKind, kind: AlertKind)
    ensures Raises(KindAlert(bs, k), kind) <==> k == kind && KindAlert(bs, k) != []
  {
    var r := KindAlert(bs, k);
    if r != [] {
      assert r[0].kind == k;
    }
  }

  /**
   * Every alert shows the first marker of its kind: its name, value and unit,
   * and its optimal range. Homocysteine is titled "Kritieke Afwijking" and red
   * exactly when critical; ferritin is red exactly when critical; vitamin D is
   * always yellow.
   */
  lemma AlertDetails(bs: seq<Biomarker>, i: nat)
    requires i < |IdentifyCriticalAlerts(bs)|
    ensures var a := IdentifyCriticalAlerts(bs)[i];
      var m := FirstMarker(bs, Matches(a.kind));
      && m.Some? && OutOfRange(m.value)
      && a.marker == Reading(m.value.name, m.value.value, m.value.unit)
      && a.optimalRange == m.value.optimalRange
      && (a.kind == Homocysteine ==> (a.title == CriticalHomocysteineTitle <==> m.value.status.Critical?))
      && (a.kind == Homocysteine ==> (a.icon == Red <==> m.value.status.Critical?))
      && (a.kind == Ferritin ==> (a.icon == Red <==> m.value.status.Critical?))
      && (a.kind == VitaminD ==> a.icon == Yellow)
  {
    AlertsUncapped(bs);
    var h, f, v := KindAlert(bs, Homocysteine), KindAlert(bs, Ferritin), KindAlert(bs, VitaminD);
    var r := h + f + v;
    if i < |h| {
      assert r[i] == h[i];
    } else if i < |h| + |f| {
      assert r[i] == f[i - |h|];
    } else {
      assert r[i] == v[i - |h| - |f|];
    }
  }

  /** Markers none of whose names mention the three terms raise no alert, however bad their status. */
  lemma UnrelatedMarkersRaiseNothing(bs: seq<Biomarker>)
    requires forall k :: 0 <= k < |bs| ==> !IsHomocysteine(bs[k]) && !IsFerritin(bs[k]) && !IsVitaminD(bs[k])
    ensures IdentifyCriticalAlerts(bs) == []
  {
    AlertsUncapped(bs);
    assert !Any(bs, IsHomocysteine) && !Any(bs, IsFerritin) && !Any(bs, IsVitaminD);
  }

  /** A single out-of-range ferritin marker gives exactly one alert: the ferritin one. */
  lemma LoneFerritinAlert(b: Biomarker)
    requires IsFerritin(b) && !IsHomocysteine(b) && !IsVitaminD(b) && OutOfRange(b)
    ensures IdentifyCriticalAlerts([b]) ==
      [Alert(Ferritin, "Verhoogd Inflammatieprofiel", if b.status.Critical? then Red else Yellow,
             Reading(b.name, b.value, b.unit), b.optimalRange)]
  {
    AlertsUncapped([b]);
    assert !Any([b], IsHomocysteine) && !Any([b], IsVitaminD);
    assert FirstMarker([b], IsFerritin) == Some(b);
  }

  // ---------------------------------------------------------------------------
  // Properties of generate_supplement_protocol
  // ---------------------------------------------------------------------------

  /** Whether the protocol holds an entry for the supplement. */
  predicate Recommends(r: seq<Supplement>, p: Product) {
    exists k :: 0 <= k < |r| && r[k].product == p
  }

  /** The six rule times strictly increase. */
  lemma RuleTimesIncrease()
    ensures forall i, j :: 0 <= i < j < |RuleTimes| ==> Before(RuleTimes[i], RuleTimes[j])
  {
    assert Before("07:30", "08:00") && Before("08:00", "12:30") && Before("12:30", "15:00");
    assert Before("15:00", "20:00") && Before("20:00", "22:00");
    forall i, j | 0 <= i < j < |RuleTimes|
      ensures Before(RuleTimes[i], RuleTimes[j])
    {
      BeforeChain(i, j);
    }
  }

  lemma {:induction false} BeforeChain(i: nat, j: nat)
    requires i < j < |RuleTimes|
    requires forall k :: 0 <= k < |RuleTimes| - 1 ==> Before(RuleTimes[k], RuleTimes[k + 1])
    ensures Before(RuleTimes[i], RuleTimes[j])
    decreases j - i
  {
    if j > i + 1 {
      BeforeChain(i + 1, j);
      BeforeTransitive(RuleTimes[i], RuleTimes[i + 1], RuleTimes[j]);
    }
  }

  /** The six supplements are shown under six different names. */
  lemma ProductNamesDistinct(p: Product, q: Product)
    requires p != q
    ensures ProductName(p) != ProductName(q)
  {
    if (p == Choline && q == Zinc) || (p == Zinc && q == Choline) {
      assert ProductName(Choline)[0] != ProductName(Zinc)[0];
    }
  }

  /** A table whose effects' times strictly increase fires entries in strictly increasing time. */
  lemma {:induction false} FiredInTimeOrder(rules: seq<Rule<Supplement>>)
    requires forall i, j :: 0 <= i < j < |rules| ==> Before(rules[i].effect.time, rules[j].effect.time)
    ensures forall i, j :: 0 <= i < j < |Fired(rules)| ==> Before(Fired(rules)[i].time, Fired(rules)[j].time)
    decreases |rules|
  {
    if rules != [] {
      var tail := rules[1..];
      FiredInTimeOrder(tail);
      var head, rest := Optional(rules[0].fires, rules[0].effect), Fired(tail);
      forall k | 0 <= k < |rest|
        ensures Before(rules[0].effect.time, rest[k].time)
      {
        FiredMember(tail, rest[k]);
        var m :| 0 <= m < |tail| && tail[m].fires && tail[m].effect == rest[k];
        assert tail[m] == rules[m + 1];
      }
      assert Fired(rules) == head + rest;
    }
  }

  /** A table where nothing fires adds nothing. */
  lemma {:induction false} NothingFires<T>(rules: seq<Rule<T>>)
    requires forall k :: 0 <= k < |rules| ==> !rules[k].fires
    ensures Fired(rules) == []
    decreases |rules|
  {
    if rules != [] {
      NothingFires(rules[1..]);
    }
  }

  /**
   * The rule times 07:30 < 08:00 < 12:30 < 15:00 < 20:00 < 22:00 are declared
   * in order, so sorting changes nothing: the protocol is the entries of the
   * firing rules in rule order, with strictly increasing times.
   */
  lemma ProtocolInRuleOrder(variants: seq<Variant>, biomarkers: seq<Biomarker>)
    ensures GenerateSupplementProtocol(variants, biomarkers) == ProtocolEntries(variants, biomarkers)
    ensures var r := GenerateSupplementProtocol(variants, biomarkers);
      |r| <= 6 && forall i, j :: 0 <= i < j < |r| ==> Before(r[i].time, r[j].time)
  {
    var t := ProtocolTable(DetectProtocolFindings(variants, biomarkers), FirstMarker(biomarkers, IsVitaminD));
    RuleTimesIncrease();
    FiredInTimeOrder(t);
    var r := Fired(t);
    forall i, j | 0 <= i < j < |r|
      ensures !Before(r[j].time, r[i].time)
    {
      BeforeAsymmetric(r[i].time, r[j].time);
    }
    SortSorted(r);
  }

  /** The protocol names a supplement exactly when the rule of that supplement fires. */
  lemma RecommendsIffFires(f: ProtocolFindings, marker: Option<Biomarker>, i: nat)
    requires i < 6
    ensures Recommends(Fired(ProtocolTable(f, marker)), Products[i]) <==> ProtocolTable(f, marker)[i].fires
  {
    FiredOnce(ProtocolTable(f, marker), i);
  }

  /** In a table of distinct supplements, a supplement is recommended exactly when its own rule fires. */
  lemma FiredOnce(rules: seq<Rule<Supplement>>, i: nat)
    requires i < |rules|
    requires forall j, k :: 0 <= j < k < |rules| ==> rules[j].effect.product != rules[k].effect.product
    ensures Recommends(Fired(rules), rules[i].effect.product) <==> rules[i].fires
  {
    var r := Fired(rules);
    var p := rules[i].effect.product;
    if Recommends(r, p) {
      var k :| 0 <= k < |r| && r[k].product == p;
      FiredMember(rules, r[k]);
    }
    if rules[i].fires {
      FiredMember(rules, rules[i].effect);
      var k :| 0 <= k < |r| && r[k] == rules[i].effect;
    }
  }

  /** Each entry is the entry of the one rule with its name, and that rule fired. */
  lemma EntryFromRule(f: ProtocolFindings, marker: Option<Biomarker>, k: nat)
    requires k < |Fired(ProtocolTable(f, marker))|
    ensures var e := Fired(ProtocolTable(f, marker))[k];
      && (e.product == Choline ==> e == CholineEntry(f))
      && (e.product == VitaminD3K2 ==> e == VitaminDEntry(f, marker))
      && (e.product == Zinc ==> e == ZincEntry)
      && (e.product == Magnesium ==> e == MagnesiumEntry(f))
      && (e.product == BComplex ==> e == BComplexEntry(f.cbsUpregulation))
      && (e.product == Tmg ==> e == TmgEntry)
  {
    var t := ProtocolTable(f, marker);
    var e := Fired(t)[k];
    FiredMember(t, e);
    var i :| 0 <= i < 6 && t[i].fires && t[i].effect == e;
    assert e.product == Products[i];
  }

  /**
   * The six triggers. Choline: PEMT TT, or a BHMT variant that is a warning or
   * critical. Vitamin D: a vitamin D marker out of range, or any VDR variant.
   * Zinc: a BHMT issue, any MTHFR variant, or a critical homocysteine marker.
   * Magnesium: a COMT variant that is a warning or info, or any MTHFR variant.
   * B-complex: any MTHFR variant. TMG: a BHMT issue or CBS upregulation.
   */
  lemma ProtocolTriggers(variants: seq<Variant>, biomarkers: seq<Biomarker>)
    ensures var r := GenerateSupplementProtocol(variants, biomarkers);
      && (Recommends(r, Choline) <==> Any(variants, IsPemtTT) || Any(variants, IsBhmtIssue))
      && (Recommends(r, VitaminD3K2) <==> Any(biomarkers, IsLowVitaminD) || Any(variants, IsVdr))
      && (Recommends(r, Zinc) <==>
            Any(variants, IsBhmtIssue) || Any(variants, IsMthfr) || Any(biomarkers, IsHighHomocysteine))
      && (Recommends(r, Magnesium) <==> Any(variants, IsSlowComt) || Any(variants, IsMthfr))
      && (Recommends(r, BComplex) <==> Any(variants, IsMthfr))
      && (Recommends(r, Tmg) <==> Any(variants, IsBhmtIssue) || Any(variants, IsCbsUpregulation))
  {
    ProtocolInRuleOrder(variants, biomarkers);
    var f, m := DetectProtocolFindings(variants, biomarkers), FirstMarker(biomarkers, IsVitaminD);
    RecommendsIffFires(f, m, 0);
    RecommendsIffFires(f, m, 1);
    RecommendsIffFires(f, m, 2);
    RecommendsIffFires(f, m, 3);
    RecommendsIffFires(f, m, 4);
    RecommendsIffFires(f, m, 5);
  }

  /**
   * The badges and times of the entries: choline (07:30) and TMG (22:00) are
   * KERN, zinc (12:30) ESSENTIEEL, magnesium (15:00) SUPPORT; vitamin D (08:00)
   * is KRITIEK exactly when a vitamin D marker is out of range, else ESSENTIEEL;
   * the B-complex (20:00) is FASE 2 exactly under CBS upregulation, else KERN,
   * and its reason opens with the six-week deferral exactly then.
   */
  lemma ProtocolBadges(variants: seq<Variant>, biomarkers: seq<Biomarker>, k: nat)
    requires k < |GenerateSupplementProtocol(variants, biomarkers)|
    ensures var e := GenerateSupplementProtocol(variants, biomarkers)[k];
      var cbs := Any(variants, IsCbsUpregulation);
      && (e.product == Choline ==> e.badge == Kern && e.time == "07:30")
      && (e.product == VitaminD3K2 ==>
            e.badge == (if Any(biomarkers, IsLowVitaminD) then Kritiek else Essentieel) && e.time == "08:00")
      && (e.product == Zinc ==> e.badge == Essentieel && e.time == "12:30")
      && (e.product == Magnesium ==> e.badge == Support && e.time == "15:00")
      && (e.product == BComplex ==> e.badge == (if cbs then Fase2 else Kern) && e.time == "20:00")
      && (e.product == BComplex ==> |e.reason| > 0 && (e.reason[0] == StartAfterSixWeeks <==> cbs))
      && (e.product == BComplex ==> (StartAfterSixWeeks in e.reason <==> cbs))
      && (e.product == Tmg ==> e.badge == Kern && e.time == "22:00")
  {
    ProtocolInRuleOrder(variants, biomarkers);
    var f, m := DetectProtocolFindings(variants, biomarkers), FirstMarker(biomarkers, IsVitaminD);
    EntryFromRule(f, m, k);
  }

  /**
   * The reasons that name what triggered an entry: choline mentions PEMT
   * exactly when a PEMT TT variant is present and BHMT exactly when a BHMT issue
   * is; vitamin D opens with the current value of the first vitamin D marker
   * when there is one and asks for a higher dose exactly when a VDR variant is
   * present; magnesium mentions COMT exactly when a slow COMT variant is present.
   */
  lemma ProtocolReasons(variants: seq<Variant>, biomarkers: seq<Biomarker>, k: nat)
    requires k < |GenerateSupplementProtocol(variants, biomarkers)|
    ensures var e := GenerateSupplementProtocol(variants, biomarkers)[k];
      var m := FirstMarker(biomarkers, IsVitaminD);
      && (e.product == Choline ==>
            (NoEndogenousCholine in e.reason <==> Any(variants, IsPemtTT))
            && (BhmtShortcutSupport in e.reason <==> Any(variants, IsBhmtIssue)))
      && (e.product == VitaminD3K2 ==>
            |e.reason| > 0
            && (m.Some? ==> e.reason[0] == CurrentVitaminD(m.value.value, m.value.unit))
            && (m.None? ==> e.reason[0] == LiquidFormWithK2)
            && (VdrNeedsHigherDose in e.reason <==> Any(variants, IsVdr)))
      && (e.product == Magnesium ==> (ComtSupport in e.reason <==> Any(variants, IsSlowComt)))
  {
    ProtocolInRuleOrder(variants, biomarkers);
    var f, m := DetectProtocolFindings(variants, biomarkers), FirstMarker(biomarkers, IsVitaminD);
    EntryFromRule(f, m, k);
    EntryReasons(f, m);
  }

  /** The reasons of the entries whose text depends on the findings. */
  lemma EntryReasons(f: ProtocolFindings, m: Option<Biomarker>)
    ensures var r := CholineEntry(f).reason;
      (NoEndogenousCholine in r <==> f.pemtTT) && (BhmtShortcutSupport in r <==> f.bhmtIssues)
    ensures var r := VitaminDEntry(f, m).reason;
      && |r| > 0
      && (m.Some? ==> r[0] == CurrentVitaminD(m.value.value, m.value.unit))
      && (m.None? ==> r[0] == LiquidFormWithK2)
      && (VdrNeedsHigherDose in r <==> f.vdrVariants)
    ensures ComtSupport in MagnesiumEntry(f).reason <==> f.comtSlow
  {
  }

  /** No variants and no markers: no supplements. */
  lemma EmptyProtocol()
    ensures GenerateSupplementProtocol([], []) == []
  {
    var f := DetectProtocolFindings([], []);
    assert !f.pemtTT && !f.bhmtIssues && !f.mthfr && !f.cbsUpregulation;
    assert !f.comtSlow && !f.vdrVariants && !f.lowVitaminD && !f.highHomocysteine;
    NothingFires(ProtocolTable(f, None));
  }

  // ---------------------------------------------------------------------------
  // Properties of generate_3month_plan
  // ---------------------------------------------------------------------------

  /**
   * Always three phases, "Fase 1", "Fase 2", "Fase 3" in that order, for weeks
   * 1-6, 6-8 and 8-12; phases 2 and 3 hold four fixed actions each and no
   * warnings, the same for every input.
   */
  lemma PlanShape(variants: seq<Variant>, biomarkers: seq<Biomarker>, variants': seq<Variant>, biomarkers': seq<Biomarker>)
    ensures var plan := Generate3MonthPlan(variants, biomarkers);
      && |plan| == 3
      && plan[0].name == "Fase 1: Fundament Leggen" && plan[0].duration == "Week 1-6"
      && plan[1].name == "Fase 2: Methylatie Optimaliseren" && plan[1].duration == "Week 6-8"
      && plan[2].name == "Fase 3: Fine-tuning & Monitoring" && plan[2].duration == "Week 8-12"
      && |plan[1].actions| == 4 && plan[1].warnings == []
      && |plan[2].actions| == 4 && plan[2].warnings == []
      && plan[1..] == Generate3MonthPlan(variants', biomarkers')[1..]
  {
  }

  /**
   * Phase 1: the choline action exactly when a homocysteine marker is critical,
   * then vitamin D always, then the inflammation action exactly when a ferritin
   * or CRP marker is out of range, then COMT support exactly when a COMT variant
   * is present; one warning exactly when a CBS variant has `AA` in its genotype.
   */
  lemma Phase1Content(variants: seq<Variant>, biomarkers: seq<Biomarker>)
    ensures var phase1 := Generate3MonthPlan(variants, biomarkers)[0];
      && phase1.actions == Optional(Any(biomarkers, IsHighHomocysteine), CholinePathway)
                           + [NormaliseVitaminD]
                           + Optional(Any(biomarkers, IsInflammation), InflammationWorkup)
                           + Optional(Any(variants, IsComt), StartComtSupport)
      && 1 <= |phase1.actions| <= 4
      && (CholinePathway in phase1.actions <==> Any(biomarkers, IsHighHomocysteine))
      && (InflammationWorkup in phase1.actions <==> Any(biomarkers, IsInflammation))
      && (StartComtSupport in phase1.actions <==> Any(variants, IsComt))
      && NormaliseVitaminD in phase1.actions
      && (|phase1.warnings| == 1 <==> Any(variants, IsCbsAA))
      && (phase1.warnings == [] <==> !Any(variants, IsCbsAA))
  {
    FiredFour(Phase1Table(variants, biomarkers));
  }

  /** A table of four rules fires its four optional effects in order. */
  lemma FiredFour<T>(t: seq<Rule<T>>)
    requires |t| == 4
    ensures Fired(t) == Optional(t[0].fires, t[0].effect) + Optional(t[1].fires, t[1].effect)
                        + Optional(t[2].fires, t[2].effect) + Optional(t[3].fires, t[3].effect)
  {
    assert t[3..][1..] == [];
    assert Fired(t[3..]) == Optional(t[3].fires, t[3].effect);
    assert t[2..][1..] == t[3..];
    assert Fired(t[2..]) == Optional(t[2].fires, t[2].effect) + Fired(t[3..]);
    assert t[1..][1..] == t[2..];
    assert Fired(t[1..]) == Optional(t[1].fires, t[1].effect) + Fired(t[2..]);
  }

  // ---------------------------------------------------------------------------
  // The two CBS upregulation tests
  // ---------------------------------------------------------------------------

  /** Every variant the protocol counts as CBS upregulation, the plan counts too. */
  lemma CbsUpregulationImpliesCbsAA(v: Variant)
    requires IsCbsUpregulation(v)
    ensures IsCbsAA(v)
  {
  }

  /** A text shorter than sub does not contain it. */
  lemma TooShortToContain(s: string, sub: string)
    requires |s| < |sub|
    ensures !Contains(s, sub)
  {
    var r := Find(s, sub);
  }

  /**
   * The converse fails: when some CBS variant has `AA` in its genotype but none
   * is at rs234706 (see CbsAtOtherRs), and an MTHFR variant is present, the plan
   * warns against the B-complex before week 6 while the protocol schedules it
   * as KERN, without the deferral.
   */
  lemma CbsTestsDisagree(variants: seq<Variant>, biomarkers: seq<Biomarker>)
    requires Any(variants, IsCbsAA) && !Any(variants, IsCbsUpregulation) && Any(variants, IsMthfr)
    ensures Generate3MonthPlan(variants, biomarkers)[0].warnings == [NoBComplexBeforeWeek6]
    ensures BComplexEntry(false) in GenerateSupplementProtocol(variants, biomarkers)
    ensures BComplexEntry(false).badge == Kern && StartAfterSixWeeks !in BComplexEntry(false).reason
  {
    ProtocolHasBComplex(variants, biomarkers);
  }

  /** With an MTHFR variant the protocol holds the B-complex entry, deferred exactly under CBS upregulation. */
  lemma ProtocolHasBComplex(variants: seq<Variant>, biomarkers: seq<Biomarker>)
    requires Any(variants, IsMthfr)
    ensures BComplexEntry(Any(variants, IsCbsUpregulation)) in GenerateSupplementProtocol(variants, biomarkers)
  {
    ProtocolInRuleOrder(variants, biomarkers);
    var f := DetectProtocolFindings(variants, biomarkers);
    var t := ProtocolTable(f, FirstMarker(biomarkers, IsVitaminD));
    var e := BComplexEntry(f.cbsUpregulation);
    assert t[4] == Rule(true, e);
    FiredMember(t, e);
  }

  /** A CBS variant with genotype AA at rs4680 passes the plan's test and fails the protocol's. */
  lemma CbsAtOtherRs(v: Variant)
    requires v.gene == "CBS" && v.genotype == "AA" && v.rsNumber == "rs4680"
    ensures IsCbsAA(v) && !IsCbsUpregulation(v)
  {
    ContainsAt("AA", "AA", 0);
    TooShortToContain("rs4680", "rs234706");
  }

  /** CBS rs4680 AA next to an MTHFR variant meets the conditions of CbsTestsDisagree. */
  lemma CbsDisagreementExample(cbs: Variant, mthfr: Variant)
    requires cbs.gene == "CBS" && cbs.genotype == "AA" && cbs.rsNumber == "rs4680" && mthfr.gene == "MTHFR"
    ensures Any([cbs, mthfr], IsCbsAA) && !Any([cbs, mthfr], IsCbsUpregulation) && Any([cbs, mthfr], IsMthfr)
  {
    var vs := [cbs, mthfr];
    CbsAtOtherRs(cbs);
    assert IsCbsAA(vs[0]) && IsMthfr(vs[1]);
  }


  /** A text missing one of the characters of sub does not contain sub. */
  lemma AbsentChar(s: string, sub: string, i: nat)
    requires i < |sub| && sub[i] !in s
    ensures !Contains(s, sub)
  {
    var r := Find(s, sub);
  }

  // ---------------------------------------------------------------------------
  // The cases of the test suite
  // ---------------------------------------------------------------------------

  /** `HomocysteÏne` is a homocysteine marker and nothing else the rules look for. */
  lemma HomocysteineName(b: Biomarker)
    requires b.name == "HomocysteÏne"
    ensures IsHomocysteine(b) && !IsFerritin(b) && !IsVitaminD(b) && !IsInflammation(b)
  {
    var l := Lower(b.name);
    assert l[..8] == "homocyst";
    ContainsAt(l, "homocyst", 0);
    assert 'f' !in l && 'v' !in l && 'r' !in l;
    AbsentChar(l, "ferritin", 0);
    AbsentChar(l, "vitamine d", 0);
    AbsentChar(l, "vitamin d", 0);
    AbsentChar(l, "crp", 1);
  }

  /** A critical homocysteine marker alone gives one alert, titled "Kritieke Afwijking", red, showing the marker. */
  lemma HomocysteineAlertExample(b: Biomarker)
    requires b.name == "HomocysteÏne" && b.status.Critical?
    ensures IdentifyCriticalAlerts([b]) ==
      [Alert(Homocysteine, CriticalHomocysteineTitle, Red, Reading("HomocysteÏne", b.value, b.unit), b.optimalRange)]
  {
    HomocysteineName(b);
    AlertsUncapped([b]);
    assert FirstMarker([b], IsHomocysteine) == Some(b);
    assert !Any([b], IsFerritin) && !Any([b], IsVitaminD);
  }

  /** PEMT TT alone: the protocol is the choline entry only, KERN at 07:30, naming the missing endogenous choline. */
  lemma PemtExample(pemt: Variant)
    requires pemt.gene == "PEMT" && pemt.genotype == "TT"
    ensures GenerateSupplementProtocol([pemt], []) ==
      [Supplement("07:30", Choline, [NoEndogenousCholine, HomocysteineConversion], Kern)]
  {
    assert IsPemtTT([pemt][0]);
    var f := DetectProtocolFindings([pemt], []);
    assert f == ProtocolFindings(true, false, false, false, false, false, false, false);
    var t := ProtocolTable(f, None);
    FiredOnly(t, 0);
    ProtocolInRuleOrder([pemt], []);
    assert GenerateSupplementProtocol([pemt], []) == [CholineEntry(f)];
    assert CholineEntry(f).reason == [NoEndogenousCholine] + [] + [HomocysteineConversion]
                                   == [NoEndogenousCholine, HomocysteineConversion];
  }

  /** CBS rs234706 AA with an MTHFR variant: the B-complex is there, FASE 2, its reason opening with the deferral. */
  lemma CbsUpregulationExample(cbs: Variant, mthfr: Variant)
    requires cbs.gene == "CBS" && cbs.rsNumber == "rs234706" && cbs.genotype == "AA" && mthfr.gene == "MTHFR"
    ensures BComplexEntry(true) in GenerateSupplementProtocol([cbs, mthfr], [])
    ensures BComplexEntry(true).badge == Fase2 && BComplexEntry(true).reason[0] == StartAfterSixWeeks
    ensures Generate3MonthPlan([cbs, mthfr], [])[0].warnings == [NoBComplexBeforeWeek6]
  {
    var vs := [cbs, mthfr];
    ContainsAt("AA", "AA", 0);
    ContainsAt("rs234706", "rs234706", 0);
    assert IsCbsUpregulation(vs[0]) && IsCbsAA(vs[0]) && IsMthfr(vs[1]);
    ProtocolHasBComplex(vs, []);
  }

  /** No variants and no markers: phase 1 is only the vitamin D action, without warnings. */
  lemma EmptyPlan()
    ensures Generate3MonthPlan([], [])[0].actions == [NormaliseVitaminD]
    ensures Generate3MonthPlan([], [])[0].warnings == []
  {
    Phase1Content([], []);
  }

  /** A critical homocysteine marker puts the choline pathway action first in phase 1. */
  lemma HomocysteinePlanExample(b: Biomarker)
    requires b.name == "HomocysteÏne" && b.status.Critical?
    ensures Generate3MonthPlan([], [b])[0].actions == [CholinePathway, NormaliseVitaminD]
  {
    HomocysteineName(b);
    Phase1Content([], [b]);
    assert Any([b], IsHighHomocysteine) by { assert IsHighHomocysteine([b][0]); }
    assert !Any([b], IsInflammation);
  }

  /**
   * The dashboard of the test suite's blood line and an empty DNA report: the
   * parsed record, one critical homocysteine alert, zinc as the only supplement
   * (for the high homocysteine), and the choline and vitamin D actions.
   */
  lemma DashboardExample()
    ensures var report := DashboardSpec(BloodParser.ExampleLine, "");
      && report.biomarkers == [BloodParser.ExampleRecord] && report.variants == []
      && report.alerts == [Alert(Homocysteine, CriticalHomocysteineTitle, Red, Reading("HomocysteÏne", 18.0, "µmol/L"), "<8.0")]
      && report.protocol == [ZincEntry]
      && report.plan[0].actions == [CholinePathway, NormaliseVitaminD]
  {
    var b := BloodParser.ExampleRecord;
    BloodParser.ExampleReport();
    HomocysteineAlertExample(b);
    HomocysteinePlanExample(b);
    HighHomocysteineProtocol(b);
  }

  /** A critical homocysteine marker alone: zinc is the only supplement. */
  lemma HighHomocysteineProtocol(b: Biomarker)
    requires b.name == "HomocysteÏne" && b.status.Critical?
    ensures GenerateSupplementProtocol([], [b]) == [ZincEntry]
  {
    var f := DetectProtocolFindings([], [b]);
    HighHomocysteineFindings(b);
    var t := ProtocolTable(f, FirstMarker([b], IsVitaminD));
    FiredOnly(t, 2);
    ProtocolInRuleOrder([], [b]);
  }

  lemma HighHomocysteineFindings(b: Biomarker)
    requires b.name == "HomocysteÏne" && b.status.Critical?
    ensures DetectProtocolFindings([], [b]) == ProtocolFindings(false, false, false, false, false, false, false, true)
    ensures FirstMarker([b], IsVitaminD) == None
  {
    HomocysteineName(b);
    assert IsHighHomocysteine([b][0]);
  }
}

/** The configuration schema: language codes, template categories, domain
    configurations, language mixes, generated-document metadata and generation
    runs, each with the validity its constructor enforces. A checker takes the
    keyword arguments the constructor receives and returns either the typed
    value or the violations it reports, in field order. */
module Models {
  import opened Wrappers
  import opened Text
  import opened Numbers
  import opened Dicts
  import opened YamlValue
  import opened Decimal
  import opened PurePaths

  /** `LanguageCode`: the two supported ISO 639-1 codes, in declaration order. */
  datatype Language = PL | EN

  function Code(l: Language): string {
    match l
    case PL => "pl"
    case EN => "en"
  }

  /** `LanguageCode(s)`: the member whose value is exactly `s`, if any. */
  function ParseLanguage(s: string): (r: Option<Language>)
    ensures forall l: Language :: r == Some(l) <==> Code(l) == s
  {
    if s == "pl" then Some(PL) else if s == "en" then Some(EN) else None
  }

  /** The text listing the valid codes in error messages. */
  const ValidCodes: string := "pl, en"

  /** One value of a faker-variable pool: `str | int | float`. */
  datatype FakerValue = StrValue(s: string) | IntValue(i: int) | FloatValue(x: real)

  datatype TemplateCategory = TemplateCategory(
    name: string,
    weight: real,
    templates: seq<(Language, seq<string>)>,
    fakerVars: seq<(string, seq<FakerValue>)>)

  datatype DomainConfig = DomainConfig(
    domain: string,
    languages: seq<Language>,
    categories: seq<(string, TemplateCategory)>)

  /** `LanguageMix.distribution`: language to probability. */
  type Distribution = seq<(Language, real)>

  /** `GeneratedDocument`; the timestamp is an opaque instant. */
  datatype GeneratedDocument = GeneratedDocument(
    docId: string,
    domain: string,
    category: string,
    language: Language,
    content: string,
    timestamp: int,
    pdfPath: string)

  datatype GenerationConfig = GenerationConfig(
    domain: string,
    count: int,
    languageMix: Distribution,
    outputDir: string,
    seed: Option<int>)

  /** The keyword arguments a `TemplateCategory` is built from: the fields that
      come straight from the domain file are still untyped. */
  datatype CategoryInput = CategoryInput(
    name: string,
    weight: Raw,
    templates: seq<(Language, Raw)>,
    fakerVars: Raw)

  /** The keyword arguments a `DomainConfig` is built from. */
  datatype DomainInput = DomainInput(
    domain: Raw,
    languages: seq<Language>,
    categories: seq<(string, CategoryInput)>)

  datatype ViolationKind =
    | WrongType(expected: string)
    | StringTooShort(minLength: nat)
    | StringTooLong(maxLength: nat)
    | PatternMismatch(pattern: string)
    | LessThanMinimum(lowerBound: real)
    | GreaterThanMaximum(upperBound: real)
    | ListTooShort(minItems: nat)
    | EmptyTemplateList(language: Language)
    | EmptyValuePool(variable: string)
    | NoCategories
    | WeightSumOff(total: real)
    | MissingLanguages(category: string, missing: set<Language>)
    | MixSumOff(mixTotal: real)
    | ProbabilityOutOfRange(mixLanguage: Language, probability: real)
    | NotPdfSuffix(suffix: string)

  /** One reported problem: where (the field path) and what. */
  datatype Violation = Violation(loc: seq<string>, kind: ViolationKind)

  /** The violations of a failed field, none for a valid one. */
  function Errors<T>(r: Result<T, seq<Violation>>): seq<Violation> {
    if r.Ok? then [] else r.error
  }

  /** The same violations, nested under a field path. */
  function Under(prefix: seq<string>, vs: seq<Violation>): (r: seq<Violation>)
    ensures |r| == |vs|
    ensures forall i :: 0 <= i < |vs| ==> r[i] == Violation(prefix + vs[i].loc, vs[i].kind)
  {
    seq(|vs|, i requires 0 <= i < |vs| => Violation(prefix + vs[i].loc, vs[i].kind))
  }

  // ---------------------------------------------------------------- fields

  predicate IsDomainChar(c: char) {
    'a' <= c <= 'z' || c == '_'
  }

  /** The pattern `^[a-z_]+$`. */
  predicate MatchesDomainPattern(s: string) {
    |s| >= 1 && forall k :: 0 <= k < |s| ==> IsDomainChar(s[k])
  }

  const DomainPattern: string := "^[a-z_]+$"

  /** A string field with length bounds and an optional pattern, checked in the
      order minimum length, maximum length, pattern; the first failure is the
      field's one violation. */
  function CheckString(loc: seq<string>, s: string, minLength: nat, maxLength: Option<nat>, domainPattern: bool): (r: Result<string, seq<Violation>>)
    ensures r.Ok? <==> minLength <= |s| && (maxLength.Some? ==> |s| <= maxLength.value) && (domainPattern ==> MatchesDomainPattern(s))
    ensures r.Ok? ==> r.value == s
    ensures r.Err? ==> |r.error| == 1 && r.error[0].loc == loc
  {
    if |s| < minLength then Err([Violation(loc, StringTooShort(minLength))])
    else if maxLength.Some? && |s| > maxLength.value then Err([Violation(loc, StringTooLong(maxLength.value))])
    else if domainPattern && !MatchesDomainPattern(s) then Err([Violation(loc, PatternMismatch(DomainPattern))])
    else Ok(s)
  }

  /** A `str` field fed an untyped value: only a string is accepted. */
  function CheckRawString(loc: seq<string>, r: Raw, minLength: nat, maxLength: Option<nat>, domainPattern: bool): (res: Result<string, seq<Violation>>)
    ensures res.Ok? <==> r.RStr? && CheckString(loc, r.s, minLength, maxLength, domainPattern).Ok?
    ensures res.Ok? ==> res.value == r.s
  {
    if r.RStr? then CheckString(loc, r.s, minLength, maxLength, domainPattern)
    else Err([Violation(loc, WrongType("str"))])
  }

  /** Lax `float` coercion: floats, integers, booleans and numeric strings. */
  function AsFloat(r: Raw): Option<real> {
    match r
    case RFloat(x) => Some(x)
    case RInt(i) => Some(i as real)
    case RBool(b) => Some(if b then 1.0 else 0.0)
    case RStr(s) => ParseDecimal(Strip(s))
    case _ => None
  }

  /** The `str` items of a template list. */
  function AsString(r: Raw): Option<string> {
    if r.RStr? then Some(r.s) else None
  }

  /** A pool value, `str | int | float`: each kind as itself, a boolean as the
      integer it stands for, anything else refused. */
  function AsFakerValue(r: Raw): (v: Option<FakerValue>)
    ensures r.RStr? ==> v == Some(StrValue(r.s))
    ensures r.RInt? ==> v == Some(IntValue(r.i))
    ensures r.RFloat? ==> v == Some(FloatValue(r.x))
    ensures v.None? <==> r.RNull? || r.RList? || r.RMap?
  {
    match r
    case RStr(s) => Some(StrValue(s))
    case RInt(i) => Some(IntValue(i))
    case RFloat(x) => Some(FloatValue(x))
    case RBool(b) => Some(IntValue(if b then 1 else 0))
    case _ => None
  }

  /** One violation per list item that `coerce` refuses, at that item's index. */
  function ItemErrors<T>(loc: seq<string>, expected: string, coerce: Raw -> Option<T>, items: seq<Raw>): (vs: seq<Violation>)
    ensures vs == [] <==> forall i :: 0 <= i < |items| ==> coerce(items[i]).Some?
    decreases |items|
  {
    if |items| == 0 then []
    else
      var front := items[..|items| - 1];
      var here := if coerce(items[|items| - 1]).Some? then []
                  else [Violation(loc + [NatToString(|items| - 1)], WrongType(expected))];
      var vs := ItemErrors(loc, expected, coerce, front) + here;
      assert (forall i :: 0 <= i < |items| ==> coerce(items[i]).Some?) <==>
             (forall i :: 0 <= i < |front| ==> coerce(front[i]).Some?) && coerce(items[|items| - 1]).Some? by {
        assert forall i :: 0 <= i < |front| ==> front[i] == items[i];
      }
      vs
  }

  /** A `list[T]` field fed an untyped value: a list whose every item coerces. */
  function CoerceList<T>(loc: seq<string>, expected: string, coerce: Raw -> Option<T>, r: Raw): (res: Result<seq<T>, seq<Violation>>)
    ensures res.Ok? <==> r.RList? && forall i :: 0 <= i < |r.items| ==> coerce(r.items[i]).Some?
    ensures res.Ok? ==> |res.value| == |r.items| && forall i :: 0 <= i < |r.items| ==> coerce(r.items[i]) == Some(res.value[i])
  {
    if !r.RList? then Err([Violation(loc, WrongType("list"))])
    else
      var vs := ItemErrors(loc, expected, coerce, r.items);
      if vs != [] then Err(vs)
      else Ok(seq(|r.items|, i requires 0 <= i < |r.items| => coerce(r.items[i]).value))
  }

  // -------------------------------------------------------- TemplateCategory

  predicate ValidCategory(c: TemplateCategory) {
    1 <= |c.name| <= 100
    && 0.0 <= c.weight <= 1.0
    && (forall i :: 0 <= i < |c.templates| ==> |c.templates[i].1| > 0)
    && (forall i :: 0 <= i < |c.fakerVars| ==> |c.fakerVars[i].1| > 0)
  }

  /** `weight: float = Field(ge=0.0, le=1.0)`. */
  function CheckWeight(r: Raw): (res: Result<real, seq<Violation>>)
    ensures res.Ok? <==> AsFloat(r).Some? && 0.0 <= AsFloat(r).value <= 1.0
    ensures res.Ok? ==> res.value == AsFloat(r).value
  {
    match AsFloat(r)
    case None => Err([Violation(["weight"], WrongType("float"))])
    case Some(x) =>
      if x < 0.0 then Err([Violation(["weight"], LessThanMinimum(0.0))])
      else if x > 1.0 then Err([Violation(["weight"], GreaterThanMaximum(1.0))])
      else Ok(x)
  }

  /** Type validation of a dictionary's values: `check` is applied to every
      entry and the violations of all entries are reported, in order. */
  function CollectEntries<K, X, Y>(check: (K, X) -> Result<Y, seq<Violation>>, es: seq<(K, X)>): (r: Result<seq<(K, Y)>, seq<Violation>>)
    ensures r.Ok? <==> forall i :: 0 <= i < |es| ==> check(es[i].0, es[i].1).Ok?
    ensures r.Ok? ==> |r.value| == |es| && forall i :: 0 <= i < |es| ==>
      r.value[i] == (es[i].0, check(es[i].0, es[i].1).value)
    decreases |es|
  {
    if |es| == 0 then Ok([])
    else
      var front := es[..|es| - 1];
      var (k, x) := es[|es| - 1];
      assert forall i :: 0 <= i < |front| ==> front[i] == es[i];
      var f := CollectEntries(check, front);
      var here := check(k, x);
      if f.Ok? && here.Ok? then Ok(f.value + [(k, here.value)])
      else Err(Errors(f) + Errors(here))
  }

  /** One language's template list: a list of strings. */
  function TemplateList(l: Language, raw: Raw): Result<seq<string>, seq<Violation>> {
    CoerceList(["templates", Code(l)], "str", AsString, raw)
  }

  /** One variable's pool: a list of `str | int | float`. */
  function Pool(name: string, raw: Raw): Result<seq<FakerValue>, seq<Violation>> {
    CoerceList(["faker_vars", name], "str | int | float", AsFakerValue, raw)
  }

  /** `templates`: type validation, then `validate_templates_not_empty`, which
      reports the first language whose list is empty. */
  function CheckTemplates(es: seq<(Language, Raw)>): Result<seq<(Language, seq<string>)>, seq<Violation>> {
    match CollectEntries(TemplateList, es)
    case Err(vs) => Err(vs)
    case Ok(ts) =>
      match FirstEmptyList(ts)
      case Some(i) => Err([Violation(["templates"], EmptyTemplateList(ts[i].0))])
      case None => Ok(ts)
  }

  /** The index of the first entry whose list is empty. */
  function FirstEmptyList<K, V>(m: seq<(K, seq<V>)>): (r: Option<nat>)
    ensures r.None? <==> forall i :: 0 <= i < |m| ==> |m[i].1| > 0
    ensures r.Some? ==> r.value < |m| && |m[r.value].1| == 0 && forall j :: 0 <= j < r.value ==> |m[j].1| > 0
  {
    if |m| == 0 then None
    else if |m[0].1| == 0 then Some(0)
    else
      match FirstEmptyList(m[1..])
      case None => None
      case Some(i) => Some(i + 1)
  }

  /** `faker_vars`: a dictionary of pools, then `validate_faker_vars_not_empty`,
      which reports the first variable whose pool is empty. */
  function CheckFakerVars(r: Raw): Result<seq<(string, seq<FakerValue>)>, seq<Violation>> {
    if !r.RMap? then Err([Violation(["faker_vars"], WrongType("dict"))])
    else
      match CollectEntries(Pool, r.entries)
      case Err(vs) => Err(vs)
      case Ok(ps) =>
        match FirstEmptyList(ps)
        case Some(i) => Err([Violation(["faker_vars"], EmptyValuePool(ps[i].0))])
        case None => Ok(ps)
  }

  /** `TemplateCategory(**fields)`: all four fields are validated and their
      violations reported together; the category is built only when there
      are none. */
  function CheckCategory(inp: CategoryInput): (r: Result<TemplateCategory, seq<Violation>>)
    ensures r.Ok? ==> ValidCategory(r.value)
    ensures r.Ok? ==> r.value.name == inp.name && Keys(r.value.templates) == Keys(inp.templates)
  {
    var nameR := CheckString(["name"], inp.name, 1, Some(100), false);
    var weightR := CheckWeight(inp.weight);
    var templatesR := CheckTemplates(inp.templates);
    var fakerR := CheckFakerVars(inp.fakerVars);
    if nameR.Ok? && weightR.Ok? && templatesR.Ok? && fakerR.Ok? then
      Ok(TemplateCategory(nameR.value, weightR.value, templatesR.value, fakerR.value))
    else
      Err(Errors(nameR) + Errors(weightR) + Errors(templatesR) + Errors(fakerR))
  }

  // ------------------------------------------------------------ DomainConfig

  /** The category weights in declaration order. */
  function Weights(cats: seq<(string, TemplateCategory)>): (w: seq<real>)
    ensures |w| == |cats|
    ensures forall i :: 0 <= i < |cats| ==> w[i] == cats[i].1.weight
  {
    if |cats| == 0 then [] else [cats[0].1.weight] + Weights(cats[1..])
  }

  /** The domain languages for which a category has no templates. */
  function Missing(c: TemplateCategory, languages: seq<Language>): set<Language> {
    set l | l in languages && !HasKey(c.templates, l)
  }

  /** Every domain language has a template list in the category. */
  predicate Covers(c: TemplateCategory, languages: seq<Language>) {
    forall l :: l in languages ==> HasKey(c.templates, l)
  }

  /** The field constraints of a domain and its categories. */
  predicate FieldsValid(d: DomainConfig) {
    1 <= |d.domain| <= 50 && MatchesDomainPattern(d.domain)
    && |d.languages| >= 1
    && |d.categories| >= 1
    && forall i :: 0 <= i < |d.categories| ==> ValidCategory(d.categories[i].1)
  }

  predicate WeightsSumToOne(d: DomainConfig) {
    Abs(Sum(Weights(d.categories)) - 1.0) < 0.01
  }

  predicate LanguagesCovered(d: DomainConfig) {
    forall i :: 0 <= i < |d.categories| ==> Covers(d.categories[i].1, d.languages)
  }

  /** Everything a `DomainConfig` guarantees once built. */
  predicate ValidDomain(d: DomainConfig) {
    FieldsValid(d) && WeightsSumToOne(d) && LanguagesCovered(d)
  }

  /** One category, its violations nested under its key. */
  function CategoryAt(key: string, inp: CategoryInput): (r: Result<TemplateCategory, seq<Violation>>)
    ensures r.Ok? <==> CheckCategory(inp).Ok?
    ensures r.Ok? ==> r.value == CheckCategory(inp).value
  {
    match CheckCategory(inp)
    case Ok(c) => Ok(c)
    case Err(vs) => Err(Under(["categories", key], vs))
  }

  /** `categories`: validation of each category, then
      `validate_categories_not_empty`. */
  function CheckCategories(es: seq<(string, CategoryInput)>): (r: Result<seq<(string, TemplateCategory)>, seq<Violation>>)
    ensures r.Ok? ==> |r.value| >= 1 && Keys(r.value) == Keys(es)
    ensures r.Ok? ==> forall i :: 0 <= i < |r.value| ==> ValidCategory(r.value[i].1)
  {
    match CollectEntries(CategoryAt, es)
    case Err(vs) => Err(vs)
    case Ok(cs) =>
      if |cs| == 0 then Err([Violation(["categories"], NoCategories)])
      else
        assert Keys(cs) == Keys(es);
        Ok(cs)
  }

  /** The first category that lacks templates for some domain language. */
  function FirstUncovered(d: DomainConfig): (r: Option<nat>)
    ensures r.None? <==> LanguagesCovered(d)
    ensures r.Some? ==> r.value < |d.categories| && !Covers(d.categories[r.value].1, d.languages)
    ensures r.Some? ==> forall j :: 0 <= j < r.value ==> Covers(d.categories[j].1, d.languages)
  {
    FirstUncoveredFrom(d, 0)
  }

  function FirstUncoveredFrom(d: DomainConfig, i: nat): (r: Option<nat>)
    requires i <= |d.categories|
    ensures r.None? <==> forall j :: i <= j < |d.categories| ==> Covers(d.categories[j].1, d.languages)
    ensures r.Some? ==> i <= r.value < |d.categories| && !Covers(d.categories[r.value].1, d.languages)
    ensures r.Some? ==> forall j :: i <= j < r.value ==> Covers(d.categories[j].1, d.languages)
    decreases |d.categories| - i
  {
    if i == |d.categories| then None
    else if !Covers(d.categories[i].1, d.languages) then Some(i)
    else FirstUncoveredFrom(d, i + 1)
  }

  /** `DomainConfig(**fields)`: the field checks of `domain`, `languages` and
      `categories` report together; only when all pass do the two model
      validators run, first the weight sum, then language coverage. */
  function CheckDomain(inp: DomainInput): (r: Result<DomainConfig, seq<Violation>>)
    ensures r.Ok? ==> ValidDomain(r.value)
    ensures r.Ok? ==> r.value.languages == inp.languages && Keys(r.value.categories) == Keys(inp.categories)
  {
    var domainR := CheckRawString(["domain"], inp.domain, 1, Some(50), true);
    var languagesR: Result<seq<Language>, seq<Violation>> :=
      if |inp.languages| < 1 then Err([Violation(["languages"], ListTooShort(1))]) else Ok(inp.languages);
    var categoriesR := CheckCategories(inp.categories);
    if !(domainR.Ok? && languagesR.Ok? && categoriesR.Ok?) then
      Err(Errors(domainR) + Errors(languagesR) + Errors(categoriesR))
    else
      var d := DomainConfig(domainR.value, languagesR.value, categoriesR.value);
      assert FieldsValid(d) by {
        assert 1 <= |d.domain| <= 50 && MatchesDomainPattern(d.domain);
      }
      var total := Sum(Weights(d.categories));
      if !(Abs(total - 1.0) < 0.01) then
        Err([Violation([], WeightSumOff(total))])
      else
        match FirstUncovered(d)
        case Some(i) =>
          Err([Violation([], MissingLanguages(d.categories[i].0, Missing(d.categories[i].1, d.languages)))])
        case None => Ok(d)
  }

  // ------------------------------------------------------------- LanguageMix

  predicate ProbabilitiesInRange(d: Distribution) {
    forall i :: 0 <= i < |d| ==> 0.0 <= d[i].1 <= 1.0
  }

  predicate MixSumsToOne(d: Distribution) {
    Abs(Sum(Values(d)) - 1.0) < 0.01
  }

  /** Everything a `LanguageMix` guarantees once built. */
  predicate ValidMix(d: Distribution) {
    MixSumsToOne(d) && ProbabilitiesInRange(d)
  }

  /** The first entry whose probability lies outside `[0, 1]`. */
  function FirstOutOfRange(d: Distribution): (r: Option<nat>)
    ensures r.None? <==> ProbabilitiesInRange(d)
    ensures r.Some? ==> r.value < |d| && !(0.0 <= d[r.value].1 <= 1.0)
    ensures r.Some? ==> forall j :: 0 <= j < r.value ==> 0.0 <= d[j].1 <= 1.0
  {
    if |d| == 0 then None
    else if !(0.0 <= d[0].1 <= 1.0) then Some(0)
    else
      match FirstOutOfRange(d[1..])
      case None => None
      case Some(i) => Some(i + 1)
  }

  /** `LanguageMix(distribution=d)`: `validate_distribution_sums_to_one`
      runs first, then `validate_probabilities_in_range`, which reports the
      first entry out of range. */
  function CheckMix(d: Distribution): (r: Result<Distribution, Violation>)
    ensures r.Ok? <==> ValidMix(d)
    ensures r.Ok? ==> r.value == d
    ensures !MixSumsToOne(d) ==> r == Err(Violation(["distribution"], MixSumOff(Sum(Values(d)))))
    ensures MixSumsToOne(d) && r.Err? ==>
      exists i :: (0 <= i < |d| && !(0.0 <= d[i].1 <= 1.0)
                   && (forall j :: 0 <= j < i ==> 0.0 <= d[j].1 <= 1.0)
                   && r == Err(Violation(["distribution"], ProbabilityOutOfRange(d[i].0, d[i].1))))
  {
    if !MixSumsToOne(d) then Err(Violation(["distribution"], MixSumOff(Sum(Values(d)))))
    else
      match FirstOutOfRange(d)
      case Some(i) => Err(Violation(["distribution"], ProbabilityOutOfRange(d[i].0, d[i].1)))
      case None => Ok(d)
  }

  // ------------------------------------------------------- GeneratedDocument

  /** `v.suffix.lower() == ".pdf"`. */
  predicate HasPdfSuffix(path: string) {
    Lower(Suffix(path)) == ".pdf"
  }

  predicate ValidDocument(doc: GeneratedDocument) {
    |doc.docId| >= 1 && |doc.domain| >= 1 && |doc.category| >= 1 && |doc.content| >= 1
    && HasPdfSuffix(doc.pdfPath)
  }

  /** `GeneratedDocument(...)`: the four non-empty strings and the `.pdf`
      suffix, all reported together. */
  function CheckDocument(doc: GeneratedDocument): (r: Result<GeneratedDocument, seq<Violation>>)
    ensures r.Ok? <==> ValidDocument(doc)
    ensures r.Ok? ==> r.value == doc
    ensures !HasPdfSuffix(doc.pdfPath) ==> r.Err? && Violation(["pdf_path"], NotPdfSuffix(Suffix(doc.pdfPath))) in r.error
  {
    var vs :=
      Errors(CheckString(["doc_id"], doc.docId, 1, None, false))
      + Errors(CheckString(["domain"], doc.domain, 1, None, false))
      + Errors(CheckString(["category"], doc.category, 1, None, false))
      + Errors(CheckString(["content"], doc.content, 1, None, false))
      + (if HasPdfSuffix(doc.pdfPath) then [] else [Violation(["pdf_path"], NotPdfSuffix(Suffix(doc.pdfPath)))]);
    if vs == [] then Ok(doc) else Err(vs)
  }

  // -------------------------------------------------------- GenerationConfig

  predicate ValidGenerationConfig(g: GenerationConfig) {
    MatchesDomainPattern(g.domain)
    && 1 <= g.count <= 10000
    && (g.seed.Some? ==> g.seed.value >= 0)
  }

  /** `count: int = Field(ge=1, le=10000)`; the bound is checked before the
      field validator that repeats it. */
  function CheckCount(count: int): Result<int, seq<Violation>> {
    if count < 1 then Err([Violation(["count"], LessThanMinimum(1.0))])
    else if count > 10000 then Err([Violation(["count"], GreaterThanMaximum(10000.0))])
    else Ok(count)
  }

  /** `GenerationConfig(...)`; the language mix is an already-built
      `LanguageMix` and is not validated again. */
  function CheckGenerationConfig(g: GenerationConfig): (r: Result<GenerationConfig, seq<Violation>>)
    ensures r.Ok? <==> ValidGenerationConfig(g)
    ensures r.Ok? ==> r.value == g
  {
    var vs :=
      Errors(CheckString(["domain"], g.domain, 1, None, true))
      + Errors(CheckCount(g.count))
      + (if g.seed.Some? && g.seed.value < 0 then [Violation(["seed"], LessThanMinimum(0.0))] else []);
    if vs == [] then Ok(g) else Err(vs)
  }

  // ------------------------------------------------- checkers versus validity

  /** A typed template list written back as the untyped value it came from. */
  function EmbedStrings(t: seq<string>): Raw {
    RList(seq(|t|, j requires 0 <= j < |t| => RStr(t[j])))
  }

  function EmbedFaker(v: FakerValue): Raw {
    match v
    case StrValue(s) => RStr(s)
    case IntValue(i) => RInt(i)
    case FloatValue(x) => RFloat(x)
  }

  function EmbedPool(p: seq<FakerValue>): Raw {
    RList(seq(|p|, j requires 0 <= j < |p| => EmbedFaker(p[j])))
  }

  function EmbedTemplates(ts: seq<(Language, seq<string>)>): seq<(Language, Raw)> {
    seq(|ts|, i requires 0 <= i < |ts| => (ts[i].0, EmbedStrings(ts[i].1)))
  }

  function EmbedPools(ps: seq<(string, seq<FakerValue>)>): seq<(string, Raw)> {
    seq(|ps|, i requires 0 <= i < |ps| => (ps[i].0, EmbedPool(ps[i].1)))
  }

  /** The constructor arguments that describe a typed category. */
  function EmbedCategory(c: TemplateCategory): CategoryInput {
    CategoryInput(c.name, RFloat(c.weight), EmbedTemplates(c.templates), RMap(EmbedPools(c.fakerVars)))
  }

  /** The constructor arguments that describe a typed domain configuration. */
  function EmbedDomain(d: DomainConfig): DomainInput {
    DomainInput(RStr(d.domain), d.languages,
      seq(|d.categories| , i requires 0 <= i < |d.categories| => (d.categories[i].0, EmbedCategory(d.categories[i].1))))
  }

  lemma TemplateListEmbed(l: Language, t: seq<string>)
    ensures TemplateList(l, EmbedStrings(t)) == Ok(t)
  {
    var r := TemplateList(l, EmbedStrings(t));
    assert r.Ok?;
    assert r.value == t;
  }

  lemma PoolEmbed(name: string, p: seq<FakerValue>)
    ensures Pool(name, EmbedPool(p)) == Ok(p)
  {
    var items := EmbedPool(p).items;
    assert forall j :: 0 <= j < |p| ==> AsFakerValue(items[j]) == Some(p[j]);
    var r := Pool(name, EmbedPool(p));
    assert r.Ok?;
    assert r.value == p;
  }

  /** Validating typed template lists gives them back exactly when none is empty. */
  lemma CheckTemplatesEmbed(ts: seq<(Language, seq<string>)>)
    ensures CheckTemplates(EmbedTemplates(ts)).Ok? <==> forall i :: 0 <= i < |ts| ==> |ts[i].1| > 0
    ensures CheckTemplates(EmbedTemplates(ts)).Ok? ==> CheckTemplates(EmbedTemplates(ts)).value == ts
  {
    var es := EmbedTemplates(ts);
    forall i | 0 <= i < |es| ensures TemplateList(es[i].0, es[i].1) == Ok(ts[i].1) {
      TemplateListEmbed(ts[i].0, ts[i].1);
    }
    var r := CollectEntries(TemplateList, es);
    assert r.Ok?;
    assert r.value == ts;
  }

  /** Validating typed pools gives them back exactly when none is empty. */
  lemma CheckFakerVarsEmbed(ps: seq<(string, seq<FakerValue>)>)
    ensures CheckFakerVars(RMap(EmbedPools(ps))).Ok? <==> forall i :: 0 <= i < |ps| ==> |ps[i].1| > 0
    ensures CheckFakerVars(RMap(EmbedPools(ps))).Ok? ==> CheckFakerVars(RMap(EmbedPools(ps))).value == ps
  {
    var es := EmbedPools(ps);
    forall i | 0 <= i < |es| ensures Pool(es[i].0, es[i].1) == Ok(ps[i].1) {
      PoolEmbed(ps[i].0, ps[i].1);
    }
    var r := CollectEntries(Pool, es);
    assert r.Ok?;
    assert r.value == ps;
  }

  /** The category checker accepts the description of a typed category exactly
      when that category is valid, and then rebuilds it unchanged. */
  lemma CheckCategoryEmbed(c: TemplateCategory)
    ensures CheckCategory(EmbedCategory(c)).Ok? <==> ValidCategory(c)
    ensures ValidCategory(c) ==> CheckCategory(EmbedCategory(c)) == Ok(c)
  {
    var inp := EmbedCategory(c);
    var nameR := CheckString(["name"], inp.name, 1, Some(100), false);
    var weightR := CheckWeight(inp.weight);
    var templatesR := CheckTemplates(inp.templates);
    var fakerR := CheckFakerVars(inp.fakerVars);
    assert weightR.Ok? <==> 0.0 <= c.weight <= 1.0;
    assert templatesR.Ok? <==> forall i :: 0 <= i < |c.templates| ==> |c.templates[i].1| > 0 by {
      CheckTemplatesEmbed(c.templates);
    }
    assert fakerR.Ok? <==> forall i :: 0 <= i < |c.fakerVars| ==> |c.fakerVars[i].1| > 0 by {
      CheckFakerVarsEmbed(c.fakerVars);
    }
    var ok := nameR.Ok? && weightR.Ok? && templatesR.Ok? && fakerR.Ok?;
    assert ok <==> ValidCategory(c);
    if ok {
      assert templatesR.value == c.templates by {
        CheckTemplatesEmbed(c.templates);
      }
      assert fakerR.value == c.fakerVars by {
        CheckFakerVarsEmbed(c.fakerVars);
      }
      assert CheckCategory(inp) == Ok(TemplateCategory(nameR.value, weightR.value, templatesR.value, fakerR.value));
    }
  }

  lemma CategoriesEmbed(d: DomainConfig)
    ensures CheckCategories(EmbedDomain(d).categories).Ok? <==>
      |d.categories| >= 1 && forall i :: 0 <= i < |d.categories| ==> ValidCategory(d.categories[i].1)
    ensures CheckCategories(EmbedDomain(d).categories).Ok? ==> CheckCategories(EmbedDomain(d).categories).value == d.categories
  {
    var es := EmbedDomain(d).categories;
    forall i | 0 <= i < |es|
      ensures CategoryAt(es[i].0, es[i].1).Ok? <==> ValidCategory(d.categories[i].1)
      ensures ValidCategory(d.categories[i].1) ==> CategoryAt(es[i].0, es[i].1) == Ok(d.categories[i].1)
    {
      CheckCategoryEmbed(d.categories[i].1);
    }
    var r := CollectEntries(CategoryAt, es);
    if r.Ok? {
      assert r.value == d.categories;
    }
  }

  /** The domain checker on the description of a typed configuration: it is
      refused when a field constraint fails; otherwise the weight sum is
      checked first and language coverage second, and a configuration that
      passes both is given back unchanged. */
  lemma CheckDomainEmbed(d: DomainConfig)
    ensures CheckDomain(EmbedDomain(d)).Ok? <==> ValidDomain(d)
    ensures ValidDomain(d) ==> CheckDomain(EmbedDomain(d)) == Ok(d)
    ensures FieldsValid(d) && !WeightsSumToOne(d) ==>
      CheckDomain(EmbedDomain(d)) == Err([Violation([], WeightSumOff(Sum(Weights(d.categories))))])
    ensures FieldsValid(d) && WeightsSumToOne(d) && !LanguagesCovered(d) ==>
      var i := FirstUncovered(d).value;
      CheckDomain(EmbedDomain(d)) == Err([Violation([], MissingLanguages(d.categories[i].0, Missing(d.categories[i].1, d.languages)))])
  {
    CategoriesEmbed(d);
    var r := CheckDomain(EmbedDomain(d));
    if FieldsValid(d) {
      assert CheckCategories(EmbedDomain(d).categories) == Ok(d.categories);
    }
  }

  /** A category that does not cover the domain languages is missing at least
      one of them, and exactly those it has no templates for. */
  lemma MissingNonEmpty(c: TemplateCategory, languages: seq<Language>)
    requires !Covers(c, languages)
    ensures Missing(c, languages) != {}
    ensures forall l :: l in Missing(c, languages) <==> l in languages && !HasKey(c.templates, l)
  {
    var l :| l in languages && !HasKey(c.templates, l);
    assert l in Missing(c, languages);
  }

  /** An empty template list for any language rejects the category. */
  lemma EmptyTemplateListRejected(inp: CategoryInput, i: nat)
    requires i < |inp.templates| && inp.templates[i].1 == RList([])
    ensures CheckCategory(inp).Err?
  {
    var r := CollectEntries(TemplateList, inp.templates);
    if r.Ok? {
      assert r.value[i].1 == [];
      assert FirstEmptyList(r.value).Some?;
    }
  }

  /** An empty value pool for any variable rejects the category. */
  lemma EmptyPoolRejected(inp: CategoryInput, i: nat)
    requires inp.fakerVars.RMap? && i < |inp.fakerVars.entries| && inp.fakerVars.entries[i].1 == RList([])
    ensures CheckCategory(inp).Err?
  {
    var r := CollectEntries(Pool, inp.fakerVars.entries);
    if r.Ok? {
      assert r.value[i].1 == [];
      assert FirstEmptyList(r.value).Some?;
    }
  }

  // ---------------------------------------------------------------- examples

  function OneCategory(name: string, weight: real, templates: seq<(Language, seq<string>)>): (string, TemplateCategory) {
    (name, TemplateCategory(name, weight, templates, [("system", [StrValue("core")])]))
  }

  /** Weights 0.3 and 0.5 add up to 0.8, which is refused with that total. */
  lemma WeightsOffExample()
    ensures CheckDomain(EmbedDomain(DomainConfig("banking", [PL],
      [OneCategory("a", 0.3, [(PL, ["x"])]), OneCategory("b", 0.5, [(PL, ["y"])])])))
      == Err([Violation([], WeightSumOff(0.8))])
  {
    var d := DomainConfig("banking", [PL], [OneCategory("a", 0.3, [(PL, ["x"])]), OneCategory("b", 0.5, [(PL, ["y"])])]);
    assert FieldsValid(d) by {
      assert forall k :: 0 <= k < |d.domain| ==> IsDomainChar(d.domain[k]);
    }
    assert Sum(Weights(d.categories)) == 0.8 by {
      assert Weights(d.categories) == [0.3, 0.5];
      assert [0.3, 0.5][1..] == [0.5];
      assert [0.5][1..] == [];
    }
    CheckDomainEmbed(d);
  }

  /** A category may have templates for languages the domain does not use. */
  lemma ExtraLanguagesAllowed()
    ensures ValidDomain(DomainConfig("banking", [PL], [OneCategory("a", 1.0, [(PL, ["x"]), (EN, ["y"])])]))
  {
    var d := DomainConfig("banking", [PL], [OneCategory("a", 1.0, [(PL, ["x"]), (EN, ["y"])])]);
    assert MatchesDomainPattern(d.domain) by {
      assert forall k :: 0 <= k < |d.domain| ==> IsDomainChar(d.domain[k]);
    }
    assert Weights(d.categories) == [1.0];
    assert Sum([1.0]) == 1.0 by {
      assert [1.0][1..] == [];
    }
    assert HasKey(d.categories[0].1.templates, PL) by {
      assert d.categories[0].1.templates[0].0 == PL;
    }
  }

  /** A category without English templates in a Polish-English domain is
      refused, naming the category and the missing language. */
  lemma MissingLanguageExample()
    ensures CheckDomain(EmbedDomain(DomainConfig("banking", [PL, EN], [OneCategory("a", 1.0, [(PL, ["x"])])])))
      == Err([Violation([], MissingLanguages("a", {EN}))])
  {
    var d := DomainConfig("banking", [PL, EN], [OneCategory("a", 1.0, [(PL, ["x"])])]);
    var c := d.categories[0].1;
    assert FieldsValid(d) by {
      assert forall k :: 0 <= k < |d.domain| ==> IsDomainChar(d.domain[k]);
    }
    assert WeightsSumToOne(d) by {
      assert Weights(d.categories) == [1.0];
      assert [1.0][1..] == [];
    }
    assert Missing(c, d.languages) == {EN} by {
      assert HasKey(c.templates, PL) by {
        assert c.templates[0].0 == PL;
      }
      assert !HasKey(c.templates, EN);
    }
    assert FirstUncovered(d) == Some(0) by {
      assert !Covers(c, d.languages) by {
        assert !HasKey(c.templates, EN);
      }
    }
    CheckDomainEmbed(d);
  }

  /** `{pl: 0.7, en: 0.3}` is a valid mix; `{pl: 0.5, en: 0.3}` is refused for
      its sum, and so is `{pl: 1.5}`, whose sum is checked before its range. */
  lemma MixExamples()
    ensures CheckMix([(PL, 0.7), (EN, 0.3)]).Ok?
    ensures CheckMix([(PL, 0.5), (EN, 0.3)]) == Err(Violation(["distribution"], MixSumOff(0.8)))
    ensures CheckMix([(PL, 1.5)]) == Err(Violation(["distribution"], MixSumOff(1.5)))
  {
    assert Values([(PL, 0.7), (EN, 0.3)]) == [0.7, 0.3];
    assert Values([(PL, 0.5), (EN, 0.3)]) == [0.5, 0.3];
    assert Values([(PL, 1.5)]) == [1.5];
    assert [0.7, 0.3][1..] == [0.3] && [0.5, 0.3][1..] == [0.3] && [0.3][1..] == [] && [1.5][1..] == [];
  }

  /** A probability out of range is reported when the sum is right. */
  lemma MixRangeExample()
    ensures CheckMix([(PL, 1.2), (EN, -0.2)]) == Err(Violation(["distribution"], ProbabilityOutOfRange(PL, 1.2)))
  {
    assert Values([(PL, 1.2), (EN, -0.2)]) == [1.2, -0.2];
    assert [1.2, -0.2][1..] == [-0.2] && [-0.2][1..] == [];
  }

  /** The suffix test ignores case: a plain name `stem.ext` passes exactly when
      its extension, lower-cased, is `pdf` (so `doc.PDF` passes and `doc.txt`
      does not). */
  lemma PdfSuffixIgnoresCase(stem: string, ext: string)
    requires |stem| > 0 && |ext| > 0 && '/' !in stem && '/' !in ext && '.' !in ext
    ensures HasPdfSuffix(stem + "." + ext) <==> Lower(ext) == "pdf"
  {
    assert Suffix(stem + "." + ext) == "." + ext by {
      SuffixOfName(stem, ext);
    }
    LowerDotted(ext);
  }

  lemma LowerDotted(ext: string)
    ensures Lower("." + ext) == ".pdf" <==> Lower(ext) == "pdf"
  {
    assert Lower("." + ext) == "." + Lower(ext);
    if Lower("." + ext) == ".pdf" {
      assert Lower(ext) == (".pdf")[1..];
    }
  }

  /** A hidden name such as `.pdf` has no suffix at all, so it is refused. */
  lemma HiddenPdfRefused()
    ensures !HasPdfSuffix(".pdf")
  {
    HiddenNameHasNoSuffix("pdf");
    assert "." + "pdf" == ".pdf";
  }
}

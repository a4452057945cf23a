/** The domain manager: it finds `<name>.yaml` in the domains directory, turns
    the loaded YAML into the keyword arguments of a domain configuration,
    validates them, caches what validates, lists the available domains and
    reports on a domain's validity. */
module Domains {
  import opened Wrappers
  import opened Text
  import opened Dicts
  import opened Results
  import opened YamlValue
  import opened Models

  /** One file of the domains directory, as `yaml.safe_load` sees it. */
  datatype SourceFile = Unparsable(detail: string) | Parsed(tree: Raw)

  /** The domains directory: `None` when it does not exist, otherwise its
      files by name. */
  type Directory = Option<seq<(string, SourceFile)>>

  /** What `_structure_yaml_data` raises. */
  datatype StructureError =
    | NotADict(typeName: string)
    | NoItems(typeName: string)
    | CategoryNotDict(category: string)
    | InvalidLanguage(code: Raw, inCategory: Option<string>)
    | NotIterable(typeName: string)

  /** Why a domain file that exists is not a valid configuration. */
  datatype ConfigFailure =
    | YamlSyntax(detail: string)
    | EmptySource
    | Malformed(reason: StructureError)
    | Validation(violations: seq<Violation>)

  /** `DomainNotFoundError` and `InvalidDomainConfigError`. */
  datatype LoadError =
    | DomainNotFound(name: string, available: seq<string>)
    | InvalidDomainConfig(name: string, failure: ConfigFailure)

  // ------------------------------------------------------------- structure

  /** One entry of a category's `templates`: the key must be a language code. */
  function TemplateEntry(category: string, acc: seq<(Language, Raw)>, e: (string, Raw)): Result<seq<(Language, Raw)>, StructureError> {
    match ParseLanguage(e.0)
    case None => Err(InvalidLanguage(RStr(e.0), Some(category)))
    case Some(l) => Ok(Put(acc, l, e.1))
  }

  function TemplateStep(category: string): (seq<(Language, Raw)>, (string, Raw)) -> Result<seq<(Language, Raw)>, StructureError> {
    (acc: seq<(Language, Raw)>, e: (string, Raw)) => TemplateEntry(category, acc, e)
  }

  /** A category's keyword arguments: `weight` defaults to `0.0`, `templates`
      and `faker_vars` to empty dictionaries. */
  function StructureCategory(name: string, data: Raw): (r: Result<CategoryInput, StructureError>)
    ensures r.Ok? ==> r.value.name == name
  {
    if !data.RMap? then Err(CategoryNotDict(name))
    else
      var templates := GetOr(data.entries, "templates", RMap([]));
      if !templates.RMap? then Err(NoItems(TypeName(templates)))
      else
        match Fold(TemplateStep(name), [], templates.entries)
        case Err(e) => Err(e)
        case Ok(ts) =>
          Ok(CategoryInput(name, GetOr(data.entries, "weight", RFloat(0.0)), ts,
            GetOr(data.entries, "faker_vars", RMap([]))))
  }

  function CategoryEntry(acc: seq<(string, CategoryInput)>, e: (string, Raw)): Result<seq<(string, CategoryInput)>, StructureError> {
    match StructureCategory(e.0, e.1)
    case Err(x) => Err(x)
    case Ok(c) => Ok(Put(acc, e.0, c))
  }

  /** `LanguageCode(value)` for one element of `languages`. */
  function LanguageEntry(acc: seq<Language>, r: Raw): Result<seq<Language>, StructureError> {
    if r.RStr? && ParseLanguage(r.s).Some? then Ok(acc + [ParseLanguage(r.s).value])
    else Err(InvalidLanguage(r, None))
  }

  /** What `for x in value` walks: list items, the characters of a string,
      the keys of a dictionary; other values are not iterable. */
  function Iterate(r: Raw): (items: Result<seq<Raw>, StructureError>)
    ensures r.RList? ==> items == Ok(r.items)
    ensures items.Err? <==> !(r.RList? || r.RStr? || r.RMap?)
  {
    match r
    case RList(xs) => Ok(xs)
    case RStr(s) => Ok(seq(|s|, i requires 0 <= i < |s| => RStr([s[i]])))
    case RMap(es) => Ok(seq(|es|, i requires 0 <= i < |es| => RStr(es[i].0)))
    case _ => Err(NotIterable(TypeName(r)))
  }

  /** The `categories` section walked category by category; it defaults to
      an empty dictionary. */
  function CategoriesOf(entries: seq<(string, Raw)>): Result<seq<(string, CategoryInput)>, StructureError> {
    var categories := GetOr(entries, "categories", RMap([]));
    if !categories.RMap? then Err(NoItems(TypeName(categories)))
    else Fold(CategoryEntry, [], categories.entries)
  }

  /** The `languages` section walked element by element; it defaults to an
      empty list. */
  function LanguagesOf(entries: seq<(string, Raw)>): Result<seq<Language>, StructureError> {
    match Iterate(GetOr(entries, "languages", RList([])))
    case Err(e) => Err(e)
    case Ok(items) => Fold(LanguageEntry, [], items)
  }

  /** `_structure_yaml_data(raw, name)`: the keyword arguments of the domain
      configuration; `domain` defaults to the file's name. */
  function Structured(raw: Raw, name: string): Result<DomainInput, StructureError> {
    if !raw.RMap? then Err(NotADict(TypeName(raw)))
    else
      match CategoriesOf(raw.entries)
      case Err(e) => Err(e)
      case Ok(cs) =>
        match LanguagesOf(raw.entries)
        case Err(e) => Err(e)
        case Ok(ls) => Ok(DomainInput(GetOr(raw.entries, "domain", RStr(name)), ls, cs))
  }

  /** `_structure_yaml_data`, loop by loop. */
  method StructureYamlData(raw: Raw, name: string) returns (r: Result<DomainInput, StructureError>)
    ensures r == Structured(raw, name)
  {
    if !raw.RMap? {
      return Err(NotADict(TypeName(raw)));
    }
    var categories := GetOr(raw.entries, "categories", RMap([]));
    if !categories.RMap? {
      return Err(NoItems(TypeName(categories)));
    }
    var es := categories.entries;
    var structuredCategories: seq<(string, CategoryInput)> := [];
    var i := 0;
    while i < |es|
      invariant i <= |es|
      invariant Fold(CategoryEntry, [], es[..i]) == Ok(structuredCategories)
    {
      var (catName, catData) := es[i];
      FoldPrefixStep(CategoryEntry, [], es, i);
      if !catData.RMap? {
        FoldErrSticky(CategoryEntry, [], es, i + 1);
        return Err(CategoryNotDict(catName));
      }
      var templates := GetOr(catData.entries, "templates", RMap([]));
      if !templates.RMap? {
        FoldErrSticky(CategoryEntry, [], es, i + 1);
        return Err(NoItems(TypeName(templates)));
      }
      var ts := templates.entries;
      var structuredTemplates: seq<(Language, Raw)> := [];
      var j := 0;
      while j < |ts|
        invariant j <= |ts|
        invariant Fold(TemplateStep(catName), [], ts[..j]) == Ok(structuredTemplates)
      {
        var (langStr, templateList) := ts[j];
        FoldPrefixStep(TemplateStep(catName), [], ts, j);
        var lang := ParseLanguage(langStr);
        if lang.None? {
          FoldErrSticky(TemplateStep(catName), [], ts, j + 1);
          assert StructureCategory(catName, catData) == Err(InvalidLanguage(RStr(langStr), Some(catName)));
          FoldErrSticky(CategoryEntry, [], es, i + 1);
          return Err(InvalidLanguage(RStr(langStr), Some(catName)));
        }
        structuredTemplates := Put(structuredTemplates, lang.value, templateList);
        j := j + 1;
      }
      FoldAll(TemplateStep(catName), [], ts);
      var category := CategoryInput(catName, GetOr(catData.entries, "weight", RFloat(0.0)),
        structuredTemplates, GetOr(catData.entries, "faker_vars", RMap([])));
      assert StructureCategory(catName, catData) == Ok(category);
      structuredCategories := Put(structuredCategories, catName, category);
      i := i + 1;
    }
    FoldAll(CategoryEntry, [], es);
    var items := Iterate(GetOr(raw.entries, "languages", RList([])));
    if items.Err? {
      return Err(items.error);
    }
    var xs := items.value;
    var structuredLanguages: seq<Language> := [];
    var k := 0;
    while k < |xs|
      invariant k <= |xs|
      invariant Fold(LanguageEntry, [], xs[..k]) == Ok(structuredLanguages)
    {
      FoldPrefixStep(LanguageEntry, [], xs, k);
      var x := xs[k];
      if !(x.RStr? && ParseLanguage(x.s).Some?) {
        FoldErrSticky(LanguageEntry, [], xs, k + 1);
        return Err(InvalidLanguage(x, None));
      }
      structuredLanguages := structuredLanguages + [ParseLanguage(x.s).value];
      k := k + 1;
    }
    FoldAll(LanguageEntry, [], xs);
    return Ok(DomainInput(GetOr(raw.entries, "domain", RStr(name)), structuredLanguages, structuredCategories));
  }

  /** Structuring a category's `templates` fails exactly when some key is not
      a language code, naming the first such key and the category. */
  lemma TemplatesFailAtFirst(category: string, ts: seq<(string, Raw)>)
    ensures Fold(TemplateStep(category), [], ts).Ok? <==> forall i :: 0 <= i < |ts| ==> ParseLanguage(ts[i].0).Some?
    ensures Fold(TemplateStep(category), [], ts).Err? ==>
      exists i :: (0 <= i < |ts| && ParseLanguage(ts[i].0).None?
        && (forall j :: 0 <= j < i ==> ParseLanguage(ts[j].0).Some?)
        && Fold(TemplateStep(category), [], ts) == Err(InvalidLanguage(RStr(ts[i].0), Some(category))))
  {
    var bad := (e: (string, Raw)) => ParseLanguage(e.0).None?;
    var err := (e: (string, Raw)) => InvalidLanguage(RStr(e.0), Some(category));
    FoldFirstBad(TemplateStep(category), [], ts, bad, err);
  }

  /** Structured `templates` keep every entry, in file order, with its code
      read as a language. */
  lemma {:induction false} TemplatesKept(category: string, ts: seq<(string, Raw)>)
    requires DistinctKeys(ts)
    requires Fold(TemplateStep(category), [], ts).Ok?
    ensures var acc := Fold(TemplateStep(category), [], ts).value;
      |acc| == |ts| && forall i :: 0 <= i < |ts| ==> Code(acc[i].0) == ts[i].0 && acc[i].1 == ts[i].1
    decreases |ts|
  {
    if |ts| > 0 {
      var step := TemplateStep(category);
      var front := ts[..|ts| - 1];
      var last := ts[|ts| - 1];
      assert DistinctKeys(front) by {
        forall a, b | 0 <= a < b < |front| ensures front[a].0 != front[b].0 {
          assert front[a] == ts[a] && front[b] == ts[b];
        }
      }
      assert Fold(step, [], front).Ok?;
      TemplatesKept(category, front);
      var prev := Fold(step, [], front).value;
      var l := ParseLanguage(last.0).value;
      assert !HasKey(prev, l) by {
        forall a | 0 <= a < |prev| ensures prev[a].0 != l {
          assert Code(prev[a].0) == front[a].0 == ts[a].0;
          assert ts[a].0 != ts[|ts| - 1].0;
        }
      }
      PutAbsent(prev, l, last.1);
      var acc := prev + [(l, last.1)];
      assert Fold(step, [], ts) == Ok(acc);
      forall i | 0 <= i < |ts| ensures Code(acc[i].0) == ts[i].0 && acc[i].1 == ts[i].1 {
        if i < |front| {
          assert acc[i] == prev[i] && ts[i] == front[i];
        }
      }
    }
  }

  /** Walking the categories keeps every entry, in file order, under its own
      key, each structured by `StructureCategory`. */
  lemma {:induction false} CategoriesStructured(es: seq<(string, Raw)>)
    requires DistinctKeys(es)
    requires Fold(CategoryEntry, [], es).Ok?
    ensures var acc := Fold(CategoryEntry, [], es).value;
      |acc| == |es| && forall i :: 0 <= i < |es| ==>
        acc[i].0 == es[i].0 && StructureCategory(es[i].0, es[i].1) == Ok(acc[i].1)
    decreases |es|
  {
    if |es| > 0 {
      var front := es[..|es| - 1];
      var last := es[|es| - 1];
      assert DistinctKeys(front) by {
        forall a, b | 0 <= a < b < |front| ensures front[a].0 != front[b].0 {
          assert front[a] == es[a] && front[b] == es[b];
        }
      }
      assert Fold(CategoryEntry, [], front).Ok?;
      CategoriesStructured(front);
      var prev := Fold(CategoryEntry, [], front).value;
      assert !HasKey(prev, last.0) by {
        forall a | 0 <= a < |prev| ensures prev[a].0 != last.0 {
          assert prev[a].0 == front[a].0 == es[a].0;
        }
      }
      PutAbsent(prev, last.0, StructureCategory(last.0, last.1).value);
    }
  }

  /** The outcome of the category walk is decided by the categories alone: it
      fails exactly when one of them does, with the first one's error. */
  lemma CategoriesFailAtFirst(es: seq<(string, Raw)>)
    ensures Fold(CategoryEntry, [], es).Ok? <==> forall i :: 0 <= i < |es| ==> StructureCategory(es[i].0, es[i].1).Ok?
    ensures Fold(CategoryEntry, [], es).Err? ==>
      exists i :: (0 <= i < |es| && StructureCategory(es[i].0, es[i].1).Err?
        && (forall j :: 0 <= j < i ==> StructureCategory(es[j].0, es[j].1).Ok?)
        && Fold(CategoryEntry, [], es) == Err(StructureCategory(es[i].0, es[i].1).error))
  {
    var bad := (e: (string, Raw)) => StructureCategory(e.0, e.1).Err?;
    var err := (e: (string, Raw)) => if StructureCategory(e.0, e.1).Err? then StructureCategory(e.0, e.1).error else NotADict("");
    FoldFirstBad(CategoryEntry, [], es, bad, err);
  }

  /** Every element of `languages` must be a language code; the codes are kept
      in order. */
  lemma {:induction false} LanguagesStructured(xs: seq<Raw>)
    ensures Fold(LanguageEntry, [], xs).Ok? <==> forall i :: 0 <= i < |xs| ==> xs[i].RStr? && ParseLanguage(xs[i].s).Some?
    ensures Fold(LanguageEntry, [], xs).Ok? ==>
      var ls := Fold(LanguageEntry, [], xs).value;
      |ls| == |xs| && forall i :: 0 <= i < |xs| ==> xs[i] == RStr(Code(ls[i]))
    decreases |xs|
  {
    var bad := (x: Raw) => !(x.RStr? && ParseLanguage(x.s).Some?);
    var err := (x: Raw) => InvalidLanguage(x, None);
    FoldFirstBad(LanguageEntry, [], xs, bad, err);
    if |xs| > 0 && Fold(LanguageEntry, [], xs).Ok? {
      var front := xs[..|xs| - 1];
      LanguagesStructured(front);
      assert forall i :: 0 <= i < |front| ==> front[i] == xs[i];
    }
  }

  /** A structured domain has one category per entry of the file's
      `categories`, in file order and named by its key. */
  lemma StructuredCategories(raw: Raw, name: string)
    requires UniqueKeys(raw) && Structured(raw, name).Ok?
    ensures raw.RMap? && GetOr(raw.entries, "categories", RMap([])).RMap?
    ensures var es := GetOr(raw.entries, "categories", RMap([])).entries;
      var cs := Structured(raw, name).value.categories;
      |cs| == |es| && forall i :: 0 <= i < |es| ==> cs[i].0 == es[i].0 && cs[i].1.name == es[i].0
  {
    assert CategoriesOf(raw.entries).Ok?;
    var es := GetOr(raw.entries, "categories", RMap([])).entries;
    GetOrUnique(raw.entries, "categories", RMap([]));
    CategoryNames(es, CategoriesOf(raw.entries).value);
  }

  lemma {:induction false} CategoryNames(es: seq<(string, Raw)>, cs: seq<(string, CategoryInput)>)
    requires DistinctKeys(es) && Fold(CategoryEntry, [], es) == Ok(cs)
    ensures |cs| == |es| && forall i :: 0 <= i < |es| ==> cs[i].0 == es[i].0 && cs[i].1.name == es[i].0
    decreases |es|
  {
    if |es| > 0 {
      var front := es[..|es| - 1];
      var last := es[|es| - 1];
      assert DistinctKeys(front) by {
        forall a, b | 0 <= a < b < |front| ensures front[a].0 != front[b].0 {
          assert front[a] == es[a] && front[b] == es[b];
        }
      }
      assert Fold(CategoryEntry, [], front).Ok?;
      var prev := Fold(CategoryEntry, [], front).value;
      CategoryNames(front, prev);
      assert !HasKey(prev, last.0) by {
        forall a | 0 <= a < |prev| ensures prev[a].0 != last.0 {
          assert prev[a].0 == front[a].0 == es[a].0;
        }
      }
      var c := StructureCategory(last.0, last.1).value;
      PutAbsent(prev, last.0, c);
      assert c.name == last.0;
      assert cs == prev + [(last.0, c)];
      forall i | 0 <= i < |es| ensures cs[i].0 == es[i].0 && cs[i].1.name == es[i].0 {
        if i < |front| {
          assert cs[i] == prev[i] && es[i] == front[i];
        }
      }
    }
  }

  /** A section of a file without repeated keys has none either. */
  lemma GetOrUnique(entries: seq<(string, Raw)>, key: string, d: Raw)
    requires UniqueKeys(RMap(entries)) && UniqueKeys(d)
    ensures UniqueKeys(GetOr(entries, key, d))
  {
    if HasKey(entries, key) {
      var i :| 0 <= i < |entries| && entries[i] == (key, GetOr(entries, key, d));
      assert UniqueKeys(entries[i].1);
    }
  }

  /** `domain` is the file's own when it has one and the domain's name
      otherwise. */
  lemma StructuredDomainName(raw: Raw, name: string)
    requires Structured(raw, name).Ok?
    ensures raw.RMap?
    ensures HasKey(raw.entries, "domain") ==> Some(Structured(raw, name).value.domain) == Get(raw.entries, "domain")
    ensures !HasKey(raw.entries, "domain") ==> Structured(raw, name).value.domain == RStr(name)
  {
  }

  /** A category whose `templates` is a dictionary structures exactly when all
      of its keys are language codes, and then keeps its weight (default
      `0.0`), its templates entry by entry and its `faker_vars`. */
  lemma StructureCategoryShape(name: string, data: Raw)
    requires UniqueKeys(data) && data.RMap?
    requires GetOr(data.entries, "templates", RMap([])).RMap?
    ensures var ts := GetOr(data.entries, "templates", RMap([])).entries;
      StructureCategory(name, data).Ok? <==> forall i :: 0 <= i < |ts| ==> ParseLanguage(ts[i].0).Some?
    ensures StructureCategory(name, data).Ok? ==>
      var c := StructureCategory(name, data).value;
      var ts := GetOr(data.entries, "templates", RMap([])).entries;
      c.name == name
      && c.weight == GetOr(data.entries, "weight", RFloat(0.0))
      && |c.templates| == |ts|
      && (forall i :: 0 <= i < |ts| ==> Code(c.templates[i].0) == ts[i].0 && c.templates[i].1 == ts[i].1)
  {
    var templates := GetOr(data.entries, "templates", RMap([]));
    GetOrUnique(data.entries, "templates", RMap([]));
    TemplatesFailAtFirst(name, templates.entries);
    if StructureCategory(name, data).Ok? {
      TemplatesKept(name, templates.entries);
    }
  }

  // ----------------------------------------------------------------- loading

  function FileName(name: string): string {
    name + ".yaml"
  }

  /** The file at `domains_dir / file_name`, if it exists. */
  function Lookup(dir: Directory, fileName: string): Option<SourceFile> {
    if dir.None? then None else Get(dir.value, fileName)
  }

  /** The loading block for a file that exists: parse, structure, validate. */
  function ConfigFrom(name: string, f: SourceFile): (r: Result<DomainConfig, ConfigFailure>)
    ensures r.Ok? ==> ValidDomain(r.value)
  {
    match f
    case Unparsable(d) => Err(YamlSyntax(d))
    case Parsed(raw) =>
      if raw.RNull? then Err(EmptySource)
      else
        match Structured(raw, name)
        case Err(e) => Err(Malformed(e))
        case Ok(inp) =>
          match CheckDomain(inp)
          case Err(vs) => Err(Validation(vs))
          case Ok(c) => Ok(c)
  }

  /** The loading block, step by step. */
  method ReadConfig(name: string, f: SourceFile) returns (r: Result<DomainConfig, ConfigFailure>)
    ensures r == ConfigFrom(name, f)
  {
    match f
    case Unparsable(d) =>
      return Err(YamlSyntax(d));
    case Parsed(raw) =>
      if raw.RNull? {
        return Err(EmptySource);
      }
      var structured := StructureYamlData(raw, name);
      if structured.Err? {
        return Err(Malformed(structured.error));
      }
      var checked := CheckDomain(structured.value);
      if checked.Err? {
        return Err(Validation(checked.error));
      }
      return Ok(checked.value);
  }

  /** The domain `name` loaded from scratch, as `load_domain` does on a cache
      miss. */
  function LoadFresh(dir: Directory, name: string): (r: Result<DomainConfig, LoadError>)
    ensures r.Ok? ==> ValidDomain(r.value)
  {
    match Lookup(dir, FileName(name))
    case None => Err(DomainNotFound(name, ListAvailable(dir)))
    case Some(f) =>
      match ConfigFrom(name, f)
      case Err(x) => Err(InvalidDomainConfig(name, x))
      case Ok(c) => Ok(c)
  }

  /** A domain that loads has the languages its file lists and one category
      per entry of its `categories`, in file order. */
  lemma LoadedShape(dir: Directory, name: string)
    requires LoadFresh(dir, name).Ok?
    requires Lookup(dir, FileName(name)).Some? && Lookup(dir, FileName(name)).value.Parsed?
    requires UniqueKeys(Lookup(dir, FileName(name)).value.tree)
    ensures var raw := Lookup(dir, FileName(name)).value.tree;
      var c := LoadFresh(dir, name).value;
      raw.RMap?
      && Keys(c.categories) == Keys(GetOr(raw.entries, "categories", RMap([])).entries)
      && c.languages == Structured(raw, name).value.languages
  {
    var raw := Lookup(dir, FileName(name)).value.tree;
    StructuredCategories(raw, name);
    var inp := Structured(raw, name).value;
    var es := GetOr(raw.entries, "categories", RMap([])).entries;
    assert Keys(inp.categories) == Keys(es);
  }

  // ----------------------------------------------------------------- listing

  /** A file that `list_available_domains` reports: `*.yaml`, not hidden, and
      not the template. */
  predicate IsListed(fileName: string) {
    EndsWith(fileName, ".yaml") && !StartsWith(fileName, ".") && Stem(fileName) != "template"
  }

  /** `path.stem` of a `.yaml` file. */
  function Stem(fileName: string): string
    requires EndsWith(fileName, ".yaml")
  {
    fileName[..|fileName| - 5]
  }

  /** The file `f` is listed, as the domain `s`. */
  predicate ListsAs(f: string, s: string) {
    IsListed(f) && Stem(f) == s
  }

  /** The stems of the listed files, in directory order. */
  function Candidates(files: seq<(string, SourceFile)>): seq<string> {
    if |files| == 0 then []
    else if IsListed(files[0].0) then [Stem(files[0].0)] + Candidates(files[1..])
    else Candidates(files[1..])
  }

  lemma {:induction false} CandidatesMembers(files: seq<(string, SourceFile)>, s: string)
    ensures s in Candidates(files) <==> exists i :: 0 <= i < |files| && ListsAs(files[i].0, s)
    decreases |files|
  {
    if |files| > 0 {
      var rest := files[1..];
      CandidatesMembers(rest, s);
      if s in Candidates(rest) {
        var i :| 0 <= i < |rest| && ListsAs(rest[i].0, s);
        assert files[i + 1] == rest[i];
      }
      if exists i :: 0 <= i < |files| && ListsAs(files[i].0, s) {
        var i :| 0 <= i < |files| && ListsAs(files[i].0, s);
        if i > 0 {
          assert rest[i - 1] == files[i];
        }
      }
    }
  }

  /** `list_available_domains()`: the stems of the listed files, sorted; none
      when the directory does not exist. */
  function ListAvailable(dir: Directory): (names: seq<string>)
    ensures dir.None? ==> names == []
    ensures dir.Some? ==> multiset(names) == multiset(Candidates(dir.value))
    ensures SortedStrings(names)
  {
    if dir.None? then [] else SortStrings(Candidates(dir.value))
  }

  /** Every listed domain is one that `load_domain` finds, is not hidden and
      is not the template; and every such file is listed. */
  lemma ListedDomains(dir: Directory, s: string)
    ensures s in ListAvailable(dir) <==>
      dir.Some? && exists i :: 0 <= i < |dir.value| && ListsAs(dir.value[i].0, s)
    ensures s in ListAvailable(dir) ==>
      Lookup(dir, FileName(s)).Some? && s != "template" && s != "" && s[0] != '.'
  {
    if dir.Some? {
      assert s in ListAvailable(dir) <==> s in multiset(Candidates(dir.value));
      CandidatesMembers(dir.value, s);
      if s in ListAvailable(dir) {
        var i :| 0 <= i < |dir.value| && ListsAs(dir.value[i].0, s);
        ListedFile(dir.value[i].0, s);
        assert HasKey(dir.value, FileName(s));
      }
    }
  }

  /** A listed file is `<stem>.yaml` for a stem that is neither empty, hidden
      nor the template. */
  lemma ListedFile(f: string, s: string)
    requires ListsAs(f, s)
    ensures f == FileName(s) && s != "template" && s != "" && s[0] != '.'
  {
    assert f == s + ".yaml" by {
      assert f[|f| - 5..] == ".yaml";
      assert f == f[..|f| - 5] + f[|f| - 5..];
    }
    assert f[0] != '.' by {
      assert f[..1] == [f[0]];
    }
    assert s[0] == f[0];
  }

  // ---------------------------------------------------------------- messages

  /** `str(domains_dir / f"{name}.yaml")` for a directory path without a
      trailing separator. */
  function DomainPath(dirPath: string, name: string): string {
    dirPath + "/" + FileName(name)
  }

  function StructureMessage(e: StructureError): string {
    match e
    case NotADict(t) => "Domain YAML must be a dictionary, got " + t
    case NoItems(t) => "'" + t + "' object has no attribute 'items'"
    case CategoryNotDict(c) => "Category '" + c + "' must be a dictionary"
    case InvalidLanguage(code, Some(c)) =>
      "Invalid language code '" + Describe(code) + "' in category '" + c + "'. Valid codes: " + ValidCodes
    case InvalidLanguage(code, None) =>
      "Invalid language code '" + Describe(code) + "'. Valid codes: " + ValidCodes
    case NotIterable(t) => "'" + t + "' object is not iterable"
  }

  /** One line of `_format_validation_errors`; `describe` is the validator's
      message text for a violation. */
  function ViolationLine(describe: ViolationKind -> string, v: Violation): string {
    "  • " + Join(v.loc, " -> ") + ": " + describe(v.kind)
  }

  function ViolationLines(describe: ViolationKind -> string, vs: seq<Violation>): (lines: seq<string>)
    ensures |lines| == |vs| && forall i :: 0 <= i < |vs| ==> lines[i] == ViolationLine(describe, vs[i])
  {
    seq(|vs|, i requires 0 <= i < |vs| => ViolationLine(describe, vs[i]))
  }

  function AvailableText(available: seq<string>): string {
    if |available| == 0 then "none" else Join(available, ", ")
  }

  /** `str(e)` for the error `load_domain` raises. An error raised inside the
      loading block that is neither a YAML error nor a validation error (an
      empty file, a structure error) is wrapped once more with the domain's
      name. */
  function ErrorMessage(dirPath: string, describe: ViolationKind -> string, e: LoadError): string {
    match e
    case DomainNotFound(name, available) =>
      "Domain '" + name + "' not found at " + DomainPath(dirPath, name) + ". Available domains: " + AvailableText(available)
    case InvalidDomainConfig(name, YamlSyntax(d)) =>
      "YAML syntax error in '" + DomainPath(dirPath, name) + "': " + d
    case InvalidDomainConfig(name, Validation(vs)) =>
      "Validation failed for domain '" + name + "':\n" + Join(ViolationLines(describe, vs), "\n")
    case InvalidDomainConfig(name, EmptySource) =>
      "Failed to load domain '" + name + "': Domain file '" + DomainPath(dirPath, name) + "' is empty or invalid"
    case InvalidDomainConfig(name, Malformed(s)) =>
      "Failed to load domain '" + name + "': " + StructureMessage(s)
  }

  /** A not-found message names every available domain, and says "none" when
      there is none. */
  lemma NotFoundListsAvailable(dirPath: string, describe: ViolationKind -> string, name: string, available: seq<string>)
    ensures var msg := ErrorMessage(dirPath, describe, DomainNotFound(name, available));
      (|available| == 0 ==> EndsWith(msg, "Available domains: none"))
      && forall i :: 0 <= i < |available| ==> Contains(msg, available[i])
  {
    var msg := ErrorMessage(dirPath, describe, DomainNotFound(name, available));
    var head := "Domain '" + name + "' not found at " + DomainPath(dirPath, name) + ". Available domains: ";
    assert msg == head + AvailableText(available);
    if |available| == 0 {
      assert msg[|msg| - |"Available domains: none"|..] == "Available domains: none";
    } else {
      var list := Join(available, ", ");
      assert Contains(msg, list) by {
        ContainsMiddle(head, list, "");
        assert head + list + "" == msg;
      }
      forall i | 0 <= i < |available| ensures Contains(msg, available[i]) {
        JoinContainsEach(available, ", ", i);
        ContainsTrans(msg, list, available[i]);
      }
    }
  }

  /** A validation-failure message has one line for each violation, giving its
      location. */
  lemma ValidationMessageListsEach(dirPath: string, describe: ViolationKind -> string, name: string, vs: seq<Violation>, i: nat)
    requires i < |vs|
    ensures Contains(ErrorMessage(dirPath, describe, InvalidDomainConfig(name, Validation(vs))), ViolationLine(describe, vs[i]))
  {
    var head := "Validation failed for domain '" + name + "':\n";
    var body := Join(ViolationLines(describe, vs), "\n");
    ContainsMiddle(head, body, "");
    assert head + body + "" == ErrorMessage(dirPath, describe, InvalidDomainConfig(name, Validation(vs)));
    JoinContainsEach(ViolationLines(describe, vs), "\n", i);
    ContainsTrans(head + body + "", body, ViolationLine(describe, vs[i]));
  }

  // ----------------------------------------------------------------- counts

  /** The number of templates in a category, summed over its languages. */
  function ListLengths<K, V>(m: seq<(K, seq<V>)>): nat {
    if |m| == 0 then 0 else ListLengths(m[..|m| - 1]) + |m[|m| - 1].1|
  }

  /** `_count_templates`: the templates of all categories and languages. */
  function TemplateCount(cats: seq<(string, TemplateCategory)>): nat {
    if |cats| == 0 then 0 else TemplateCount(cats[..|cats| - 1]) + ListLengths(cats[|cats| - 1].1.templates)
  }

  lemma {:induction false} ListLengthsAtLeast<K, V>(m: seq<(K, seq<V>)>, i: nat)
    requires i < |m|
    ensures ListLengths(m) >= |m[i].1|
    decreases |m|
  {
    if i < |m| - 1 {
      ListLengthsAtLeast(m[..|m| - 1], i);
    }
  }

  lemma {:induction false} TemplateCountPrefix(cats: seq<(string, TemplateCategory)>, n: nat)
    requires n <= |cats|
    requires forall i :: 0 <= i < |cats| ==> ListLengths(cats[i].1.templates) >= 1
    ensures TemplateCount(cats[..n]) >= n
    decreases n
  {
    if n > 0 {
      assert cats[..n][..n - 1] == cats[..n - 1];
      TemplateCountPrefix(cats, n - 1);
    }
  }

  /** A valid domain has at least one template per category: each category
      has a non-empty list for the domain's first language. */
  lemma ValidDomainTemplates(d: DomainConfig)
    requires ValidDomain(d)
    ensures TemplateCount(d.categories) >= |d.categories|
  {
    var l := d.languages[0];
    forall i | 0 <= i < |d.categories| ensures ListLengths(d.categories[i].1.templates) >= 1 {
      var c := d.categories[i].1;
      assert Covers(c, d.languages);
      assert l in d.languages;
      assert HasKey(c.templates, l);
      var k :| 0 <= k < |c.templates| && c.templates[k].0 == l;
      assert ValidCategory(c);
      ListLengthsAtLeast(c.templates, k);
    }
    TemplateCountPrefix(d.categories, |d.categories|);
    assert d.categories[..|d.categories|] == d.categories;
  }

  /** The report of `validate_domain` on a valid domain: a heading naming the
      domain, then one line each for its languages, its number of categories
      and its number of templates. */
  function ValidMessage(name: string, c: DomainConfig, count: nat): string {
    ValidHeading(name) + LanguagesLine(c.languages) + "  - Categories: " + NatToString(|c.categories|) + "\n"
    + TemplatesLine(count)
  }

  function ValidHeading(name: string): string {
    "Domain '" + name + "' is valid:\n"
  }

  function LanguagesLine(languages: seq<Language>): string {
    "  - Languages: " + Join(seq(|languages|, i requires 0 <= i < |languages| => Code(languages[i])), ", ") + "\n"
  }

  function TemplatesLine(count: nat): string {
    "  - Total templates: " + NatToString(count)
  }

  /** What `validate_domain` returns for a load result: whether it succeeded,
      and the summary or the error's message. */
  function ValidationReport(dirPath: string, describe: ViolationKind -> string, name: string, r: Result<DomainConfig, LoadError>): (report: (bool, string))
    ensures report.0 <==> r.Ok?
  {
    match r
    case Ok(c) => (true, ValidMessage(name, c, TemplateCount(c.categories)))
    case Err(e) => (false, ErrorMessage(dirPath, describe, e))
  }

  /** A successful report starts with the heading that names the domain and
      ends with its template count. */
  lemma ValidReportNamesDomain(dirPath: string, describe: ViolationKind -> string, name: string, r: Result<DomainConfig, LoadError>)
    requires r.Ok?
    ensures var msg := ValidationReport(dirPath, describe, name, r).1;
      StartsWith(msg, ValidHeading(name)) && Contains(msg, name)
      && EndsWith(msg, TemplatesLine(TemplateCount(r.value.categories)))
  {
    var c := r.value;
    var msg := ValidMessage(name, c, TemplateCount(c.categories));
    var head := ValidHeading(name);
    var middle := LanguagesLine(c.languages) + "  - Categories: " + NatToString(|c.categories|) + "\n";
    var tail := TemplatesLine(TemplateCount(c.categories));
    assert msg == head + middle + tail;
    OuterParts(head, middle, tail);
    HeadingNames(name);
    ContainsTrans(msg, head, name);
  }

  /** The first and the last of three joined strings. */
  lemma OuterParts(head: string, middle: string, tail: string)
    ensures StartsWith(head + middle + tail, head) && Contains(head + middle + tail, head)
    ensures EndsWith(head + middle + tail, tail)
  {
    var s := head + middle + tail;
    assert s[..|head|] == head;
    assert s[|s| - |tail|..] == tail;
    assert OccursAt(s, head, 0);
  }

  lemma HeadingNames(name: string)
    ensures Contains(ValidHeading(name), name)
  {
    ContainsMiddle("Domain '", name, "' is valid:\n");
  }

  /** The cache after `validate_domain`: the entry is popped, and put back
      when the fresh load succeeds. */
  function Revalidated(cache: map<string, DomainConfig>, name: string, r: Result<DomainConfig, LoadError>): (after: map<string, DomainConfig>)
    ensures name in after <==> r.Ok?
    ensures forall n :: n != name ==> (n in after <==> n in cache)
  {
    if r.Ok? then (cache - {name})[name := r.value] else cache - {name}
  }

  /** Revalidating a domain that is already cached leaves the cache exactly
      as it was, contrary to "without caching": the fresh load gives back the
      cached configuration, which is cached again. */
  lemma RevalidationKeepsCache(dir: Directory, cache: map<string, DomainConfig>, name: string)
    requires CacheAgrees(dir, cache) && name in cache
    ensures Revalidated(cache, name, LoadFresh(dir, name)) == cache
  {
    CachedIsFresh(dir, cache, name);
    RestoreEntry(cache, name);
  }

  lemma RestoreEntry(m: map<string, DomainConfig>, k: string)
    requires k in m
    ensures (m - {k})[k := m[k]] == m
  {
    var after := (m - {k})[k := m[k]];
    forall n ensures n in after <==> n in m {
    }
  }

  /** An entry is cached after revalidation exactly when the domain is valid:
      a stale entry for a domain that no longer loads is evicted. */
  lemma RevalidationEvicts(dir: Directory, cache: map<string, DomainConfig>, name: string)
    ensures name in Revalidated(cache, name, LoadFresh(dir, name)) <==> LoadFresh(dir, name).Ok?
    ensures LoadFresh(dir, name).Ok? ==> Revalidated(cache, name, LoadFresh(dir, name))[name] == LoadFresh(dir, name).value
  {
  }

  // ----------------------------------------------------------------- manager

  /** Every cached configuration is what a fresh load would give. */
  predicate CacheAgrees(dir: Directory, cache: map<string, DomainConfig>) {
    forall n :: n in cache ==> LoadFresh(dir, n) == Ok(cache[n])
  }

  /** Caching a fresh load keeps the cache in agreement with the directory. */
  lemma CacheExtend(dir: Directory, cache: map<string, DomainConfig>, n: string, c: DomainConfig)
    requires CacheAgrees(dir, cache) && LoadFresh(dir, n) == Ok(c)
    ensures CacheAgrees(dir, cache[n := c])
  {
  }

  lemma CachedIsFresh(dir: Directory, cache: map<string, DomainConfig>, n: string)
    requires CacheAgrees(dir, cache) && n in cache
    ensures LoadFresh(dir, n) == Ok(cache[n])
  {
  }

  /** A fresh load of `name` from a directory without the file (or without
      the directory) fails with not-found: after a domain file is deleted, a
      cached entry for it no longer agrees with the directory. */
  lemma DeletedFileNotFound(dir: Directory, name: string)
    requires Lookup(dir, FileName(name)).None?
    ensures LoadFresh(dir, name) == Err(DomainNotFound(name, ListAvailable(dir)))
  {
  }

  /** Every cached configuration is what a load of its name gave from the
      directory recorded for it. */
  predicate CacheLoaded(loadedFrom: map<string, Directory>, cache: map<string, DomainConfig>) {
    loadedFrom.Keys == cache.Keys
    && forall n :: n in cache ==> LoadFresh(loadedFrom[n], n) == Ok(cache[n])
  }

  /** A cache hit: the cached configuration is valid, and when the cache
      agrees with the files it is what a fresh load gives. */
  lemma HitStep(loadedFrom: map<string, Directory>, cache: map<string, DomainConfig>, dir: Directory, n: string)
    requires CacheLoaded(loadedFrom, cache) && n in cache
    ensures ValidDomain(cache[n])
    ensures CacheAgrees(dir, cache) ==> LoadFresh(dir, n) == Ok(cache[n])
  {
    assert LoadFresh(loadedFrom[n], n) == Ok(cache[n]);
  }

  /** Caching a fresh load records where it came from, and keeps a cache
      that agrees with the files in agreement. */
  lemma MissStep(loadedFrom: map<string, Directory>, cache: map<string, DomainConfig>, dir: Directory, n: string, c: DomainConfig)
    requires CacheLoaded(loadedFrom, cache) && LoadFresh(dir, n) == Ok(c)
    ensures CacheLoaded(loadedFrom[n := dir], cache[n := c])
    ensures CacheAgrees(dir, cache) ==> CacheAgrees(dir, cache[n := c])
  {
    MissLoaded(loadedFrom, cache, dir, n, c);
    if CacheAgrees(dir, cache) {
      CacheExtend(dir, cache, n, c);
    }
  }

  lemma MissLoaded(loadedFrom: map<string, Directory>, cache: map<string, DomainConfig>, dir: Directory, n: string, c: DomainConfig)
    requires CacheLoaded(loadedFrom, cache) && LoadFresh(dir, n) == Ok(c)
    ensures CacheLoaded(loadedFrom[n := dir], cache[n := c])
  {
    var from, after := loadedFrom[n := dir], cache[n := c];
    forall m | m in after
      ensures LoadFresh(from[m], m) == Ok(after[m])
    {
      if m != n {
        assert from[m] == loadedFrom[m] && after[m] == cache[m];
      }
    }
    assert from.Keys == after.Keys;
  }

  /** Dropping an entry keeps both invariants. */
  lemma DropStep(loadedFrom: map<string, Directory>, cache: map<string, DomainConfig>, dir: Directory, n: string)
    requires CacheLoaded(loadedFrom, cache)
    ensures CacheLoaded(loadedFrom - {n}, cache - {n})
    ensures CacheAgrees(dir, cache) ==> CacheAgrees(dir, cache - {n})
  {
  }

  class DomainManager {
    const domainsDir: string
    /** The domain files as they are on disk now; they may change between
        calls (`EditFiles`), while the cache keeps what was loaded. */
    var files: Directory
    /** `describe(kind)` is the validator's message for a violation. */
    const describe: ViolationKind -> string
    var cache: map<string, DomainConfig>
    /** The directory each cached entry was loaded from. */
    ghost var loadedFrom: map<string, Directory>
    /** The domains whose file was read, in order. */
    ghost var fileReads: seq<string>

    /** Every cached configuration is what a load of its name gave from the
        directory as it was then. */
    ghost predicate Valid()
      reads this
    {
      CacheLoaded(loadedFrom, cache)
    }

    constructor(domainsDir: string, files: Directory, describe: ViolationKind -> string)
      ensures this.domainsDir == domainsDir && this.files == files && this.describe == describe
      ensures cache == map[] && fileReads == []
      ensures Valid() && CacheAgrees(files, cache)
    {
      this.domainsDir := domainsDir;
      this.files := files;
      this.describe := describe;
      cache := map[];
      loadedFrom := map[];
      fileReads := [];
    }

    /** The domain files change on disk (edited, added or deleted) while the
        manager lives; nothing in the manager notices. */
    method EditFiles(newFiles: Directory)
      requires Valid()
      modifies this
      ensures Valid()
      ensures files == newFiles
      ensures cache == old(cache) && loadedFrom == old(loadedFrom) && fileReads == old(fileReads)
    {
      files := newFiles;
    }

    /** `load_domain(name)`: the cached configuration when there is one,
        however the file has changed since, otherwise a fresh load, cached when
        it succeeds. */
    method LoadDomain(name: string) returns (r: Result<DomainConfig, LoadError>)
      requires Valid()
      modifies this
      ensures Valid()
      ensures r.Ok? ==> ValidDomain(r.value)
      ensures name in old(cache) ==> r == Ok(old(cache)[name]) && cache == old(cache) && fileReads == old(fileReads)
      ensures name !in old(cache) ==> r == LoadFresh(files, name)
      ensures name !in old(cache) ==> cache == if r.Ok? then old(cache)[name := r.value] else old(cache)
      ensures name !in old(cache) ==>
        fileReads == old(fileReads) + if Lookup(files, FileName(name)).Some? then [name] else []
      ensures files == old(files)
      ensures CacheAgrees(files, old(cache)) ==> r == LoadFresh(files, name) && CacheAgrees(files, cache)
    {
      if name in cache {
        HitStep(loadedFrom, cache, files, name);
        return Ok(cache[name]);
      }
      var source := Lookup(files, FileName(name));
      if source.None? {
        return Err(DomainNotFound(name, ListAvailable(files)));
      }
      fileReads := fileReads + [name];
      var config := ReadConfig(name, source.value);
      if config.Err? {
        return Err(InvalidDomainConfig(name, config.error));
      }
      MissStep(loadedFrom, cache, files, name, config.value);
      cache := cache[name := config.value];
      loadedFrom := loadedFrom[name := files];
      return Ok(config.value);
    }

    /** `validate_domain(name)`: drop the cached entry, load afresh from the
        files as they are now and report; a domain that validates is cached
        again, one that no longer does is evicted. */
    method ValidateDomain(name: string) returns (valid: bool, message: string)
      requires Valid()
      modifies this
      ensures Valid()
      ensures (valid, message) == ValidationReport(domainsDir, describe, name, LoadFresh(files, name))
      ensures cache == Revalidated(old(cache), name, LoadFresh(files, name))
      ensures fileReads == old(fileReads) + if Lookup(files, FileName(name)).Some? then [name] else []
      ensures files == old(files)
      ensures CacheAgrees(files, old(cache)) ==> CacheAgrees(files, cache)
    {
      DropStep(loadedFrom, cache, files, name);
      cache := cache - {name};
      loadedFrom := loadedFrom - {name};
      var r := LoadDomain(name);
      valid, message := Report(name, r);
    }

    /** The outcome of `validate_domain` for a load result. */
    method Report(name: string, r: Result<DomainConfig, LoadError>) returns (valid: bool, message: string)
      ensures (valid, message) == ValidationReport(domainsDir, describe, name, r)
    {
      if r.Err? {
        return false, ErrorMessage(domainsDir, describe, r.error);
      }
      var count := CountTemplates(r.value);
      return true, ValidMessage(name, r.value, count);
    }

    /** `_count_templates(config)`. */
    method CountTemplates(config: DomainConfig) returns (total: nat)
      ensures total == TemplateCount(config.categories)
    {
      var cats := config.categories;
      total := 0;
      var i := 0;
      while i < |cats|
        invariant i <= |cats|
        invariant total == TemplateCount(cats[..i])
      {
        var ts := cats[i].1.templates;
        var sub := 0;
        var j := 0;
        while j < |ts|
          invariant j <= |ts|
          invariant sub == ListLengths(ts[..j])
        {
          assert ts[..j + 1][..j] == ts[..j];
          sub := sub + |ts[j].1|;
          j := j + 1;
        }
        assert ts[..|ts|] == ts;
        assert cats[..i + 1][..i] == cats[..i];
        total := total + sub;
        i := i + 1;
      }
      assert cats[..|cats|] == cats;
    }
  }
}

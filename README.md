# banking-chatbot PDF generator: validation and selection core in Dafny

This project models the part of the PDF generator (`src/pdf_generator`) that
checks domain configurations and picks the content of a document. It also
proves properties of that model.

- **Schema** (`models.dfy`, module `Models`). The pydantic models
  `LanguageCode`, `TemplateCategory`, `DomainConfig`, `LanguageMix`,
  `GeneratedDocument` and `GenerationConfig`:
  - a predicate for each (`ValidCategory`, `ValidDomain`, `ValidMix`,
    `ValidDocument`, `ValidGenerationConfig`) states what a built value
    guarantees;
  - a checker for each turns the constructor's keyword arguments into either
    the typed value or the violations it reports (field path and kind).
  Weights and probabilities are exact `real`s.
- **Domain store** (`domain_manager.dfy`, module `Domains`).
  - `_structure_yaml_data` is a function over the parsed YAML tree, plus a
    method with the source's loops proved equal to it.
  - The domains directory is an optional list of files, each unparsable or
    parsed into a tree. It is `None` when the directory does not exist.
  - `DomainManager` is a class whose `cache` map is updated by `LoadDomain`
    and `ValidateDomain`. The files on disk are a field that `EditFiles`
    replaces, since they may be edited while the manager lives; the cache is
    not told.
  - The class invariant: every cached configuration is what a load of that
    name gave from the files as they were then. A cache hit may therefore be
    stale. Before any edit the cache agrees with a fresh load, and
    `ValidateDomain` always reports on the files as they are now.
  - The other operations: the available-domain listing (filter and sort), the
    error and report messages, and the template count.
- **Selection engine** (`template_engine.dfy`, module `Templates`, with
  `sampling.dfy`, module `Sampling`).
  - `random.Random(seed)` is a caller-owned stream of draws in `[0, 1)`.
  - `TemplateEngine` and `LanguageSelector` are classes holding that stream
    and a cursor that every draw advances.
  - `random.choices` is the cumulative-weight rule. `random.choice` picks
    index `floor(u * n)`.
  - Jinja2 rendering is a function the engine is given.
- **Command-line parsers** (`utils.dfy`, module `Utils`).
  - `parse_language_mix` is a method whose loop is proved against a fold over
    the comma-separated items. The loop body is split into `ReadPair`
    (strip, split at the first colon) and `ReadHalves` (language code,
    percentage).
  - `validate_output_path` is a check over the path's `pathlib` parts.
- **PDF text preparation** (`pdf_renderer.dfy`, module `PdfRenderer`): the
  `_escape_xml` replace chain, the paragraph loop of `_build_story`, and
  `create_document_metadata`.

Supporting modules:

- `Text`: the `str` operations used (`strip`, ASCII `lower`, `split`, `join`,
  `find`, `sorted`, `str(int)`).
- `Dicts`: insertion-ordered `dict` as an association list.
- `Numbers`: `sum`, `abs`.
- `Decimal`: the decimal grammar of `float()`.
- `PurePaths`: `PurePosixPath` `parts`, `name`, `suffix`.
- `YamlValue`: the values `yaml.safe_load` returns.
- `Results`: a fold that stops at the first error, the shape of every
  "loop and raise" in the source.
- `Wrappers`: `Option` and `Result`.

Where the tests and the code disagree, the model follows the code.
`LanguageMix` runs its two field validators in definition order: the sum check
(`models.py:198-221`), then the range check (`models.py:223-246`). So
`{pl: 1.5}` is refused for its sum (`Models.MixExamples`), although
`tests/test_models.py:125-128` expects the range message. The
`validate_domain` docstring says "without caching", but the code caches a
successful reload. The model does the same (`Domains.Revalidated`).

## Model

| member | source | states |
|---|---|---|
| Text.Strip | src/pdf_generator/pdf_renderer.py:181-183 | `str.strip()`: a slice of the input with only whitespace before and after it; empty exactly when the input is blank; otherwise it neither starts nor ends with whitespace |
| Text.StripWithin | src/pdf_generator/pdf_renderer.py:183 | every character of a stripped string occurs in the original |
| Text.StripUnchanged | src/pdf_generator/utils.py:105 | a string that neither starts nor ends with whitespace is its own strip |
| Text.Lower | src/pdf_generator/utils.py:112 | lower-casing keeps the length and maps each character independently |
| Text.IndexOf | src/pdf_generator/utils.py:111 | `find`: `None` exactly when the character is absent, else the index of its first occurrence |
| Text.Split | src/pdf_generator/pdf_renderer.py:179 | `split(sep)` gives at least one piece and no piece holds the separator |
| Text.JoinSplit | src/pdf_generator/pdf_renderer.py:179 | joining the pieces of a split with the separator gives back the string |
| Text.SplitNoSep | src/pdf_generator/utils.py:104 | a string without the separator splits into itself alone |
| Text.JoinContainsEach | src/pdf_generator/domain_manager.py:94 | every joined part occurs in the joined text |
| Text.Insert | src/pdf_generator/domain_manager.py:166 | insertion adds exactly one copy of the element |
| Text.SortStrings | src/pdf_generator/domain_manager.py:166 | `sorted` returns a permutation of its input in ascending order |
| Text.NatToString | src/pdf_generator/domain_manager.py:196-197 | `str(n)` is a non-empty digit string that starts with `0` exactly when `n` is 0 |
| Text.NatToStringRoundTrip | src/pdf_generator/domain_manager.py:196-197 | the decimal rendering of a count reads back as the count |
| Dicts.Get | src/pdf_generator/utils.py:137 | lookup is `None` exactly when the key is absent, else the value of an entry with that key |
| Dicts.GetOr | src/pdf_generator/domain_manager.py:236 | `get(k, default)`: the key's value when present, else the default |
| Dicts.PutGet | src/pdf_generator/utils.py:142 | after `d[k] = v`, `k` maps to `v` and every other key maps as before |
| Dicts.PutAbsent | src/pdf_generator/utils.py:142 | assigning a new key appends one entry at the end |
| Dicts.PutKeys | src/pdf_generator/template_engine.py:192-194 | assignment adds exactly `k` to the keys and keeps keys distinct |
| Dicts.PutInPlace | src/pdf_generator/template_engine.py:192-194 | overwriting an existing key keeps every entry's position |
| Dicts.GetDistinct | src/pdf_generator/template_engine.py:224 | with distinct keys, each entry's key looks up that entry's value |
| Numbers.SumNonNegative | src/pdf_generator/models.py:155 | a sum of non-negative weights is non-negative |
| Numbers.SumPrefixBounded | src/pdf_generator/models.py:155 | every prefix sum of non-negative weights lies between 0 and the total |
| Decimal.ParseDigits | src/pdf_generator/utils.py:127 | `float()` of a non-empty ASCII digit string is the number it spells |
| Decimal.ParseNatString | src/pdf_generator/utils.py:127 | `float(str(n)) == n` |
| Decimal.NoDigitsNoNumber | src/pdf_generator/utils.py:126-132 | a string without ASCII digits is not a number (`ValueError`) |
| PurePaths.KeepComponents | src/pdf_generator/utils.py:53 | the kept pieces are pieces of the input, none empty or `.`, and every other piece is among them |
| PurePaths.KeepComponentsSingle | src/pdf_generator/utils.py:53 | one piece is kept exactly when it is neither empty nor `.` |
| PurePaths.KeepComponentsConcat | src/pdf_generator/utils.py:53 | keeping distributes over concatenation, so the other pieces stay in order and with their multiplicity |
| PurePaths.Components | src/pdf_generator/utils.py:53 | no path component is empty, `.` or holds a slash |
| PurePaths.LastIndexOf | src/pdf_generator/models.py:289 | `rfind`: none exactly when absent, else the last occurrence |
| PurePaths.Suffix | src/pdf_generator/models.py:289 | a non-empty suffix is a dot and at least one non-dot character ending the name, shorter than the name |
| PurePaths.SuffixOfName | src/pdf_generator/models.py:289 | the suffix of `stem.ext` (plain name, dot-free extension) is `.ext` |
| PurePaths.HiddenNameHasNoSuffix | src/pdf_generator/models.py:289 | a name such as `.pdf` has no suffix |
| Results.FoldFirstBad | src/pdf_generator/domain_manager.py:229-248 | a stop-at-first-error loop fails exactly when some element is bad, and with the first bad element's error |
| Models.ParseLanguage | src/pdf_generator/models.py:23-31 | `LanguageCode(s)` is the member whose value is exactly `s`, for every member |
| Models.CheckString | src/pdf_generator/models.py:47 | a string field passes exactly when its length bounds and optional `^[a-z_]+$` pattern hold; one violation at the field otherwise |
| Models.CheckWeight | src/pdf_generator/models.py:48 | `weight` passes exactly when it coerces to a float in `[0, 1]` |
| Models.AsFakerValue | src/pdf_generator/models.py:50 | a pool value keeps strings, integers and floats as themselves; `None`, lists and dicts are refused |
| Models.CoerceList | src/pdf_generator/models.py:49-50 | a list field passes exactly when it is a list whose every item coerces, and keeps the items in order |
| Models.FirstEmptyList | src/pdf_generator/models.py:70-74 | the first entry with an empty list, or none exactly when all lists are non-empty |
| Models.CheckCategory | src/pdf_generator/models.py:47-100 | an accepted category is valid (name 1..100, weight in `[0,1]`, non-empty template lists and pools), keeps its name and languages |
| Models.CheckTemplatesEmbed | src/pdf_generator/models.py:52-75 | typed template lists are accepted exactly when none is empty, and come back unchanged |
| Models.CheckFakerVarsEmbed | src/pdf_generator/models.py:77-100 | typed pools are accepted exactly when none is empty, and come back unchanged |
| Models.CheckCategoryEmbed | src/pdf_generator/models.py:47-100 | the checker accepts a typed category's description exactly when the category is valid, and returns it |
| Models.EmptyTemplateListRejected | src/pdf_generator/models.py:70-74 | any language with an empty template list rejects the category |
| Models.EmptyPoolRejected | src/pdf_generator/models.py:95-99 | any faker variable with an empty pool rejects the category |
| Models.Weights | src/pdf_generator/models.py:155 | the weights are the categories' weights, index-aligned |
| Models.CheckCategories | src/pdf_generator/models.py:117-139 | accepted categories are non-empty, keep the keys and are each valid |
| Models.FirstUncovered | src/pdf_generator/models.py:174-182 | the first category lacking a domain language, or none exactly when all are covered |
| Models.CheckDomain | src/pdf_generator/models.py:115-183 | an accepted domain is valid and keeps the languages and category keys |
| Models.CategoriesEmbed | src/pdf_generator/models.py:117-139 | typed categories are accepted exactly when all are valid and there is one, and come back unchanged |
| Models.CheckDomainEmbed | src/pdf_generator/models.py:115-183 | accepted exactly when valid (and returned unchanged); with valid fields a weight sum off by 0.01 or more is reported with its total, and with right weights an uncovered category is reported with its missing languages |
| Models.MissingNonEmpty | src/pdf_generator/models.py:174-182 | an uncovered category misses a non-empty set: exactly the domain languages without a template list |
| Models.WeightsOffExample | src/pdf_generator/models.py:155-159 | weights 0.3 and 0.5 are refused with total 0.8 |
| Models.ExtraLanguagesAllowed | src/pdf_generator/models.py:174-182 | a category may have templates for languages the domain does not use |
| Models.MissingLanguageExample | src/pdf_generator/models.py:174-182 | a category without English in a Polish-English domain is refused, naming the category and `{en}` |
| Models.FirstOutOfRange | src/pdf_generator/models.py:241-245 | the first probability outside `[0,1]`, or none exactly when all are in range |
| Models.CheckMix | src/pdf_generator/models.py:198-246 | a mix is accepted exactly when valid and returned unchanged; a bad sum is reported with its total; with a right sum, an out-of-range probability is reported for the first such entry |
| Models.MixExamples | src/pdf_generator/models.py:216-220 | `{pl:0.7, en:0.3}` is accepted; `{pl:0.5, en:0.3}` and `{pl:1.5}` are refused for their sums |
| Models.MixRangeExample | src/pdf_generator/models.py:241-245 | `{pl:1.2, en:-0.2}` sums to 1 and is refused for `pl` out of range |
| Models.CheckDocument | src/pdf_generator/models.py:265-291 | a document is accepted exactly when valid; a path without `.pdf` suffix is reported with the suffix |
| Models.PdfSuffixIgnoresCase | src/pdf_generator/models.py:289-290 | a plain `stem.ext` has a `.pdf` suffix exactly when `ext` lower-cases to `pdf` |
| Models.LowerDotted | src/pdf_generator/models.py:289 | `.ext` lower-cases to `.pdf` exactly when `ext` lower-cases to `pdf` |
| Models.HiddenPdfRefused | src/pdf_generator/models.py:289-290 | the path `.pdf` is refused, having no suffix |
| Models.CheckGenerationConfig | src/pdf_generator/models.py:308-333 | accepted exactly when the domain pattern, `1 <= count <= 10000` and `seed >= 0` (when present) hold |
| Domains.StructureCategory | src/pdf_generator/domain_manager.py:229-255 | a structured category is named by its key |
| Domains.Iterate | src/pdf_generator/domain_manager.py:260 | iterating a list gives its items; only lists, strings and dicts can be iterated |
| Domains.StructureYamlData | src/pdf_generator/domain_manager.py:220-273 | the loops compute the structuring function exactly |
| Domains.TemplatesFailAtFirst | src/pdf_generator/domain_manager.py:239-248 | template keys structure exactly when every key is a language code; otherwise the first bad key is reported with its category |
| Domains.TemplatesKept | src/pdf_generator/domain_manager.py:236-242 | structured templates keep every entry in file order, keyed by its code |
| Domains.CategoriesStructured | src/pdf_generator/domain_manager.py:229-255 | the category walk keeps every entry in order, with name as key, weight default 0.0 and faker_vars default `{}` |
| Domains.CategoriesFailAtFirst | src/pdf_generator/domain_manager.py:229-233 | the category walk succeeds exactly when every category structures; otherwise the first failure is reported |
| Domains.LanguagesStructured | src/pdf_generator/domain_manager.py:258-267 | `languages` structures exactly when every element is a code string, and keeps them in order |
| Domains.StructuredCategories | src/pdf_generator/domain_manager.py:226-255 | a structured domain has one category per file entry, in file order |
| Domains.CategoryNames | src/pdf_generator/domain_manager.py:250-251 | each structured category is named by its key |
| Domains.StructuredDomainName | src/pdf_generator/domain_manager.py:270 | `domain` is the file's own when present, else the requested name |
| Domains.StructureCategoryShape | src/pdf_generator/domain_manager.py:236-255 | a dict category structures exactly when its template keys are codes; then its fields are the file's or the defaults |
| Domains.ConfigFrom | src/pdf_generator/domain_manager.py:100-139 | a configuration read from an existing file is valid |
| Domains.ReadConfig | src/pdf_generator/domain_manager.py:100-139 | the loading block computes the reading function exactly |
| Domains.LoadFresh | src/pdf_generator/domain_manager.py:89-139 | a freshly loaded configuration is valid |
| Domains.LoadedShape | src/pdf_generator/domain_manager.py:111-117 | a loaded domain has the file's category keys, in order, and its structured languages |
| Domains.CandidatesMembers | src/pdf_generator/domain_manager.py:159-164 | a stem is a candidate exactly when some listed file gives it |
| Domains.ListAvailable | src/pdf_generator/domain_manager.py:155-166 | `[]` without a directory; otherwise a sorted permutation of the candidate stems |
| Domains.ListedDomains | src/pdf_generator/domain_manager.py:155-166 | a name is listed exactly when a listed file gives it; a listed name has a file, is not `template`, not empty and not hidden |
| Domains.ListedFile | src/pdf_generator/domain_manager.py:159-164 | a listed file is `<stem>.yaml` for a non-empty, non-hidden stem other than `template` |
| Domains.NotFoundListsAvailable | src/pdf_generator/domain_manager.py:92-98 | the not-found message names every available domain, and ends in `none` without any |
| Domains.ViolationLines | src/pdf_generator/domain_manager.py:131-135 | one message line per violation, in order |
| Domains.ValidationMessageListsEach | src/pdf_generator/domain_manager.py:130-135 | the validation-failure message has a line for each violation |
| Domains.ValidDomainTemplates | src/pdf_generator/domain_manager.py:305-309 | a valid domain has at least one template per category |
| Domains.ValidationReport | src/pdf_generator/domain_manager.py:188-203 | the report says valid exactly when the load succeeded |
| Domains.ValidReportNamesDomain | src/pdf_generator/domain_manager.py:193-200 | a successful report starts with the heading naming the domain, contains the name, and ends with the template count |
| Domains.Revalidated | src/pdf_generator/domain_manager.py:188-191 | after revalidation the name is cached exactly when the load succeeded; other names are untouched |
| Domains.RevalidationKeepsCache | src/pdf_generator/domain_manager.py:188-191 | revalidating a cached domain in an agreeing cache leaves the cache as it was |
| Domains.RevalidationEvicts | src/pdf_generator/domain_manager.py:188-191 | the revalidated entry is cached exactly when the fresh load succeeds, with its result |
| Domains.CacheExtend | src/pdf_generator/domain_manager.py:116-117 | caching a fresh load keeps the cache agreeing with the directory |
| Domains.CachedIsFresh | src/pdf_generator/domain_manager.py:85-87 | in an agreeing cache, a cached value is what a fresh load gives |
| Domains.DeletedFileNotFound | src/pdf_generator/domain_manager.py:89-98 | with the file gone, a fresh load is not-found with the available list, whatever is cached |
| Domains.HitStep | src/pdf_generator/domain_manager.py:85-87 | a cached configuration is valid, and equals a fresh load while the cache agrees with the files |
| Domains.MissStep | src/pdf_generator/domain_manager.py:116-117 | caching a fresh load keeps the invariant, and keeps an agreeing cache agreeing |
| Domains.DropStep | src/pdf_generator/domain_manager.py:189-190 | popping an entry keeps the invariant and the agreement |
| Domains.DomainManager.constructor | src/pdf_generator/domain_manager.py:45-58 | starts with an empty cache and no file reads, invariant holding and the cache agreeing with the files |
| Domains.DomainManager.EditFiles | src/pdf_generator/domain_manager.py:85-87 | the files change on disk; the cache, and what each entry was loaded from, stay as they were |
| Domains.DomainManager.LoadDomain | src/pdf_generator/domain_manager.py:62-139 | a cached name returns the cached value, however the files changed since, and reads nothing; otherwise the result is the fresh load, the file is read once and the cache gains the name only on success; an accepted configuration is valid; while the cache agrees with the files, the result is the fresh load and the agreement is kept |
| Domains.DomainManager.ValidateDomain | src/pdf_generator/domain_manager.py:168-203 | always reports on a fresh load of the files as they are now; the entry is replaced by that load on success and evicted on failure, so a stale entry is dropped; other entries unchanged |
| Domains.DomainManager.Report | src/pdf_generator/domain_manager.py:193-203 | builds the report of a load result |
| Domains.DomainManager.CountTemplates | src/pdf_generator/domain_manager.py:294-309 | the nested loops count all template-list lengths |
| Sampling.Pick | src/pdf_generator/template_engine.py:160 | the cumulative pick is an index of the weights |
| Sampling.WeightedIndex | src/pdf_generator/template_engine.py:160 | `random.choices(weights=w)` with a positive total picks an index of `w` |
| Sampling.UniformIndex | src/pdf_generator/template_engine.py:108 | `random.choice` over `n > 0` items picks an index below `n` |
| Sampling.PickInterval | src/pdf_generator/template_engine.py:160 | with non-negative weights, index `i` is chosen exactly for points in `[cum[i-1], cum[i])` |
| Sampling.WeightedIndexInterval | src/pdf_generator/template_engine.py:160 | a draw chooses index `i` exactly when its scaled value lies in `i`'s cumulative slice |
| Sampling.WeightedIndexPositive | src/pdf_generator/template_engine.py:160 | a weight-0 entry is never chosen |
| Sampling.UniformIndexInterval | src/pdf_generator/template_engine.py:108 | each of `n` indices is chosen by a draw interval of length `1/n` |
| Templates.DomainWeights | src/pdf_generator/template_engine.py:156-157 | a valid domain's weights are non-empty, non-negative, with positive sum |
| Templates.SelectedCategory | src/pdf_generator/template_engine.py:156-160 | the selected pair is one of the domain's entries, with positive weight |
| Templates.CategoryChosenBySlice | src/pdf_generator/template_engine.py:156-160 | a category is chosen exactly by the draws in its weight slice |
| Templates.VariablesDrawnInOrder | src/pdf_generator/template_engine.py:184-196 | the variables have the pools' keys in order, each drawn from its own position in the stream |
| Templates.VariablesFromPools | src/pdf_generator/template_engine.py:186-194 | each variable is a member of its pool, or `""` for an empty pool |
| Templates.VariablesUseOnlyTheirDraws | src/pdf_generator/template_engine.py:184-196 | streams agreeing on the consumed draws give the same variables |
| Templates.TemplatesFor | src/pdf_generator/template_engine.py:101-102 | a template list is found exactly when the language has a non-empty one |
| Templates.RenderWith | src/pdf_generator/template_engine.py:114-137 | success exactly when rendering succeeds, returning (category, content, template); an error names the category |
| Templates.RenderedFromDomain | src/pdf_generator/template_engine.py:98-123 | a rendered document names a domain category and its template is one of that category's templates for the language |
| Templates.NoTemplatesExactly | src/pdf_generator/template_engine.py:98-106 | "no templates" is raised exactly when the drawn category has none for the language, after one draw; never for a domain language |
| Templates.SameDrawsSameDocument | src/pdf_generator/template_engine.py:98-111 | streams agreeing on the consumed draws give the same result and the same cursor |
| Templates.TemplateEngine.constructor | src/pdf_generator/template_engine.py:44-54 | holds the config, renderer and stream, cursor at 0 |
| Templates.TemplateEngine.SelectWeightedCategory | src/pdf_generator/template_engine.py:139-160 | one draw selects the category by weight |
| Templates.TemplateEngine.GenerateTemplateVariables | src/pdf_generator/template_engine.py:162-196 | the loop builds the drawn variables, one draw per non-empty pool |
| Templates.TemplateEngine.RenderRandomDocument | src/pdf_generator/template_engine.py:68-137 | result and cursor are the render specification from the old cursor |
| Templates.TemplateEngine.RenderTemplate | src/pdf_generator/template_engine.py:108-123 | template draw, variables, rendering, as specified |
| Templates.LookupKeysIsValues | src/pdf_generator/template_engine.py:223-224 | looking up each key in order gives the values, index-aligned |
| Templates.MixWeights | src/pdf_generator/template_engine.py:245 | a valid mix has non-empty, non-negative weights with positive sum |
| Templates.LanguageSelector.constructor | src/pdf_generator/template_engine.py:208-224 | languages and weights are the mix's keys and values, index-aligned |
| Templates.LanguageSelector.SelectRandomLanguage | src/pdf_generator/template_engine.py:230-249 | one draw picks the language by weight |
| Templates.ChosenLanguageInMix | src/pdf_generator/template_engine.py:245 | the chosen language is a key of the mix with positive probability |
| Utils.SplitOnce | src/pdf_generator/utils.py:111 | `split(":", 1)`: none exactly without a colon; else the text around the first colon |
| Utils.ParseHalves | src/pdf_generator/utils.py:115-135 | an unknown code fails first, then a bad percentage; success exactly when both parse, with probability = percentage / 100 |
| Utils.ParsePair | src/pdf_generator/utils.py:104-135 | an item without colon fails with BadFormat; with a colon, failures are unknown code or bad percentage |
| Utils.ReadPair | src/pdf_generator/utils.py:105-135 | the loop body computes the pair parser |
| Utils.ReadHalves | src/pdf_generator/utils.py:112-135 | the two halves are read as specified |
| Utils.ParseLanguageMix | src/pdf_generator/utils.py:100-152 | the loop computes `parse_language_mix` |
| Utils.ItemFails | src/pdf_generator/utils.py:104-132 | an item that fails to parse ends the loop with its error |
| Utils.ItemRepeats | src/pdf_generator/utils.py:137-140 | a repeated language ends the loop with DuplicateLanguage |
| Utils.ItemAdded | src/pdf_generator/utils.py:142 | a new language is appended to the distribution |
| Utils.MixEntriesItemwise | src/pdf_generator/utils.py:104-142 | a finished loop has one distinct entry per item, each the item's parse |
| Utils.MixEntriesAccepted | src/pdf_generator/utils.py:104-142 | items parsing to distinct languages finish the loop |
| Utils.FirstBadItemReported | src/pdf_generator/utils.py:104-132 | the first unparsable item's error is reported |
| Utils.DuplicateItemReported | src/pdf_generator/utils.py:137-140 | a language repeated at item `i` is reported there |
| Utils.ParsedMix | src/pdf_generator/utils.py:135-145 | an accepted mix is valid, has distinct languages, one entry per item, each the item's pair |
| Utils.WellFormedMixChecked | src/pdf_generator/utils.py:144-145 | with items parsing to distinct languages, the mix is accepted exactly when those pairs form a valid LanguageMix |
| Utils.FirstBadPairReported | src/pdf_generator/utils.py:104-132 | the first bad item of the option string is the error |
| Utils.DuplicateReported | src/pdf_generator/utils.py:137-140 | a repeated language in the option string is reported as duplicate |
| Utils.PairSplits | src/pdf_generator/utils.py:111 | `code:digits` splits into the code and the digits |
| Utils.PairOfHalves | src/pdf_generator/utils.py:105-113 | the pair parser reads the stripped, lower-cased language half and the stripped percentage half |
| Utils.ParsePairOk | src/pdf_generator/utils.py:105-135 | a known code and a number give the pair (language, number/100) |
| Utils.HalvesOk | src/pdf_generator/utils.py:115-135 | a known code and a number give (language, number/100) |
| Utils.PairOfDigits | src/pdf_generator/utils.py:104-135 | `code:digits` parses to (language, value/100) |
| Utils.TwoItems | src/pdf_generator/utils.py:137-142 | two parsed items give both entries if distinct, else a duplicate error |
| Utils.TwoPairMix | src/pdf_generator/utils.py:100-145 | two items summing to 1 are accepted; a sum off by 0.01 or more is refused with its total; the same language twice is a duplicate |
| Utils.TwoTextItems | src/pdf_generator/utils.py:100-145 | the same for the real pair parser: e.g. `pl:70,en:30` is accepted and `pl:60,en:30` refused |
| Utils.ValidatePathWith | src/pdf_generator/utils.py:53-67 | accepted exactly without `..` and with every non-skipped part matching; traversal reported first, then the first bad part |
| Utils.AcceptedComponent | src/pdf_generator/utils.py:60-67 | every component of an accepted path is made of allowed characters |
| Utils.AcceptedPathChars | src/pdf_generator/utils.py:53-67 | an accepted path has no `..` and only `/` and `[a-zA-Z0-9._-]` characters |
| Utils.AsWrittenDiffersOnlyAtNewline | src/pdf_generator/utils.py:63 | the as-written regex test agrees with the intended one except on a trailing newline |
| Utils.TrailingNewlineAccepted | src/pdf_generator/utils.py:63 | the as-written check accepts `name\n`; the corrected check refuses it |
| PdfRenderer.EscapeXmlPerChar | src/pdf_generator/pdf_renderer.py:246-250 | the three replaces equal escaping each character on its own (`&` first) |
| PdfRenderer.EscapedNoBrackets | src/pdf_generator/pdf_renderer.py:246-250 | escaped text has no `<` or `>` |
| PdfRenderer.EscapedKeeps | src/pdf_generator/pdf_renderer.py:246-250 | a character outside the entity letters and brackets occurs after escaping exactly when before |
| PdfRenderer.EscapedLength | src/pdf_generator/pdf_renderer.py:246-250 | the escaped text is the input's length plus 4 per `&` and 3 per `<` or `>` |
| PdfRenderer.EscapedPlain | src/pdf_generator/pdf_renderer.py:246-250 | text without `&`, `<`, `>` is unchanged |
| PdfRenderer.UnescapeEscaped | src/pdf_generator/pdf_renderer.py:246-250 | unescaping the entities gives back the text |
| PdfRenderer.EscapeXmlProperties | src/pdf_generator/pdf_renderer.py:246-250 | `_escape_xml`: no brackets, the length formula, identity without specials, read back as the input |
| PdfRenderer.KeptParagraphs | src/pdf_generator/pdf_renderer.py:179-184 | at most one paragraph per line, each the escaped strip of a non-blank line |
| PdfRenderer.BuildBody | src/pdf_generator/pdf_renderer.py:179-184 | the loop appends exactly the body paragraphs |
| PdfRenderer.KeptParagraphsRead | src/pdf_generator/pdf_renderer.py:179-184 | paragraphs, unescaped, are the stripped non-blank lines in order |
| PdfRenderer.BodyParagraphsProperties | src/pdf_generator/pdf_renderer.py:179-184 | the body is the content's non-blank lines stripped in order; each paragraph is non-empty without `<`, `>` or newline |
| PdfRenderer.ParagraphOfLine | src/pdf_generator/pdf_renderer.py:181-183 | one kept line gives a non-empty paragraph without `<`, `>` or newline |
| PdfRenderer.CreateDocumentMetadata | src/pdf_generator/pdf_renderer.py:291-299 | unknown code fails; success exactly when the code parses and the document is valid, copying every field and converting the code; other failures carry a violation |
| PdfRenderer.MetadataOfDocument | src/pdf_generator/pdf_renderer.py:291-299 | every valid document is rebuilt from its own fields |

## Left out

- YAML parsing and file I/O (`yaml.safe_load`, `open`, `Path.exists`, `glob`): the directory is a given list of files, each unparsable (with the parser's message) or parsed into a tree.
- Pydantic's message texts and `_format_validation_errors` wording: violations carry field path and kind; `describe` turns a kind into text.
- Models.CheckCategory, Models.CheckDomain: when a field has the wrong type, only type violations are reported; pydantic would also list constraint violations of other fields.
- Jinja2 rendering: a given function of (template, variables) that may fail; placeholder-free output is not claimed.
- `random.Random`: replaced by an explicit stream of draws; `random.choice` as `floor(u * n)`, not `_randbelow`; the cumulative sums of `random.choices` are exact reals.
- The 1000-sample frequency test: statistical; `Templates.CategoryChosenBySlice` states the interval each category owns instead.
- Float rounding in weight sums and `float()`: reals are exact; `float()` is the finite decimal grammar over ASCII digits, without `inf`, `nan` or underscores.
- NoDigitsNoNumber: holds for ASCII digits only. Python's `float()` also accepts other Unicode decimal digits, so `parse_language_mix("pl:٧٠,en:٣٠")` succeeds in the source, while the model reports a bad percentage. The Unicode digit tables are not modelled.
- YamlValue.Raw: dictionary keys are strings only. YAML maps with integer, boolean or null keys (`1:`, `yes:`) cannot be represented, and neither can the errors the source gives for them (`LanguageCode(1)`, pydantic's key-type errors).
- Text.Lower: ASCII letters only; for non-ASCII input a Unicode `lower()` can differ, which changes only the code quoted in an UnknownLanguage error.
- Templates.LanguageSelector.constructor: requires a validated mix with distinct keys; the source accepts any dict and fails inside `random.choices` on an empty or all-zero one.
- Templates.VariablesDrawnInOrder: requires distinct variable names, which every `dict` has.
- `TemplateRenderError` text: the error carries its parts (category, language, Jinja error) rather than the formatted message.
- `validate_output_path`: `Path.resolve()` is left out (an accepted path is returned as given), the wrapping of unexpected exceptions (utils.py:71-74) too; paths are POSIX strings.
- `_build_story` beyond the body: title, metadata line, spacers, footer, styles and `doc.build` (ReportLab layout).
- `datetime.now()`: the timestamp is the parameter `now` of `PdfRenderer.CreateDocumentMetadata`.
- Logging, `format_file_size`, `atomic_write`, `ensure_directory`, `get_project_root`, `cli.py`, `__main__.py`, `__init__.py`: I/O, environment and UI plumbing.
- `exceptions.py`: class declarations only; each module has an error datatype instead.
- Literal examples over the real pair parser, such as `parse_language_mix("pl:70,en:30")`, are proved through `Utils.TwoTextItems` and `Utils.PairOfDigits` for any digits, not as closed literals.

## Findings

| source | as written | input that shows it | evidently intended | confidence | as-written member | corrected member |
|---|---|---|---|---|---|---|
| src/pdf_generator/utils.py:63 | `re.match(r"^[a-zA-Z0-9._-]+$", part)`: `$` also matches before a final newline | `Path("out\n")` passes the component check | only `[a-zA-Z0-9._-]` characters in a component (as the error message says), e.g. `re.fullmatch` | medium, not executed | Utils.ValidateOutputPathAsWritten, Utils.TrailingNewlineAccepted | Utils.ValidateOutputPath, Utils.AcceptedPathChars |

/** The selection engine of `template_engine.py`: a weighted draw of a category,
    a uniform draw of one of its templates for the language, one uniform draw per
    faker variable, then rendering. Every draw comes from the engine's own seeded
    stream, in that order; the Jinja2 sandbox is the `render` parameter. */
module Templates {
  import opened Wrappers
  import opened Numbers
  import opened Dicts
  import opened Sampling
  import opened Models

  /** The exceptions Jinja2 can raise while compiling or rendering a template. */
  datatype JinjaError = JinjaSyntax(detail: string) | JinjaUndefined(detail: string) | JinjaOther(detail: string)

  /** `TemplateRenderError`, with the parts its message is built from. */
  datatype RenderError =
    | NoTemplates(language: string, inCategory: string)
    | TemplateSyntax(inCategory: string, detail: string)
    | UndefinedVariable(inCategory: string, detail: string, available: seq<string>)
    | RenderFailed(inCategory: string, detail: string)

  /** The tuple `(category_name, rendered_content, template_used)`. */
  datatype Rendered = Rendered(category: string, content: string, template: string)

  type Pools = seq<(string, seq<FakerValue>)>
  type Variables = seq<(string, FakerValue)>
  type Renderer = (string, Variables) -> Result<string, JinjaError>

  // ---------------------------------------------------------------- selection

  /** What a validated domain guarantees about its category weights. */
  lemma DomainWeights(d: DomainConfig)
    requires ValidDomain(d)
    ensures |Weights(d.categories)| > 0
    ensures NonNegative(Weights(d.categories))
    ensures Sum(Weights(d.categories)) > 0.0
  {
    assert ValidCategory(d.categories[0].1);
  }

  /** `random.choices(categories, weights=weights, k=1)[0]` for the draw `u`. */
  function SelectCategory(d: DomainConfig, u: Draw): (string, TemplateCategory)
    requires ValidDomain(d)
  {
    DomainWeights(d);
    d.categories[WeightedIndex(Weights(d.categories), u)]
  }

  /** The selected pair is one of the domain's `(name, category)` entries, and
      its weight is positive: a category of weight 0 is never chosen. */
  lemma SelectedCategory(d: DomainConfig, u: Draw)
    requires ValidDomain(d)
    ensures exists i :: 0 <= i < |d.categories| && d.categories[i] == SelectCategory(d, u)
    ensures SelectCategory(d, u).1.weight > 0.0
  {
    DomainWeights(d);
    var i := WeightedIndex(Weights(d.categories), u);
    WeightedIndexPositive(Weights(d.categories), u);
    assert d.categories[i] == SelectCategory(d, u);
  }

  /** A category is chosen exactly by the draws in its slice of the cumulative
      weights, a slice as long as its weight over the total weight. */
  lemma CategoryChosenBySlice(d: DomainConfig, u: Draw, i: nat)
    requires ValidDomain(d) && i < |d.categories|
    ensures
      var w := Weights(d.categories);
      WeightedIndex(w, u) == i <==> Sum(w[..i]) <= Scale(u, Sum(w)) < Sum(w[..i + 1])
  {
    DomainWeights(d);
    WeightedIndexInterval(Weights(d.categories), u, i);
  }

  // ---------------------------------------------------------------- variables

  /** The value drawn for one variable: `random.choice(pool)`, or `""` for an
      empty pool, which consumes no draw. */
  function ValueFor(pool: seq<FakerValue>, u: Draw): FakerValue {
    if |pool| == 0 then StrValue("") else pool[UniformIndex(|pool|, u)]
  }

  /** How many of the first `i` pools are non-empty, that is, how many draws
      they consume. */
  function DrawsBefore(pools: Pools, i: nat): nat
    requires i <= |pools|
  {
    if i == 0 then 0 else DrawsBefore(pools, i - 1) + (if |pools[i - 1].1| == 0 then 0 else 1)
  }

  /** The draws of the first `i` pools do not depend on the pools after them. */
  lemma {:induction false} DrawsBeforePrefix(pools: Pools, n: nat, i: nat)
    requires i <= n <= |pools|
    ensures DrawsBefore(pools[..n], i) == DrawsBefore(pools, i)
  {
    if i > 0 {
      DrawsBeforePrefix(pools, n, i - 1);
      assert pools[..n][i - 1] == pools[i - 1];
    }
  }

  /** `_generate_template_variables`: the variables built when the first draw
      is `s(start)`; the draw for pool `i` is `s(start + DrawsBefore(pools, i))`. */
  function DrawVariables(pools: Pools, s: Stream, start: nat): Variables {
    if |pools| == 0 then []
    else
      var n := |pools| - 1;
      Put(DrawVariables(pools[..n], s, start), pools[n].0, ValueFor(pools[n].1, s(start + DrawsBefore(pools, n))))
  }

  /** The variables have exactly the pools' keys in the pools' order, and the
      `i`-th value comes from the draw numbered by the non-empty pools before it. */
  lemma {:induction false} VariablesDrawnInOrder(pools: Pools, s: Stream, start: nat)
    requires DistinctKeys(pools)
    ensures |DrawVariables(pools, s, start)| == |pools|
    ensures forall i {:trigger DrawVariables(pools, s, start)[i]} :: 0 <= i < |pools| ==>
      DrawVariables(pools, s, start)[i]
        == (pools[i].0, ValueFor(pools[i].1, s(start + DrawsBefore(pools, i))))
  {
    if |pools| > 0 {
      var n := |pools| - 1;
      var front := pools[..n];
      assert DistinctKeys(front) by {
        forall a, b | 0 <= a < b < |front| ensures front[a].0 != front[b].0 {
          assert front[a] == pools[a] && front[b] == pools[b];
        }
      }
      VariablesDrawnInOrder(front, s, start);
      var vars := DrawVariables(front, s, start);
      assert !HasKey(vars, pools[n].0) by {
        forall i | 0 <= i < |vars| ensures vars[i].0 != pools[n].0 {
          assert vars[i].0 == pools[i].0;
        }
      }
      PutAbsent(vars, pools[n].0, ValueFor(pools[n].1, s(start + DrawsBefore(pools, n))));
      forall i | 0 <= i < n
        ensures DrawsBefore(front, i) == DrawsBefore(pools, i)
      {
        DrawsBeforePrefix(pools, n, i);
      }
    }
  }

  /** Each variable's value is a member of its pool, or `""` when the pool is empty. */
  lemma VariablesFromPools(pools: Pools, s: Stream, start: nat, i: nat)
    requires DistinctKeys(pools) && i < |pools|
    ensures i < |DrawVariables(pools, s, start)|
    ensures DrawVariables(pools, s, start)[i].0 == pools[i].0
    ensures |pools[i].1| > 0 ==> DrawVariables(pools, s, start)[i].1 in pools[i].1
    ensures |pools[i].1| == 0 ==> DrawVariables(pools, s, start)[i].1 == StrValue("")
  {
    VariablesDrawnInOrder(pools, s, start);
    assert DrawVariables(pools, s, start)[i] == (pools[i].0, ValueFor(pools[i].1, s(start + DrawsBefore(pools, i))));
  }

  /** The variables depend only on the draws they consume: streams that agree
      on those give the same variables. */
  lemma {:induction false} VariablesUseOnlyTheirDraws(pools: Pools, s: Stream, t: Stream, start: nat)
    requires forall k :: start <= k < start + DrawsBefore(pools, |pools|) ==> s(k) == t(k)
    ensures DrawVariables(pools, s, start) == DrawVariables(pools, t, start)
  {
    if |pools| > 0 {
      var n := |pools| - 1;
      DrawsBeforePrefix(pools, n, n);
      VariablesUseOnlyTheirDraws(pools[..n], s, t, start);
      if |pools[n].1| > 0 {
        assert s(start + DrawsBefore(pools, n)) == t(start + DrawsBefore(pools, n));
      }
    }
  }

  // ---------------------------------------------------------------- rendering

  /** The template list of a category for a language, when it has a non-empty one. */
  function TemplatesFor(c: TemplateCategory, language: Language): (r: Option<seq<string>>)
    ensures r.Some? ==> |r.value| > 0 && Get(c.templates, language) == r
    ensures r.None? <==> Get(c.templates, language).None? || Get(c.templates, language) == Some([])
  {
    match Get(c.templates, language)
    case None => None
    case Some(ts) => if |ts| == 0 then None else Some(ts)
  }

  /** The outcome once the category and template are fixed and the variables
      drawn: Jinja2's exceptions become `TemplateRenderError`s naming the category. */
  function RenderWith(render: Renderer, name: string, template: string, vars: Variables): (r: Result<Rendered, RenderError>)
    ensures r.Ok? <==> render(template, vars).Ok?
    ensures r.Ok? ==> r.value == Rendered(name, render(template, vars).value, template)
    ensures r.Err? ==> r.error.inCategory == name
  {
    match render(template, vars)
    case Ok(content) => Ok(Rendered(name, content, template))
    case Err(JinjaSyntax(e)) => Err(TemplateSyntax(name, e))
    case Err(JinjaUndefined(e)) => Err(UndefinedVariable(name, e, Keys(vars)))
    case Err(JinjaOther(e)) => Err(RenderFailed(name, e))
  }

  /** `render_random_document(language)` from stream position `start`: the
      outcome and the position after it. */
  function RenderSpec(d: DomainConfig, render: Renderer, s: Stream, start: nat, language: Language): (Result<Rendered, RenderError>, nat)
    requires ValidDomain(d)
  {
    var (name, c) := SelectCategory(d, s(start));
    match TemplatesFor(c, language)
    case None => (Err(NoTemplates(Code(language), name)), start + 1)
    case Some(ts) => RenderChosen(render, name, c, ts, s, start + 1)
  }

  /** The rest of `render_random_document` once the category is drawn and has
      the non-empty template list `ts`: the template draw at `k`, then the
      variables, then rendering. */
  function RenderChosen(render: Renderer, name: string, c: TemplateCategory, ts: seq<string>, s: Stream, k: nat): (Result<Rendered, RenderError>, nat)
    requires |ts| > 0
  {
    var template := ts[UniformIndex(|ts|, s(k))];
    var vars := DrawVariables(c.fakerVars, s, k + 1);
    (RenderWith(render, name, template, vars), k + 1 + DrawsBefore(c.fakerVars, |c.fakerVars|))
  }

  /** A rendered document names a category of the domain, and its template is
      one of that category's templates for the language. */
  lemma RenderedFromDomain(d: DomainConfig, render: Renderer, s: Stream, start: nat, language: Language)
    requires ValidDomain(d)
    ensures
      var r := RenderSpec(d, render, s, start, language).0;
      r.Ok? ==> exists i :: (0 <= i < |d.categories| && d.categories[i].0 == r.value.category
                             && Get(d.categories[i].1.templates, language).Some?
                             && r.value.template in Get(d.categories[i].1.templates, language).value)
  {
    SelectedCategory(d, s(start));
  }

  /** "No templates" is raised exactly when the drawn category lacks a non-empty
      list for the language, after the category draw alone. For a language of
      the domain it is never raised. */
  lemma NoTemplatesExactly(d: DomainConfig, render: Renderer, s: Stream, start: nat, language: Language)
    requires ValidDomain(d)
    ensures
      var (r, next) := RenderSpec(d, render, s, start, language);
      (r.Err? && r.error.NoTemplates?) <==> TemplatesFor(SelectCategory(d, s(start)).1, language).None?
    ensures
      var (r, next) := RenderSpec(d, render, s, start, language);
      r.Err? && r.error.NoTemplates? ==> next == start + 1 && r.error.inCategory == SelectCategory(d, s(start)).0
    ensures language in d.languages ==> TemplatesFor(SelectCategory(d, s(start)).1, language).Some?
  {
    var (name, c) := SelectCategory(d, s(start));
    if language in d.languages {
      SelectedCategory(d, s(start));
      var i :| 0 <= i < |d.categories| && d.categories[i] == (name, c);
      assert Covers(c, d.languages);
      assert ValidCategory(c);
      var ts := Get(c.templates, language).value;
      var j :| 0 <= j < |c.templates| && c.templates[j] == (language, ts);
    }
  }

  /** The same draws give the same document: two streams that agree on the
      draws a call consumes give the same outcome and end at the same place. */
  lemma SameDrawsSameDocument(d: DomainConfig, render: Renderer, s: Stream, t: Stream, start: nat, language: Language)
    requires ValidDomain(d)
    requires forall k :: start <= k < RenderSpec(d, render, s, start, language).1 ==> s(k) == t(k)
    ensures RenderSpec(d, render, s, start, language) == RenderSpec(d, render, t, start, language)
  {
    assert s(start) == t(start);
    var c := SelectCategory(d, s(start)).1;
    if TemplatesFor(c, language).Some? {
      assert s(start + 1) == t(start + 1);
      VariablesUseOnlyTheirDraws(c.fakerVars, s, t, start + 2);
    }
  }

  /** `TemplateEngine`: a validated domain, the Jinja2 renderer and
      `self.random`, a stream advanced by every draw. */
  class TemplateEngine {
    const config: DomainConfig
    const render: Renderer
    const draws: Stream
    var cursor: nat

    /** `TemplateEngine(domain_config, seed)`: the stream stands for `random.Random(seed)`. */
    constructor (config: DomainConfig, render: Renderer, draws: Stream)
      requires ValidDomain(config)
      ensures this.config == config && this.render == render && this.draws == draws
      ensures cursor == 0
    {
      this.config := config;
      this.render := render;
      this.draws := draws;
      cursor := 0;
    }

    /** `_select_weighted_category`: one weighted draw. */
    method SelectWeightedCategory() returns (name: string, category: TemplateCategory)
      requires ValidDomain(config)
      modifies this
      ensures (name, category) == SelectCategory(config, draws(old(cursor)))
      ensures cursor == old(cursor) + 1
    {
      DomainWeights(config);
      var i := WeightedIndex(Weights(config.categories), draws(cursor));
      cursor := cursor + 1;
      name, category := config.categories[i].0, config.categories[i].1;
    }

    /** `_generate_template_variables`: one draw per non-empty pool, in the
        pools' order. */
    method GenerateTemplateVariables(category: TemplateCategory) returns (variables: Variables)
      modifies this
      ensures variables == DrawVariables(category.fakerVars, draws, old(cursor))
      ensures cursor == old(cursor) + DrawsBefore(category.fakerVars, |category.fakerVars|)
    {
      var pools := category.fakerVars;
      ghost var start := cursor;
      variables := [];
      var i := 0;
      while i < |pools|
        invariant 0 <= i <= |pools|
        invariant variables == DrawVariables(pools[..i], draws, start)
        invariant cursor == start + DrawsBefore(pools, i)
      {
        assert pools[..i + 1][..i] == pools[..i];
        DrawsBeforePrefix(pools, i + 1, i);
        var (name, pool) := pools[i];
        if |pool| == 0 {
          variables := Put(variables, name, StrValue(""));
        } else {
          var j := UniformIndex(|pool|, draws(cursor));
          cursor := cursor + 1;
          variables := Put(variables, name, pool[j]);
        }
        i := i + 1;
      }
      assert pools[..i] == pools;
    }

    /** `render_random_document(language)`. */
    method RenderRandomDocument(language: Language) returns (r: Result<Rendered, RenderError>)
      requires ValidDomain(config)
      modifies this
      ensures (r, cursor) == RenderSpec(config, render, draws, old(cursor), language)
    {
      var name, category := SelectWeightedCategory();
      var templates := TemplatesFor(category, language);
      if templates.None? {
        return Err(NoTemplates(Code(language), name));
      }
      r := RenderTemplate(name, category, templates.value);
    }

    /** Draw the template from `ts`, then the variables, and render. */
    method RenderTemplate(name: string, category: TemplateCategory, ts: seq<string>) returns (r: Result<Rendered, RenderError>)
      requires |ts| > 0
      modifies this
      ensures (r, cursor) == RenderChosen(render, name, category, ts, draws, old(cursor))
    {
      var template := ts[UniformIndex(|ts|, draws(cursor))];
      cursor := cursor + 1;
      var variables := GenerateTemplateVariables(category);
      r := RenderWith(render, name, template, variables);
    }
  }

  // ---------------------------------------------------------- language choice

  /** `[distribution[lang] for lang in languages]`, or `None` where a
      language is not a key (Python's `KeyError`). */
  function LookupAll(d: Distribution, languages: seq<Language>): Option<seq<real>> {
    if |languages| == 0 then Some([])
    else
      match Get(d, languages[0])
      case None => None
      case Some(p) =>
        match LookupAll(d, languages[1..])
        case None => None
        case Some(rest) => Some([p] + rest)
  }

  /** Looking up the keys from position `i` on gives the values from `i` on. */
  lemma {:induction false} LookupKeysFrom(d: Distribution, i: nat)
    requires DistinctKeys(d) && i <= |d|
    ensures LookupAll(d, Keys(d[i..])) == Some(Values(d[i..]))
    decreases |d| - i
  {
    if i < |d| {
      var e := d[i..];
      assert e[0] == d[i] && e[1..] == d[i + 1..];
      var ks := Keys(e);
      assert ks[0] == d[i].0 && ks[1..] == Keys(d[i + 1..]);
      assert Get(d, ks[0]) == Some(d[i].1) by {
        GetDistinct(d, i);
      }
      assert LookupAll(d, ks[1..]) == Some(Values(d[i + 1..])) by {
        LookupKeysFrom(d, i + 1);
      }
    }
  }

  /** Looking every key up in turn never fails and gives the values in key
      order: the lists of languages and weights are index-aligned with the
      distribution. */
  lemma LookupKeysIsValues(d: Distribution)
    requires DistinctKeys(d)
    ensures LookupAll(d, Keys(d)) == Some(Values(d))
  {
    LookupKeysFrom(d, 0);
    assert d[0..] == d;
  }

  /** What a validated `LanguageMix` guarantees about its weights. */
  lemma MixWeights(d: Distribution)
    requires ValidMix(d)
    ensures |d| > 0
    ensures NonNegative(Values(d))
    ensures Sum(Values(d)) > 0.0
  {
  }

  /** `LanguageSelector`: the distribution split into index-aligned
      `languages` and `weights`, and its own `self.random`. */
  class LanguageSelector {
    const distribution: Distribution
    const languages: seq<Language>
    const weights: seq<real>
    const draws: Stream
    var cursor: nat

    /** The selector's lists describe a validated distribution. */
    ghost predicate Valid() {
      ValidMix(distribution) && DistinctKeys(distribution)
      && languages == Keys(distribution) && weights == Values(distribution)
    }

    /** `LanguageSelector(distribution, seed)`, for a distribution built by `LanguageMix`. */
    constructor (distribution: Distribution, draws: Stream)
      requires ValidMix(distribution) && DistinctKeys(distribution)
      ensures Valid()
      ensures this.distribution == distribution && this.draws == draws && cursor == 0
    {
      this.distribution := distribution;
      this.draws := draws;
      var languages := Keys(distribution);
      LookupKeysIsValues(distribution);
      this.languages := languages;
      this.weights := LookupAll(distribution, languages).value;
      cursor := 0;
    }

    /** `select_random_language`: one weighted draw over the languages. */
    method SelectRandomLanguage() returns (language: Language)
      requires Valid()
      modifies this
      ensures Valid()
      ensures language == ChooseLanguage(distribution, draws(old(cursor)))
      ensures cursor == old(cursor) + 1
    {
      MixWeights(distribution);
      language := languages[WeightedIndex(weights, draws(cursor))];
      cursor := cursor + 1;
    }
  }

  /** The language `random.choices(languages, weights)` picks for the draw `u`. */
  function ChooseLanguage(d: Distribution, u: Draw): Language
    requires ValidMix(d)
  {
    MixWeights(d);
    Keys(d)[WeightedIndex(Values(d), u)]
  }

  /** The chosen language is a key of the distribution with a positive probability. */
  lemma ChosenLanguageInMix(d: Distribution, u: Draw)
    requires ValidMix(d) && DistinctKeys(d)
    ensures HasKey(d, ChooseLanguage(d, u))
    ensures Get(d, ChooseLanguage(d, u)).Some? && Get(d, ChooseLanguage(d, u)).value > 0.0
  {
    MixWeights(d);
    var i := WeightedIndex(Values(d), u);
    WeightedIndexPositive(Values(d), u);
    GetDistinct(d, i);
  }
}

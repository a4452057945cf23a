/** The command-line parsers: the language-mix option `"pl:70,en:30"` and the
    component check of an output directory. */
module Utils {
  import opened Wrappers
  import opened Text
  import opened Numbers
  import opened Dicts
  import opened Results
  import opened Decimal
  import opened PurePaths
  import opened Models

  // ------------------------------------------------------------ language mix

  /** `InvalidLanguageMixError`, by the check that raised it. */
  datatype MixError =
    | BadFormat(pair: string)
    | UnknownLanguage(code: string)
    | BadPercentage(percent: string, forCode: string)
    | DuplicateLanguage(duplicate: string)
    | InvalidMix(mix: string, violation: Violation)

  /** `s.split(c, 1)` when `c` occurs in `s`: the text before its first
      occurrence and the text after it. */
  function SplitOnce(s: string, c: char): (r: Option<(string, string)>)
    ensures r.None? <==> c !in s
    ensures r.Some? ==> s == r.value.0 + [c] + r.value.1 && c !in r.value.0
  {
    match IndexOf(s, c)
    case None => None
    case Some(i) =>
      assert s == s[..i] + [c] + s[i + 1..];
      Some((s[..i], s[i + 1..]))
  }

  /** The two halves of an item, once stripped and the language lower-cased:
      the language is looked up first, then the percentage is read, and the
      probability is the percentage divided by 100. */
  function ParseHalves(langStr: string, percentStr: string): (r: Result<(Language, real), MixError>)
    ensures ParseLanguage(langStr).None? ==> r == Err(UnknownLanguage(langStr))
    ensures ParseLanguage(langStr).Some? && ParseDecimal(percentStr).None? ==> r == Err(BadPercentage(percentStr, langStr))
    ensures r.Ok? <==> ParseLanguage(langStr).Some? && ParseDecimal(percentStr).Some?
    ensures r.Ok? ==> Code(r.value.0) == langStr && r.value.1 * 100.0 == ParseDecimal(percentStr).value
  {
    match ParseLanguage(langStr)
    case None => Err(UnknownLanguage(langStr))
    case Some(lang) =>
      match ParseDecimal(percentStr)
      case None => Err(BadPercentage(percentStr, langStr))
      case Some(percentage) => Ok((lang, percentage / 100.0))
  }

  /** One comma-separated item: stripped, then split at its first colon; an
      item without a colon is refused as it stands after stripping. */
  function ParsePair(raw: string): (r: Result<(Language, real), MixError>)
    ensures ':' !in Strip(raw) ==> r == Err(BadFormat(Strip(raw)))
    ensures ':' in Strip(raw) ==> r.Err? ==> r.error.UnknownLanguage? || r.error.BadPercentage?
  {
    var pair := Strip(raw);
    match SplitOnce(pair, ':')
    case None => Err(BadFormat(pair))
    case Some((l, p)) => ParseHalves(Lower(Strip(l)), Strip(p))
  }

  /** A parser of single items, so that the loop can be reasoned about
      whatever the item grammar. */
  type PairParser = string -> Result<(Language, real), MixError>

  /** One iteration of the loop: the item's language must not be in the
      distribution yet (checked after its percentage is read). */
  function MixEntryWith(parse: PairParser, distribution: Distribution, raw: string): Result<Distribution, MixError> {
    match parse(raw)
    case Err(e) => Err(e)
    case Ok((lang, probability)) =>
      if HasKey(distribution, lang) then Err(DuplicateLanguage(Code(lang)))
      else Ok(Put(distribution, lang, probability))
  }

  function MixStep(parse: PairParser): (Distribution, string) -> Result<Distribution, MixError> {
    (distribution: Distribution, raw: string) => MixEntryWith(parse, distribution, raw)
  }

  /** The loop over `mix_str.split(",")` with items read by `parse`, then
      `LanguageMix(distribution=...)`, whose validation error is wrapped. */
  function MixWith(parse: PairParser, mixStr: string): Result<Distribution, MixError> {
    match Fold(MixStep(parse), [], Split(mixStr, ','))
    case Err(e) => Err(e)
    case Ok(d) =>
      match CheckMix(d)
      case Err(v) => Err(InvalidMix(mixStr, v))
      case Ok(m) => Ok(m)
  }

  /** `parse_language_mix(mix_str)`. */
  function MixFromString(mixStr: string): Result<Distribution, MixError> {
    MixWith(ParsePair, mixStr)
  }

  /** The body of the loop up to the duplicate check: strip the item, split
      it at its first colon, then read the two halves. */
  method ReadPair(raw: string) returns (r: Result<(Language, real), MixError>)
    ensures r == ParsePair(raw)
  {
    var pair := Strip(raw);
    var halves := SplitOnce(pair, ':');
    if halves.None? {
      return Err(BadFormat(pair));
    }
    PairOfHalves(raw, halves.value.0, halves.value.1);
    r := ReadHalves(Lower(Strip(halves.value.0)), Strip(halves.value.1));
  }

  /** The halves of an item: look up the language, read the percentage and
      divide it by 100. */
  method ReadHalves(langStr: string, percentStr: string) returns (r: Result<(Language, real), MixError>)
    ensures r == ParseHalves(langStr, percentStr)
  {
    var lang := ParseLanguage(langStr);
    if lang.None? {
      return Err(UnknownLanguage(langStr));
    }
    var percentage := ParseDecimal(percentStr);
    if percentage.None? {
      return Err(BadPercentage(percentStr, langStr));
    }
    var probability := percentage.value / 100.0;
    return Ok((lang.value, probability));
  }

  /** `parse_language_mix`, loop by loop with its early exits. */
  method ParseLanguageMix(mixStr: string) returns (r: Result<Distribution, MixError>)
    ensures r == MixFromString(mixStr)
  {
    var items := Split(mixStr, ',');
    var distribution: Distribution := [];
    var i := 0;
    while i < |items|
      invariant i <= |items|
      invariant Fold(MixStep(ParsePair), [], items[..i]) == Ok(distribution)
    {
      var parsed := ReadPair(items[i]);
      if parsed.Err? {
        ItemFails(ParsePair, items, i, distribution, parsed.error);
        return Err(parsed.error);
      }
      var (lang, probability) := parsed.value;
      if HasKey(distribution, lang) {
        ItemRepeats(ParsePair, items, i, distribution);
        return Err(DuplicateLanguage(Code(lang)));
      }
      ItemAdded(ParsePair, items, i, distribution);
      distribution := Put(distribution, lang, probability);
      i := i + 1;
    }
    FoldAll(MixStep(ParsePair), [], items);
    var checked := CheckMix(distribution);
    if checked.Err? {
      return Err(InvalidMix(mixStr, checked.error));
    }
    return Ok(checked.value);
  }

  /** An item that does not parse ends the loop with its error. */
  lemma ItemFails(parse: PairParser, items: seq<string>, i: nat, d: Distribution, e: MixError)
    requires i < |items| && Fold(MixStep(parse), [], items[..i]) == Ok(d) && parse(items[i]) == Err(e)
    ensures Fold(MixStep(parse), [], items) == Err(e)
  {
    FoldPrefixStep(MixStep(parse), [], items, i);
    FoldErrSticky(MixStep(parse), [], items, i + 1);
  }

  /** An item whose language is already in the distribution ends the loop as
      a duplicate. */
  lemma ItemRepeats(parse: PairParser, items: seq<string>, i: nat, d: Distribution)
    requires i < |items| && Fold(MixStep(parse), [], items[..i]) == Ok(d)
    requires parse(items[i]).Ok? && HasKey(d, parse(items[i]).value.0)
    ensures Fold(MixStep(parse), [], items) == Err(DuplicateLanguage(Code(parse(items[i]).value.0)))
  {
    FoldPrefixStep(MixStep(parse), [], items, i);
    FoldErrSticky(MixStep(parse), [], items, i + 1);
  }

  /** An item with a new language is assigned into the distribution. */
  lemma ItemAdded(parse: PairParser, items: seq<string>, i: nat, d: Distribution)
    requires i < |items| && Fold(MixStep(parse), [], items[..i]) == Ok(d)
    requires parse(items[i]).Ok? && !HasKey(d, parse(items[i]).value.0)
    ensures Fold(MixStep(parse), [], items[..i + 1]) == Ok(Put(d, parse(items[i]).value.0, parse(items[i]).value.1))
  {
    FoldPrefixStep(MixStep(parse), [], items, i);
  }

  /** When the loop succeeds, the distribution has one entry per item, in item
      order, each the item's parsed pair, and no language twice. */
  lemma {:induction false} MixEntriesItemwise(parse: PairParser, items: seq<string>)
    ensures var f := Fold(MixStep(parse), [], items);
      f.Ok? ==> (|f.value| == |items| && DistinctKeys(f.value)
        && forall i :: 0 <= i < |items| ==> parse(items[i]) == Ok(f.value[i]))
    decreases |items|
  {
    if |items| > 0 {
      var front := items[..|items| - 1];
      var last := items[|items| - 1];
      MixEntriesItemwise(parse, front);
      var f := Fold(MixStep(parse), [], front);
      if f.Ok? && parse(last).Ok? && !HasKey(f.value, parse(last).value.0) {
        var (lang, x) := parse(last).value;
        PutAbsent(f.value, lang, x);
        var d := f.value + [(lang, x)];
        assert DistinctKeys(d) by {
          forall a, b | 0 <= a < b < |d| ensures d[a].0 != d[b].0 {
            if b == |f.value| {
              assert d[a] == f.value[a];
            } else {
              assert d[a] == f.value[a] && d[b] == f.value[b];
            }
          }
        }
        forall i | 0 <= i < |items| ensures parse(items[i]) == Ok(d[i]) {
          if i < |front| {
            assert items[i] == front[i];
          }
        }
      }
    }
  }

  /** Conversely, the loop succeeds when every item parses and no two items
      name the same language. */
  lemma {:induction false} MixEntriesAccepted(parse: PairParser, items: seq<string>)
    requires forall i :: 0 <= i < |items| ==> parse(items[i]).Ok?
    requires forall i, j :: 0 <= i < j < |items| ==> parse(items[i]).value.0 != parse(items[j]).value.0
    ensures Fold(MixStep(parse), [], items).Ok?
    decreases |items|
  {
    if |items| > 0 {
      var front := items[..|items| - 1];
      var last := items[|items| - 1];
      assert forall i :: 0 <= i < |front| ==> front[i] == items[i];
      MixEntriesAccepted(parse, front);
      MixEntriesItemwise(parse, front);
      var d := Fold(MixStep(parse), [], front).value;
      assert !HasKey(d, parse(last).value.0) by {
        forall i | 0 <= i < |d| ensures d[i].0 != parse(last).value.0 {
          assert parse(front[i]) == Ok(d[i]);
        }
      }
    }
  }

  /** The first item that does not parse stops the loop with its error,
      provided no earlier item repeats a language. */
  lemma FirstBadItemReported(parse: PairParser, items: seq<string>, i: nat)
    requires i < |items| && parse(items[i]).Err?
    requires forall j :: 0 <= j < i ==> parse(items[j]).Ok?
    requires forall j, k :: 0 <= j < k < i ==> parse(items[j]).value.0 != parse(items[k]).value.0
    ensures Fold(MixStep(parse), [], items) == Err(parse(items[i]).error)
  {
    var front := items[..i];
    assert forall j :: 0 <= j < |front| ==> front[j] == items[j];
    MixEntriesAccepted(parse, front);
    FoldPrefixStep(MixStep(parse), [], items, i);
    FoldErrSticky(MixStep(parse), [], items, i + 1);
  }

  /** An item whose language an earlier item already gave stops the loop as a
      duplicate, provided every item up to it parses and none before it repeats. */
  lemma DuplicateItemReported(parse: PairParser, items: seq<string>, i: nat, j: nat)
    requires j < i < |items|
    requires forall k :: 0 <= k <= i ==> parse(items[k]).Ok?
    requires forall a, b :: 0 <= a < b < i ==> parse(items[a]).value.0 != parse(items[b]).value.0
    requires parse(items[j]).value.0 == parse(items[i]).value.0
    ensures Fold(MixStep(parse), [], items) == Err(DuplicateLanguage(Code(parse(items[i]).value.0)))
  {
    var front := items[..i];
    assert forall k :: 0 <= k < |front| ==> front[k] == items[k];
    MixEntriesAccepted(parse, front);
    MixEntriesItemwise(parse, front);
    var d := Fold(MixStep(parse), [], front).value;
    assert parse(front[j]) == Ok(d[j]);
    assert HasKey(d, parse(items[i]).value.0);
    FoldPrefixStep(MixStep(parse), [], items, i);
    FoldErrSticky(MixStep(parse), [], items, i + 1);
  }

  /** A parsed mix is a valid `LanguageMix` over distinct languages, and its
      entries are the items' parsed pairs, in order. */
  lemma ParsedMix(mixStr: string)
    ensures var r := MixFromString(mixStr); var items := Split(mixStr, ',');
      r.Ok? ==> (ValidMix(r.value) && DistinctKeys(r.value) && |r.value| == |items|
        && forall i :: 0 <= i < |items| ==> ParsePair(items[i]) == Ok(r.value[i]))
  {
    MixEntriesItemwise(ParsePair, Split(mixStr, ','));
  }

  /** When the items all parse to distinct languages, the loop collects
      their pairs in order and the mix is accepted exactly when those pairs
      make a valid `LanguageMix`. */
  lemma WellFormedMixChecked(parse: PairParser, mixStr: string)
    requires forall i :: 0 <= i < |Split(mixStr, ',')| ==> parse(Split(mixStr, ',')[i]).Ok?
    requires forall i, j :: 0 <= i < j < |Split(mixStr, ',')| ==>
      parse(Split(mixStr, ',')[i]).value.0 != parse(Split(mixStr, ',')[j]).value.0
    ensures var items := Split(mixStr, ',');
      var f := Fold(MixStep(parse), [], items);
      && f.Ok? && |f.value| == |items|
      && (forall i :: 0 <= i < |items| ==> parse(items[i]) == Ok(f.value[i]))
      && (MixWith(parse, mixStr).Ok? <==> ValidMix(f.value))
      && (MixWith(parse, mixStr).Ok? ==> MixWith(parse, mixStr).value == f.value)
  {
    var items := Split(mixStr, ',');
    MixEntriesAccepted(parse, items);
    MixEntriesItemwise(parse, items);
  }

  /** The first item of the option that does not parse is the error reported,
      provided no earlier item repeats a language. */
  lemma FirstBadPairReported(mixStr: string, i: nat)
    requires var items := Split(mixStr, ',');
      i < |items| && ParsePair(items[i]).Err?
      && (forall j :: 0 <= j < i ==> ParsePair(items[j]).Ok?)
      && (forall j, k :: 0 <= j < k < i ==> ParsePair(items[j]).value.0 != ParsePair(items[k]).value.0)
    ensures MixFromString(mixStr) == Err(ParsePair(Split(mixStr, ',')[i]).error)
  {
    FirstBadItemReported(ParsePair, Split(mixStr, ','), i);
  }

  /** A language given twice is reported as a duplicate at its second item,
      provided every item up to it parses and none before it repeats. */
  lemma DuplicateReported(mixStr: string, i: nat, j: nat)
    requires var items := Split(mixStr, ',');
      j < i < |items|
      && (forall k :: 0 <= k <= i ==> ParsePair(items[k]).Ok?)
      && (forall a, b :: 0 <= a < b < i ==> ParsePair(items[a]).value.0 != ParsePair(items[b]).value.0)
      && ParsePair(items[j]).value.0 == ParsePair(items[i]).value.0
    ensures MixFromString(mixStr) == Err(DuplicateLanguage(Code(ParsePair(Split(mixStr, ',')[i]).value.0)))
  {
    DuplicateItemReported(ParsePair, Split(mixStr, ','), i, j);
  }

  /** A language code is its own strip and its own lower-casing. */
  lemma CodeUnchanged(l: Language)
    ensures Strip(Code(l)) == Code(l) && Lower(Code(l)) == Code(l)
  {
    StripUnchanged(Code(l));
    var c := Code(l);
    assert Lower(c)[0] == c[0] && Lower(c)[1] == c[1];
  }

  /** A string of digits is its own strip. */
  lemma DigitsUnchanged(digits: string)
    requires |digits| >= 1 && AllDigits(digits)
    ensures Strip(digits) == digits
  {
    assert IsDigit(digits[0]) && IsDigit(digits[|digits| - 1]);
    StripUnchanged(digits);
  }

  /** The text of `"<code>:<digits>"` is already stripped. */
  lemma PairStripped(l: Language, digits: string)
    requires |digits| >= 1 && AllDigits(digits)
    ensures Strip(Code(l) + ":" + digits) == Code(l) + ":" + digits
  {
    var pair := Code(l) + ":" + digits;
    assert pair[0] == Code(l)[0];
    assert pair[|pair| - 1] == digits[|digits| - 1];
    assert IsDigit(digits[|digits| - 1]);
    StripUnchanged(pair);
  }

  /** The text of `"<code>:<digits>"` splits at its colon into the code and
      the digits. */
  lemma PairSplits(l: Language, digits: string)
    requires AllDigits(digits)
    ensures SplitOnce(Code(l) + ":" + digits, ':') == Some((Code(l), digits))
  {
    var pair := Code(l) + ":" + digits;
    assert ':' !in Code(l);
    assert pair == Code(l) + [':'] + digits;
    IndexOfAt(Code(l), digits, ':');
    assert pair[..|Code(l)|] == Code(l);
    assert pair[|Code(l)| + 1..] == digits;
  }

  /** An item whose stripped text splits at a colon is read from its halves. */
  lemma PairOfHalves(raw: string, l: string, p: string)
    requires SplitOnce(Strip(raw), ':') == Some((l, p))
    ensures ParsePair(raw) == ParseHalves(Lower(Strip(l)), Strip(p))
  {
  }

  /** An item whose stripped text splits at a colon into a known code and a
      number is read as that language with the number divided by 100. */
  lemma ParsePairOk(raw: string, l: string, p: string, lang: Language, v: real)
    requires SplitOnce(Strip(raw), ':') == Some((l, p))
    requires ParseLanguage(Lower(Strip(l))) == Some(lang) && ParseDecimal(Strip(p)) == Some(v)
    ensures ParsePair(raw) == Ok((lang, v / 100.0))
  {
    PairOfHalves(raw, l, p);
    HalvesOk(Lower(Strip(l)), Strip(p), lang, v);
  }

  /** A known code and a number make a pair. */
  lemma HalvesOk(langStr: string, percentStr: string, lang: Language, v: real)
    requires ParseLanguage(langStr) == Some(lang) && ParseDecimal(percentStr) == Some(v)
    ensures ParseHalves(langStr, percentStr) == Ok((lang, v / 100.0))
  {
  }

  /** `"<code>:<digits>"` reads as the language of the code with probability
      the number the digits spell divided by 100. */
  lemma PairOfDigits(l: Language, digits: string, v: real)
    requires |digits| >= 1 && AllDigits(digits) && ParseDecimal(digits) == Some(v)
    ensures ParsePair(Code(l) + ":" + digits) == Ok((l, v / 100.0))
  {
    var pair := Code(l) + ":" + digits;
    assert SplitOnce(Strip(pair), ':') == Some((Code(l), digits)) by {
      PairStripped(l, digits);
      PairSplits(l, digits);
    }
    assert ParseLanguage(Lower(Strip(Code(l)))) == Some(l) by {
      CodeUnchanged(l);
    }
    assert ParseDecimal(Strip(digits)) == Some(v) by {
      DigitsUnchanged(digits);
    }
    ParsePairOk(pair, Code(l), digits, l, v);
  }

  /** The loop over two items that parse: a duplicate when they give one
      language, otherwise both pairs in order. */
  lemma TwoItems(parse: PairParser, x: string, y: string)
    requires parse(x).Ok? && parse(y).Ok?
    ensures Fold(MixStep(parse), [], [x, y]) ==
      if parse(x).value.0 == parse(y).value.0 then Err(DuplicateLanguage(Code(parse(y).value.0)))
      else Ok([parse(x).value, parse(y).value])
  {
    var items := [x, y];
    var d0: Distribution := [];
    assert items[..0] == [];
    assert !HasKey(d0, parse(x).value.0);
    ItemAdded(parse, items, 0, d0);
    var d1 := Put(d0, parse(x).value.0, parse(x).value.1);
    assert d1 == [parse(x).value];
    assert HasKey(d1, parse(y).value.0) <==> parse(x).value.0 == parse(y).value.0 by {
      assert d1[0].0 == parse(x).value.0;
    }
    if HasKey(d1, parse(y).value.0) {
      ItemRepeats(parse, items, 1, d1);
    } else {
      ItemAdded(parse, items, 1, d1);
      assert items[..2] == items;
      assert Put(d1, parse(y).value.0, parse(y).value.1) == [parse(x).value, parse(y).value] by {
        PutAbsent(d1, parse(y).value.0, parse(y).value.1);
      }
    }
  }

  /** A mix whose two items read as `(a, x)` and `(b, y)`: accepted as those
      two entries when the languages differ and the probabilities add up to
      1, refused for its sum when that is 0.01 or more away from 1, and
      refused as a duplicate when both items give one language. */
  lemma TwoPairMix(parse: PairParser, s: string, first: string, second: string, a: Language, x: real, b: Language, y: real)
    requires Split(s, ',') == [first, second]
    requires parse(first) == Ok((a, x)) && parse(second) == Ok((b, y)) && 0.0 <= x && 0.0 <= y
    ensures a != b && x + y == 1.0 ==> MixWith(parse, s) == Ok([(a, x), (b, y)])
    ensures a != b && Abs(x + y - 1.0) >= 0.01 ==>
      MixWith(parse, s) == Err(InvalidMix(s, Violation(["distribution"], MixSumOff(x + y))))
    ensures a == b ==> MixWith(parse, s) == Err(DuplicateLanguage(Code(a)))
  {
    TwoItems(parse, first, second);
    if a != b {
      var d := [(a, x), (b, y)];
      assert Sum(Values(d)) == x + y by {
        assert Values(d) == [x, y];
        assert Sum([y]) == y by {
          assert [y][1..] == [];
        }
        assert [x, y][1..] == [y];
      }
      if x + y == 1.0 {
        assert ProbabilitiesInRange(d);
      }
    }
  }

  /** `TwoPairMix` for the items of the option. */
  lemma TwoTextItems(s: string, first: string, second: string, a: Language, x: real, b: Language, y: real)
    requires Split(s, ',') == [first, second]
    requires ParsePair(first) == Ok((a, x)) && ParsePair(second) == Ok((b, y)) && 0.0 <= x && 0.0 <= y
    ensures a != b && x + y == 1.0 ==> MixFromString(s) == Ok([(a, x), (b, y)])
    ensures a != b && Abs(x + y - 1.0) >= 0.01 ==>
      MixFromString(s) == Err(InvalidMix(s, Violation(["distribution"], MixSumOff(x + y))))
    ensures a == b ==> MixFromString(s) == Err(DuplicateLanguage(Code(a)))
  {
    TwoPairMix(ParsePair, s, first, second, a, x, b, y);
  }

  // -------------------------------------------------------------- output path

  /** `PathValidationError`, by the check that raised it. */
  datatype PathError =
    | Traversal(path: string)
    | InvalidCharacters(component: string)

  /** The characters of `[a-zA-Z0-9._-]`. */
  predicate IsPathChar(c: char) {
    'a' <= c <= 'z' || 'A' <= c <= 'Z' || '0' <= c <= '9' || c == '.' || c == '_' || c == '-'
  }

  /** A component made of allowed characters only: `^[a-zA-Z0-9._-]+$`
      matched against the whole component. */
  predicate ComponentOk(part: string) {
    |part| >= 1 && forall k :: 0 <= k < |part| ==> IsPathChar(part[k])
  }

  /** What `re.match(r"^[a-zA-Z0-9._-]+$", part)` accepts: `$` also matches
      just before a newline that ends the string. */
  predicate ComponentMatchesAsWritten(part: string) {
    ComponentOk(part) || (|part| >= 2 && part[|part| - 1] == '\n' && ComponentOk(part[..|part| - 1]))
  }

  /** The parts the component loop skips. */
  predicate Skipped(part: string) {
    part == "." || part == ".." || part == "/"
  }

  /** No `..` among the path's parts. */
  predicate NoTraversal(path: string) {
    ".." !in Parts(path)
  }

  /** Every part the loop does not skip passes `matches`. */
  predicate ComponentsPass(path: string, matches: string -> bool) {
    forall i :: 0 <= i < |Parts(path)| && !Skipped(Parts(path)[i]) ==> matches(Parts(path)[i])
  }

  /** The checks of `validate_output_path` with the component test `matches`:
      traversal first, then the first part that fails the test. An accepted
      path is given back as it was passed. */
  function ValidatePathWith(path: string, matches: string -> bool): (r: Result<string, PathError>)
    ensures r.Ok? <==> NoTraversal(path) && ComponentsPass(path, matches)
    ensures r.Ok? ==> r.value == path
    ensures !NoTraversal(path) ==> r == Err(Traversal(path))
    ensures NoTraversal(path) && r.Err? ==> exists i :: (0 <= i < |Parts(path)| && !Skipped(Parts(path)[i])
      && !matches(Parts(path)[i]) && r == Err(InvalidCharacters(Parts(path)[i]))
      && forall j :: 0 <= j < i && !Skipped(Parts(path)[j]) ==> matches(Parts(path)[j]))
  {
    var parts := Parts(path);
    if ".." in parts then Err(Traversal(path))
    else
      match FirstWhere(parts, p => !Skipped(p) && !matches(p))
      case Some(i) => Err(InvalidCharacters(parts[i]))
      case None => Ok(path)
  }

  /** `validate_output_path` as written, with `re.match` and its `$`. */
  function ValidateOutputPathAsWritten(path: string): Result<string, PathError> {
    ValidatePathWith(path, ComponentMatchesAsWritten)
  }

  /** `validate_output_path` as its message promises: only allowed characters
      in every component. */
  function ValidateOutputPath(path: string): Result<string, PathError> {
    ValidatePathWith(path, ComponentOk)
  }

  /** Every component of an accepted path is made of allowed characters. */
  lemma AcceptedComponent(path: string, p: string)
    requires ValidateOutputPath(path).Ok? && p in Components(path)
    ensures ComponentOk(p)
  {
    var parts := Parts(path);
    var c := Components(path);
    var j :| 0 <= j < |c| && c[j] == p;
    var offset := |parts| - |c|;
    assert parts[offset + j] == p;
    assert p != "/" by {
      assert '/' !in p;
    }
    assert !Skipped(p);
  }

  /** A character of a component made of allowed characters is allowed. */
  lemma ComponentChar(p: string, ch: char)
    requires ComponentOk(p) && ch in p
    ensures IsPathChar(ch)
  {
    var q :| 0 <= q < |p| && p[q] == ch;
  }

  /** An accepted path has no `..` part and consists of slashes and allowed
      characters only. */
  lemma AcceptedPathChars(path: string)
    requires ValidateOutputPath(path).Ok?
    ensures NoTraversal(path)
    ensures forall k :: 0 <= k < |path| ==> path[k] == '/' || IsPathChar(path[k])
  {
    var pieces := Split(path, '/');
    JoinSplit(path, '/');
    forall k | 0 <= k < |path| ensures path[k] == '/' || IsPathChar(path[k]) {
      var ch := path[k];
      if ch != '/' {
        assert ch in Join(pieces, "/");
        JoinChars(pieces, "/", ch);
        assert ch !in "/";
        var i :| 0 <= i < |pieces| && ch in pieces[i];
        var p := pieces[i];
        if p == "." {
          assert ch == '.';
        } else {
          assert p in Components(path);
          AcceptedComponent(path, p);
          ComponentChar(p, ch);
        }
      }
    }
  }

  /** The two component tests differ only on a component that ends with a
      newline: both accept the same paths when no component does. */
  lemma AsWrittenDiffersOnlyAtNewline(part: string)
    requires |part| == 0 || part[|part| - 1] != '\n'
    ensures ComponentMatchesAsWritten(part) <==> ComponentOk(part)
  {
  }

  /** A directory name of allowed characters followed by a newline, such as
      `"out\n"`, passes the check as written, although a newline is not an
      allowed character; the check as its message promises refuses it. */
  lemma TrailingNewlineAccepted(name: string)
    requires ComponentOk(name)
    ensures ValidateOutputPathAsWritten(name + "\n").Ok?
    ensures ValidateOutputPath(name + "\n") == Err(InvalidCharacters(name + "\n"))
  {
    var p := name + "\n";
    assert p[..|name|] == name;
    assert '/' !in p by {
      forall k | 0 <= k < |p| ensures p[k] != '/' {
        if k < |name| {
          assert p[k] == name[k];
        }
      }
    }
    assert p != "." && p != ".." by {
      assert p[|p| - 1] == '\n';
    }
    PlainName(p);
    assert !Skipped(p) by {
      assert p[|p| - 1] == '\n';
    }
    assert ComponentMatchesAsWritten(p);
    assert !ComponentOk(p) by {
      assert !IsPathChar(p[|name|]);
    }
  }
}

/** `UsernameGenerator` as a whole: the format list with its default fallback
    (fmfug.py:36-45), `generate_from_name` (fmfug.py:117-131) and
    `process_single_task` with the argument shaping of `prepare_args`
    (fmfug.py:133-137, 166-169). */
module Generator {
  import opened Wrappers
  import opened Ascii
  import opened Names
  import opened Patterns
  import opened Seqs

  /** `DEFAULT_FORMATS` */
  const DefaultFormats: seq<string> := [
    "first", "last", "firstlast", "lastfirst",
    "first.last", "last.first", "first-last", "last-first",
    "first_last", "last_first", "first[1].last", "last[1].first",
    "firstlast[1]", "first[1]last", "last[1]first", "lastfirst[1]", "first[1]last[1]", "last[1]first[1]"
  ]

  /** The generator's configuration; `__init__` fixes it and nothing changes it later. */
  datatype UsernameGenerator = UsernameGenerator(caseSensitive: bool, formats: seq<string>)

  /** `UsernameGenerator(case_sensitive, formats)`: `self.formats = formats or DEFAULT_FORMATS`,
      so a missing or empty list falls back to the defaults and the list is never empty. */
  function NewGenerator(caseSensitive: bool, formats: Option<seq<string>>): (g: UsernameGenerator)
    ensures g.caseSensitive == caseSensitive
    ensures |g.formats| > 0
    ensures formats.Some? && formats.value != [] ==> g.formats == formats.value
    ensures formats.None? || formats.value == [] ==> g.formats == DefaultFormats
  {
    UsernameGenerator(caseSensitive, if formats.Some? && formats.value != [] then formats.value else DefaultFormats)
  }

  lemma DefaultFormatsCount()
    ensures |DefaultFormats| == 18
  {
  }

  /** None of the defaults ends in a digit, so none takes the numeric-suffix path. */
  lemma DefaultFormatsNotNumeric()
    ensures forall i :: 0 <= i < |DefaultFormats| ==> NumericMatch(DefaultFormats[i]).None?
  {
    forall i | 0 <= i < |DefaultFormats|
      ensures NumericMatch(DefaultFormats[i]).None?
    {
      var f := DefaultFormats[i];
      assert f[|f| - 1] == 't' || f[|f| - 1] == ']';
      NotNumericWithoutTrailingDigit(f);
    }
  }

  /** What one format yields for `p`. */
  function Yield(g: UsernameGenerator, p: ParsedName): string -> seq<string> {
    f => ApplyFormat(g.caseSensitive, f, p)
  }

  /** Every username the formats `fs` yield for `p`, format by format, each format's
      output in the order `apply_format` yields it. */
  function ExpandFormats(g: UsernameGenerator, fs: seq<string>, p: ParsedName): seq<string> {
    FlatMap(Yield(g, p), fs)
  }

  lemma ExpandFormatsSnoc(g: UsernameGenerator, fs: seq<string>, i: nat, p: ParsedName)
    requires i < |fs|
    ensures ExpandFormats(g, fs[..i + 1], p) == ExpandFormats(g, fs[..i], p) + ApplyFormat(g.caseSensitive, fs[i], p)
  {
    FlatMapSnoc(Yield(g, p), fs, i);
  }

  /** A username is produced exactly when some format yields it; duplicates across formats are kept. */
  lemma ExpandFormatsMember(g: UsernameGenerator, fs: seq<string>, p: ParsedName, u: string)
    ensures u in ExpandFormats(g, fs, p) <==> exists i :: 0 <= i < |fs| && u in ApplyFormat(g.caseSensitive, fs[i], p)
  {
    FlatMapMember(Yield(g, p), fs, u);
  }

  /** When no format is numeric, each format contributes at most one username. */
  lemma ExpandFormatsBound(g: UsernameGenerator, fs: seq<string>, p: ParsedName)
    requires forall i :: 0 <= i < |fs| ==> NumericMatch(fs[i]).None?
    ensures |ExpandFormats(g, fs, p)| <= |fs|
  {
    forall i | 0 <= i < |fs|
      ensures |Yield(g, p)(fs[i])| <= 1
    {
      assert NumericMatch(fs[i]).None?;
    }
    FlatMapBound(Yield(g, p), fs);
  }

  /** `generate_from_name(name)` as a value: nothing for a blank name, otherwise
      every format's output for the parsed name, in format order. */
  function NameUsernames(g: UsernameGenerator, name: string): (r: seq<string>)
    ensures r == if AllSpace(name) then [] else ExpandFormats(g, g.formats, ParseName(name))
  {
    var stripped := Strip(name);
    ParseNameStrip(name);
    if stripped == [] then []
    else
      var parts := ParseName(stripped);
      if parts.first == [] then [] else ExpandFormats(g, g.formats, parts)
  }

  /** With the default formats a name yields at most one username per format. */
  lemma DefaultUsernamesBound(caseSensitive: bool, name: string)
    ensures |NameUsernames(NewGenerator(caseSensitive, None), name)| <= 18
  {
    DefaultFormatsNotNumeric();
    DefaultFormatsCount();
    ExpandFormatsBound(NewGenerator(caseSensitive, None), DefaultFormats, ParseName(name));
  }

  /** The inner `for res in ...: results.append(res)` loop of `generate_from_name`. */
  method AppendEach(results: seq<string>, produced: seq<string>) returns (r: seq<string>)
    ensures r == results + produced
  {
    r := results;
    for j := 0 to |produced|
      invariant r == results + produced[..j]
    {
      r := r + [produced[j]];
    }
    assert produced[..|produced|] == produced;
  }

  /** The outer `for format_pattern in self.formats` loop of `generate_from_name`. */
  method ExpandAll(g: UsernameGenerator, parts: ParsedName) returns (results: seq<string>)
    ensures results == ExpandFormats(g, g.formats, parts)
  {
    results := [];
    for i := 0 to |g.formats|
      invariant results == ExpandFormats(g, g.formats[..i], parts)
    {
      var produced := ApplyFormat(g.caseSensitive, g.formats[i], parts);
      results := AppendEach(results, produced);
      ExpandFormatsSnoc(g, g.formats, i, parts);
    }
    assert g.formats[..|g.formats|] == g.formats;
  }

  /** `generate_from_name`: nothing for a blank name or an empty first component,
      otherwise every format's output in format order. */
  method GenerateFromName(g: UsernameGenerator, name: string) returns (results: seq<string>)
    ensures results == NameUsernames(g, name)
  {
    var stripped := Strip(name);
    if stripped == [] {
      return [];
    }
    var parts := ParseName(stripped);
    if parts.first == [] {
      return [];
    }
    results := ExpandAll(g, parts);
  }

  /** One item of the name source: a full name, or a (first name, last name) pair
      of the cross-product mode. */
  datatype WorkItem = FullName(name: string) | NamePair(firstName: string, lastName: string)

  /** The message of the exception raised when a pair has an empty side: the name
      slot that `prepare_args` fills with `None` reaches `name.strip()`. */
  const NoneNameError: string := "'NoneType' object has no attribute 'strip'"

  /** `process_single_task(prepare_args(item))`: a pair becomes `"fn ln"` when both
      sides are non-empty; otherwise the call fails. */
  function ProcessSingleTask(g: UsernameGenerator, item: WorkItem): (r: Result<seq<string>, string>)
    ensures r.Failure? <==> item.NamePair? && (item.firstName == [] || item.lastName == [])
  {
    match item
    case FullName(name) => Success(NameUsernames(g, name))
    case NamePair(fn, ln) =>
      if fn != [] && ln != [] then Success(NameUsernames(g, fn + " " + ln)) else Failure(NoneNameError)
  }

  /** A pair of single-token names is processed as the name with that first and
      last component and no middle one. */
  lemma PairUsernames(g: UsernameGenerator, fn: string, ln: string)
    requires fn != [] && NoSpace(fn) && ln != [] && NoSpace(ln)
    ensures ProcessSingleTask(g, NamePair(fn, ln)) == Success(ExpandFormats(g, g.formats, ParsedName(fn, "", ln)))
  {
    ParsePair(fn, ln);
    assert !AllSpace(fn + " " + ln) by {
      assert !IsSpace((fn + " " + ln)[0]);
    }
  }

  /** A blank full name yields nothing; its first component is empty as well. */
  lemma BlankNameYieldsNothing(g: UsernameGenerator, name: string)
    requires AllSpace(name)
    ensures ProcessSingleTask(g, FullName(name)) == Success([])
    ensures ParseName(name).first == []
  {
  }
}

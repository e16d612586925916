/** The pattern interpreter of `UsernameGenerator`: the bracket pass, the keyword
    pass and the case shaping of `_process_format` (fmfug.py:61-100), and the
    numeric-suffix form of `apply_format` (fmfug.py:102-115). */
module Patterns {
  import opened Wrappers
  import opened Ascii
  import opened Seqs
  import opened Names

  datatype Keyword = First | Middle | Last

  function KeywordText(k: Keyword): string {
    match k
    case First => "first"
    case Middle => "middle"
    case Last => "last"
  }

  function Field(p: ParsedName, k: Keyword): string {
    match k
    case First => p.first
    case Middle => p.middle
    case Last => p.last
  }

  /** The keyword that the case-sensitive alternation `(first|middle|last)` matches
      at the start of `s`. No keyword is a prefix of another, so at most one can. */
  function KeywordAt(s: string): (r: Option<Keyword>)
    ensures r.Some? ==> KeywordText(r.value) <= s
  {
    if "first" <= s then Some(First)
    else if "middle" <= s then Some(Middle)
    else if "last" <= s then Some(Last)
    else None
  }

  /** Whichever keyword starts `s` is the one the alternation reports. */
  lemma KeywordAtUnique(s: string, k: Keyword)
    requires KeywordText(k) <= s
    ensures KeywordAt(s) == Some(k)
  {
    assert s[0] == KeywordText(k)[0];
  }

  /** No keyword occurrence starts anywhere in `s`. */
  predicate NoKeyword(s: string) {
    forall i :: 0 <= i < |s| ==> KeywordAt(s[i..]).None?
  }

  // ---------------------------------------------------------------------------
  // The bracket pass: `re.sub(r'(first|middle|last)\[(\d+)\]', ...)`

  /** `value[:n] if value else ''` */
  function Truncate(value: string, n: nat): (r: string)
    ensures r <= value
    ensures |r| == if n < |value| then n else |value|
  {
    if value == [] then [] else if n < |value| then value[..n] else value
  }

  /** One match of `(first|middle|last)\[(\d+)\]`. */
  datatype BracketToken = BracketToken(kw: Keyword, digits: string)

  predicate WellFormedBracket(t: BracketToken) {
    |t.digits| > 0 && AllDigits(t.digits)
  }

  function BracketText(t: BracketToken): string {
    KeywordText(t.kw) + "[" + t.digits + "]"
  }

  /** The bracket match at the start of `s`, if there is one. */
  function BracketMatch(s: string): (r: Option<BracketToken>)
    ensures r.Some? ==> WellFormedBracket(r.value) && BracketText(r.value) <= s
    ensures r.Some? ==> s[|KeywordText(r.value.kw)|] == '['
  {
    match KeywordAt(s)
    case None => None
    case Some(k) =>
      var t := s[|KeywordText(k)|..];
      if |t| > 0 && t[0] == '[' then
        var d := DigitRun(t[1..]);
        if 0 < d && d + 1 < |t| && t[d + 1] == ']' then
          BracketPrefix(s, k, d);
          Some(BracketToken(k, t[1..d + 1]))
        else None
      else None
  }

  lemma BracketPrefix(s: string, k: Keyword, d: nat)
    requires KeywordText(k) <= s
    requires |KeywordText(k)| + d + 2 <= |s|
    requires AllDigits(s[|KeywordText(k)|..][1..][..d])
    requires s[|KeywordText(k)|] == '[' && s[|KeywordText(k)| + d + 1] == ']'
    ensures AllDigits(s[|KeywordText(k)|..][1..d + 1])
    ensures BracketText(BracketToken(k, s[|KeywordText(k)|..][1..d + 1])) <= s
  {
    var n := |KeywordText(k)|;
    var t := s[n..];
    var digits := t[1..d + 1];
    assert t[1..][..d] == digits;
    assert s[n + 1..n + d + 1] == digits;
    assert s[n..n + 1] == "[" by {
      SliceOne(s, n);
      assert [s[n]] == "[";
    }
    assert s[n + d + 1..n + d + 2] == "]" by {
      SliceOne(s, n + d + 1);
      assert [s[n + d + 1]] == "]";
    }
    assert s[..n] == KeywordText(k) by {
      PrefixIsSlice(KeywordText(k), s);
    }
    PrefixSplit(s, n, n + 1);
    PrefixSplit(s, n + 1, n + d + 1);
    PrefixSplit(s, n + d + 1, n + d + 2);
    assert s[..n + d + 2] == BracketText(BracketToken(k, digits));
    PrefixIsSlice(BracketText(BracketToken(k, digits)), s);
  }

  /** One unfolding of `BracketMatch` when the keyword, the `[`, the digit run and
      the `]` are all in place. */
  lemma BracketMatchAt(s: string, k: Keyword, d: nat)
    requires KeywordAt(s) == Some(k)
    requires var u := s[|KeywordText(k)|..];
      |u| > 0 && u[0] == '[' && d == DigitRun(u[1..]) && 0 < d && d + 1 < |u| && u[d + 1] == ']'
    ensures BracketMatch(s) == Some(BracketToken(k, s[|KeywordText(k)|..][1..d + 1]))
  {
  }

  lemma BracketTokenKeyword(t: BracketToken, rest: string)
    ensures KeywordAt(BracketText(t) + rest) == Some(t.kw)
    ensures (BracketText(t) + rest)[|KeywordText(t.kw)|..] == "[" + t.digits + "]" + rest
  {
    var s := BracketText(t) + rest;
    assert s == KeywordText(t.kw) + ("[" + t.digits + "]" + rest);
    KeywordAtUnique(s, t.kw);
  }

  lemma BracketTokenDigits(d: string, rest: string)
    requires |d| > 0 && AllDigits(d)
    ensures var u := "[" + d + "]" + rest;
      u[0] == '[' && DigitRun(u[1..]) == |d| && |d| + 1 < |u| && u[|d| + 1] == ']' && u[1..|d| + 1] == d
  {
    var u := "[" + d + "]" + rest;
    assert u[1..] == d + ("]" + rest);
    DigitRunOfNumeral(d, "]" + rest);
  }

  /** Every well-formed token is recognised where it appears. */
  lemma BracketMatchToken(t: BracketToken, rest: string)
    requires WellFormedBracket(t)
    ensures BracketMatch(BracketText(t) + rest) == Some(t)
  {
    BracketTokenKeyword(t, rest);
    BracketTokenDigits(t.digits, rest);
    BracketMatchAt(BracketText(t) + rest, t.kw, |t.digits|);
  }

  /** The bracket pass: each `kw[n]` becomes the field truncated to n characters;
      other characters are copied. Text without `[` is left as it is. */
  function BracketPass(p: ParsedName, s: string): (r: string)
    ensures '[' !in s ==> r == s
    decreases |s|
  {
    if s == [] then []
    else
      match BracketMatch(s)
      case Some(t) =>
        Truncate(Field(p, t.kw), DecimalValue(t.digits)) + BracketPass(p, s[|BracketText(t)|..])
      case None => [s[0]] + BracketPass(p, s[1..])
  }

  lemma BracketPassToken(p: ParsedName, t: BracketToken, rest: string)
    requires WellFormedBracket(t)
    ensures BracketPass(p, BracketText(t) + rest) ==
            Truncate(Field(p, t.kw), DecimalValue(t.digits)) + BracketPass(p, rest)
  {
    BracketMatchToken(t, rest);
    var s := BracketText(t) + rest;
    assert s[|BracketText(t)|..] == rest;
  }

  // ---------------------------------------------------------------------------
  // The keyword pass: `re.split(r'(first|middle|last)', s)` and the join

  function KeywordOf(part: string): (r: Option<Keyword>)
    ensures r.Some? ==> part == KeywordText(r.value)
    ensures forall k :: part == KeywordText(k) ==> r == Some(k)
  {
    if part == "first" then Some(First)
    else if part == "middle" then Some(Middle)
    else if part == "last" then Some(Last)
    else None
  }

  /** `re.split` with a capturing group: the text pieces sit at even positions and
      the keywords matched between them at odd positions. */
  function SplitKeywords(s: string): (parts: seq<string>)
    ensures |parts| > 0
    decreases |s|
  {
    if s == [] then [""]
    else
      match KeywordAt(s)
      case Some(k) => ["", KeywordText(k)] + SplitKeywords(s[|KeywordText(k)|..])
      case None =>
        var rest := SplitKeywords(s[1..]);
        [[s[0]] + rest[0]] + rest[1..]
  }

  lemma SplitKeywordsAtKeyword(s: string, k: Keyword)
    requires s != [] && KeywordAt(s) == Some(k)
    ensures SplitKeywords(s) == ["", KeywordText(k)] + SplitKeywords(s[|KeywordText(k)|..])
  {
  }

  lemma SplitKeywordsAtChar(s: string)
    requires s != [] && KeywordAt(s).None?
    ensures SplitKeywords(s) == [[s[0]] + SplitKeywords(s[1..])[0]] + SplitKeywords(s[1..])[1..]
  {
  }

  /** Pieces and keywords alternate, starting and ending with a piece. */
  lemma {:induction false} SplitKeywordsOddLength(s: string)
    ensures |SplitKeywords(s)| % 2 == 1
    decreases |s|
  {
    if s != [] {
      match KeywordAt(s)
      case Some(k) => SplitKeywordsOddLength(s[|KeywordText(k)|..]);
      case None => SplitKeywordsOddLength(s[1..]);
    }
  }

  lemma {:induction false} SplitKeywordsFlatten(s: string)
    ensures Flatten(SplitKeywords(s)) == s
    decreases |s|, 1
  {
    if s == [] {
      assert Flatten([""]) == "" + Flatten<char>([]);
    } else {
      match KeywordAt(s)
      case Some(k) => SplitKeywordsFlattenAfterKeyword(s, k);
      case None => SplitKeywordsFlattenAfterChar(s);
    }
  }

  lemma {:induction false} SplitKeywordsFlattenAfterKeyword(s: string, k: Keyword)
    requires s != [] && KeywordAt(s) == Some(k)
    ensures Flatten(SplitKeywords(s)) == s
    decreases |s|, 0
  {
    var w := KeywordText(k);
    var rest := SplitKeywords(s[|w|..]);
    SplitKeywordsAtKeyword(s, k);
    SplitKeywordsFlatten(s[|w|..]);
    FlattenAppend(["", w], rest);
    assert Flatten(["", w]) == "" + (w + Flatten<char>([]));
    assert s == w + s[|w|..];
  }

  lemma {:induction false} SplitKeywordsFlattenAfterChar(s: string)
    requires s != [] && KeywordAt(s).None?
    ensures Flatten(SplitKeywords(s)) == s
    decreases |s|, 0
  {
    var rest := SplitKeywords(s[1..]);
    var head := [s[0]] + rest[0];
    calc {
      Flatten(SplitKeywords(s));
      { SplitKeywordsAtChar(s); }
      Flatten([head] + rest[1..]);
      { assert ([head] + rest[1..])[1..] == rest[1..]; }
      head + Flatten(rest[1..]);
      [s[0]] + (rest[0] + Flatten(rest[1..]));
      [s[0]] + Flatten(rest);
      { SplitKeywordsFlatten(s[1..]); }
      [s[0]] + s[1..];
      s;
    }
  }

  /** The first piece of the split is a prefix of the text. */
  lemma SplitKeywordsHead(s: string)
    ensures SplitKeywords(s)[0] <= s
  {
    var parts := SplitKeywords(s);
    SplitKeywordsFlatten(s);
    assert Flatten(parts) == parts[0] + Flatten(parts[1..]);
  }

  /** Odd positions of the split hold the matched keywords. */
  lemma {:induction false} SplitKeywordsOdd(s: string, j: nat)
    requires j < |SplitKeywords(s)| && j % 2 == 1
    ensures KeywordOf(SplitKeywords(s)[j]).Some?
    decreases |s|, 1
  {
    if s != [] {
      match KeywordAt(s)
      case Some(k) => SplitKeywordsOddAfterKeyword(s, k, j);
      case None => SplitKeywordsOddAfterChar(s, j);
    }
  }

  lemma {:induction false} SplitKeywordsOddAfterKeyword(s: string, k: Keyword, j: nat)
    requires s != [] && KeywordAt(s) == Some(k)
    requires j < |SplitKeywords(s)| && j % 2 == 1
    ensures KeywordOf(SplitKeywords(s)[j]).Some?
    decreases |s|, 0
  {
    var w := KeywordText(k);
    var rest := SplitKeywords(s[|w|..]);
    var parts := ["", w] + rest;
    SplitKeywordsAtKeyword(s, k);
    if j >= 2 {
      SplitKeywordsOdd(s[|w|..], j - 2);
      assert parts[j] == rest[j - 2];
    } else {
      assert parts[j] == w;
      assert KeywordOf(w) == Some(k);
    }
  }

  lemma {:induction false} SplitKeywordsOddAfterChar(s: string, j: nat)
    requires s != [] && KeywordAt(s).None?
    requires j < |SplitKeywords(s)| && j % 2 == 1
    ensures KeywordOf(SplitKeywords(s)[j]).Some?
    decreases |s|, 0
  {
    var rest := SplitKeywords(s[1..]);
    var parts := [[s[0]] + rest[0]] + rest[1..];
    SplitKeywordsAtChar(s);
    assert parts[j] == rest[j];
    SplitKeywordsOdd(s[1..], j);
  }

  /** No keyword occurs inside a piece at an even position of the split. */
  lemma {:induction false} SplitKeywordsEven(s: string, j: nat)
    requires j < |SplitKeywords(s)| && j % 2 == 0
    ensures NoKeyword(SplitKeywords(s)[j])
    decreases |s|, 1
  {
    if s != [] {
      match KeywordAt(s)
      case Some(k) => SplitKeywordsEvenAfterKeyword(s, k, j);
      case None => SplitKeywordsEvenAfterChar(s, j);
    }
  }

  lemma {:induction false} SplitKeywordsEvenAfterKeyword(s: string, k: Keyword, j: nat)
    requires s != [] && KeywordAt(s) == Some(k)
    requires j < |SplitKeywords(s)| && j % 2 == 0
    ensures NoKeyword(SplitKeywords(s)[j])
    decreases |s|, 0
  {
    var w := KeywordText(k);
    var rest := SplitKeywords(s[|w|..]);
    var parts := ["", w] + rest;
    SplitKeywordsAtKeyword(s, k);
    if j >= 2 {
      SplitKeywordsEven(s[|w|..], j - 2);
      assert parts[j] == rest[j - 2];
    } else {
      assert parts[j] == "";
    }
  }

  lemma {:induction false} SplitKeywordsEvenAfterChar(s: string, j: nat)
    requires s != [] && KeywordAt(s).None?
    requires j < |SplitKeywords(s)| && j % 2 == 0
    ensures NoKeyword(SplitKeywords(s)[j])
    decreases |s|, 0
  {
    var rest := SplitKeywords(s[1..]);
    SplitKeywordsAtChar(s);
    if j == 0 {
      SplitKeywordsEven(s[1..], 0);
      SplitKeywordsHead(s[1..]);
      HeadNoKeyword(s, rest[0]);
    } else {
      assert SplitKeywords(s)[j] == rest[j];
      SplitKeywordsEven(s[1..], j);
    }
  }

  /** The text piece read before the first keyword contains no keyword. */
  lemma HeadNoKeyword(s: string, tail: string)
    requires s != [] && KeywordAt(s).None?
    requires NoKeyword(tail) && tail <= s[1..]
    ensures NoKeyword([s[0]] + tail)
  {
    var head := [s[0]] + tail;
    forall i | 0 <= i < |head| ensures KeywordAt(head[i..]).None? {
      if i == 0 {
        assert head[0..] == head;
        assert head <= s;
      } else {
        assert head[i..] == tail[i - 1..];
      }
    }
  }

  function ReplacePart(p: ParsedName, part: string): string {
    match KeywordOf(part)
    case Some(k) => Field(p, k)
    case None => part
  }

  /** `"".join(replacements.get(part, part) for part in parts)` */
  function ReplaceParts(p: ParsedName, parts: seq<string>): string {
    if parts == [] then [] else ReplacePart(p, parts[0]) + ReplaceParts(p, parts[1..])
  }

  /** The keyword pass as the source performs it: split on keywords, replace, join. */
  function KeywordPass(p: ParsedName, s: string): string {
    ReplaceParts(p, SplitKeywords(s))
  }

  /** Reference definition: scan left to right and replace each keyword occurrence
      by its field, copying every other character. */
  function ReplaceKeywords(p: ParsedName, s: string): string
    decreases |s|
  {
    if s == [] then []
    else
      match KeywordAt(s)
      case Some(k) => Field(p, k) + ReplaceKeywords(p, s[|KeywordText(k)|..])
      case None => [s[0]] + ReplaceKeywords(p, s[1..])
  }

  lemma NoKeywordIsNotKeyword(t: string)
    requires NoKeyword(t)
    ensures KeywordOf(t).None?
  {
    assert t == [] || t[0..] == t;
  }

  lemma ReplacePartsCons(p: ParsedName, x: string, xs: seq<string>)
    ensures ReplaceParts(p, [x] + xs) == ReplacePart(p, x) + ReplaceParts(p, xs)
  {
    assert ([x] + xs)[1..] == xs;
  }

  /** Splitting, replacing and joining is the left-to-right replacement. */
  lemma {:induction false} KeywordPassIsReplace(p: ParsedName, s: string)
    ensures KeywordPass(p, s) == ReplaceKeywords(p, s)
    decreases |s|, 1
  {
    if s == [] {
      assert SplitKeywords(s) == [""] == [""] + [];
      assert KeywordOf("").None?;
      ReplacePartsCons(p, "", []);
    } else {
      match KeywordAt(s)
      case Some(k) => KeywordPassAfterKeyword(p, s, k);
      case None => KeywordPassAfterChar(p, s);
    }
  }

  lemma {:induction false} KeywordPassAfterKeyword(p: ParsedName, s: string, k: Keyword)
    requires s != [] && KeywordAt(s) == Some(k)
    ensures KeywordPass(p, s) == ReplaceKeywords(p, s)
    decreases |s|, 0
  {
    var w := KeywordText(k);
    var rest := SplitKeywords(s[|w|..]);
    calc {
      KeywordPass(p, s);
      { SplitKeywordsAtKeyword(s, k); assert ["", w] + rest == [""] + ([w] + rest); }
      ReplaceParts(p, [""] + ([w] + rest));
      { ReplacePartsCons(p, "", [w] + rest); assert KeywordOf("").None?; }
      "" + ReplaceParts(p, [w] + rest);
      { ReplacePartsCons(p, w, rest); assert KeywordOf(w) == Some(k); }
      "" + (Field(p, k) + ReplaceParts(p, rest));
      { KeywordPassIsReplace(p, s[|w|..]); }
      "" + (Field(p, k) + ReplaceKeywords(p, s[|w|..]));
      ReplaceKeywords(p, s);
    }
  }

  lemma {:induction false} KeywordPassAfterChar(p: ParsedName, s: string)
    requires s != [] && KeywordAt(s).None?
    ensures KeywordPass(p, s) == ReplaceKeywords(p, s)
    decreases |s|, 0
  {
    var rest := SplitKeywords(s[1..]);
    var head := [s[0]] + rest[0];
    var tail := ReplaceParts(p, rest[1..]);
    calc {
      KeywordPass(p, s);
      { SplitKeywordsAtChar(s); }
      ReplaceParts(p, [head] + rest[1..]);
      { ReplacePartsCons(p, head, rest[1..]);
        SplitKeywordsAtChar(s);
        SplitKeywordsEven(s, 0);
        NoKeywordIsNotKeyword(head); }
      head + tail;
      [s[0]] + (rest[0] + tail);
      { assert rest == [rest[0]] + rest[1..];
        ReplacePartsCons(p, rest[0], rest[1..]);
        SplitKeywordsEven(s[1..], 0);
        NoKeywordIsNotKeyword(rest[0]); }
      [s[0]] + KeywordPass(p, s[1..]);
      { KeywordPassIsReplace(p, s[1..]); }
      [s[0]] + ReplaceKeywords(p, s[1..]);
      ReplaceKeywords(p, s);
    }
  }

  /** A keyword at the front is replaced by its field. */
  lemma ReplaceKeywordsKeyword(p: ParsedName, k: Keyword, rest: string)
    ensures ReplaceKeywords(p, KeywordText(k) + rest) == Field(p, k) + ReplaceKeywords(p, rest)
  {
    var s := KeywordText(k) + rest;
    KeywordAtUnique(s, k);
    assert s[|KeywordText(k)|..] == rest;
  }

  /** Text in which no keyword occurs passes through unchanged. */
  lemma {:induction false} ReplaceKeywordsLiteral(p: ParsedName, s: string)
    requires NoKeyword(s)
    ensures ReplaceKeywords(p, s) == s
    decreases |s|
  {
    if s != [] {
      assert s[0..] == s;
      assert NoKeyword(s[1..]) by {
        forall i | 0 <= i < |s[1..]| ensures KeywordAt(s[1..][i..]).None? {
          assert s[1..][i..] == s[i + 1..];
        }
      }
      ReplaceKeywordsLiteral(p, s[1..]);
    }
  }

  // ---------------------------------------------------------------------------
  // Case shaping

  predicate IsSeparator(c: char) { c == '.' || c == '_' || c == '-' }

  /** `re.split(r'([._-])', s)`: text segments at even positions, the single
      separator characters between them at odd positions. */
  function SplitSeparators(s: string): (parts: seq<string>)
    ensures |parts| > 0
    decreases |s|
  {
    if s == [] then [""]
    else if IsSeparator(s[0]) then ["", [s[0]]] + SplitSeparators(s[1..])
    else
      var rest := SplitSeparators(s[1..]);
      [[s[0]] + rest[0]] + rest[1..]
  }

  /** The first part runs up to the first separator, so it holds none. */
  lemma {:induction false} SplitSeparatorsHead(s: string)
    ensures forall i :: 0 <= i < |SplitSeparators(s)[0]| ==> !IsSeparator(SplitSeparators(s)[0][i])
    decreases |s|
  {
    if s != [] && !IsSeparator(s[0]) {
      SplitSeparatorsHead(s[1..]);
      var rest := SplitSeparators(s[1..]);
      assert SplitSeparators(s)[0] == [s[0]] + rest[0];
    }
  }

  /** `p.capitalize() if p and p[0].isalpha() else p` */
  function CapitalizeSegment(part: string): string {
    if part != [] && IsAlpha(part[0]) then Capitalize(part) else part
  }

  function CapitalizeParts(parts: seq<string>): string {
    if parts == [] then [] else CapitalizeSegment(parts[0]) + CapitalizeParts(parts[1..])
  }

  /** Per-segment capitalisation, as the source computes it. */
  function TitleCase(s: string): string {
    CapitalizeParts(SplitSeparators(s))
  }

  /** Where a left-to-right reading of the text stands: at the start of a segment,
      inside a segment that began with a letter, or inside one that did not. */
  datatype SegmentState = AtStart | InWord | InOther

  /** How a non-separator character is written in a given state. */
  function ShapeChar(c: char, state: SegmentState): (d: char)
    ensures d == c || d == ToUpper(c) || d == ToLower(c)
  {
    match state
    case AtStart => if IsAlpha(c) then ToUpper(c) else c
    case InWord => ToLower(c)
    case InOther => c
  }

  /** The state after reading a non-separator character. */
  function NextState(c: char, state: SegmentState): SegmentState {
    match state
    case AtStart => if IsAlpha(c) then InWord else InOther
    case InWord => InWord
    case InOther => InOther
  }

  /** Reference definition of per-segment capitalisation, one character at a time:
      separators are copied and start a new segment; a segment that begins with a
      letter has that letter upper-cased and the rest lower-cased; any other
      segment is copied. */
  function TitleScan(s: string, state: SegmentState): (r: string)
    ensures |r| == |s|
    decreases |s|
  {
    if s == [] then []
    else if IsSeparator(s[0]) then [s[0]] + TitleScan(s[1..], AtStart)
    else [ShapeChar(s[0], state)] + TitleScan(s[1..], NextState(s[0], state))
  }

  /** The scan changes only the case of letters and copies every separator. */
  lemma {:induction false} TitleScanChars(s: string, state: SegmentState)
    ensures forall i :: 0 <= i < |s| ==>
              TitleScan(s, state)[i] == s[i] || TitleScan(s, state)[i] == ToUpper(s[i]) || TitleScan(s, state)[i] == ToLower(s[i])
    ensures forall i :: 0 <= i < |s| && IsSeparator(s[i]) ==> TitleScan(s, state)[i] == s[i]
    decreases |s|
  {
    if s != [] {
      var next := if IsSeparator(s[0]) then AtStart else NextState(s[0], state);
      TitleScanChars(s[1..], next);
      assert TitleScan(s, state)[1..] == TitleScan(s[1..], next);
    }
  }

  lemma ScanCons(c: char, rest: string, state: SegmentState)
    requires !IsSeparator(c)
    ensures TitleScan([c] + rest, state) == [ShapeChar(c, state)] + TitleScan(rest, NextState(c, state))
  {
    assert ([c] + rest)[1..] == rest;
  }

  lemma {:induction false} ScanInWord(u: string)
    requires forall i :: 0 <= i < |u| ==> !IsSeparator(u[i])
    ensures TitleScan(u, InWord) == Lower(u)
  {
    if u != [] {
      ScanInWord(u[1..]);
    }
  }

  lemma {:induction false} ScanInOther(u: string)
    requires forall i :: 0 <= i < |u| ==> !IsSeparator(u[i])
    ensures TitleScan(u, InOther) == u
  {
    if u != [] {
      ScanInOther(u[1..]);
    }
  }

  lemma CapitalizeIsScan(u: string)
    requires forall i :: 0 <= i < |u| ==> !IsSeparator(u[i])
    ensures CapitalizeSegment(u) == TitleScan(u, AtStart)
  {
    if u != [] {
      if IsAlpha(u[0]) {
        ScanInWord(u[1..]);
      } else {
        ScanInOther(u[1..]);
      }
    }
  }

  lemma {:induction false} ScanSplit(s: string, state: SegmentState)
    ensures TitleScan(s, state) ==
            TitleScan(SplitSeparators(s)[0], state) + CapitalizeParts(SplitSeparators(s)[1..])
    decreases |s|, 1
  {
    if s != [] {
      if IsSeparator(s[0]) {
        ScanSplitSeparator(s, state);
      } else {
        ScanSplitLetter(s, state);
      }
    }
  }

  lemma SplitSeparatorsAtChar(s: string)
    requires s != [] && !IsSeparator(s[0])
    ensures SplitSeparators(s)[0] == [s[0]] + SplitSeparators(s[1..])[0]
    ensures SplitSeparators(s)[1..] == SplitSeparators(s[1..])[1..]
  {
    var rest := SplitSeparators(s[1..]);
    assert SplitSeparators(s) == [[s[0]] + rest[0]] + rest[1..];
  }

  lemma ScanSplitLetter(s: string, state: SegmentState)
    requires s != [] && !IsSeparator(s[0])
    ensures TitleScan(s, state) ==
            TitleScan(SplitSeparators(s)[0], state) + CapitalizeParts(SplitSeparators(s)[1..])
    decreases |s|, 0
  {
    var q := SplitSeparators(s[1..]);
    var next := NextState(s[0], state);
    var parts := SplitSeparators(s);
    var head := TitleScan(q[0], next);
    var tail := CapitalizeParts(q[1..]);
    assert parts[0] == [s[0]] + q[0] && parts[1..] == q[1..] by {
      SplitSeparatorsAtChar(s);
    }
    assert TitleScan(s[1..], next) == head + tail by {
      ScanSplit(s[1..], next);
    }
    assert TitleScan(parts[0], state) == [ShapeChar(s[0], state)] + head by {
      ScanCons(s[0], q[0], state);
    }
    assert TitleScan(s, state) == [ShapeChar(s[0], state)] + TitleScan(s[1..], next);
    ConsGlue(ShapeChar(s[0], state), TitleScan(s, state), TitleScan(s[1..], next), head, tail, TitleScan(parts[0], state));
  }

  lemma ConsGlue(c: char, whole: string, rest: string, head: string, tail: string, first: string)
    requires whole == [c] + rest && rest == head + tail && first == [c] + head
    ensures whole == first + tail
  {
  }

  lemma ScanSplitSeparator(s: string, state: SegmentState)
    requires s != [] && IsSeparator(s[0])
    ensures TitleScan(s, state) ==
            TitleScan(SplitSeparators(s)[0], state) + CapitalizeParts(SplitSeparators(s)[1..])
    decreases |s|, 0
  {
    var q := SplitSeparators(s[1..]);
    var parts := SplitSeparators(s);
    assert parts[0] == [] && parts[1..] == [[s[0]]] + q;
    assert TitleScan(s[1..], AtStart) == CapitalizeParts(q) by {
      ScanSplit(s[1..], AtStart);
      SplitSeparatorsHead(s[1..]);
      CapitalizeIsScan(q[0]);
      assert CapitalizeParts(q) == CapitalizeSegment(q[0]) + CapitalizeParts(q[1..]);
    }
    assert CapitalizeParts(parts[1..]) == [s[0]] + CapitalizeParts(q) by {
      assert (parts[1..])[1..] == q;
    }
    assert TitleScan(parts[0], state) == [];
    assert TitleScan(s, state) == [s[0]] + TitleScan(s[1..], AtStart);
    SeparatorGlue(s[0], TitleScan(s, state), TitleScan(s[1..], AtStart), TitleScan(parts[0], state), CapitalizeParts(parts[1..]));
  }

  lemma SeparatorGlue(c: char, whole: string, rest: string, first: string, second: string)
    requires whole == [c] + rest && first == [] && second == [c] + rest
    ensures whole == first + second
  {
  }

  /** The source's split-and-join capitalisation is the character-at-a-time reference. */
  lemma TitleCaseIsScan(s: string)
    ensures TitleCase(s) == TitleScan(s, AtStart)
  {
    var parts := SplitSeparators(s);
    ScanSplit(s, AtStart);
    SplitSeparatorsHead(s);
    CapitalizeIsScan(parts[0]);
    assert CapitalizeParts(parts) == CapitalizeSegment(parts[0]) + CapitalizeParts(parts[1..]);
  }

  /** The directive `format_str[0].isupper() and len(format_str) > 1`. */
  predicate Recases(pattern: string) {
    |pattern| > 1 && IsUpper(pattern[0])
  }

  /** The case handling of `_process_format`, driven by the original pattern text.
      It keeps the length of the text and which characters are whitespace. */
  function ShapeCase(caseSensitive: bool, pattern: string, s: string): (r: string)
    ensures |r| == |s|
    ensures forall i :: 0 <= i < |s| ==> IsSpace(r[i]) == IsSpace(s[i])
  {
    if s == [] then s
    else if !caseSensitive then Lower(s)
    else if Recases(pattern) then
      if IsUpperStr(pattern) then Upper(s)
      else TitleCaseIsScan(s); TitleScanChars(s, AtStart); TitleCase(s)
    else s
  }

  // ---------------------------------------------------------------------------
  // `_process_format`

  /** The text after both substitution passes, before case shaping. */
  function Substitute(p: ParsedName, pattern: string): string {
    KeywordPass(p, BracketPass(p, pattern))
  }

  /** `_process_format(pattern, name_parts)`: `None` exactly when the substituted
      text is empty or all whitespace; otherwise the substituted text, shaped. */
  function ProcessFormat(caseSensitive: bool, pattern: string, p: ParsedName): (r: Option<string>)
    ensures r.None? <==> (Substitute(p, pattern) == [] || IsBlank(Substitute(p, pattern)))
    ensures r.Some? ==> r.value != [] && !IsBlank(r.value) && |r.value| == |Substitute(p, pattern)|
    ensures r.Some? && !caseSensitive ==> r.value == Lower(Substitute(p, pattern))
    ensures r.Some? && !caseSensitive ==> forall i :: 0 <= i < |r.value| ==> !IsUpper(r.value[i])
    ensures r.Some? && caseSensitive && !Recases(pattern) ==> r.value == Substitute(p, pattern)
    ensures r.Some? && caseSensitive && Recases(pattern) && IsUpperStr(pattern) ==>
              r.value == Upper(Substitute(p, pattern))
    ensures r.Some? && caseSensitive && Recases(pattern) && !IsUpperStr(pattern) ==>
              r.value == TitleScan(Substitute(p, pattern), AtStart)
  {
    var t := Substitute(p, pattern);
    var s := ShapeCase(caseSensitive, pattern, t);
    TitleCaseIsScan(t);
    assert IsBlank(s) <==> IsBlank(t);
    if s == [] || IsBlank(s) then None else Some(s)
  }

  /** `_process_format` on a bare keyword: the field, lower-cased unless
      case-sensitive, or `None` when the field is empty or blank. */
  lemma KeywordBase(caseSensitive: bool, k: Keyword, p: ParsedName)
    ensures ProcessFormat(caseSensitive, KeywordText(k), p) ==
      if Field(p, k) == [] || IsBlank(Field(p, k)) then None
      else Some(if caseSensitive then Field(p, k) else Lower(Field(p, k)))
  {
    var w := KeywordText(k);
    assert '[' !in w;
    KeywordPassIsReplace(p, w);
    ReplaceKeywordsKeyword(p, k, []);
    assert w + [] == w;
    assert Substitute(p, w) == Field(p, k);
    assert !Recases(w);
  }

  /** The keyword pass reads the output of the bracket pass, so a truncated value
      that spells a keyword is substituted a second time. */
  lemma TruncationRescanned(p: ParsedName, t: BracketToken, k: Keyword)
    requires WellFormedBracket(t)
    requires Truncate(Field(p, t.kw), DecimalValue(t.digits)) == KeywordText(k)
    ensures Substitute(p, BracketText(t)) == Field(p, k)
  {
    BracketPassToken(p, t, []);
    assert BracketText(t) + [] == BracketText(t);
    KeywordPassIsReplace(p, KeywordText(k));
    ReplaceKeywordsKeyword(p, k, []);
    assert KeywordText(k) + [] == KeywordText(k);
  }

  // ---------------------------------------------------------------------------
  // `apply_format`: the numeric-suffix form `(first|middle|last)(\[(\d+)\])?(\d+)$`

  /** A full match of the numeric form: the keyword, the bracket digits (group 3,
      absent when there is no bracket) and the trailing count (group 4). */
  datatype NumericForm = NumericForm(kw: Keyword, bracket: Option<string>, count: string)

  predicate WellFormedNumeric(m: NumericForm) {
    |m.count| > 0 && AllDigits(m.count) &&
    (m.bracket.Some? ==> |m.bracket.value| > 0 && AllDigits(m.bracket.value))
  }

  function NumericText(m: NumericForm): string {
    KeywordText(m.kw) + (match m.bracket case None => "" case Some(d) => "[" + d + "]") + m.count
  }

  /** `re_numeric.match(pattern)`, anchored at both ends of the pattern. */
  function NumericMatch(s: string): (r: Option<NumericForm>)
    ensures r.Some? ==> WellFormedNumeric(r.value) && s == NumericText(r.value)
  {
    match KeywordAt(s)
    case None => None
    case Some(k) =>
      var w := KeywordText(k);
      var t := s[|w|..];
      assert s == w + t;
      if |t| > 0 && AllDigits(t) then
        Some(NumericForm(k, None, t))
      else if |t| > 0 && t[0] == '[' then
        var d := DigitRun(t[1..]);
        if 0 < d && d + 2 < |t| && t[d + 1] == ']' && AllDigits(t[d + 2..]) then
          BracketSuffix(t, d);
          Some(NumericForm(k, Some(t[1..d + 1]), t[d + 2..]))
        else None
      else None
  }

  /** The text after the keyword, read as `[`, the digit run, `]` and the count. */
  lemma BracketSuffix(t: string, d: nat)
    requires 0 < d && d + 2 < |t| && t[0] == '[' && t[d + 1] == ']'
    requires d == DigitRun(t[1..])
    ensures AllDigits(t[1..d + 1])
    ensures t == "[" + t[1..d + 1] + "]" + t[d + 2..]
  {
    assert t[1..][..d] == t[1..d + 1];
  }

  lemma NumericTextKeyword(m: NumericForm)
    ensures KeywordAt(NumericText(m)) == Some(m.kw)
    ensures NumericText(m)[|KeywordText(m.kw)|..] ==
      (match m.bracket case None => "" case Some(d) => "[" + d + "]") + m.count
  {
    var t := (match m.bracket case None => "" case Some(d) => "[" + d + "]") + m.count;
    assert NumericText(m) == KeywordText(m.kw) + t;
    KeywordAtUnique(NumericText(m), m.kw);
  }

  /** The bracketed form: `[`, the digits, `]`, then a count with no `[` in it. */
  lemma NumericBracketLayout(d: string, count: string)
    requires |d| > 0 && AllDigits(d) && |count| > 0 && AllDigits(count)
    ensures var t := "[" + d + "]" + count;
      !AllDigits(t) && t[0] == '[' && DigitRun(t[1..]) == |d| && |d| + 2 < |t| && t[|d| + 1] == ']' &&
      t[1..|d| + 1] == d && t[|d| + 2..] == count
  {
    var t := "[" + d + "]" + count;
    assert !IsDigit(t[0]);
    assert t[1..] == d + ("]" + count);
    DigitRunOfNumeral(d, "]" + count);
  }

  /** Every text of the numeric form is matched, with its own groups. */
  lemma NumericMatchComplete(m: NumericForm)
    requires WellFormedNumeric(m)
    ensures NumericMatch(NumericText(m)) == Some(m)
  {
    NumericTextKeyword(m);
    match m.bracket
    case None =>
      assert "" + m.count == m.count;
    case Some(d) =>
      NumericBracketLayout(d, m.count);
  }

  /** A pattern whose last character is not a digit never takes the numeric path. */
  lemma NotNumericWithoutTrailingDigit(s: string)
    requires s == [] || !IsDigit(s[|s| - 1])
    ensures NumericMatch(s).None?
  {
    match NumericMatch(s)
    case None =>
    case Some(m) =>
  }

  /** `[f"{base}{i}" for i in range(n + 1)]` */
  function Enumerate(base: string, n: nat): (r: seq<string>)
    ensures |r| == n + 1
    ensures forall i :: 0 <= i <= n ==> r[i] == base + NatToString(i)
  {
    if n == 0 then [base + NatToString(0)] else Enumerate(base, n - 1) + [base + NatToString(n)]
  }

  /** The usernames of an enumeration are pairwise distinct. */
  lemma EnumerateDistinct(base: string, n: nat, i: nat, j: nat)
    requires i < j <= n
    ensures Enumerate(base, n)[i] != Enumerate(base, n)[j]
  {
    NatToStringInjective(i, j);
    var r := Enumerate(base, n);
    assert (base + NatToString(i))[|base|..] == NatToString(i);
    assert (base + NatToString(j))[|base|..] == NatToString(j);
  }

  /** `apply_format(pattern, name_parts)`, as the list of strings it yields. */
  function ApplyFormat(caseSensitive: bool, pattern: string, p: ParsedName): (r: seq<string>)
    ensures NumericMatch(pattern).None? ==>
              |r| <= 1 &&
              (r == [] <==> ProcessFormat(caseSensitive, pattern, p).None?) &&
              (r != [] ==> r[0] == ProcessFormat(caseSensitive, pattern, p).value)
    ensures NumericMatch(pattern).Some? ==>
              var m := NumericMatch(pattern).value;
              var v := Field(p, m.kw);
              if v == [] || IsBlank(v) then r == []
              else
                |r| == DecimalValue(m.count) + 1 &&
                forall i :: 0 <= i < |r| ==> r[i] == (if caseSensitive then v else Lower(v)) + NatToString(i)
  {
    match NumericMatch(pattern)
    case Some(m) => NumericExpansion(caseSensitive, m.kw, DecimalValue(m.count), p)
    case None =>
      match ProcessFormat(caseSensitive, pattern, p)
      case Some(u) => [u]
      case None => []
  }

  /** Lines 106-111: the base is `_process_format` of the bare keyword; when it is
      non-empty it is followed by each of 0..count. */
  function NumericExpansion(caseSensitive: bool, k: Keyword, count: nat, p: ParsedName): (r: seq<string>)
    ensures var v := Field(p, k);
            if v == [] || IsBlank(v) then r == []
            else
              |r| == count + 1 &&
              forall i :: 0 <= i < |r| ==> r[i] == (if caseSensitive then v else Lower(v)) + NatToString(i)
  {
    KeywordBase(caseSensitive, k, p);
    match ProcessFormat(caseSensitive, KeywordText(k), p)
    case Some(base) => Enumerate(base, count)
    case None => []
  }

  /** Every username `apply_format` yields is non-empty and not all whitespace. */
  lemma ApplyFormatNonBlank(caseSensitive: bool, pattern: string, p: ParsedName, u: string)
    requires u in ApplyFormat(caseSensitive, pattern, p)
    ensures u != [] && !IsBlank(u)
  {
    var r := ApplyFormat(caseSensitive, pattern, p);
    if NumericMatch(pattern).Some? {
      var m := NumericMatch(pattern).value;
      var v := Field(p, m.kw);
      var i :| 0 <= i < |r| && r[i] == u;
      var base := if caseSensitive then v else Lower(v);
      assert u == base + NatToString(i);
      assert !IsSpace(u[|u| - 1]) by {
        assert u[|u| - 1] == NatToString(i)[|NatToString(i)| - 1];
      }
    }
  }

  /** The numeric form captures the bracket digits but never applies them:
      `kw[d]N` yields exactly what `kwN` yields. */
  lemma NumericBracketIgnored(caseSensitive: bool, k: Keyword, d: string, count: string, p: ParsedName)
    requires |d| > 0 && AllDigits(d) && |count| > 0 && AllDigits(count)
    ensures ApplyFormat(caseSensitive, KeywordText(k) + "[" + d + "]" + count, p) ==
            ApplyFormat(caseSensitive, KeywordText(k) + count, p)
  {
    var withBracket := NumericForm(k, Some(d), count);
    var plain := NumericForm(k, None, count);
    var s1 := KeywordText(k) + "[" + d + "]" + count;
    var s2 := KeywordText(k) + count;
    assert NumericText(withBracket) == s1;
    assert NumericText(plain) == s2;
    NumericMatchComplete(withBracket);
    NumericMatchComplete(plain);
    assert ApplyFormat(caseSensitive, s1, p) == NumericExpansion(caseSensitive, k, DecimalValue(count), p);
    assert ApplyFormat(caseSensitive, s2, p) == NumericExpansion(caseSensitive, k, DecimalValue(count), p);
  }
}

/** `UsernameGenerator.parse_name`: a full name split into first, middle and last
    tokens (fmfug.py:53-59), with the whitespace handling of `str.strip` and
    `str.split()`. */
module Names {
  import opened Ascii

  datatype ParsedName = ParsedName(first: string, middle: string, last: string)

  /** `s.lstrip()` */
  function StripLeft(s: string): (r: string)
    ensures |r| <= |s| && r == s[|s| - |r|..]
    ensures AllSpace(s[..|s| - |r|])
    ensures r != [] ==> !IsSpace(r[0])
  {
    if s != [] && IsSpace(s[0]) then StripLeft(s[1..]) else s
  }

  /** `s.rstrip()` */
  function StripRight(s: string): (r: string)
    ensures |r| <= |s| && r == s[..|r|]
    ensures AllSpace(s[|r|..])
    ensures r != [] ==> !IsSpace(r[|r| - 1])
  {
    if s != [] && IsSpace(s[|s| - 1]) then StripRight(s[..|s| - 1]) else s
  }

  /** `s.strip()`: `s` without its leading and trailing whitespace. */
  function Strip(s: string): (r: string)
    ensures r == [] <==> AllSpace(s)
    ensures r != [] ==> !IsSpace(r[0]) && !IsSpace(r[|r| - 1])
  {
    var l := StripLeft(s);
    assert s == s[..|s| - |l|] + l;
    StripRight(l)
  }

  /** The length of the run of non-whitespace characters at the start of `s`. */
  function WordLength(s: string): (n: nat)
    ensures n <= |s|
    ensures NoSpace(s[..n])
    ensures n < |s| ==> IsSpace(s[n])
  {
    if s != [] && !IsSpace(s[0]) then 1 + WordLength(s[1..]) else 0
  }

  /** `s.split()` with no separator: the maximal runs of non-whitespace characters. */
  function Words(s: string): (ws: seq<string>)
    ensures forall w :: w in ws ==> w != [] && NoSpace(w)
    decreases |s|
  {
    if s == [] then []
    else if IsSpace(s[0]) then Words(s[1..])
    else
      var n := WordLength(s);
      [s[..n]] + Words(s[n..])
  }

  /** `' '.join(ws)` */
  function JoinWords(ws: seq<string>): string {
    if ws == [] then [] else if |ws| == 1 then ws[0] else ws[0] + " " + JoinWords(ws[1..])
  }

  predicate ValidWords(ws: seq<string>) {
    forall i :: 0 <= i < |ws| ==> ws[i] != [] && NoSpace(ws[i])
  }

  lemma {:induction false} WordsAllSpace(s: string)
    ensures Words(s) == [] <==> AllSpace(s)
  {
    if s != [] {
      WordsAllSpace(s[1..]);
      if IsSpace(s[0]) {
        assert AllSpace(s) <==> AllSpace(s[1..]);
      }
    }
  }

  /** A whitespace character splits the token list in two. */
  lemma {:induction false} WordsSplitAtSpace(a: string, c: char, b: string)
    requires IsSpace(c)
    ensures Words(a + [c] + b) == Words(a) + Words(b)
    decreases |a|
  {
    var s := a + [c] + b;
    if a == [] {
      assert s[1..] == b;
    } else if IsSpace(a[0]) {
      assert s[1..] == a[1..] + [c] + b;
      WordsSplitAtSpace(a[1..], c, b);
    } else {
      var m := WordLength(a);
      WordLengthPrefix(a, [c] + b);
      assert a + [c] + b == a + ([c] + b);
      assert s[..m] == a[..m];
      assert s[m..] == a[m..] + [c] + b;
      WordsSplitAtSpace(a[m..], c, b);
    }
  }

  /** Text after a word that begins with whitespace does not lengthen the word. */
  lemma {:induction false} WordLengthPrefix(a: string, t: string)
    requires t != [] && IsSpace(t[0])
    ensures WordLength(a + t) == WordLength(a)
  {
    if a != [] && !IsSpace(a[0]) {
      assert (a + t)[1..] == a[1..] + t;
      WordLengthPrefix(a[1..], t);
    } else if a == [] {
      assert a + t == t;
    }
  }

  /** A single token splits to itself. */
  lemma {:induction false} WordsOfWord(w: string)
    requires w != [] && NoSpace(w)
    ensures Words(w) == [w]
  {
    WordLengthAll(w);
    assert w[..|w|] == w;
    assert w[|w|..] == [];
  }

  lemma {:induction false} WordLengthAll(w: string)
    requires NoSpace(w)
    ensures WordLength(w) == |w|
  {
    if w != [] {
      WordLengthAll(w[1..]);
    }
  }

  /** Splitting undoes joining with single spaces. */
  lemma {:induction false} WordsJoinWords(ws: seq<string>)
    requires ValidWords(ws)
    ensures Words(JoinWords(ws)) == ws
  {
    if |ws| == 1 {
      WordsOfWord(ws[0]);
    } else if |ws| > 1 {
      WordsOfWord(ws[0]);
      WordsJoinWords(ws[1..]);
      WordsSplitAtSpace(ws[0], ' ', JoinWords(ws[1..]));
      assert ws[0] + " " + JoinWords(ws[1..]) == ws[0] + [' '] + JoinWords(ws[1..]);
      assert ws == [ws[0]] + ws[1..];
    }
  }

  /** Whitespace around the name does not change its tokens. */
  lemma {:induction false} WordsStrip(s: string)
    ensures Words(Strip(s)) == Words(s)
  {
    var l := StripLeft(s);
    var k := |s| - |l|;
    WordsDropLeadingSpace(s, k);
    var r := StripRight(l);
    WordsDropTrailingSpace(l, |r|);
    assert Strip(s) == r;
  }

  lemma {:induction false} WordsDropLeadingSpace(s: string, n: nat)
    requires n <= |s| && AllSpace(s[..n])
    ensures Words(s[n..]) == Words(s)
  {
    if n > 0 {
      assert IsSpace(s[..n][0]);
      assert s[1..][..n - 1] == s[1..n];
      assert s[1..][n - 1..] == s[n..];
      WordsDropLeadingSpace(s[1..], n - 1);
    }
  }

  lemma {:induction false} WordsDropTrailingSpace(s: string, n: nat)
    requires n <= |s| && AllSpace(s[n..])
    ensures Words(s[..n]) == Words(s)
    decreases |s|
  {
    if n < |s| {
      var t := s[..|s| - 1];
      var c := s[|s| - 1];
      assert s == t + [c] + [];
      assert IsSpace(c) by { assert s[n..][|s| - 1 - n] == c; }
      WordsSplitAtSpace(t, c, []);
      assert Words(s) == Words(t) + Words([]);
      assert t[..n] == s[..n];
      assert t[n..] == s[n..][..|s| - 1 - n];
      WordsDropTrailingSpace(t, n);
    } else {
      assert s[..n] == s;
    }
  }

  /** `parse_name`: the first token, the second token only when there are at least
      three, and the final token only when there are at least two. */
  function ParseName(name: string): (p: ParsedName)
    ensures p.first == [] <==> AllSpace(name)
    ensures NoSpace(p.first) && NoSpace(p.middle) && NoSpace(p.last)
    ensures p.last != [] ==> p.first != []
    ensures p.middle != [] ==> p.last != []
  {
    var parts := Words(Strip(name));
    WordsStrip(name);
    WordsAllSpace(name);
    ParsedName(
      if |parts| > 0 then parts[0] else "",
      if |parts| > 2 then parts[1] else "",
      if |parts| > 1 then parts[|parts| - 1] else "")
  }

  /** Parsing a stripped name gives the same fields as parsing the name itself. */
  lemma ParseNameStrip(name: string)
    ensures ParseName(Strip(name)) == ParseName(name)
  {
    WordsStrip(Strip(name));
    WordsStrip(name);
  }

  /** A name written as tokens separated by single spaces parses into those tokens. */
  lemma ParseJoinedWords(ws: seq<string>)
    requires ValidWords(ws)
    ensures ParseName(JoinWords(ws)) ==
      ParsedName(
        if |ws| > 0 then ws[0] else "",
        if |ws| > 2 then ws[1] else "",
        if |ws| > 1 then ws[|ws| - 1] else "")
  {
    WordsStrip(JoinWords(ws));
    WordsJoinWords(ws);
  }

  /** The `"fn ln"` string built for a first-name/last-name pair parses back into that pair. */
  lemma ParsePair(fn: string, ln: string)
    requires fn != [] && NoSpace(fn) && ln != [] && NoSpace(ln)
    ensures ParseName(fn + " " + ln) == ParsedName(fn, "", ln)
  {
    assert JoinWords([fn, ln]) == fn + " " + ln;
    ParseJoinedWords([fn, ln]);
  }
}

# A verified model of the fmfug username generator

`fmfug.py` turns personal names into candidate usernames by running a small
pattern language over each name. In patterns such as `first.last`,
`first[1]last` or `last5`, the lower-case keywords `first`, `middle` and `last`
stand for the parts of the name. `kw[n]` truncates a part to n characters. A
pattern that is just a keyword and a number, such as `last5`, enumerates
suffixes 0 to 5. When case sensitivity is off the result is lower-cased. When
it is on, a pattern of two or more characters that starts with an upper-case
letter upper-cases or title-cases the result. A driver loop reads the names in chunks and hands them
to worker threads. It then either writes the results to a file or prints them.
The file is written in batches of at least 1000 lines, except the last batch,
which holds whatever remains.

This project models that core in Dafny and proves what the code promises.

| file | module | models |
|---|---|---|
| `wrappers.dfy` | `Wrappers` | `Option` (Python's `None` results) and `Result` (an exception raised for one item) |
| `ascii.dfy` | `Ascii` | `isspace`, `isupper`, `isalpha`, `lower`, `upper`, `capitalize`, `int()` and `str()` on ASCII text |
| `seqs.dfy` | `Seqs` | concatenation of lists of lists (`''.join`, repeated `extend`) |
| `names.dfy` | `Names` | `strip`, `split()` and `parse_name` |
| `patterns.dfy` | `Patterns` | `_process_format` (bracket pass, keyword pass, case shaping) and `apply_format` |
| `generator.dfy` | `Generator` | the generator's configuration, `generate_from_name`, `process_single_task` |
| `pipeline.dfy` | `Pipeline` | `batch_write` and the chunking and buffering loop of `run_processing` |

The generator never changes after it is built, so it is modelled as a value. The
pattern interpreter is made of functions. Two of them have a reference
definition and a lemma that ties the two together:
- the keyword pass, which splits with `re.split` and joins again, equals a
  left-to-right replacement (`ReplaceKeywords`);
- the per-segment capitalisation, which splits on `.`, `_` and `-` and joins
  again, equals a one-character-at-a-time scan (`TitleScan`).

The bracket pass and the numeric match are pinned down differently. Their own
`ensures` say that every match they report is well formed. A completeness lemma
then shows that every well-formed text is matched (`BracketMatchToken`,
`NumericMatchComplete`).

`generate_from_name` is a pair of nested loops. It is a method proved equal to
the function `NameUsernames`.

`run_processing` is a method with a `while` loop over chunks and a `for` loop
over each chunk. Two things are parameters:
- the work each thread does, a `Task` that returns usernames or an error message;
- the order in which `as_completed` hands back a chunk's futures, any
  rearrangement of that chunk.

The loop invariant `Accounted` ties the state to everything handled so far:
- the progress count equals the number of items handled;
- `total_generated` and the error reports match those items;
- the buffer stays under 1000 lines and every flushed batch reached 1000;
- the batches followed by the buffer, or the printed lines, are the usernames
  in completion order.

## Model

| member | source | states |
|---|---|---|
| Generator.NewGenerator | fmfug.py:43-45 | the case flag is kept; a missing or empty format list becomes the defaults, any other list is kept as given; the list is never empty |
| Generator.DefaultFormatsCount | fmfug.py:36-41 | there are 18 default formats |
| Generator.DefaultFormatsNotNumeric | fmfug.py:36-41 | no default format has the whole-pattern numeric form, so none enumerates suffixes |
| Names.Strip | fmfug.py:54 | the result is empty exactly when the name is all whitespace; otherwise it starts and ends with a non-space |
| Names.Words | fmfug.py:54 | `split()` yields only non-empty tokens without whitespace |
| Names.ParseName | fmfug.py:53-59 | `first` is empty exactly when the name is blank; no field holds whitespace; a `last` implies a `first`, and a `middle` implies a `last` |
| Names.ParseJoinedWords | fmfug.py:53-59 | for tokens joined by single spaces: `first` is the first token, `middle` the second when there are at least three, `last` the final one when there are at least two |
| Names.ParseNameStrip | fmfug.py:120-124 | parsing the stripped name gives the same fields as parsing the name itself |
| Names.ParsePair | fmfug.py:136 | when `fn` and `ln` are single non-empty tokens without whitespace, the string `"fn ln"` built for the pair parses back into first `fn`, no middle, last `ln` |
| Patterns.KeywordAtUnique | fmfug.py:49-50 | the keyword alternation reports whichever keyword starts the text; it is case-sensitive |
| Patterns.Truncate | fmfug.py:68 | `value[:n]` is a prefix of the value of length min(n, len), with no padding and no failure |
| Patterns.BracketMatchToken | fmfug.py:49 | every `kw[digits]` is recognised by the bracket regex, with its own keyword and digits |
| Patterns.BracketPassToken | fmfug.py:64-70 | `kw[n]` followed by any text becomes the field truncated to n characters, followed by the bracket pass of the rest |
| Patterns.SplitKeywordsFlatten | fmfug.py:80 | joining the pieces of `re.split` gives back the text |
| Patterns.SplitKeywordsOddLength | fmfug.py:80 | the split has an odd number of pieces: text, keyword, text, …, text |
| Patterns.SplitKeywordsOdd | fmfug.py:80 | every odd position of the split holds a keyword |
| Patterns.SplitKeywordsEven | fmfug.py:80 | no keyword occurs inside a piece at an even position |
| Patterns.KeywordPassIsReplace | fmfug.py:80-87 | split, replace and join equals replacing each keyword occurrence left to right by its field |
| Patterns.ReplaceKeywordsKeyword | fmfug.py:83-84 | a keyword at the front is replaced by its field |
| Patterns.ReplaceKeywordsLiteral | fmfug.py:85-86 | text in which no keyword occurs is copied |
| Patterns.TitleScanChars | fmfug.py:97-98 | per-segment capitalisation changes only the case of characters and copies every separator |
| Patterns.TitleCaseIsScan | fmfug.py:97-98 | capitalising each segment between `.`, `_` and `-` upper-cases a segment's leading letter and lower-cases the rest of that segment; segments that start with a non-letter are copied |
| Patterns.ShapeCase | fmfug.py:89-98 | case shaping keeps the length and which characters are whitespace |
| Patterns.ProcessFormat | fmfug.py:61-100 | `None` exactly when the substituted text is empty or all whitespace; otherwise, without case sensitivity the text is lower-cased (no upper-case letter is left); with it, the text is kept when the pattern does not start upper-case or has length 1, upper-cased when the whole pattern is upper-case, and capitalised per segment otherwise |
| Patterns.KeywordBase | fmfug.py:61-100 | on a bare keyword the result is the field (lower-cased without case sensitivity), or `None` when the field is empty or blank |
| Patterns.TruncationRescanned | fmfug.py:70-87 | a truncated value that spells a keyword is substituted again by the keyword pass |
| Patterns.NumericMatch | fmfug.py:48 | a match of the anchored numeric regex is well formed and spells the whole pattern |
| Patterns.NumericMatchComplete | fmfug.py:48 | every text of the form `kw([d+])?N` is matched, with its own keyword, bracket digits and count |
| Patterns.NotNumericWithoutTrailingDigit | fmfug.py:48 | a pattern that does not end in a digit never takes the numeric path |
| Patterns.Enumerate | fmfug.py:109-110 | `range(n + 1)` gives n+1 usernames, the i-th being the base followed by the decimal numeral of i |
| Patterns.EnumerateDistinct | fmfug.py:109-110 | the enumerated usernames are pairwise distinct |
| Patterns.NumericExpansion | fmfug.py:106-111 | for the bare keyword's value v: nothing when v is empty or blank; otherwise count+1 usernames, v (lower-cased without case sensitivity) followed by 0, 1, …, count |
| Patterns.ApplyFormat | fmfug.py:102-115 | a numeric pattern yields exactly the enumeration of its keyword's value and never reaches the ordinary path; any other pattern yields at most one username, which is `_process_format`'s result, and nothing when that is `None` |
| Patterns.ApplyFormatNonBlank | fmfug.py:100-115 | every username yielded is non-empty and not all whitespace |
| Patterns.NumericBracketIgnored | fmfug.py:104-107 | `kw[d]N` yields exactly what `kwN` yields: the bracket digits are captured and never applied |
| Generator.ExpandFormatsMember | fmfug.py:128-130 | a username is produced exactly when some format yields it |
| Generator.ExpandFormatsBound | fmfug.py:113-115 | when no format is numeric, there are at most as many usernames as formats |
| Generator.ExpandFormatsSnoc | fmfug.py:128-130 | one more format appends its output after that of the formats before it |
| Generator.NameUsernames | fmfug.py:117-131 | nothing for a blank name; otherwise every format's output for the parsed name, in format order, duplicates kept |
| Generator.DefaultUsernamesBound | fmfug.py:36-41 | with the default formats a name yields at most 18 usernames |
| Generator.AppendEach | fmfug.py:129-130 | the inner loop appends every produced username, in order |
| Generator.ExpandAll | fmfug.py:128-130 | the outer loop produces exactly the output of the formats in order |
| Generator.GenerateFromName | fmfug.py:117-131 | the method returns exactly `NameUsernames` |
| Generator.ProcessSingleTask | fmfug.py:133-137 | in the model the call fails exactly for a pair with an empty side (the digit limit of `int()` is not modelled, see below); a full name is processed as it is, a pair as `"fn ln"` |
| Generator.PairUsernames | fmfug.py:133-137 | a pair of single tokens yields the formats' output for first `fn`, no middle and last `ln` |
| Generator.BlankNameYieldsNothing | fmfug.py:120-126 | a blank name yields no usernames, and its first component is empty |
| Pipeline.Take | fmfug.py:184 | a chunk holds `size` items, or all that remain when fewer do, and it is a prefix of the remaining source |
| Pipeline.ChunksFlatten | fmfug.py:180-186 | reading the chunks one after another gives back the source, in order, each item once |
| Pipeline.ChunksSizes | fmfug.py:160-186 | every chunk is non-empty and holds at most `workers*200` items; every chunk but the last holds exactly that many |
| Pipeline.CompletionIsPermutation | fmfug.py:189-195 | whatever the completion order, every item of the source is handled exactly once |
| Pipeline.BatchWriteIsLines | fmfug.py:142-147 | `batch_write` writes nothing for an empty buffer, otherwise each line followed by a newline |
| Pipeline.FileTextIsLines | fmfug.py:142-147 | however the lines were split into batches, the file holds each of them followed by a newline, in order |
| Pipeline.UsernamesAppend | fmfug.py:197-202 | the usernames of two runs of items are those of the first followed by those of the second |
| Pipeline.UsernamesOfName | fmfug.py:190-197 | the usernames of one submitted full name are those `generate_from_name` returns |
| Pipeline.FailedItemContributesNothing | fmfug.py:211-216 | a failed item adds one error report (the item and the message) and no usernames |
| Pipeline.EmptyPairSideReported | fmfug.py:166-169 | a pair with an empty side is reported with the `NoneType` error and adds no usernames |
| Pipeline.UsernamesPermutation | fmfug.py:195-198 | the completion order changes only the order of the usernames, never which ones there are |
| Pipeline.UsernamesCountPermutation | fmfug.py:195-198 | the completion order never changes how many usernames there are |
| Pipeline.HandleCompleted | fmfug.py:196-216 | the whole new state (`Completed`): progress up by one, the total up by the item's usernames, a failure reported; for the file the usernames join the buffer, and a buffer of 1000 lines or more is written whole as one batch and emptied; otherwise they are printed. The accounting invariant is kept |
| Pipeline.CompletedAccounted | fmfug.py:196-216 | any state change of that shape keeps the accounting invariant (`Accounted`): progress, total and error reports match the items done; for the file the batches followed by the buffer are their usernames in completion order, the buffer stays under 1000 lines and every batch holds at least 1000; otherwise standard output holds them. At most one batch is added |
| Pipeline.HandleChunk | fmfug.py:195-216 | handling a chunk in completion order keeps the invariant for every item of the chunk |
| Pipeline.FlushRemainder | fmfug.py:218-220 | a non-empty file buffer is appended as one last batch and emptied, and nothing else changes; afterwards the batches hold every username in completion order and every batch but the last has at least 1000 lines |
| Pipeline.ProcessChunks | fmfug.py:180-216 | the `while True` loop ends with every item of every chunk accounted for |
| Pipeline.RunProcessing | fmfug.py:149-222 | a non-positive worker count fails with the executor's error before anything is done; otherwise the result is the number of usernames, the usernames are a rearrangement of those in source order, and the file text is each username followed by a newline in completion order (or each is printed) |
| Ascii.DecimalRoundTrip | fmfug.py:109-110 | reading back the numeral `str(i)` writes gives `i` |
| Ascii.NatToStringInjective | fmfug.py:110 | distinct numbers have distinct numerals |

## Left out

- The worker pool is not modelled (`ThreadPoolExecutor`, `submit`, `as_completed`); the loop runs sequentially. The completion order of each chunk is a parameter: any rearrangement of the chunk.
- The progress bar (`tqdm` and its fallback class) is omitted; only the progress count is kept.
- Standard output is a sequence of printed usernames. The error stream is a sequence of (item, message) pairs, not the formatted `[!] Error processing …` line.
- The `ValueError` for `workers <= 0` is raised by `ThreadPoolExecutor` in `run_processing` (fmfug.py:172). The executor is not modelled; `RunProcessing` returns that error's message, kept as a constant.
- ProcessSingleTask: does not model the `ValueError` that `int()` raises, on recent Python versions, for a decimal string of more than 4300 digits. Such a string can be a bracket length (fmfug.py:68) or a numeric count (fmfug.py:109); each is converted only when the field or base is non-empty. The model reads numerals of any length, so it returns usernames where the source reports the item as failed. The only failure modelled is the `AttributeError` that `None.strip()` raises for a pair with an empty side.
- Python strings are Unicode. The model uses ASCII semantics for `\d`, whitespace, `isupper`, `isalpha`, `lower`, `upper` and `capitalize`.
- The regex `$` can also match just before a trailing newline. This is not modelled: the numeric form must end at the end of the pattern. Patterns read from a file are stripped, so none ends in a newline.
- Integers are unbounded in the model: digit strings, with or without leading zeros, are read as decimal numbers with no limit on their length.
- These are not part of this model:
  - `load_names` and `load_formats`, which check for a file and read it;
  - `main`, which parses arguments, prints the banner and logs;
  - opening and closing the output file, and `KeyboardInterrupt`.
- `total_count` only sizes the progress bar, so it is not a parameter.
- The output handle is reduced to one flag, `toFile`, which stands for "`output_file` is truthy" (fmfug.py:201). When it is set, usernames are buffered and written through `batch_write`. This includes a handle that is `sys.stdout` itself; only the progress bar checks for that (fmfug.py:176). When it is not set, usernames are printed.

## Design notes on the code

- With case sensitivity on and a pattern that does not start with an upper-case letter, the code keeps the case of the name. For example, `first.last` on `Ada Lovelace` gives `Ada.Lovelace` (`Patterns.ProcessFormat`).
- None of the 18 default formats ends in a digit, so the defaults never enumerate numeric suffixes (`Generator.DefaultFormatsNotNumeric`).
- In the numeric form `kw[d]N` the bracket digits are captured but never applied, so `first[2]5` yields what `first5` yields (`Patterns.NumericBracketIgnored`).

# IMTVault dataset builder and TIPA converter: a verified Dafny model

This project models two parts of the IMTVault repository, which builds a
CLDF dataset of interlinear glossed examples taken from Language Science
Press books. It also proves properties of both models.

1. **The dataset builder** (`cldfbench_imtvault.py`). It has three parts.
   - The token cleaner `clean` runs an ordered cascade of thirteen rewrite
     passes. They turn a TeX-encoded word or gloss into plain text. The
     passes handle the glossing abbreviations in four spellings, capital
     runs in braces, `\gloss` macros, spacing and emphasis macros, and a
     few literal macros. `clean` also counts the results that still hold
     TeX.
   - The filter `filtered` drops placeholder tokens and escapes `\t`
     before it cleans.
   - The record loop of `cmd_makecldf` turns example records into
     language rows and example rows. It counts glottocodes, skips a record
     whose cleaned lists are empty, and drops a repeated row ID. It also
     gives each row an LGR conformance level of 0, 1 or 2.
2. **The TIPA-to-Unicode converter** (`raw/233/tipa-unicode-conversion.py`).
   - It builds a mapping table from file entries plus three built-in
     entries.
   - A character state machine finds `\ipa{…}` groups in each line. It
     translates their TIPA text chunk by chunk through the table and
     writes `\UIPA{…}` in their place.

## Files

- `wrappers.dfy` (`Wrappers`): the `Option` type.
- `tex_rewrite.dfy` (`TexRewrite`): one `re.sub`/`str.replace` pass over
  a string, as a table of rules. A rule is a literal, or a delimited run
  of one character class, and the first rule that matches wins. The file
  ends with the run of a sequence of passes (`ApplyFrom`) and general
  lemmas about both.
  - This is a rewriter for the specific patterns `clean` uses, not a
    regex engine.
  - `GroupMatchIsOnlyMatch` justifies taking the greedy run of a class.
    It proves that with a closing delimiter outside the class, no other
    length could match.
- `tex_clean.dfy` (`TexClean`): the thirteen pass tables and the cascade
  `Cleaned`. It also holds `clean` with its counter, `filtered`, and the
  placeholder filter `Kept`.
- `tex_clean_props.dfy` (`TexCleanProps`): what each pass does to the
  shape it targets, proved over the whole cascade. Given a well-formed
  configuration, each lemma proves that the earlier passes leave the
  input alone, that the pass fires, and that the later passes leave the
  result alone.
- `assembly.dfy` (`Assembly`): the record loop.
  - `Step` is one iteration and `Run` the fold over the records.
  - The method `MakeCldf` is the loop over a `Writer` object's lists. It
    is proved to write exactly `Run`'s rows and return `Run`'s TeX
    counter.
  - The lemmas state what `Run` guarantees.
- `tipa.dfy` (`TipaUnicode`): the mapping builder and the scanner.
  - `Step` and `Scan` specify the scanner. The method `TranscodeLine` is
    the character loop, proved to compute `Scan`.
  - The lemmas state the scanner's behaviour on openers, groups,
    overflow and line ends, and the invariant it keeps.

The environment becomes parameters:
- `clean` gets the abbreviation list and the non-overt marker as a
  `Config`.
- The validity checks of the interlinear-gloss library are two function
  parameters (`Checks`). The strict check can pass, fail or raise.
- The records and the mapping entries are sequences.
- The rows are appended to the writer's lists. The TIPA script's
  printed lines, error messages included, are returned as a sequence.

## Model

| member | source | states |
|---|---|---|
| TexRewrite.FirstMatch | cldfbench_imtvault.py:49-90 | the rule chosen at a position is a full match of that rule, and no earlier rule in the table matches there |
| TexRewrite.FirstMatchAt | cldfbench_imtvault.py:49-90 | when rule j matches and no earlier rule does, rule j's match is the one taken |
| TexRewrite.RewriteNoHeads | cldfbench_imtvault.py:49-90 | a pass changes nothing in a text lacking the first character of every pattern |
| TexRewrite.RewriteUnchanged | cldfbench_imtvault.py:49-90 | a pass leaves a string alone when none of its rules can match anywhere in it |
| TexRewrite.RewriteWhole | cldfbench_imtvault.py:49-90 | a pass whose rule matches the whole string returns that match's replacement |
| TexRewrite.GroupMatchIsOnlyMatch | cldfbench_imtvault.py:69-87 | for `open` + class run + `close` with `close` outside the class, the greedy run is the only length that matches, so taking it is what the regex does |
| TexRewrite.ReplaceCharIsMap | cldfbench_imtvault.py:153 | replacing a one-character literal by another changes exactly the characters equal to it |
| TexRewrite.ApplyFromIdle | cldfbench_imtvault.py:48-90 | passes that each leave a string alone leave it alone in sequence |
| TexRewrite.OnlyPassFires | cldfbench_imtvault.py:48-90 | when the passes before pass k leave a string alone, pass k turns it into x, and the passes after k leave x alone, the sequence of passes yields x |
| TexRewrite.GroupPassWhole | cldfbench_imtvault.py:69-87 | a one-group pass over `open`, a class run and `close` spanning the whole string returns the group's text |
| TexClean.Clean | cldfbench_imtvault.py:48-94 | returns the cascade's result; the counter entry for the result grows by one exactly when it contains a backslash; no other entry changes; a key is added only then |
| TexClean.TallyCounts | cldfbench_imtvault.py:92-93 | after cleaning a sequence of tokens, each counter entry grows by the number of times that string was produced, and only if it contains a backslash |
| TexClean.KeptAppend | cldfbench_imtvault.py:111-112 | the placeholder filter distributes over concatenation, so kept tokens stay in input order |
| TexClean.KeptMembers | cldfbench_imtvault.py:111-112 | a token is kept exactly when it occurs in the input and is not `{}`, `` or `--` |
| TexClean.Filtered | cldfbench_imtvault.py:111-112 | returns one cleaned token per kept token, and the counter is the tally of exactly those tokens in order |
| TexClean.FilteredCleansKept | cldfbench_imtvault.py:111-112 | the i-th returned token is the cascade applied to the i-th kept token with `\t` escaped |
| TexClean.FilteredTokensIgnoreCounter | cldfbench_imtvault.py:111-112 | the cleaned tokens do not depend on the counter passed in |
| TexCleanProps.CleanedVia | cldfbench_imtvault.py:48-90 | the cascade yields x when pass k is the only pass that changes anything and x is markup-free |
| TexCleanProps.CleanedMarkupFree | cldfbench_imtvault.py:48-90 | a token without `{`, `\` or `$` comes out of the whole cascade unchanged |
| TexCleanProps.CleanUpperAbbr | cldfbench_imtvault.py:49-53 | `{\X}` for an abbreviation X cleans to X |
| TexCleanProps.CleanLowerAbbr | cldfbench_imtvault.py:54-58 | `{\x}`, the lower-case spelling of an abbreviation, cleans to the upper-case abbreviation |
| TexCleanProps.CleanArgAbbr | cldfbench_imtvault.py:59-63 | `\x{}`, the lower-case macro spelling, cleans to the upper-case abbreviation |
| TexCleanProps.CleanCapitalizedAbbr | cldfbench_imtvault.py:64-68 | `{\Xx}`, the capitalised spelling, cleans to the upper-case abbreviation, whichever earlier pass fires for it |
| TexCleanProps.UpperRunEmpty | cldfbench_imtvault.py:69-73 | `{` not followed by a capital letter is not matched by the capital-run pass |
| TexCleanProps.UpperRunUnclosed | cldfbench_imtvault.py:69-73 | `{` followed by text containing a non-capital before any `}` is not matched by the capital-run pass |
| TexCleanProps.CleanCapitalRun | cldfbench_imtvault.py:69-73 | `{ABC}` for a non-empty run of capitals cleans to `ABC` |
| TexCleanProps.CleanGloss | cldfbench_imtvault.py:75-79 | `\gloss{g}` for a non-empty run over `[a-z0-9.:-]` cleans to g in upper case |
| TexCleanProps.CleanGlossSuffix | cldfbench_imtvault.py:80-84 | `\glossABC{}` for a non-empty run of capitals cleans to `ABC` |
| TexCleanProps.CleanEmptySet | cldfbench_imtvault.py:85 | `$\emptyset$` cleans to the non-overt marker |
| TexCleanProps.CleanHSpace | cldfbench_imtvault.py:86 | `\hspace{t}` for plain text t cleans to the empty string |
| TexCleanProps.CleanEmphasis | cldfbench_imtvault.py:87 | `\emph{t}`, `\stem{t}` and `\bf{t}` for plain text t clean to t |
| TexCleanProps.CleanInlineEmpty | cldfbench_imtvault.py:88 | `\(ø\)` cleans to the non-overt marker |
| TexCleanProps.CleanGscAcc | cldfbench_imtvault.py:89 | `\gscACC` cleans to `ACC` |
| TexCleanProps.CleanRedp | cldfbench_imtvault.py:90 | `\redp{}` cleans to `~` |
| TexCleanProps.TabEscapeIdle | cldfbench_imtvault.py:112 | the `\t` escape changes nothing in a token without a backslash directly before `t` |
| TexCleanProps.CleanedPlainToken | cldfbench_imtvault.py:112 | a markup-free token survives the escape and the cascade unchanged |
| TexCleanProps.FilteredPlainWordsFrom | cldfbench_imtvault.py:111-112 | when every token is a placeholder or markup-free, the cleaned tokens are exactly the kept tokens, for any counter |
| TexCleanProps.FilteredPlainWords | cldfbench_imtvault.py:111-112 | the same, for the cleaned token list of a record |
| TexCleanProps.FilteredSingle | cldfbench_imtvault.py:111-112 | a list that keeps one token cleans to the one cleaned, escaped token |
| TexCleanProps.FilteredSpacingOnly | cldfbench_imtvault.py:30-35 | the word list `{}`, ``, `--`, `\hspace{5pt}` cleans to one empty token: the filter runs before cleaning, so a kept token can clean to nothing |
| Assembly.LanguageName | cldfbench_imtvault.py:126-129 | a language row has a name exactly when the record gives a non-empty one, and then it is that name |
| Assembly.SplitJoin | cldfbench_imtvault.py:144 | joining space-free words with single spaces loses nothing: splitting at the spaces (`Split`, a reference inverse that the source does not contain) gives the words back |
| Assembly.Decimal | cldfbench_imtvault.py:153 | the decimal rendering of the book number is non-empty and made of digits |
| Assembly.DecimalValue | cldfbench_imtvault.py:153 | the decimal rendering reads back as the same number |
| Assembly.RowIdIsReplace | cldfbench_imtvault.py:153 | the row ID is what `str.replace('.', '_')` makes of `bookID-ID` |
| Assembly.RowIdChars | cldfbench_imtvault.py:153 | the row ID is the book number's digits, a dash, then the example ID with each `.` turned into `_`; it has no `.` |
| Assembly.LevelCases | cldfbench_imtvault.py:145-152 | the level is at most 2; it is 2 exactly when the strict check passes, 1 when only the lax check passes, and 0 otherwise (a raise counts as not passing) |
| Assembly.PrepareCleans | cldfbench_imtvault.py:131-132 | a record's cleaned word and gloss lists hold the cleaned, escaped kept tokens in order |
| Assembly.PrepareAll | cldfbench_imtvault.py:123-132 | one prepared entry per record, in record order |
| Assembly.Row | cldfbench_imtvault.py:133-165 | a record yields a row exactly when both cleaned lists are non-empty, and the row carries the record's row ID |
| Assembly.RowShape | cldfbench_imtvault.py:143-165 | every row has level at most 2, its record's row ID and glottocode, the words joined by single spaces as primary text, the translation, and the word and gloss lists when the level is above 0, empty lists at level 0 |
| Assembly.StepEmits | cldfbench_imtvault.py:133-165 | one record appends its row and adds its ID to the seen set exactly when it yields a row with an unseen ID; otherwise neither changes |
| Assembly.StepLanguages | cldfbench_imtvault.py:125-130 | one record appends its language row exactly when its glottocode is new, and always adds one to that glottocode's count |
| Assembly.TallyAppend | cldfbench_imtvault.py:131-132 | counting two token lists in a row is counting their concatenation |
| Assembly.StepTex | cldfbench_imtvault.py:131-132 | one record adds to the TeX counter its word tokens, then its gloss tokens, whether or not it is skipped afterwards |
| Assembly.SeenIsEmitted | cldfbench_imtvault.py:153-156 | the seen set is exactly the set of emitted row IDs, and no ID is emitted twice |
| Assembly.RunGrows | cldfbench_imtvault.py:120-165 | the rows, the seen set and the language rows after a prefix of the records are a prefix or subset of those after all of them |
| Assembly.HasRowIdLast | cldfbench_imtvault.py:153-156 | some record yields a given row ID exactly when an earlier one does or the last one does |
| Assembly.SeenIsRowIds | cldfbench_imtvault.py:153-156 | an ID is seen exactly when some record so far yields a row with it, duplicates included |
| Assembly.RowsAreSeen | cldfbench_imtvault.py:153-156 | every record that yields a row has its ID in the seen set afterwards |
| Assembly.FirstOfIdLast | cldfbench_imtvault.py:153-156 | the last record is the first with its ID exactly when it yields a row whose ID was not seen before |
| Assembly.FirstIsEmitted | cldfbench_imtvault.py:153-165 | the row of every record that is first with its ID is emitted |
| Assembly.EmittedIsFirst | cldfbench_imtvault.py:153-165 | every emitted row is the row of a record that is first with its ID: the first occurrence wins |
| Assembly.CountOfPositive | cldfbench_imtvault.py:130 | a glottocode has a positive record count exactly when some record carries it |
| Assembly.LgsCounts | cldfbench_imtvault.py:130 | the glottocode counter holds, for every glottocode, the number of records carrying it, skipped and duplicate records included |
| Assembly.LgsKeys | cldfbench_imtvault.py:125-130 | the counter's keys are exactly the records' glottocodes |
| Assembly.FirstOfLanguageLast | cldfbench_imtvault.py:125 | the last record is the first with its glottocode exactly when the counter has not met that glottocode |
| Assembly.LanguageIds | cldfbench_imtvault.py:125-130 | language row IDs are pairwise distinct, and they are exactly the glottocodes counted |
| Assembly.FirstLanguageWritten | cldfbench_imtvault.py:125-129 | the first record of each glottocode writes its language row, even when it is later skipped or is a duplicate |
| Assembly.WrittenLanguageIsFirst | cldfbench_imtvault.py:125-129 | every language row comes from the first record with its glottocode |
| Assembly.TexCounts | cldfbench_imtvault.py:120-132 | the TeX counter is the tally of every cleaned token of every record, in loop order |
| Assembly.TexCountsByKey | cldfbench_imtvault.py:92-93 | each TeX counter entry is the number of times that string was produced, and zero for strings without a backslash |
| Assembly.Writer.constructor | cldfbench_imtvault.py:107-108 | the writer starts with no language and no example rows |
| Assembly.Writer.AddLanguage | cldfbench_imtvault.py:126 | appends one language row, leaving the example rows alone |
| Assembly.Writer.AddExample | cldfbench_imtvault.py:157 | appends one example row, leaving the language rows alone |
| Assembly.FilterPair | cldfbench_imtvault.py:131-132 | the two `filtered` calls give the record's cleaned lists, and the counter after both is the tally of words, then glosses |
| Assembly.AddRecord | cldfbench_imtvault.py:125-165 | one loop iteration moves the writer, both counters and the seen set from a state to that state's `Step` |
| Assembly.MakeCldf | cldfbench_imtvault.py:118-165 | the writer receives exactly the language rows and example rows of the fold over all records, after the rows it already had, and the returned TeX counter is the fold's |
| TipaUnicode.BuildMapping | raw/233/tipa-unicode-conversion.py:3-11 | the table is the file's entries, a later entry for a key overriding an earlier one, with the three built-in entries written last |
| TipaUnicode.FromEntriesLast | raw/233/tipa-unicode-conversion.py:6-8 | a key is in the file's table exactly when some entry gives it, and its value is that of the last such entry |
| TipaUnicode.OverridesWin | raw/233/tipa-unicode-conversion.py:9-11 | space and `{}` map to the empty string and `\ ` to itself, whatever the file says; every other key keeps the file's value |
| TipaUnicode.ScanSnoc | raw/233/tipa-unicode-conversion.py:23 | scanning one more character is one more step |
| TipaUnicode.ScanAppend | raw/233/tipa-unicode-conversion.py:23-87 | scanning two strings in a row is scanning their concatenation |
| TipaUnicode.StripLeft | raw/233/tipa-unicode-conversion.py:16 | the result is a suffix of the input, everything removed is white space, and it does not start with white space |
| TipaUnicode.StripRight | raw/233/tipa-unicode-conversion.py:16 | the result is a prefix of the input, everything removed is white space, and it does not end with white space |
| TipaUnicode.StripIsSlice | raw/233/tipa-unicode-conversion.py:16 | the stripped line is a contiguous slice of the line with only white space removed around it, and it neither starts nor ends with white space |
| TipaUnicode.TranscodeLine | raw/233/tipa-unicode-conversion.py:16-88 | the character loop's output line is the scanner's output after the stripped line, and the messages it prints on the way are the scan's diagnostics |
| TipaUnicode.ReadChar | raw/233/tipa-unicode-conversion.py:24-87 | the loop body's update of the five loop variables for one character is exactly one scanner step, and it prints the error message exactly on an overflow |
| TipaUnicode.DiagnosticsAreErrors | raw/233/tipa-unicode-conversion.py:81-82 | every message printed while scanning is the error message about a chunk of 26 characters |
| TipaUnicode.DiagnosedIffOverflowed | raw/233/tipa-unicode-conversion.py:76-82 | a scan prints a message if and only if some step overflows the buffer |
| TipaUnicode.PlainTextQuiet | raw/233/tipa-unicode-conversion.py:24-29 | text without a backslash prints no message |
| TipaUnicode.TranscodeFile | raw/233/tipa-unicode-conversion.py:15-88 | everything printed is, line by line in file order, the line's error messages followed by its converted line |
| TipaUnicode.LinePrintoutEnds | raw/233/tipa-unicode-conversion.py:17-88 | each line's printed block ends with its converted line, and everything before that in the block is an error message |
| TipaUnicode.PrintoutQuiet | raw/233/tipa-unicode-conversion.py:15-88 | when no line overflows the buffer, the printed lines are exactly the converted lines, one per input line |
| TipaUnicode.MapLinesAt | raw/233/tipa-unicode-conversion.py:15 | mapping over the lines gives one result per line, the i-th being the conversion of the i-th line |
| TipaUnicode.PrintedLine | raw/233/tipa-unicode-conversion.py:15-88 | the file has one converted line per input line, and the i-th is the i-th line converted on its own |
| TipaUnicode.StepInv | raw/233/tipa-unicode-conversion.py:17-87 | every step keeps the invariant: a partial opener has exactly its prefix of `\ipa{` buffered; plain text has nothing pending; inside a group the raw text starts with `\ipa{`, the translation with `\UIPA{`, and the pending chunk is a suffix of the raw text of at most 25 characters |
| TipaUnicode.ScanInv | raw/233/tipa-unicode-conversion.py:17-87 | the invariant holds after any input |
| TipaUnicode.ChunkBounded | raw/233/tipa-unicode-conversion.py:81-87 | the pending buffer never holds more than 25 characters between steps |
| TipaUnicode.PlainTextPasses | raw/233/tipa-unicode-conversion.py:24-29 | text without a backslash is written out unchanged |
| TipaUnicode.PlainLine | raw/233/tipa-unicode-conversion.py:16-29 | a line without a backslash is printed as it is, once stripped, and nothing else is printed for it |
| TipaUnicode.OpenerPrefix | raw/233/tipa-unicode-conversion.py:24-56 | reading the first 1 to 4 characters of `\ipa{` reaches the matching partial-opener state with exactly that prefix buffered and nothing written |
| TipaUnicode.Opener | raw/233/tipa-unicode-conversion.py:57-61 | reading `\ipa{` opens a group with `\UIPA{` started and nothing written |
| TipaUnicode.Mismatched | raw/233/tipa-unicode-conversion.py:30-66 | a partial opener broken by a character writes the prefix and that character verbatim and returns to plain text, so that character is not scanned again, even when it is a backslash |
| TipaUnicode.ChunkPrefix | raw/233/tipa-unicode-conversion.py:67-80 | inside a group, the proper prefixes of a shortest key stay pending |
| TipaUnicode.ChunkTranslated | raw/233/tipa-unicode-conversion.py:67-80 | inside a group, a shortest key is translated and leaves nothing pending |
| TipaUnicode.ChunksTranslated | raw/233/tipa-unicode-conversion.py:67-80 | inside a group, a sequence of shortest keys appends their translations in order |
| TipaUnicode.OpenChunks | raw/233/tipa-unicode-conversion.py:57-80 | after `\ipa{` and shortest-key chunks the scanner is inside the group with the raw text buffered, the translations collected and nothing written |
| TipaUnicode.IpaGroup | raw/233/tipa-unicode-conversion.py:57-75 | `\ipa{` followed by shortest-key chunks and `}` is written as `\UIPA{`, the concatenated translations, `}` |
| TipaUnicode.BraceCloses | raw/233/tipa-unicode-conversion.py:69-80 | inside a group `}` closes it when nothing is pending; otherwise the group stays open, nothing is written, and `}` joins the pending chunk when that does not form a key |
| TipaUnicode.KeyFlushed | raw/233/tipa-unicode-conversion.py:76-80 | a character that completes a key flushes the buffer at once and appends that key's translation: the shortest key wins |
| TipaUnicode.Overflow | raw/233/tipa-unicode-conversion.py:81-87 | when a 25-character buffer grows without forming a key, the raw text since `\ipa{` is written verbatim, the partial translation is dropped, the scanner returns to plain text, and the error message naming the 26-character chunk is printed |
| TipaUnicode.OutputGrows | raw/233/tipa-unicode-conversion.py:17-87 | the written output only ever grows |
| TipaUnicode.UnfinishedOpenerDropped | raw/233/tipa-unicode-conversion.py:23-88 | an opener left unfinished at the end of a line is missing from the printed line |
| TipaUnicode.StepSilent | raw/233/tipa-unicode-conversion.py:23-87 | a step that leaves the scanner outside plain text writes nothing to the output line |
| TipaUnicode.ScanSilent | raw/233/tipa-unicode-conversion.py:23-87 | input during which the scanner never returns to plain text writes nothing |
| TipaUnicode.LastText | raw/233/tipa-unicode-conversion.py:23-87 | every scan from plain text has a last point at which the scanner was in plain text |
| TipaUnicode.PendingDropped | raw/233/tipa-unicode-conversion.py:23-88 | whatever state a line ends in, its output is what was written up to the last return to plain text, so a pending opener, group or chunk is missing from it |
| TipaUnicode.UnclosedGroupDropped | raw/233/tipa-unicode-conversion.py:23-88 | a group still open at the end of a line, with or without a pending chunk, is missing from the printed line, translation and all |
| TipaUnicode.UnclosedKeysDropped | raw/233/tipa-unicode-conversion.py:23-88 | a group of shortest keys left unclosed stays open to the end of the line and is missing from the printed line |

## Left out

- File and console I/O are not modelled. That covers the glob over the
  extracted-example files and the JSON loading, the reading of the TSV
  mapping file and of the input file named on the command line, and
  every `print` of the dataset builder. The records and the mapping
  entries are inputs. What the TIPA script prints (each line's overflow
  messages, then the converted line) is returned as a sequence of lines.
- The order of records is one flattened sequence, in the order the glob
  and the files give them. The glob's order itself is not modelled.
- The mapping file's line parsing (`strip().split("\t")`, which raises
  unless a line has exactly two fields) is not modelled. The entries are
  given as pairs.
- The validity checks of the interlinear-gloss library are foreign
  code. They are parameters, with the strict check's exception as the
  `Raised` outcome. Only their mapping to levels 0, 1 and 2 is modelled.
  The `IGT` object is represented by its joined phrase and gloss strings.
- The abbreviation list and the non-overt marker come from other
  packages. They are parameters (`Config`); the eight added abbreviations
  are not listed as constants.
- The writer's table declarations (`add_component`) and its schema are
  not modelled. Rows are appended to the `Writer` object's sequences.
- The `most_common(80)` printout of the TeX counter is not modelled, nor
  the print-only branch for empty cleaned tokens.
- The `raise ValueError` right after `continue` cannot be reached, so it
  has no counterpart.
- Python regular expressions in general are not modelled. Only the
  patterns `clean` uses are, each as a literal rule or a delimited class
  run.
- Case mapping (`upper`, `lower`, `capitalize`) is ASCII only.
- `str.strip` is modelled with the characters for which Python's
  `str.isspace` holds. Character properties are not modelled beyond that
  list.
- `bookID` is taken to be a non-negative JSON number, rendered in
  decimal.
- The TIPA script's line counter feeds only a commented-out print, so it
  is not modelled.
- TexCleanProps.CleanUpperAbbr, CleanLowerAbbr, CleanArgAbbr,
  CleanCapitalizedAbbr, CleanGlossSuffix, CleanEmptySet, CleanInlineEmpty
  and CleanRedp require a well-formed configuration. That means a
  non-empty abbreviation list, keys made of capitals, digits and `-`
  (as in the prefix key `N-`), and a non-overt marker without `{`, `\`
  or `$`. The proofs use this only to know that a key's three spellings
  hold no brace, backslash or dollar sign, and that lower-casing changes
  only letters. The glossing-rule list lives in another package and is
  not part of this model, so it is not shown to meet this. For a list
  that does not, the lemmas say nothing.
- TexClean.Clean with an empty abbreviation list does not follow
  Python. There an empty alternation makes the first four passes delete
  `{\}` and `\{}`, while the model's tables have no rules. The builder
  always adds eight keys, so the case does not arise.
- TexCleanProps.CleanHSpace and CleanEmphasis require an argument with a
  character that is not a capital letter. Without one, `{ABC}` inside
  the macro is unwrapped first by the capital-run pass. The condition is
  sufficient, not necessary.
- TexCleanProps.CleanRedp also requires that `redp` is not among the
  lower-case abbreviations. If it were, the earlier abbreviation pass
  would rewrite `\redp{}` first.
- TexCleanProps.CleanGloss and CleanCapitalRun state the cascade's
  result for the isolated token. Inside longer tokens, surrounding text
  can interact with the earlier passes.
- TipaUnicode.IpaGroup covers groups made of shortest keys, that is,
  keys no proper prefix of which is a key, not starting with `}` and at
  most 26 characters long. Other groups are described step by step by
  BraceCloses, KeyFlushed and Overflow.

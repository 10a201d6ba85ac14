# Ferricov: a verified model

Ferricov is a port of LCOV with a compatibility harness beside it. The port splits tracefiles
into lines, adds coverage counters of any precision as decimal text, keeps function tables
with two indexes coherent and merges coverage by an ordered algebra. The harness generates
tracefiles of any size and reads them back, runs the reference tool in a container and
retains evidence, predicts how ten command lines are parsed, merges and validates a behaviour
contract, splices a generated block into a status document, normalises output and validates
benchmark results. This project models the algorithms of both in Dafny and proves what they
keep, over all inputs, all runs and all outcomes of the outside world.

`dafny verify dfyconfig.toml` checks everything.

## How the model is laid out

| module | models |
|---|---|
| `Decimal`, `Tracefile`, `Profiles`, `Generator` | the tracefile writers, the streaming analyser and the closed forms claimed for them |
| `Normalizer` | the CRLF rewriter and its effect on the analyser |
| `LineSplitter` | the chunked line splitter of the tracefile parser |
| `DigitStrings`, `Lexemes`, `Numbers` | decimal arithmetic on text, against the numbers the text stands for; how every number is spelled |
| `Counters` | coverage counters: validation, coercion, addition and its bracketing |
| `Functions`, `Representatives`, `Ends`, `FunctionAlgebra` | the function table, the name and the end a group keeps, union, intersection and difference |
| `FunctionRecords`, `FunctionReader`, `ReaderSteps`, `FunctionText`, `RoundTrip`, `LegacyRecords` | function records: their fields, reading them from bytes line by line, writing a table as bytes, the check that reads it back, and the older records |
| `Branches`, `BranchAlgebra`, `BranchEdges`, `BranchBrackets` | branch blocks of a line, the algebra on them edge by edge, and unions of three lines |
| `Capture`, `CaptureCauses` | one resource capture: a file store, a container and two temporary directories against an arbitrary environment, and which outcome every environment leads to |
| `Resolver`, `Resolutions`, `ResolverLaws`, `Abbreviations` | the command-line resolver, what each token resolves to, and laws of its whole runs |
| `Contract`, `Merge`, `Skeletons` | behaviour fragments, their merge, and generated skeleton buckets |
| `Bindings`, `BindingRows`, `Coverage`, `Evidence` | plan bindings and what their rows hold, coverage totals and readiness gaps, product evidence |
| `Splice` | the activation block: rendering, splicing, checking |
| `Benchmarks` | sample grouping, sequence numbers and order statistics |
| `Ordering`, `Sequences`, `Text`, `Wrappers` | stable sorting, comprehensions and dictionaries in insertion order, framed lines, white space and ASCII case, `Option` and `Result` |

Loops that update variables are methods with invariants, each proved equal to a
specification function (`AnalyzeInput` to `Analysis`, `CaseResolutionSignature` to
`Signature`, `MergeFragments` to `Merged`, `RenderBlock` to `Rendered`, `CrlfToLf` to
`Erased`, `Splitter.Feed` to `Run`, `ReadSection` to `ReadBytes`); the laws are then lemmas about that function. The capture
protocol, the line splitter, the function table, the section being read and the output stream, whose state is updated
in place, are classes. What a specification function means is then said once more without it, in
terms of the raw input: texts, bytes, fields and outside events.

### Conventions

- A byte is the `char` with its code; strings and byte strings are both `seq<char>`.
- SHA-256 is never computed. Where the harness reports a digest the model reports the
  bytes digested, or takes the hash as an arbitrary function.
- Every call into Docker, the file system or the clock is a step of `Capture.Environment`,
  which decides whether the step raises, what a failed copy leaves behind and what a
  failed removal leaves in place. The contracts quantify over all environments. A removal
  of a directory tree that does not raise leaves nothing behind.
- Case folding is ASCII folding.
- JSON Schema acceptance is built into the datatypes.
- A Python exception or a Rust error is an `Err`, a `None` or a `false`, never a precondition.
- Ordered maps are maps; where the code walks one, the model takes its keys in any order, so
  that the results hold for the order the code uses.

### Where the code says more, or less, than its documentation

- Counter addition is documented as exact. It is not when a zero meets a number strictly
  between -1 and 0: `0` and `-0.5` add up to `9.5`. `Lexemes.SumExactIff` gives the exact
  condition; counters as the parser keeps them never meet it (`Counters.CoercedAddExactly`).
- Counter comparison takes zero for greater than every number strictly between 0 and 1
  (`Lexemes.CompareLexemesIff`, `Lexemes.ZeroAboveHalf`), so a count of `0.5` is not excessive
  above a threshold of `0`, and a count of `0` is above `0.5` (`Counters.ExcessiveIff`).
- Counter addition is not associative: two coerced zeros add up to a plain zero, which
  rewrites `1.0` to `1` (`Counters.CoercedZerosRewrite`). `Counters.PlusAssociatesIff` gives
  the exact condition; `FunctionAlgebra.KeptUnionAssociatesIff` and
  `BranchBrackets.KeptUnionAssociatesIff` carry it to unions of three tables and three branch
  lines. A third counter that is infinite adds up in one bracketing alone
  (`Counters.CoercedZerosRefuse`).
- A repeated group is documented to keep the greatest end. Ends that fit 128 bits are compared
  as numbers and the greatest is kept (`Ends.GreatestEnd`); longer ones are compared as text, in
  which `9` beats a five and 39 zeros, which beats `10` (`Ends.EndsInCircles`).
  `Ends.EndIsGreaterIff` tells when the comparison is numeric.
- A function table does not always survive being written and read: lines are trimmed, so an
  alias that ends in white space comes back changed (`RoundTrip.TrailingSpaceIsLost`), and an
  empty one is rejected (`RoundTrip.EmptyAliasIsRejected`). `FunctionText.RoundTripIff` gives
  the exact condition, which every table that was itself read meets
  (`FunctionReader.ReadIsWritable`); `RoundTrip.CleanIff` tells a rejected table from a changed
  one.
- In the older `FN` record an alias that begins with a number and a comma is taken for an end
  and a name where no end is given (`LegacyRecords.MistakenAlias`); otherwise the older records
  give the table that the newer ones give (`LegacyRecords.LegacyRoundTrip`).
- The union of two branch lines keeps the expressions of the left one, so it depends on the
  order of the operands exactly where partners differ in an expression
  (`BranchAlgebra.UnionSwapped`).
- The field axis is accepted exactly from target 16 on, because the source path is the
  longest other field; the other axes are accepted from target 0 on, not only from 1.
- `capture_profile` records the input's hash after the run but does not compare it
  (`Capture.AfterHashDecidesNothing`).
- A copy into `failures/` that is cut short can leave a file that differs from the
  measured one, although no manifest is then written. `Capture.KeptIdenticalIff` gives the
  exact condition and `Capture.FullDiskRun` a run that does it.
- The exit-mismatch branch of `capture_profile` is unreachable behind a pass-through
  container exactly when the child's return code fits an exit status.
- The splice of the activation block does not look at the order of the markers. With the
  end marker first it writes a document that the checker rejects.
- The two Getopt profiles also agree on operands without `+` that nothing follows and on
  unknown options that no spelling extends; `ResolverLaws.PosixRunIsDefaultRun` gives the
  exact condition.
- The bare token `--` has no meaning of its own to the resolver: it is an abbreviation
  that every spelling extends (`Abbreviations.BareDashes`).

## Model

| member | source | states |
|---|---|---|
| `Decimal.PrintInjective` | compat/resources/generate.py:58-84 | plain and zero-padded decimal printing are injective, because the printed number can be read back; distinct indices therefore give distinct keys and section paths |
| `Tracefile.AnalyzeInput` | compat/resources/generate.py:109-171 | the streaming loop computes the scan of the stream's non-empty logical records, with all counters, maxima and key sets, or raises the fault of the first bad record |
| `Tracefile.ScanMeaning` | compat/resources/generate.py:112-157 | for every record list: the analyser faults exactly at the first coverage record outside a section or MC/DC record without six fields; otherwise counts, maxima, open source and the four key sets are those of the whole list, where a record's source is that of the nearest boundary before it |
| `Tracefile.KeyFields` | compat/resources/generate.py:142-157 | line and function keys are the text before the first comma, branch keys the first three fields, MC/DC keys the first two of six fields and the last two |
| `Profiles.FramingRoundTrip` | compat/resources/generate.py:44-48 | reading framed records back gives exactly those records, for every list of non-empty records without line endings |
| `Profiles.ProfileGrows` | compat/resources/generate.py:51-85 | scanning a profile's records gives record, data-record and section counts and the four key sets in closed form, by induction over the size |
| `Generator.Emit` | compat/resources/generate.py:44-48 | a record is written with one line feed, or refused exactly when it contains a line ending, and then nothing is written |
| `Generator.WriteFieldProfile` | compat/resources/generate.py:51-55 | the stream gains exactly the framed field profile; no record is refused |
| `Generator.WriteRecordProfile` | compat/resources/generate.py:58-62 | the stream gains exactly the framed data-record profile, for every target |
| `Generator.WriteSectionProfile` | compat/resources/generate.py:65-69 | the stream gains exactly the framed section profile, for every target |
| `Generator.WriteCardinalityProfile` | compat/resources/generate.py:72-85 | the stream gains exactly the framed cardinality profile, family after family |
| `Generator.GeneratedShape` | compat/resources/generate.py:51-243 | for every axis and every target: analysing the written bytes never faults; the counts are 4, t+2, 3t and 6t+2 records with t distinct keys per family and one MC/DC key per t/f pair; the shape is accepted iff the target is at least 16 on the field axis and at least 0 elsewhere; an accepted shape agrees with the expected summary |
| `Generator.GenerateAndAnalyze` | compat/resources/generate.py:246-250 | the composed operation succeeds exactly for known axes from the least target on, with the closed form and the expected summary, and otherwise reports which drift |
| `Generator.SmallTargetDrift` | compat/resources/generate.py:228-237 | below the least target the axis's own drift check fires, not a later one |
| `Generator.DriftIs` | compat/resources/generate.py:224-243 | for a shape of any origin: which drift is reported, that of its own axis before that of sources and of lines, and when it is accepted |
| `Normalizer.CrlfToLf` | compat/oracle/src/normalizer.rs:60-73 | the two-byte-lookahead loop erases exactly the carriage returns that directly precede a line feed |
| `Normalizer.Normalize` | compat/oracle/src/normalizer.rs:53-58 | the exact normaliser is the identity, the CRLF one the erasure |
| `Normalizer.ErasedLength` | compat/oracle/src/normalizer.rs:60-73 | the output is shorter by exactly the number of CRLF pairs |
| `Normalizer.ErasedPositions` | compat/oracle/src/normalizer.rs:60-73 | every other byte is kept in order: it moves forward by the number of pairs before it |
| `Normalizer.ErasedPairs` | compat/oracle/src/normalizer.rs:60-73 | the output contains a CRLF iff the input contains CR CR LF |
| `Normalizer.IdempotentIff` | compat/oracle/src/normalizer.rs:60-73 | normalising twice equals normalising once iff the input is free of CR CR LF |
| `Normalizer.RecordsErased` | compat/resources/generate.py:123-130 | normalising keeps the analyser's record list iff the input is free of CR CR LF; otherwise the records lose bytes |
| `Normalizer.AnalysisErased` | compat/resources/generate.py:123-171 | on inputs free of CR CR LF the analysis of the normalised input is the same fault, or the same result but for byte count and digest |
| `LineSplitter.Splitter.constructor` | crates/tracefile/src/line.rs:123-126 | a new splitter holds nothing back |
| `LineSplitter.Splitter.Feed` | crates/tracefile/src/line.rs:138-199 | the loop with its one-byte lookahead and its deferred CR hands out the lines, and holds back the bytes, that byte-by-byte processing would |
| `LineSplitter.Splitter.Finish` | crates/tracefile/src/line.rs:202-219 | a waiting CR or an unterminated line is flushed, and nothing is held back afterwards |
| `LineSplitter.SplitChunks` | crates/tracefile/src/parser.rs:91-122 | however a stream is cut into chunks, its lines are those of the stream fed whole |
| `LineSplitter.SplitLossless` | crates/tracefile/src/line.rs:138-219 | writing every line back with its terminator restores the stream, byte for byte |
| `LineSplitter.SplitInvertsJoin` | crates/tracefile/src/line.rs:138-219 | a list of lines is what its joined bytes split into iff lines are free of line endings, only a nonempty last line lacks one, and no bare LF follows a lone CR |
| `LineSplitter.TrimTrailing` | crates/tracefile/src/line.rs:40-46 | exactly the white space at the end goes |
| `DigitStrings.AddDigitStrings` | crates/model/src/numeric.rs:660-682 | carry addition is exact for digit strings of any two lengths |
| `DigitStrings.SubDigitStrings` | crates/model/src/numeric.rs:684-714 | borrow subtraction is exact when the left number is not below the right one, and otherwise wraps at the length of the left string |
| `DigitStrings.CompareMeans` | crates/model/src/numeric.rs:716-722 | comparison by length and then bytes is numeric unless the longer string starts with a zero |
| `Lexemes.LooksLikeNumber` | crates/model/src/numeric.rs:401-460 | the one-pass scan accepts exactly sign, mantissa with a digit and at most one point, and exponent |
| `Numbers.SpelledIsRead` | crates/model/src/numeric.rs:401-602 | every sign, mantissa and exponent that the grammar allows is a number, and is taken apart into exactly these parts, unless its exponent needs more than 32 bits |
| `Numbers.NumberIsSpelled` | crates/model/src/numeric.rs:401-460 | every text that is taken for a number is spelled in this way |
| `Lexemes.NormalFormMeans` | crates/model/src/numeric.rs:531-602 | normalising a lexeme keeps the number it denotes, sign, fraction and exponent included |
| `Lexemes.FormatNormalized` | crates/model/src/numeric.rs:724-758 | placing the point and popping zeros gives the one shortest text of the number |
| `Lexemes.TextDenotes` | crates/model/src/numeric.rs:724-758 | that text reads back as exactly that number |
| `Lexemes.AddNormalized` | crates/model/src/numeric.rs:631-658 | sign and digits of a sum, by addition or by subtracting the string found smaller, including what comes out where that choice is wrong |
| `Lexemes.AddDecimalLexemes` | crates/model/src/numeric.rs:631-658 | two lexemes add up iff both are numbers with an exponent that fits, to the text of their total |
| `Lexemes.AddExactIff` | crates/model/src/numeric.rs:631-658 | on normal forms the total is the sum iff no zero meets a negative number with all its digits behind the point; otherwise it is positive |
| `Lexemes.SumExactIff` | crates/model/src/numeric.rs:631-658 | for lexemes denoting x and y at any common scale, the sum's text denotes x + y iff no zero meets a number strictly between -1 and 0, and then it is the canonical text |
| `Lexemes.ZeroPlusMinusHalf` | crates/model/src/numeric.rs:640-655 | adding `0` and `-0.5` gives `9.5` |
| `Lexemes.CompareExactIff` | crates/model/src/numeric.rs:604-621 | on normal forms the text comparison is numeric iff no zero meets a number strictly between 0 and 1 |
| `Lexemes.CompareLexemesIff` | crates/model/src/numeric.rs:604-621 | for lexemes denoting x and y at any common scale the comparison orders x and y iff no zero meets a number strictly between 0 and 1; otherwise zero comes out as the greater one |
| `Lexemes.ZeroAboveHalf` | crates/model/src/numeric.rs:604-621 | `0` compares greater than `0.5` |
| `Lexemes.AddAssociates` | crates/model/src/numeric.rs:631-658 | sums of lexemes without a minus are the same text however they are bracketed |
| `Counters.PlusCommutes` | crates/model/src/numeric.rs:340-367 | adding counters commutes, coerced zeros and failures included |
| `Counters.PlusCanonical` | crates/model/src/numeric.rs:340-367 | adding anything the parser accepts to a canonical counter gives a canonical counter |
| `Counters.PlusAssociatesIff` | crates/model/src/numeric.rs:340-367 | for counters as the parser keeps them both bracketings of three give the same counter or both fail, iff no two neighbouring coerced zeros meet a counter that is not canonical |
| `Counters.CoercedZerosRewrite` | crates/model/src/numeric.rs:340-367 | two coerced zeros and `1.0`: one bracketing gives `1`, the other `1.0` |
| `Counters.CoercedZerosRefuse` | crates/model/src/numeric.rs:340-367 | two coerced zeros and an infinity: one bracketing adds up, the other is refused |
| `Counters.ExcessiveIff` | crates/model/src/numeric.rs:245-275 | a kept count is found excessive iff it is above the threshold, except that a fraction below one is never above zero and zero is above every threshold between zero and one |
| `Numbers.CoercedIff` | crates/model/src/numeric.rs:229-289 | a fresh count keeps its text, and is coerced to zero iff it denotes a number below zero, or is no number and none of the seven spellings of infinities and NaN, in any case |
| `Numbers.SpecialsRefuse` | crates/model/src/numeric.rs:340-367 | what is kept but is no number adds up with nothing but a coerced zero |
| `Numbers.PositiveIff` | crates/model/src/numeric.rs:291-320 | a kept count is positive iff it stands for a number above zero |
| `Counters.CoercedAddExactly` | crates/model/src/numeric.rs:279-367 | counters as the parser keeps them, those coerced to zero included, stand for numbers that are not negative and add up exactly; the sum is kept again, and without a coerced zero it is canonical text |
| `Functions.BestUnique` | crates/model/src/function.rs:183-211 | the preferred alias, shortest with a penalty for lambdas and then in byte order, is unique: a representative depends only on the aliases |
| `Representatives.RepresentativeIff` | crates/model/src/function.rs:183-230 | a group is valid iff its representative is one of its aliases, none is shorter, a thousand added for lambda names, and none of the same length comes before it byte by byte |
| `Representatives.LambdaLast` | crates/model/src/function.rs:213-230 | a name of at most a thousand characters that is no lambda is never passed over for a lambda |
| `Functions.BestOf` | crates/model/src/function.rs:183-199 | the scan after a removal finds the preferred survivor |
| `Functions.AddAlias` | crates/model/src/function.rs:145-158 | the counts add or the alias is new, the representative stays the preferred one; it fails iff the count does not add up |
| `Functions.Table.InsertAliasAt` | crates/model/src/function.rs:399-441 | accepted iff the alias starts nowhere else and its count adds up; both indexes stay coherent and a refusal changes nothing |
| `Functions.Table.EnsureGroup` | crates/model/src/function.rs:343-391 | refused iff the alias starts elsewhere; otherwise the group exists, a greater end wins by the comparison of the source and a new alias counts zero |
| `Ends.GreatestEnd` | crates/model/src/function.rs:613-629 | of any list of ends that fit 128 bits the numerically greatest is kept, whatever the order and the white space around them, and none exactly when there is none |
| `Ends.EndIsGreaterIff` | crates/model/src/function.rs:613-629 | for numerals the comparison is numeric iff both fit, they are equally long, or the longer one also comes later as text |
| `Ends.FitsMeans` | crates/model/src/function.rs:625-628 | the numbers that fit are those up to the greatest of 128 bits |
| `Ends.EndsInCircles` | crates/model/src/function.rs:613-629 | three numerals each greater than the next in a circle, and two orders of them that keep different ends |
| `Functions.Table.RemoveAlias` | crates/model/src/function.rs:471-479 | exactly that alias goes, and the group with its last one; coherence and the representative survive |
| `Functions.Table.RemoveGroup` | crates/model/src/function.rs:483-489 | the group and all its index entries go, nothing else |
| `Functions.Table.InsertGroup` | crates/model/src/function.rs:500-523 | replaces the group at its start, or is refused iff an alias belongs elsewhere, and then the old group is gone |
| `FunctionAlgebra.AddAliases` | crates/model/src/algebra.rs:158-162 | the aliases of a common start are all added, or refused iff one starts elsewhere or does not add up |
| `FunctionAlgebra.Union` | crates/model/src/algebra.rs:156-170 | succeeds iff common aliases start at the same lines and common counts add up; the result is the union group by group with the left ranges; the indexes are coherent even on failure |
| `FunctionAlgebra.Intersect` | crates/model/src/algebra.rs:175-225 | succeeds iff common counts add up; keeps exactly the common aliases of common starts with added counts |
| `FunctionAlgebra.Difference` | crates/model/src/algebra.rs:228-243 | removes exactly the aliases the right table has at the same start |
| `FunctionAlgebra.UnionDetermined` | crates/model/src/algebra.rs:156-170 | aliases and ranges determine the united table, representatives included |
| `FunctionAlgebra.UnionCommutesIff` | crates/model/src/algebra.rs:156-170 | swapping the operands of a union gives the same table iff the ends of common groups are the same |
| `FunctionAlgebra.UnionSucceedsAlike` | crates/model/src/algebra.rs:156-170 | a union fails in one order iff it fails in the other |
| `FunctionAlgebra.UnionAssociatesIff` | crates/model/src/algebra.rs:156-170 | the two bracketings of a union of three tables are the same table, ranges and representatives included, iff the counts of every alias that all three share at a start add up alike in both |
| `FunctionAlgebra.KeptUnionAssociatesIff` | crates/model/src/algebra.rs:156-170 | with counters as the parser keeps them, they are the same iff no two neighbouring coerced zeros meet a counter that is not canonical |
| `FunctionAlgebra.BracketingsSucceedAlike` | crates/model/src/algebra.rs:156-170 | for any three coherent tables whose shared counts add up in both bracketings or in neither: both unions of one bracketing succeed iff both of the other do |
| `FunctionAlgebra.UnitedIsUnion` | crates/model/src/algebra.rs:156-170 | whenever a union can succeed there is a coherent table that it gives |
| `FunctionAlgebra.IntersectionOrDifference` | crates/model/src/algebra.rs:175-243 | intersection and difference divide the left aliases between them |
| `FunctionAlgebra.DifferenceIsDisjoint` | crates/model/src/algebra.rs:228-243 | what a difference leaves intersects the right table in nothing |
| `FunctionRecords.RereadIff` | crates/tracefile/src/writer.rs:288-294 | a count survives writing and reading iff its text is canonical |
| `FunctionRecords.RereadCanonical` | crates/tracefile/src/records.rs:561-574 | every count the parser accepts is kept in canonical form, so it survives from then on |
| `FunctionRecords.FnlParses` | crates/tracefile/src/records.rs:491-525 | a written `FNL` payload without stray commas parses iff its lines are numbers, and then into its index, start and end |
| `FunctionRecords.FnaParses` | crates/tracefile/src/records.rs:527-555 | a written `FNA` payload parses iff its alias is not empty, and then into its index, count and alias, commas in the alias included |
| `FunctionRecords.FnWithEnd` | crates/tracefile/src/records.rs:384-420 | a written `FN` payload with an end parses iff its start is a number, and then into its start, its end and its name |
| `FunctionRecords.FnWithoutEnd` | crates/tracefile/src/records.rs:384-420 | one without an end parses into its start and its name, unless the name begins with a number and a comma, which is taken for an end |
| `FunctionRecords.FndaParses` | crates/tracefile/src/records.rs:445-468 | a written `FNDA` payload parses iff its name is not empty, and then into its count and its name |
| `FunctionRecords.FnlIsWritten` | crates/tracefile/src/records.rs:491-514 | whatever parses as `FNL` is an index, a start and perhaps an end, all numbers, and nothing else |
| `FunctionRecords.FnaIsWritten` | crates/tracefile/src/records.rs:527-548 | whatever parses as `FNA` is an index, a count and an alias that is not empty |
| `FunctionRecords.OlderAreWritten` | crates/tracefile/src/records.rs:384-468 | whatever parses as `FN` or `FNDA` is written from what it parses into |
| `FunctionRecords.CountTextIs` | crates/tracefile/src/writer.rs:288-294 | a count is written as its text, and as `0` once it was coerced, which is read back as zero |
| `FunctionRecords.SpaceAround` | crates/model/src/numeric.rs:79-127 | white space around a count token does not change what it is read as |
| `FunctionReader.Section.constructor` | crates/tracefile/src/parser.rs:36-40 | a section starts without functions, without indexes and without diagnostics |
| `FunctionReader.Section.ApplyFnl` | crates/tracefile/src/records.rs:491-525 | a well-formed record with a new index is remembered; a malformed one is diagnosed and a repeated index stops the section |
| `FunctionReader.Section.ApplyFna` | crates/tracefile/src/records.rs:527-576 | the group of a known index gains the alias and then its count; every refusal is diagnosed, and the table is what the ensured and then inserted alias makes it |
| `FunctionReader.Section.ApplyFn` | crates/tracefile/src/records.rs:384-443 | the group and its alias are ensured or the conflict is diagnosed; lines that are not positive are diagnosed |
| `FunctionReader.Section.ApplyFnda` | crates/tracefile/src/records.rs:445-489 | the count is added to an alias that is already known; an unknown one is diagnosed |
| `FunctionReader.Section.ApplyLine` | crates/tracefile/src/classify.rs:167-336 | a line is told by its tag and applied; after a section boundary nothing touches the table; all other lines may be diagnosed or stop the parser, depending on everything of their kind so far |
| `FunctionReader.ReadSection` | crates/tracefile/src/parser.rs:91-163 | splitting, trimming, classifying and applying chunk by chunk reads what reading the whole stream line by line does, with coherent indexes |
| `ReaderSteps.TagsMean` | crates/tracefile/src/classify.rs:167-336 | which tags begin function records, which are ignored, and which end the section |
| `ReaderSteps.FnlRecord` | crates/tracefile/src/records.rs:491-525 | an `FNL` line is remembered iff its lines are numbers and its index is new; a repeated index stops the section, anything else is diagnosed |
| `ReaderSteps.FnaRecord` | crates/tracefile/src/records.rs:527-576 | an `FNA` line gives its alias the sum of the count it had, or zero, and the new one, in the group of its index alone; an unknown index stops the section, an empty or conflicting alias is diagnosed and changes nothing, a count that does not add up is diagnosed and leaves the old one |
| `ReaderSteps.FnRecord` | crates/tracefile/src/records.rs:384-443 | an `FN` line ensures its name at its start with its end, or is diagnosed if the name starts elsewhere; zero lines are diagnosed but kept |
| `ReaderSteps.FndaRecord` | crates/tracefile/src/records.rs:445-489 | an `FNDA` line adds its count to a known name at its start; an unknown or empty name, or a count that does not add up, is diagnosed and changes nothing |
| `ReaderSteps.OtherLine` | crates/tracefile/src/records.rs:79-130 | any other line, and every line after the section, leaves the table alone |
| `FunctionReader.LineStepSound` | crates/tracefile/src/records.rs:384-576 | every line, whatever it holds, keeps the indexes coherent and every group writable |
| `FunctionReader.ReadIsWritable` | crates/tracefile/src/parser.rs:117-138 | from any bytes at all the reader builds a coherent table that the format can carry again |
| `FunctionText.WriteFunctions` | crates/tracefile/src/writer.rs:214-241 | one `FNL` line per group in the order given, each followed by its aliases in byte order as `FNA` lines, then `FNF` and `FNH` with the number of groups and of hit groups |
| `Numbers.SummaryCounts` | crates/tracefile/src/writer.rs:239-240 | `FNF` tells the number of groups, `FNH` the number of groups with a count that stands for a number above zero |
| `FunctionText.LinesComeBack` | crates/tracefile/src/line.rs:138-219 | lines without line endings are split back from their bytes as they were |
| `FunctionText.RoundTripIff` | crates/tracefile/src/snapshot.rs:357-398 | for every coherent table and order of its groups the written bytes are read back into the same table, representatives included, iff all lines are numbers, no alias is empty, holds a line ending or ends in white space, and all counts are canonical; then nothing is diagnosed |
| `FunctionText.ListingDetermined` | crates/tracefile/src/writer.rs:214-241 | the lines written for a table depend on the table and the order of its groups alone |
| `RoundTrip.CleanIff` | crates/tracefile/src/snapshot.rs:367-381 | for every table without line endings, and without commas in numbers, and every order of its groups: the written bytes are read without a diagnostic iff, after trimming, all lines are numbers, no alias is empty, no two aliases of different starts are the same, and every count can be added to zero |
| `RoundTrip.ValidateRoundTrip` | crates/tracefile/src/snapshot.rs:357-398 | the check accepts a table iff every group is writable; it rejects the reparse iff reading the written bytes is diagnosed, for plain tables iff the table is not acceptable; otherwise it reports a semantic mismatch; the second writing never differs from the first |
| `RoundTrip.EmptyAliasIsRejected` | crates/tracefile/src/snapshot.rs:367-381 | an empty alias is diagnosed when it is read back |
| `RoundTrip.TrailingSpaceIsLost` | crates/tracefile/src/snapshot.rs:357-398 | an alias `f` followed by a space is read back without a diagnostic, as another table |
| `LegacyRecords.LegacyRoundTrip` | crates/tracefile/src/records.rs:384-489 | a writable table in which no alias without an end begins like one is read from its `FN` and `FNDA` lines into the very table that its `FNL` and `FNA` lines give; the older form is clean iff all lines are above zero |
| `LegacyRecords.MistakenAlias` | crates/tracefile/src/records.rs:403-412 | without an end, an alias `2,f` is read as the end 2 and the alias `f` |
| `Branches.MergeBlock` | crates/model/src/algebra.rs:426-445 | taken states merge edge by edge and exclusion sticks; it fails iff two counts do not add up |
| `Branches.RenumberedFacts` | crates/model/src/algebra.rs:472-477 | renumbering makes any line valid and changes only positions where the blocks are valid |
| `Branches.FindNth` | crates/model/src/algebra.rs:455-470 | finds the block with exactly n earlier occurrences of its signature, iff there are more than n |
| `Branches.PairedOnce` | crates/model/src/algebra.rs:447-470 | a block has at most one partner |
| `Branches.MatchedIff` | crates/model/src/algebra.rs:447-470 | a block has a partner iff the other line has more occurrences than precede it |
| `BranchAlgebra.UnionLine` | crates/model/src/algebra.rs:356-386 | the flags and loops give the left blocks merged with their partners and then the unmatched right ones; it fails iff some pair does not add up |
| `BranchAlgebra.IntersectLine` | crates/model/src/algebra.rs:388-405 | exactly the matched left blocks, merged, in order |
| `BranchAlgebra.DifferenceLine` | crates/model/src/algebra.rs:407-424 | marking from the right side keeps exactly the unmatched left blocks |
| `BranchAlgebra.ResultsValid` | crates/model/src/branch_store.rs:361-383 | every result satisfies the line invariant, so the check after each operation passes |
| `BranchAlgebra.Multiplicities` | crates/model/src/algebra.rs:356-424 | a signature occurs in union, intersection and difference as often as the maximum, the minimum and the excess of its occurrences |
| `BranchAlgebra.BlocksConserved` | crates/model/src/algebra.rs:356-424 | intersection and difference divide the left blocks; union and intersection together have as many blocks as both lines; the size of a union is symmetric |
| `BranchAlgebra.NthOfUnion` | crates/model/src/algebra.rs:356-386 | the n-th occurrence of a signature in a union is the merge of the n-th occurrences on both sides, or that of the one side that has so many |
| `BranchEdges.UnionEdges` | crates/model/src/algebra.rs:356-445 | edge by edge, an occurrence in a union is excluded iff it is on either side that has it, evaluated iff it is on either side, counted with the sum of the counts, and keeps the left expression; one that only one side has is unchanged |
| `BranchEdges.IntersectionEdges` | crates/model/src/algebra.rs:388-445 | an occurrence is in the intersection iff both lines have it, merged in the same way |
| `BranchEdges.DifferenceEdges` | crates/model/src/algebra.rs:407-424 | the difference skips as many occurrences as the right line has and keeps the others as they are |
| `BranchAlgebra.UnionSwapped` | crates/model/src/algebra.rs:356-445 | swapped operands unite to partners with the same taken states, kinds and exclusions, always; they unite to the same blocks up to order iff partners of the operands have the same expressions |
| `BranchBrackets.SameOrder` | crates/model/src/algebra.rs:356-386 | both bracketings of a union of three lines have the same signatures in the same order |
| `BranchBrackets.UnionAssociatesIff` | crates/model/src/algebra.rs:356-445 | they are the same line, edges included, iff the counters of three partners add up alike in both, edge by edge |
| `BranchBrackets.BracketingsSucceedAlike` | crates/model/src/algebra.rs:356-445 | where the counters of three partners add up in both bracketings or in neither, both unions of one bracketing succeed iff both of the other do |
| `BranchBrackets.KeptUnionAssociatesIff` | crates/model/src/algebra.rs:356-445 | with counters as the parser keeps them, the bracketings are the same line iff no two neighbouring coerced zeros meet a counter that is not canonical |
| `BranchAlgebra.MergeTakenCommutes` | crates/model/src/branch.rs:68-76 | merging taken states commutes, never-evaluated ones included |
| `Capture.Measure` | compat/benchmarks/measure.py:44-85 | a return code, a signal or a failed start gives the metrics and the status that the capture side expects for those metrics |
| `Capture.PassThroughAgrees` | compat/benchmarks/measure.py:49-85 | the measured outcome is always valid to the capture side, and its expected status survives truncation to an exit status iff the child's return code is at most 255 |
| `Capture.MismatchUnreachable` | compat/resources/capture.py:320-334 | behind a pass-through container an operation ends in an exit mismatch iff it gets that far and the return code is above 255 |
| `Capture.SampleMeansMatched` | compat/resources/capture.py:296-356 | a run without an error to report matched its contract in input, exit, signal and both stream hashes and cleaned up; a run that matched can only have been stopped by an exception |
| `CaptureCauses.RunCauses` | compat/resources/capture.py:243-295 | for every environment: input drift, the deadline, a missing wrapper and polluted streams are each the reported class iff the steps before raise nothing and that very thing happened |
| `CaptureCauses.MeasurementCauses` | compat/resources/capture.py:296-330 | missing artifacts, invalid metrics and an invalid outcome are each reported iff the run got that far and that very thing is wrong |
| `CaptureCauses.ExitCauses` | compat/resources/capture.py:320-348 | exit mismatch, signal and nonzero exit are each reported iff the metrics say so and the status of the container does not follow, or does |
| `CaptureCauses.StreamCauses` | compat/resources/capture.py:349-356 | stdout is reported iff everything before passed and its hash is not the expected one; stderr iff stdout passed too and its own hash is not |
| `CaptureCauses.RaisedCauses` | compat/resources/capture.py:243-404 | any other exception is the reported cause iff the step that raises it is reached, or a sample of an earlier run is in the way |
| `CaptureCauses.CleanupCauses` | compat/resources/capture.py:413-479 | a cleanup is the cause iff the operation finished: the container first, then the directories; a run reports nothing iff it finished and everything is gone |
| `CaptureCauses.CleanupErrorsAre` | compat/resources/capture.py:405-467 | the recorded cleanup errors are those of container, work and evidence directory, each with its own message, in this order |
| `CaptureCauses.ContainerMessages` | compat/resources/capture.py:110-127 | what is reported of a container that is not confirmed to be gone |
| `CaptureCauses.StreamsAre` | compat/resources/capture.py:270-295 | the streams kept are those of the container run, and empty if there are none |
| `CaptureCauses.RetentionFailsIff` | compat/resources/capture.py:173-208 | retention fails iff its directory cannot be made or some file to keep cannot be written or described |
| `CaptureCauses.ReachedIff` | compat/resources/capture.py:190-198 | the measured files are kept in the order metrics, stdout, stderr, up to the first that fails |
| `CaptureCauses.DraftIs` | compat/resources/capture.py:358-402 | a sample records the exit code the metrics tell, the status of the container and the hashes of the three measured files |
| `Capture.KeptIdenticalIff` | compat/resources/capture.py:173-208 | after a retention, every kept measured file is byte-identical to the measured one iff no measured file that retention reached was cut short to other bytes |
| `Capture.FullDiskRun` | compat/resources/capture.py:173-548 | a whole run past its deadline whose output is copied onto a full disk: it reports the deadline, leaves an empty copy of a measured file that is not empty, and writes no manifest |
| `Capture.AfterHashDecidesNothing` | compat/resources/capture.py:352-402 | whatever the input hashes to after the run, the reported cause is the same |
| `Capture.LateCause` | compat/resources/capture.py:413-479 | finding the cause in two phases, before and after the temporary directories go, gives the operation's own error or else the first cleanup error; a late cause is never the container |
| `Capture.Run.constructor` | compat/resources/capture.py:224-239 | a run starts with both temporary directories present, no container and nothing retained |
| `Capture.Run.Copy` | compat/resources/capture.py:370-372 | a copy leaves its source's bytes at the destination, or what it had written when it raised |
| `Capture.Run.RunContainer` | compat/resources/capture.py:270-276 | the container run changes the evidence directory alone, to whatever the environment wrote, and may leave a container, whether or not it raises |
| `Capture.Run.KeepSample` | compat/resources/capture.py:358-402 | the sample is copied byte for byte and its record is complete, or the first exception in order ends the operation |
| `Capture.Run.Operate` | compat/resources/capture.py:243-404 | the `try` block ends with the first failure in the order the checks are made, telling unreadable metrics from an exception that nobody expects while reading them; it leaves the measured files in the evidence directory and a sample exactly when nothing failed |
| `Capture.Run.CheckAndKeep` | compat/resources/capture.py:322-402 | the outcome, exit, signal and stream checks on parsed metrics, in order, and then the sample |
| `Capture.Run.CleanupContainer` | compat/resources/capture.py:110-127 | removal is confirmed by a listing; success means no container is left |
| `Capture.Run.KeepRole` | compat/resources/capture.py:190-198 | one measured file is kept if it is regular, and no other path changes |
| `Capture.Run.KeepBytes` | compat/resources/capture.py:186-206 | one file is written whole, or as far as the write got |
| `Capture.Run.KeepRoles` | compat/resources/capture.py:190-198 | exactly the measured files up to and including the first that cannot be written or described are kept, each with the bytes written |
| `Capture.Run.KeepStreams` | compat/resources/capture.py:200-207 | the two Docker streams are kept without touching the measured files |
| `Capture.Run.RetainFailure` | compat/resources/capture.py:173-208 | evidence is complete and byte-identical, or retention raised, which it does iff some step of it fails or the directory exists; in either case exactly the measured files that it reached are kept; nothing outside the failure directory changes |
| `Capture.Run.Retain` | compat/resources/capture.py:431-454 | retention happens once and its exception becomes a recorded error |
| `Capture.Run.RemoveDirectories` | compat/resources/capture.py:459-467 | both directories are attempted, the second even if the first fails, and each failure is recorded in order |
| `Capture.Run.KeepThenRemove` | compat/resources/capture.py:456-467 | whatever retention does, both removals are attempted, and removing the evidence directory leaves sample and kept files as they were |
| `Capture.Run.OperateAndClean` | compat/resources/capture.py:243-474 | the run up to directory removal reports the operation's error or else the container's, and has attempted all three cleanups |
| `Capture.Run.WriteFailureManifest` | compat/resources/capture.py:514-524 | the manifest is written, or the exception is reported and there is none |
| `Capture.Run.CaptureProfile` | compat/resources/capture.py:219-548 | for every environment: all three cleanups are attempted once and in order; the reported cause is the first operation error or else the first cleanup error; a sample is returned iff there is none, with nothing remaining and byte-identical copies; evidence is retained at most once, exactly when there is an input; the manifest exists iff retention and its own write succeed, over complete evidence, and records the final cleanup state; the kept files are those retention reached, byte-identical iff none of them was cut short |
| `Resolver.CaseResolutionSignature` | compat/cases/m0-cli-contract.py:160-348 | the token loop with its four mutable flags computes the signature defined from the state before each argument |
| `Resolutions.GetoptAlias` | compat/cases/m0-cli-contract.py:269-284 | in both Getopt profiles a token that is an alias up to case, and neither a value, nor behind an operand that ended the options, nor a POSIX `+` operand, is that alias |
| `Resolutions.GetoptToken` | compat/cases/m0-cli-contract.py:285-345 | a token that is no alias is its exact spelling; otherwise unknown under POSIX, and in the default profile unknown, unique, exact-only or ambiguous by the number of spellings it begins, with all their targets in byte order; a one-dash token names the targets of its letters iff every letter is an alias |
| `Resolutions.ArgparseToken` | compat/cases/m0-cli-contract.py:226-267 | for argparse an option is its alias as written, a spelling or the beginning of spellings after two dashes, and a cluster after one dash iff every letter is an alias, with their targets in order |
| `Resolutions.OtherTokens` | compat/cases/m0-cli-contract.py:199-237 | values, tokens behind a stop, operands, `+` tokens and commands without a parser |
| `Resolutions.SpellingFound` | compat/cases/m0-cli-contract.py:147-157 | a spelling is found iff a declared option has it, without its dashes, and then that option is the target |
| `Resolutions.FoldedSpellingFound` | compat/cases/m0-cli-contract.py:300-308 | up to case, a spelling is found iff a declared option has it |
| `Resolutions.FoldingMeans` | compat/cases/m0-cli-contract.py:273-300 | two texts fold to the same iff they are equal letter by letter up to case |
| `Resolutions.ValueOptionMeans` | compat/cases/m0-cli-contract.py:183-196 | the next argument is a value iff the record is a single one of three options, found exactly, by alias or by a prefix |
| `ResolverLaws.RecordsFollowArguments` | compat/cases/m0-cli-contract.py:183-208 | one record per argument in order; a record is an option value iff the record before it resolved to a single value-taking option, of that option; the missing-value mark is on the last record iff it resolved to such an option |
| `ResolverLaws.ValuesAreOpaque` | compat/cases/m0-cli-contract.py:199-208 | replacing an option value by any string changes that record's token and nothing else in the run |
| `ResolverLaws.CaseInsensitive` | compat/cases/m0-cli-contract.py:269-345 | for Getopt families in either profile, argument lists equal up to ASCII case give signatures equal but for the token text |
| `ResolverLaws.OptionsPrecedeOperands` | compat/cases/m0-cli-contract.py:209-224 | under POSIX a record is unparsed iff an earlier record is positional (Guideline 9 in section 12.2 of POSIX.1-2017, XBD) |
| `ResolverLaws.AtMostOnePositional` | compat/cases/m0-cli-contract.py:209-224 | under POSIX everything after a positional is unparsed, so there is at most one |
| `ResolverLaws.PosixRunIsDefaultRun` | compat/cases/m0-cli-contract.py:269-345 | both profiles give the identical signature iff no POSIX record is unparsed, a `+` operand, or an unknown option that some spelling extends; in particular without unknowns and positionals |
| `ResolverLaws.DeletingPositional` | compat/cases/m0-cli-contract.py:215-224 | in the default profile of a Getopt family, deleting a positional removes its own record and changes no other, the missing-value mark included |
| `ResolverLaws.ProfileFree` | compat/cases/m0-cli-contract.py:212-267 | argparse and parserless commands have the same signature in both profiles |
| `ResolverLaws.RejectedExactlyAfterBoundary` | compat/cases/m0-cli-contract.py:215-231 | for argparse a record is rejected iff its token is a plain operand, not a value, and an option-shaped token after a positional comes before it |
| `Abbreviations.LongOption` | compat/cases/m0-cli-contract.py:238-255 | in the default profile a `--` token resolves by the spellings alone: exact, one target, ambiguous with the sorted targets, or unknown |
| `Abbreviations.UniqueAbbreviation` | compat/cases/m0-cli-contract.py:285-345 | a `--` token that is no exact spelling resolves to one target iff exactly one spelling extends it, and then to that spelling's target |
| `Abbreviations.AbbreviationMonotone` | compat/cases/m0-cli-contract.py:285-345 | lengthening a unique abbreviation towards its spelling never changes the target, up to and including the exact spelling |
| `Abbreviations.BareDashes` | compat/cases/m0-cli-contract.py:238-345 | without an empty spelling the token `--` resolves to the only spelling there is, is ambiguous between all of several, or is unknown where there is none |
| `Abbreviations.OptionOrderIrrelevant` | compat/cases/m0-cli-contract.py:147-157 | with distinct folded names, reordering the inventory's options changes no signature, for every family and profile |
| `Merge.MergeFragments` | compat/behavior/generate.py:613-631 | the extend-and-sort loops compute the merge function, with its three rejections in order, the first names the field whose ids repeat |
| `Merge.MergeOrderIrrelevant` | compat/behavior/generate.py:613-631 | every ordering of the fragments gives the same contract or the same rejection |
| `Merge.MergeConserves` | compat/behavior/generate.py:289-294 | an accepted merge holds exactly the multiset of the fragments' items, each registry strictly sorted by id, all ids distinct |
| `Merge.MergedOutcome` | compat/behavior/generate.py:613-631 | each rejection is reported iff it is the first of the checks to fail, on the ids the fragments hold |
| `Merge.RegistriesHold` | compat/behavior/generate.py:613-631 | each registry of an accepted merge holds exactly what the fragments hold there, and no id is in two of them |
| `Skeletons.PublicDomains` | compat/behavior/generate.py:319-343 | every public item belongs to a domain that buckets are made for |
| `Skeletons.PublicItemsMean` | compat/behavior/generate.py:319-343 | which entries of the inventory are public items |
| `Skeletons.SkeletonMeans` | compat/behavior/generate.py:346-404 | what a skeleton case says: its entry as the one primary target, its surface by the kind of entry, its sources in order, no plan and no evidence |
| `Skeletons.BucketMeans` | compat/behavior/generate.py:433-444 | the domain of an entry, dots turned into dashes, and its hash modulo eight |
| `Skeletons.BucketHolds` | compat/behavior/generate.py:465-472 | a bucket gets the skeletons of exactly those public entries of its domain and number that no authored case covers |
| `Skeletons.BucketsMean` | compat/behavior/generate.py:455-475 | there is a bucket for each domain and number, in order |
| `Skeletons.FragmentsMean` | compat/behavior/generate.py:407-485 | ids and registries of the generated fragments |
| `Skeletons.BucketExists` | compat/behavior/generate.py:433-470 | every bucket lookup finds its key, whatever the hash |
| `Skeletons.GeneratedFragments` | compat/behavior/generate.py:446-485 | each bucket's fragment holds that bucket's needed skeletons, sorted; over all fragments no skeleton is lost or repeated; no two fragments share an id |
| `Skeletons.EmitBuckets` | compat/behavior/generate.py:473-485 | one fragment per bucket conserves the bucketed cases, with distinct ids |
| `Skeletons.EveryEntryOnce` | compat/behavior/generate.py:361-371 | in every accepted merge each public inventory entry has exactly one case with its acceptance id, authored or generated |
| `Skeletons.Build` | compat/behavior/generate.py:689-700 | the whole build is the merge of authored and generated fragments; if it is accepted, every public entry has exactly one acceptance case |
| `Bindings.BuildPlanBindings` | compat/behavior/generate.py:149-235 | the generator's document is that of the validator's row functions, sorted by id; it fails iff a bound case has no boundary form or a bound group plans an unknown case |
| `BindingRows.BuildableIff` | compat/behavior/generate.py:149-216 | the document can be built iff every case with a plan has a boundary form and every critical reviewed group plans known cases |
| `BindingRows.DocumentMeans` | compat/behavior/generate.py:149-235 | it has exactly the rows of reviewed, applicable, substantive cases that are no interactions, and of critical reviewed groups, in order of id |
| `BindingRows.PrimaryRowMeans` | compat/behavior/generate.py:160-190 | what a plan row holds: the ids of the primary targets and no others, sources and suite cases in order, and the case's own groups, tests, form and hashed description |
| `BindingRows.InteractionRowMeans` | compat/behavior/generate.py:192-228 | what an interaction row holds: members, sources and planned cases, and one context for each planned case with that case's targets in order |
| `Bindings.ReverseChecks` | compat/behavior/validate.py:203-267 | the validator's loops pass iff no case and no group drifts from its row, a group that plans an unknown case being one that drifts |
| `BindingRows.CaseDriftMeans` | compat/behavior/validate.py:203-240 | a case drifts for want of a row or a form, or by its fields against the last row with its id; one without a plan never does |
| `BindingRows.GroupDriftMeans` | compat/behavior/validate.py:242-267 | the same for groups, whose planned cases have to be known |
| `BindingRows.PrimaryDriftIs` | compat/behavior/validate.py:210-240 | which drift of a plan is reported: that of the first field that differs |
| `BindingRows.InteractionDriftIs` | compat/behavior/validate.py:248-267 | the same for an interaction |
| `Bindings.CasesAgree` | compat/behavior/validate.py:92-119 | against the generated document no case check drifts iff bound cases that share an id share their row |
| `Bindings.GroupsAgree` | compat/behavior/validate.py:122-152 | against the generated document no group check drifts iff bound groups plan known cases only and those that share an id share their row |
| `Bindings.UniqueIdsNeverDrift` | compat/behavior/validate.py:197-267 | with unique ids none of the later drift checks can fail once the document equals the generated one |
| `Coverage.CoverageLoop` | compat/behavior/validate.py:945-975 | the accumulating loop accepts iff every case has a primary target and substance, reports the first that has not, and computes the generator's two set comprehensions |
| `Coverage.CoveredIff` | compat/behavior/validate.py:945-975 | an entry counts as covered, or as reviewed, iff it is public and a case, or one with a plan, has it among its primary targets |
| `Coverage.FlawsMean` | compat/behavior/validate.py:945-975 | when a case is rejected |
| `Coverage.DomainsMean` | compat/behavior/validate.py:1075-1088 | the four required domains, and when one counts as reviewed |
| `Coverage.Gaps` | compat/behavior/validate.py:1075-1088 | the gap list holds exactly the uncovered entries in order of id and then the required domains without a reviewed critical group, as many as the totals say |
| `Coverage.ValidateCoverage` | compat/behavior/validate.py:1072-1095 | accepted iff every case is sound, every public entry has a primary case and the claimed totals are the comprehensions'; then gaps = uncovered + required - reviewed domains, and reviewed + uncovered = public |
| `Evidence.ValidateSuiteReferences` | compat/behavior/validate.py:548-573 | accepted iff the references are sorted without repetition and each names a compatibility suite case of the same surface with all required dimensions |
| `Evidence.ReferenceMeans` | compat/behavior/validate.py:555-573 | when a reference is good |
| `Evidence.ResultBoundMeans` | compat/behavior/validate.py:576-620 | when a result bears out an outcome: the same invocation, one comparison for each dimension of the suite case with its normaliser, and passed everywhere, or failed somewhere |
| `Evidence.ItemMeans` | compat/behavior/validate.py:731-758 | when an item of evidence stands |
| `Evidence.OrdersMean` | compat/behavior/validate.py:553-733 | what references and evidence are sorted by |
| `Evidence.ValidateResultBinding` | compat/behavior/validate.py:576-620 | accepted iff the result has the suite case's invocation, its dimensions once each, its normalisers, and comparisons that bear out the claimed outcome |
| `Evidence.ValidateEvidence` | compat/behavior/validate.py:723-766 | accepted iff the evidence is sorted without repetition, every item is valid and the evidence status follows from the outcomes |
| `Evidence.PassMeansCompared` | compat/behavior/validate.py:548-766 | a case accepted as passing has at least one result, and every one of its results is between different executables, passed every comparison and compared every dimension of the case with the suite's normaliser |
| `Splice.CountOneIff` | compat/verify.py:219-222 | for a marker that cannot overlap itself, counting one is occurring at exactly one place, the one that the search finds |
| `Splice.RenderBlock` | compat/verify.py:139-174 | the list of lines built step by step and joined is the begin marker, every body line with its line feed, and the end marker |
| `Splice.LinesSay` | compat/verify.py:153-173 | the lines of tasks, exclusions, requirements and budgets, character for character |
| `Splice.SectionsSay` | compat/verify.py:139-174 | the sections of the block in order, each behind its heading |
| `Splice.OccurrencesInSpliced` | compat/status/generate_m1_activation_block.py:19-23 | with fields free of markers, a marker occurs in a spliced text only at the ends of the new block or in the text around it |
| `Splice.SplicedMeans` | compat/status/generate_m1_activation_block.py:19-23 | what a missing marker raises; otherwise the text from the first begin marker to the end of the first end marker is replaced |
| `Splice.SplicedUnique` | compat/status/generate_m1_activation_block.py:19-23 | splicing a text with one begin marker before one end marker leaves each marker exactly once, at the ends of the block |
| `Splice.SplicedTwice` | compat/status/generate_m1_activation_block.py:19-23 | with the end marker first the spliced text is rejected, because the begin marker then occurs twice |
| `Splice.SpliceTheorem` | compat/verify.py:219-226 | for every text with each marker once: the spliced text passes the checker iff the begin marker came first; then the surrounding text is unchanged and a second splice is a no-op |
| `Benchmarks.DistributionMeans` | compat/benchmarks/validate.py:198-204 | for any non-empty samples the reported median is a sample value with at least half of the values, rounded up, on each side, and the extremes are least and greatest |
| `Benchmarks.DistributionPermutes` | compat/benchmarks/validate.py:198-204 | the statistics do not depend on sample order |
| `Benchmarks.SummaryMeans` | compat/benchmarks/validate.py:207-220 | a summary exists iff the output is stable, and describes each measured quantity of these very samples |
| `Benchmarks.ReportedMeans` | compat/benchmarks/validate.py:292-315 | when a case is reported correctly |
| `Benchmarks.ContiguousIff` | compat/benchmarks/validate.py:289-290 | the sequence test accepts exactly the permutations of 0..n-1 |
| `Benchmarks.GroupSamples` | compat/benchmarks/validate.py:241-287 | the loop accepts iff sample ids are unique and every sample is known and identified, and groups exactly each case's samples in order |
| `Benchmarks.GroupingConserves` | compat/benchmarks/validate.py:241-287 | grouping by distinct case ids counts every known sample exactly once |
| `Benchmarks.ValidateResult` | compat/benchmarks/validate.py:223-315 | accepted iff samples are unique, known and contiguous, the reported cases are the suite's, and every case reports its own counts and recomputed summary |
| `Benchmarks.AcceptedResult` | compat/benchmarks/validate.py:292-315 | in an accepted result the raw samples total the planned warm-up and measured runs over all cases, and each reported median is one of its case's measured values with half on either side |

## Left out

- Docker, git, subprocess, hashing and directory walking: in the capture model they are outcomes of steps; their own behaviour is not modelled.
- `capture`, the driver over all profiles, and the creation of the temporary directories: a loop over independent captures.
- The fields of samples and of `failure.json` that only echo the profile, the command line or the metrics.
- JSON Schema validation and canonical JSON text: library behaviour.
- `expected_stdout` and its percentage formatting: floating-point text.
- `planning_boundary_form`: an arbitrary partial function of the case, because its regular expressions only classify text.
- Case folding beyond ASCII in the resolver, where Python's `lower` can change the length of a string.
- `build_family_equivalence` and the covered-command parts of the command-line contract: comparisons of fixed tables.
- Evidence.ValidateEvidence: path safety and the artifact hashes of a result are one predicate.
- Coverage.ValidateCoverage: the per-status counters in the totals and the per-case checks that do not touch coverage (sources, imports, interaction reciprocity) are not modelled.
- Benchmarks.GroupSamples: the hash and identity comparisons of a sample with its suite, manifest, tool and fixture are one arbitrary predicate.
- Merge.MergeFragments: the constant header of the contract is not modelled; `Coverage` models its totals.
- The `m0_*` suites and their tables, the manifest and correctness validators, the inventory pins, probes and prose checks of `compat/verify.py`: constants, I/O and text search.
- Lexemes.LooksLikeNumber: lexemes come without white space around them, as the reader hands them over; white space beyond ASCII is not modelled, and lengths and scales do not overflow 32 bits.
- Ends.GreatestEnd: ends that are not valid UTF-8 are not modelled.
- FunctionAlgebra.Union: which of several errors is reported first is not stated, because the order of the groups is left open.
- FunctionText.WriteFunctions: the numeric order of the groups is left open; every result about it holds for any order.
- FunctionReader.ReadSection: one section, entered after its `SF`; whether other records and the sections after it are diagnosed is arbitrary, and what they hold is not modelled.
- BranchAlgebra.UnionLine: a failed merge returns no line, where the code leaves a partly merged one behind its error.
- The maps of lines over the branch algebra, line counts and MC/DC vectors, and the store wrappers over all four families: key-wise lifts.
- The parser's bindings between sections and the records of the other families: field splitting of the same kind.
- `crates/ops`, `crates/report`, `crates/cli`: module headers only.

# Android log file retracer — a Dafny model of its core

The retracer de-obfuscates Android log files in place. It is given a ProGuard
mapping file and a log path (a file or a directory tree), and it:

- **selects the logs.** These are regular files named `log_*.txt`, found by walking
  directories child by child. One retrace job is queued per selected file.
- **builds the class table.** For each file it reads the mapping into an
  obfuscated-to-original class table, through a `Processor` that MappingReader
  calls back.
- **rewrites each file line by line:**
  - Lines carrying `E AndroidRuntime:` are not written. The text after that
    prefix is collected into a pending exception block.
  - The first line without the prefix flushes the block. The flush writes a
    banner `App crashed on <date> <time>...` when a `FATAL EXCEPTION` line has
    been seen, then the block as ProGuard's ReTrace de-obfuscates it.
  - Every line without the prefix is then written with two substitutions. The
    first changes the object reference `[name@id]`; the second changes the
    class name in the logcat tag. Each replaces the obfuscated name with the
    simple name of its original class.

The model is split into these modules:

| file | module | what it holds |
|---|---|---|
| `wrappers.dfy` | `Wrappers` | `Option` |
| `text.dfy` | `Text` | the Kotlin string operations used: `indexOf`, `contains`, `lastIndexOf`, `split` on one character, `joinToString`, `split(".").last()`, `split(" ").take(2).joinToString(" ")` |
| `patterns.dfy` | `Patterns` | the fragment of `java.util.regex` the two patterns need. `IsTrace` is what it means for a pattern to match; `Greedy` is a scanner that never backtracks; `Find` returns the leftmost match |
| `line_rewriter.dfy` | `LineRewriter` | the object-reference and log-tag patterns and the two substitutions |
| `mapping.dfy` | `Mapping` | the `Processor` class with its `classNameMap` field, and the table that a sequence of mapping records produces |
| `file_retracer.dfy` | `FileRetracer` | the line loop of `retraceFile`, as a `while` loop proved against the line-by-line specification `Retraced` |
| `jobs.dfy` | `RetraceJobs` | the directory walk `getRetraceJobs`, which appends to a mutable job list |

Things the model takes as parameters:

- **ReTrace.** The ProGuard ReTrace run over a block is the function parameter
  `resolve`. It takes the block's lines, which the source writes to a temporary
  file. It returns the lines ReTrace writes back.
- **The mapping file** comes in as the sequence of records that MappingReader
  would hand to the processor.
- **The log file** comes in as its lines. The output is the sequence of lines
  written over it.

Where the specification of the system and the code disagree, the model follows
the code:

- **No flush at end of file.** The specification flushes a block that is still
  pending at end of file. The code does not (see "## Findings").
- **Banner date and time.** The specification takes the banner's date and time
  as the first two whitespace-delimited tokens. The code splits on single
  spaces and keeps the first two pieces, which can be empty. `FirstTwoFields`
  models the code.
- **Idempotence.** The specification states that a second run changes nothing.
  The code does not guarantee this; see "## Left out".

## Model

| member | source | states |
|---|---|---|
| `Text.IndexOfFrom` | src/jvmMain/kotlin/Retrace.kt:107 | `indexOf` returns the first occurrence at or after the start, or none exactly when no occurrence exists |
| `Text.ContainsIff` | src/jvmMain/kotlin/Retrace.kt:103 | `contains` holds exactly when the pattern occurs at some index |
| `Text.ContainsPrefixOf` | src/jvmMain/kotlin/Retrace.kt:103-108 | a line containing a string also contains every prefix of it |
| `Text.LastIndexOfIsLast` | src/jvmMain/kotlin/Retrace.kt:64 | `lastIndexOf` finds an occurrence with none after it, and finds nothing exactly when the character is absent |
| `Text.LastIndexOfAt` | src/jvmMain/kotlin/Retrace.kt:64 | any occurrence with none after it is the one `lastIndexOf` returns |
| `Text.FirstIndexOf` | src/jvmMain/kotlin/Retrace.kt:138 | the first delimiter has none before it, and none is found exactly when it is absent |
| `Text.JoinSplit` | src/jvmMain/kotlin/Retrace.kt:137-140 | joining the pieces of `split(d)` with `d` gives back the original string |
| `Text.SplitPiecesFree` | src/jvmMain/kotlin/Retrace.kt:161 | no piece of a split contains the delimiter |
| `Text.LastSegmentIsTail` | src/jvmMain/kotlin/Retrace.kt:161-162 | `split(".").last()` is the dot-free tail of the name after its final dot, or the whole name when it has no dot |
| `Text.FirstTwoFieldsIsPrefix` | src/jvmMain/kotlin/Retrace.kt:137-140 | the banner's date and time form a prefix of the FATAL line that splits into at most two space-separated pieces. It ends just before the line's second space, or, when the line has no second space, it is the whole line |
| `Patterns.RunEnd` | src/jvmMain/kotlin/Retrace.kt:85-86 | a greedy repetition takes the longest run of class characters and stops at the first other character |
| `Patterns.Greedy` | src/jvmMain/kotlin/Retrace.kt:85-86 | what the scanner returns is a match of the pattern |
| `Patterns.FindFrom` | src/jvmMain/kotlin/Retrace.kt:157 | `Regex.find` returns the scanner's match at the leftmost start where the scanner succeeds |
| `Patterns.GreedyAgrees` | src/jvmMain/kotlin/Retrace.kt:157 | in a deterministic pattern, wherever some match starts, the scanner succeeds there and places every item where that match does |
| `Patterns.FindIsLeftmost` | src/jvmMain/kotlin/Retrace.kt:170 | `find` fails exactly when there is no match; otherwise no match starts earlier, and every match at the same start has the same groups |
| `LineRewriter.ObjRefDeterministic` | src/jvmMain/kotlin/Retrace.kt:86 | the object-reference pattern never backtracks, so its capture group is unique |
| `LineRewriter.LogTagDeterministic` | src/jvmMain/kotlin/Retrace.kt:84-85 | the log-tag pattern never backtracks, so its last capture group is unique |
| `LineRewriter.SubstituteAt` | src/jvmMain/kotlin/Retrace.kt:157-167 | given the leftmost match, only the captured span changes, and only when its name is in the class map |
| `LineRewriter.SubstituteNoMatch` | src/jvmMain/kotlin/Retrace.kt:163-167 | a line with no match is left as it is |
| `LineRewriter.ObjRefShape` | src/jvmMain/kotlin/Retrace.kt:86 | every object-reference match is `[`, a non-empty name, `@`, an id and `]` |
| `LineRewriter.ObjRefNoMatch` | src/jvmMain/kotlin/Retrace.kt:163-167 | a line without an object reference is not changed by the first substitution |
| `LineRewriter.ObjRefRewrite` | src/jvmMain/kotlin/Retrace.kt:157-167 | at the leftmost `[name@id]`, a mapped name becomes the simple name of its original class with everything around it kept, and an unmapped name changes nothing |
| `LineRewriter.LogTagShape` | src/jvmMain/kotlin/Retrace.kt:84-85 | in every log-tag match the captured class name is non-empty and followed by `:` |
| `LineRewriter.LogTagNoMatch` | src/jvmMain/kotlin/Retrace.kt:176-180 | a line that is not a logcat line is written as it is |
| `LineRewriter.LogTagRewrite` | src/jvmMain/kotlin/Retrace.kt:170-180 | at the leftmost logcat match, a mapped tag class becomes the simple name of its original class with the rest of the line kept, and an unmapped one changes nothing |
| `LineRewriter.PlainLineUnchanged` | src/jvmMain/kotlin/Retrace.kt:155-180 | a line with neither `[` nor `:` passes through both substitutions unchanged |
| `LineRewriter.RewriteNotIdempotent` | src/jvmMain/kotlin/Retrace.kt:157-167 | retracing is not idempotent: with `a -> x.b` and `b -> y.c`, `[a@1]` is written as `[b@1]`, and a second run rewrites that to `[c@1]` |
| `LineRewriter.ObjRefLineExample` | src/jvmMain/kotlin/Retrace.kt:156-180 | the whole line written for `[a.b.c@1a2b3c]` with `com.example.Foo -> a.b.c` is `[Foo@1a2b3c]`: the log-tag step leaves it alone |
| `LineRewriter.LogTagLineExample` | src/jvmMain/kotlin/Retrace.kt:157-180 | the whole line written for `01-01 00:00:00.000 123 456 E a.b.c:42` is `01-01 00:00:00.000 123 456 E Foo:42`: the object-reference step leaves it alone |
| `LineRewriter.NoColonNoLogTag` | src/jvmMain/kotlin/Retrace.kt:170-180 | a line without `:` is never a logcat line and passes the log-tag step unchanged |
| `LineRewriter.FooIsSimpleName` | src/jvmMain/kotlin/Retrace.kt:161-162 | the simple name of `com.example.Foo` is `Foo` |
| `LineRewriter.ObjRefExample` | src/jvmMain/kotlin/Retrace.kt:156-167 | with `com.example.Foo -> a.b.c`, `[a.b.c@1a2b3c]` becomes `[Foo@1a2b3c]` |
| `LineRewriter.LogTagExample` | src/jvmMain/kotlin/Retrace.kt:169-180 | with the same table, `01-01 00:00:00.000 123 456 E a.b.c:42` becomes `01-01 00:00:00.000 123 456 E Foo:42` |
| `Mapping.LastWriteWins` | src/jvmMain/kotlin/Retrace.kt:11-16 | a name is in the class table exactly when some class record with both names present defines it, and it then maps to the last such record's original name |
| `Mapping.Processor.constructor` | src/jvmMain/kotlin/Retrace.kt:9-10 | a new processor starts with an empty class table |
| `Mapping.Processor.ProcessClassMapping` | src/jvmMain/kotlin/Retrace.kt:11-16 | stores `obfuscated -> original` when both names are present and otherwise changes nothing; always returns true |
| `Mapping.Pump` | src/jvmMain/kotlin/Retrace.kt:81 | after the pump, the processor's table is its old table with every record applied in file order |
| `Mapping.LoadClassMap` | src/jvmMain/kotlin/Retrace.kt:80-81 | the table a fresh processor holds after the pump is `ClassMapOf(records)` |
| `FileRetracer.FatalLineIsExceptionLine` | src/jvmMain/kotlin/Retrace.kt:103-111 | a FATAL line also carries the exception prefix, so it is accumulated into the block and not written |
| `FileRetracer.LastFatal` | src/jvmMain/kotlin/Retrace.kt:103-105 | the most recent FATAL line lies before the current position |
| `FileRetracer.LastFatalIsLatest` | src/jvmMain/kotlin/Retrace.kt:103-105 | the most recent FATAL line has none after it, and when there is none no line so far is a FATAL line; the index is never reset |
| `FileRetracer.FatalIndex` | src/jvmMain/kotlin/Retrace.kt:90-105 | `lastFatalExceptionLineIndex` is -1 or the index of a line already read |
| `FileRetracer.BannerRule` | src/jvmMain/kotlin/Retrace.kt:136-142 | the line that ends a block is never a FATAL line. A non-empty block is preceded by a banner exactly when some FATAL line came earlier, and the banner is taken from the most recent one |
| `FileRetracer.FlushBlock` | src/jvmMain/kotlin/Retrace.kt:113-151 | for an empty block nothing is written. Otherwise the banner for the most recent FATAL line, if any, is written, then the block as ReTrace resolves it |
| `FileRetracer.ProcessLine` | src/jvmMain/kotlin/Retrace.kt:100-182 | one pass of the loop body keeps the loop state: output so far, pending block and FATAL index match the specification for one more line |
| `FileRetracer.RetraceLines` | src/jvmMain/kotlin/Retrace.kt:95-183 | after the loop, the output is `Retraced` over the whole file, the block is the one still pending, and the index is the last FATAL line |
| `FileRetracer.RetraceFile` | src/jvmMain/kotlin/Retrace.kt:78-186 | the lines written are exactly `Retraced`: each exception line writes nothing; each other line writes the flush of the block before it, then itself rewritten |
| `FileRetracer.RetracedResolvesOnlyBlocks` | src/jvmMain/kotlin/Retrace.kt:113-146 | the output depends on ReTrace only through the blocks listed in `Blocks`: two resolvers that agree on those blocks write the same lines |
| `FileRetracer.TrailingExceptionLinesWriteNothing` | src/jvmMain/kotlin/Retrace.kt:99-183 | exception lines at the end of the file write nothing: the output is the output of the lines before them |
| `FileRetracer.TrailingBlockNeverResolved` | src/jvmMain/kotlin/Retrace.kt:99-183 | exception lines at the end of the file hand no block to ReTrace |
| `FileRetracer.BlocksAndPending` | src/jvmMain/kotlin/Retrace.kt:97-183 | every payload read is either in a block already handed to ReTrace, in order, or in the block still pending |
| `FileRetracer.TrailingBlockLost` | src/jvmMain/kotlin/Retrace.kt:97-186 | a log consisting of `E AndroidRuntime: boom` writes nothing: its payload is read but never handed to ReTrace |
| `FileRetracer.FlushedBlocksKeepEveryPayload` | src/jvmMain/kotlin/Retrace.kt:97-186 | with a final flush, every payload of the file reaches ReTrace exactly once and in order |
| `FileRetracer.FlushedResolvesOnlyBlocks` | src/jvmMain/kotlin/Retrace.kt:97-186 | with the final flush, the output depends on ReTrace only through the blocks of `FlushedBlocks` |
| `FileRetracer.TrailingBlockFlushed` | src/jvmMain/kotlin/Retrace.kt:97-186 | with a final flush, the one-line log above writes the block as ReTrace resolves it |
| `FileRetracer.RetraceFileFlushed` | src/jvmMain/kotlin/Retrace.kt:78-186 | the loop followed by one more flush writes `RetracedFlushed` |
| `RetraceJobs.EligibleIffLogTxt` | src/jvmMain/kotlin/Retrace.kt:63-64 | `startsWith("log_") && extension == "txt"` holds exactly when the name starts with `log_` and ends with `.txt` |
| `RetraceJobs.TempFilesAreEligible` | src/jvmMain/kotlin/Retrace.kt:64-126 | the two temporary files a flush creates beside an eligible log are themselves eligible logs |
| `RetraceJobs.EligibleWithTxtSuffix` | src/jvmMain/kotlin/Retrace.kt:64 | an eligible name followed by any suffix ending in `.txt` is eligible |
| `RetraceJobs.TxtExtensionEndsWith` | src/jvmMain/kotlin/Retrace.kt:64 | a name whose extension is `txt` ends in `.txt` |
| `RetraceJobs.EndsWithTxtExtension` | src/jvmMain/kotlin/Retrace.kt:64 | a name ending in `.txt` has extension `txt` |
| `RetraceJobs.JobsUnder` | src/jvmMain/kotlin/Retrace.kt:61-76 | every job's file lies under the path it was found from |
| `RetraceJobs.JobsAreSelectedFiles` | src/jvmMain/kotlin/Retrace.kt:61-76 | a path has a job if and only if it leads to an eligible regular file of the tree |
| `RetraceJobs.ChildJobSelected` | src/jvmMain/kotlin/Retrace.kt:69-74 | among a directory's first `k` children, a path has a job exactly when it goes through the directory into an eligible file of one of those children |
| `RetraceJobs.JobList.constructor` | src/jvmMain/kotlin/Retrace.kt:50 | the job list starts empty |
| `RetraceJobs.GetRetraceJobs` | src/jvmMain/kotlin/Retrace.kt:61-76 | appends `Jobs(at, logFile)` to the list and keeps what was already there: an eligible regular file adds one job, a directory its children's jobs in listing order, and anything else adds nothing |
| `RetraceJobs.GetDirectoryJobs` | src/jvmMain/kotlin/Retrace.kt:69-74 | the loop over a directory's children appends their jobs in listing order |
| `RetraceJobs.CollectJobs` | src/jvmMain/kotlin/Retrace.kt:50-51 | the jobs collected for the log path are `Jobs([], logFile)` |

## Left out

- Running the jobs (Retrace.kt:52-54), the coroutine dispatchers and
  `awaitAll` are not modelled. The model produces the job list, and models
  each job by `RetraceFile` over its own log. Jobs are recorded by the path of
  their file rather than as closures.
  - Each job builds its own `Processor` from the mapping file
    (Retrace.kt:80-81), so the jobs share no class table.
  - The jobs can share files, though. A flush creates
    `<log>_retrace_obfuscated_temp.txt` and `<log>_retrace_deobfuscated_temp.txt`
    beside the log (Retrace.kt:117, 126), and deletes them only when ReTrace
    returns (Retrace.kt:149-150, with no `finally`). Both names pass the
    eligibility test of Retrace.kt:64 (`TempFilesAreEligible`). So a later run
    over a directory holding leftover temporary files queues them as logs,
    while the job for `<log>` writes and deletes the same paths. The model
    does not capture that interference.
- Console `println` output is left out, because it does not affect any file.
- File I/O is left out:
  - reading the log (`readLines`) and writing it back through `printWriter`,
    which truncates the file being retraced;
  - the two temporary files of each flush, and deleting them.
  The lines read are a parameter, the lines written a result, and the
  temporary files are the argument and result of `resolve`.
- The parsing inside ProGuard's MappingReader is left out. It is foreign code;
  the model starts from the records it would deliver.
- The inside of ProGuard's ReTrace is left out, together with the
  `stackTraceRegEx` with its `%c`/`%m`/`%s`/`%l` placeholders that only ReTrace
  interprets. It is foreign code, represented by the parameter `resolve`.
- Exceptions are left out; the model has no failure path for them:
  - A directory whose `listFiles()` returns null makes Retrace.kt:71 throw,
    because the null array is dereferenced there. That happens while the job list is
    still being built (called from Retrace.kt:51), so no job runs and the
    whole `retrace` call fails.
  - An I/O failure, or ReTrace throwing, inside a running job fails that job.
    `awaitAll` (Retrace.kt:52-54) then cancels the sibling jobs and `retrace`
    fails. A failure while reading the mapping (Retrace.kt:81) or the log
    (Retrace.kt:92) leaves the log untouched. A failure after
    `printWriter` (Retrace.kt:94) has truncated the log loses the part not yet
    written.
- A directory symbolic-link cycle is modelled only as its unrolled walk.
  `isDirectory` and `listFiles` follow links, so `getRetraceJobs`
  (Retrace.kt:73) walks round the cycle. The walk stops when path resolution
  gives up on too many links: there `isFile` and `isDirectory` are both false.
  An `Entry` tree with repeated subtrees represents that walk, and `Jobs` then
  holds one job per unrolling for the same log. What is left out is the
  effect: those jobs rewrite one file concurrently.
- Mapping.Processor.ProcessFieldMapping and Mapping.Processor.ProcessMethodMapping
  have empty bodies in the source. Their models do nothing and state nothing.
  MappingRecord keeps only the fields the model needs, not the types or line
  numbers.
- Characters are Dafny `char`s, not UTF-16 code units. The regex character
  classes are the ASCII ones java.util.regex uses by default.
- The idempotence property (a second run changes nothing) is not stated,
  because the source does not guarantee it. When the simple name of an
  original class is itself an obfuscated name, a second run rewrites the line
  again; `RewriteNotIdempotent` proves this for `a -> x.b`, `b -> y.c`.
- The `Patterns` engine covers only items of the forms the two patterns use:
  one character class, possibly repeated with `+` or `*`. `\d{2}` is written
  as two single items. The outer group and `.` are plain items.

## Findings

| source | as written | input that shows it | evidently intended | confidence | as-written member | corrected member |
|---|---|---|---|---|---|---|
| src/jvmMain/kotlin/Retrace.kt:97-186 | the pending exception block is flushed only when a line without `E AndroidRuntime:` follows it; after the loop nothing flushes it. Because the file is rewritten in place, a stack trace at the end of the log is erased from the file without being resolved | a log whose only (or last) line is `E AndroidRuntime: boom` | flush the pending block once more after the loop, so every payload reaches ReTrace exactly once | not executed | `FileRetracer.TrailingBlockLost` | `FileRetracer.RetraceFileFlushed` |

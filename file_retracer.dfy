/**
 * The line loop of `retraceFile` (Retrace.kt:78-186). Lines that contain the
 * exception prefix `E AndroidRuntime:` are not written out; the text after
 * the prefix is collected into a pending block. The first line without the
 * prefix flushes the block: a crash banner when a `FATAL EXCEPTION` line has
 * been seen, then the block as ProGuard's ReTrace resolves it. Every line
 * without the prefix is then rewritten (object reference, then log tag) and
 * written out. A block still pending when the file ends is not flushed.
 *
 * `Retraced` states the output line by line of input: what input line `i`
 * contributes depends on the run of exception lines just before it and on the
 * last FATAL line up to it. `RetraceFile` is the loop itself, proved to
 * produce `Retraced`.
 */
module FileRetracer {
  import opened Wrappers
  import opened Text
  import opened LineRewriter
  import opened Mapping

  const ExceptionPrefix: string := "E AndroidRuntime:"
  const FatalMarker: string := "E AndroidRuntime: FATAL EXCEPTION: "

  /** A line of an exception block (Retrace.kt:107-108). */
  predicate IsExceptionLine(line: string)
  {
    Contains(line, ExceptionPrefix)
  }

  /** A line that starts a crash (Retrace.kt:103). */
  predicate IsFatalLine(line: string)
  {
    Contains(line, FatalMarker)
  }

  /** The text after the first occurrence of the exception prefix (Retrace.kt:109). */
  function Payload(line: string): string
    requires IsExceptionLine(line)
  {
    line[IndexOf(line, ExceptionPrefix).value + |ExceptionPrefix|..]
  }

  /** The FATAL line carries the exception prefix too, so it goes into the block. */
  lemma FatalLineIsExceptionLine(line: string)
    requires IsFatalLine(line)
    ensures IsExceptionLine(line)
  {
    assert FatalMarker[..|ExceptionPrefix|] == ExceptionPrefix;
    ContainsPrefixOf(line, FatalMarker, ExceptionPrefix);
  }

  /**
   * The block pending when line `i` is reached: the payloads of the run of
   * exception lines just before it, in order.
   */
  function PendingBlock(lines: seq<string>, i: nat): seq<string>
    requires i <= |lines|
  {
    if i == 0 || !IsExceptionLine(lines[i - 1]) then []
    else PendingBlock(lines, i - 1) + [Payload(lines[i - 1])]
  }

  /** The most recent FATAL line among `lines[..i]`. */
  function LastFatal(lines: seq<string>, i: nat): (r: Option<nat>)
    requires i <= |lines|
    ensures r.Some? ==> r.value < i
  {
    if i == 0 then None
    else if IsFatalLine(lines[i - 1]) then Some(i - 1)
    else LastFatal(lines, i - 1)
  }

  /**
   * `LastFatal` is a FATAL line with none after it, and there is none at all
   * when it is None.
   */
  lemma {:induction false} LastFatalIsLatest(lines: seq<string>, i: nat)
    requires i <= |lines|
    ensures LastFatal(lines, i).Some? ==> IsFatalLine(lines[LastFatal(lines, i).value])
    ensures LastFatal(lines, i).Some? ==> forall k :: LastFatal(lines, i).value < k < i ==> !IsFatalLine(lines[k])
    ensures LastFatal(lines, i).None? ==> forall k :: 0 <= k < i ==> !IsFatalLine(lines[k])
  {
    if i > 0 && !IsFatalLine(lines[i - 1]) {
      LastFatalIsLatest(lines, i - 1);
    }
  }

  /** `lastFatalExceptionLineIndex` after `lines[..i]`: the most recent FATAL line, or -1 (Retrace.kt:92, 103-105). */
  function FatalIndex(lines: seq<string>, i: nat): (k: int)
    requires i <= |lines|
    ensures -1 <= k < i
  {
    match LastFatal(lines, i)
      case None => -1
      case Some(k) => k
  }

  /** `App crashed on <date> <time>...` (Retrace.kt:137-141). */
  function Banner(fatalLine: string): string
  {
    "App crashed on " + FirstTwoFields(fatalLine) + "..."
  }

  /**
   * What a flush writes for `block`: nothing for an empty block, else the
   * banner taken from the most recent FATAL line when there is one, then the
   * block as ReTrace resolves it.
   */
  function FlushOutput(block: seq<string>, fatalLine: Option<string>, resolve: seq<string> -> seq<string>): seq<string>
  {
    if block == [] then []
    else
      match fatalLine
        case None => resolve(block)
        case Some(line) => [Banner(line)] + resolve(block)
  }

  /** The most recent FATAL line among `lines[..i]` itself. */
  function FatalLine(lines: seq<string>, i: nat): Option<string>
    requires i <= |lines|
  {
    match LastFatal(lines, i)
      case None => None
      case Some(k) => Some(lines[k])
  }

  /** What the flush at line `i` writes: the pending block and the FATAL line up to and including `i`. */
  function Flush(lines: seq<string>, i: nat, resolve: seq<string> -> seq<string>): seq<string>
    requires i < |lines|
  {
    FlushOutput(PendingBlock(lines, i), FatalLine(lines, i + 1), resolve)
  }

  /** What input line `i` contributes to the output. */
  function Emitted(lines: seq<string>, i: nat, classNameMap: map<string, string>,
                   resolve: seq<string> -> seq<string>): seq<string>
    requires i < |lines|
  {
    if IsExceptionLine(lines[i]) then []
    else Flush(lines, i, resolve) + [RewriteLine(classNameMap, lines[i])]
  }

  /** The output written for the first `n` input lines. */
  function Retraced(lines: seq<string>, n: nat, classNameMap: map<string, string>,
                    resolve: seq<string> -> seq<string>): seq<string>
    requires n <= |lines|
  {
    if n == 0 then []
    else Retraced(lines, n - 1, classNameMap, resolve) + Emitted(lines, n - 1, classNameMap, resolve)
  }

  /** An exception line writes nothing. */
  lemma ExceptionLineStep(lines: seq<string>, i: nat, classNameMap: map<string, string>,
                          resolve: seq<string> -> seq<string>)
    requires i < |lines| && IsExceptionLine(lines[i])
    ensures Retraced(lines, i + 1, classNameMap, resolve) == Retraced(lines, i, classNameMap, resolve)
  {
    assert Retraced(lines, i, classNameMap, resolve) + [] == Retraced(lines, i, classNameMap, resolve);
  }

  /** An exception line extends the pending block by its payload; any other line empties it. */
  lemma PendingStep(lines: seq<string>, i: nat)
    requires i < |lines|
    ensures PendingBlock(lines, i + 1) ==
      if IsExceptionLine(lines[i]) then PendingBlock(lines, i) + [Payload(lines[i])] else []
  {
  }

  /** A FATAL line becomes the most recent one; any other line leaves it where it was. */
  lemma FatalIndexStep(lines: seq<string>, i: nat)
    requires i < |lines|
    ensures FatalIndex(lines, i + 1) == if IsFatalLine(lines[i]) then i else FatalIndex(lines, i)
  {
  }

  /** A line without the prefix writes the flush of the pending block, then itself rewritten. */
  lemma PlainLineStep(lines: seq<string>, i: nat, classNameMap: map<string, string>,
                      resolve: seq<string> -> seq<string>)
    requires i < |lines| && !IsExceptionLine(lines[i])
    ensures Retraced(lines, i + 1, classNameMap, resolve)
         == Retraced(lines, i, classNameMap, resolve) + Flush(lines, i, resolve) + [RewriteLine(classNameMap, lines[i])]
  {
  }

  /**
   * The flush written for the pending `block` when the most recent FATAL line
   * is `k` (-1 for none): nothing for an empty block, else the banner when
   * there is a FATAL line, then the resolved block (Retrace.kt:113-151).
   */
  lemma FlushOf(lines: seq<string>, i: nat, resolve: seq<string> -> seq<string>, block: seq<string>, k: int)
    requires i < |lines| && block == PendingBlock(lines, i) && k == FatalIndex(lines, i + 1)
    ensures Flush(lines, i, resolve) == FlushOutput(block, if k == -1 then None else Some(lines[k]), resolve)
  {
  }

  /**
   * The banner: a line that ends a block is not a FATAL line, so the most
   * recent FATAL line is the one before it; a non-empty block is written
   * after a banner exactly when there is one, taken from that line.
   */
  lemma BannerRule(lines: seq<string>, i: nat, resolve: seq<string> -> seq<string>)
    requires i < |lines| && !IsExceptionLine(lines[i]) && PendingBlock(lines, i) != []
    ensures LastFatal(lines, i + 1) == LastFatal(lines, i)
    ensures LastFatal(lines, i).None? ==> Flush(lines, i, resolve) == resolve(PendingBlock(lines, i))
    ensures LastFatal(lines, i).Some? ==>
      Flush(lines, i, resolve) == [Banner(lines[LastFatal(lines, i).value])] + resolve(PendingBlock(lines, i))
  {
    if IsFatalLine(lines[i]) {
      FatalLineIsExceptionLine(lines[i]);
    }
  }

  /** The payloads of all exception lines among `lines[..n]`, in order. */
  function AllPayloads(lines: seq<string>, n: nat): seq<string>
    requires n <= |lines|
  {
    if n == 0 then []
    else AllPayloads(lines, n - 1) + (if IsExceptionLine(lines[n - 1]) then [Payload(lines[n - 1])] else [])
  }

  /** The blocks handed to ReTrace while `lines[..n]` are read: one per line that ends a non-empty block. */
  function Blocks(lines: seq<string>, n: nat): seq<seq<string>>
    requires n <= |lines|
  {
    if n == 0 then []
    else
      Blocks(lines, n - 1) +
      (if !IsExceptionLine(lines[n - 1]) && PendingBlock(lines, n - 1) != [] then [PendingBlock(lines, n - 1)] else [])
  }

  /**
   * Exception lines at the end of the file hand no block to ReTrace: the
   * loop ends with their block still pending.
   */
  lemma {:induction false} TrailingBlockNeverResolved(lines: seq<string>, n: nat)
    requires n <= |lines|
    requires forall k :: n <= k < |lines| ==> IsExceptionLine(lines[k])
    ensures Blocks(lines, |lines|) == Blocks(lines, n)
    decreases |lines| - n
  {
    if n < |lines| {
      TrailingBlockNeverResolved(lines, n + 1);
      assert Blocks(lines, n + 1) == Blocks(lines, n) + [];
    }
  }

  /**
   * ReTrace is applied to the blocks of `Blocks` and to nothing else: two
   * resolvers that agree on those blocks make the same output.
   */
  lemma {:induction false} RetracedResolvesOnlyBlocks(lines: seq<string>, n: nat, classNameMap: map<string, string>,
                                                      r1: seq<string> -> seq<string>, r2: seq<string> -> seq<string>)
    requires n <= |lines|
    requires forall b :: b in Blocks(lines, n) ==> r1(b) == r2(b)
    ensures Retraced(lines, n, classNameMap, r1) == Retraced(lines, n, classNameMap, r2)
  {
    if n > 0 {
      BlocksGrow(lines, n);
      RetracedResolvesOnlyBlocks(lines, n - 1, classNameMap, r1, r2);
      EmittedResolvesOnlyBlock(lines, n - 1, classNameMap, r1, r2);
      assert Retraced(lines, n, classNameMap, r1)
          == Retraced(lines, n - 1, classNameMap, r1) + Emitted(lines, n - 1, classNameMap, r1);
    }
  }

  /** A block handed to ReTrace stays handed: reading one more line only adds blocks. */
  lemma BlocksGrow(lines: seq<string>, n: nat)
    requires 0 < n <= |lines|
    ensures forall b :: b in Blocks(lines, n - 1) ==> b in Blocks(lines, n)
  {
    assert Blocks(lines, n - 1) <= Blocks(lines, n);
  }

  /** What line `i` writes depends on the resolver only through the block it ends, if any. */
  lemma EmittedResolvesOnlyBlock(lines: seq<string>, i: nat, classNameMap: map<string, string>,
                                 r1: seq<string> -> seq<string>, r2: seq<string> -> seq<string>)
    requires i < |lines|
    requires forall b :: b in Blocks(lines, i + 1) ==> r1(b) == r2(b)
    ensures Emitted(lines, i, classNameMap, r1) == Emitted(lines, i, classNameMap, r2)
  {
    var block := PendingBlock(lines, i);
    if !IsExceptionLine(lines[i]) && block != [] {
      assert Blocks(lines, i + 1) == Blocks(lines, i) + [block];
      assert block in Blocks(lines, i + 1);
    }
  }

  /**
   * Exception lines at the end of the file write nothing: the output is the
   * output before them.
   */
  lemma {:induction false} TrailingExceptionLinesWriteNothing(lines: seq<string>, n: nat, k: nat,
                                                              classNameMap: map<string, string>,
                                                              resolve: seq<string> -> seq<string>)
    requires n <= k <= |lines|
    requires forall i :: n <= i < k ==> IsExceptionLine(lines[i])
    ensures Retraced(lines, k, classNameMap, resolve) == Retraced(lines, n, classNameMap, resolve)
    decreases k - n
  {
    if n < k {
      TrailingExceptionLinesWriteNothing(lines, n, k - 1, classNameMap, resolve);
      ExceptionLineStep(lines, k - 1, classNameMap, resolve);
    }
  }

  /** The blocks one after another. */
  function Flatten(blocks: seq<seq<string>>): seq<string>
  {
    if blocks == [] then [] else Flatten(blocks[..|blocks| - 1]) + blocks[|blocks| - 1]
  }

  /** Flattening after one more block appends that block. */
  lemma FlattenAppend(blocks: seq<seq<string>>, b: seq<string>)
    ensures Flatten(blocks + [b]) == Flatten(blocks) + b
  {
    assert (blocks + [b])[..|blocks|] == blocks;
  }

  /**
   * As written, every payload read so far has either been handed to ReTrace
   * in a block or is still pending: when the file ends, the pending block is
   * exactly what is never resolved.
   */
  lemma {:induction false} BlocksAndPending(lines: seq<string>, n: nat)
    requires n <= |lines|
    ensures Flatten(Blocks(lines, n)) + PendingBlock(lines, n) == AllPayloads(lines, n)
  {
    if n > 0 {
      BlocksAndPending(lines, n - 1);
      PendingStep(lines, n - 1);
      var pending := PendingBlock(lines, n - 1);
      var done := Blocks(lines, n - 1);
      if IsExceptionLine(lines[n - 1]) {
        var p := Payload(lines[n - 1]);
        assert Blocks(lines, n) == done;
        assert AllPayloads(lines, n) == AllPayloads(lines, n - 1) + [p];
        assert Flatten(done) + (pending + [p]) == Flatten(done) + pending + [p];
      } else if pending != [] {
        assert Blocks(lines, n) == done + [pending];
        FlattenAppend(done, pending);
      } else {
        assert Blocks(lines, n) == done;
      }
    }
  }

  /**
   * A log whose last line is a crash line writes nothing for it: the block
   * holding ` boom` is read but never resolved or written.
   */
  lemma TrailingBlockLost(lines: seq<string>, classNameMap: map<string, string>,
                          resolve: seq<string> -> seq<string>)
    requires lines == ["E AndroidRuntime: boom"]
    ensures Retraced(lines, |lines|, classNameMap, resolve) == []
    ensures AllPayloads(lines, |lines|) == [" boom"]
    ensures Blocks(lines, |lines|) == []
  {
    var line := lines[0];
    assert OccursAt(line, ExceptionPrefix, 0);
    assert IndexOf(line, ExceptionPrefix) == Some(0);
    assert Payload(line) == " boom";
  }

  /** Retrace.kt:78-186 with the block pending at the end of the file flushed as well. */
  function RetracedFlushed(lines: seq<string>, classNameMap: map<string, string>,
                           resolve: seq<string> -> seq<string>): seq<string>
  {
    Retraced(lines, |lines|, classNameMap, resolve)
      + FlushOutput(PendingBlock(lines, |lines|), FatalLine(lines, |lines|), resolve)
  }

  /** The blocks handed to ReTrace when the block pending at the end is flushed too. */
  function FlushedBlocks(lines: seq<string>): seq<seq<string>>
  {
    var pending := PendingBlock(lines, |lines|);
    Blocks(lines, |lines|) + (if pending == [] then [] else [pending])
  }

  /** With the final flush, every payload of the file reaches ReTrace, in order, exactly once. */
  lemma FlushedBlocksKeepEveryPayload(lines: seq<string>)
    ensures Flatten(FlushedBlocks(lines)) == AllPayloads(lines, |lines|)
  {
    var n := |lines|;
    BlocksAndPending(lines, n);
    var pending := PendingBlock(lines, n);
    var done := Blocks(lines, n);
    if pending != [] {
      assert FlushedBlocks(lines) == done + [pending];
      FlattenAppend(done, pending);
    } else {
      assert FlushedBlocks(lines) == done + [];
      assert done + [] == done;
    }
  }

  /**
   * With the final flush, ReTrace is applied to the blocks of `FlushedBlocks`
   * and to nothing else.
   */
  lemma FlushedResolvesOnlyBlocks(lines: seq<string>, classNameMap: map<string, string>,
                                  r1: seq<string> -> seq<string>, r2: seq<string> -> seq<string>)
    requires forall b :: b in FlushedBlocks(lines) ==> r1(b) == r2(b)
    ensures RetracedFlushed(lines, classNameMap, r1) == RetracedFlushed(lines, classNameMap, r2)
  {
    var pending := PendingBlock(lines, |lines|);
    assert Blocks(lines, |lines|) <= FlushedBlocks(lines);
    RetracedResolvesOnlyBlocks(lines, |lines|, classNameMap, r1, r2);
    if pending != [] {
      assert pending in FlushedBlocks(lines);
    }
  }

  /** With the final flush, the crash line of `TrailingBlockLost` is resolved and written. */
  lemma TrailingBlockFlushed(lines: seq<string>, classNameMap: map<string, string>,
                             resolve: seq<string> -> seq<string>)
    requires lines == ["E AndroidRuntime: boom"]
    ensures RetracedFlushed(lines, classNameMap, resolve) == resolve([" boom"])
    ensures FlushedBlocks(lines) == [[" boom"]]
  {
    TrailingBlockLost(lines, classNameMap, resolve);
    var line := lines[0];
    assert !IsFatalLine(line) by {
      assert |line| < |FatalMarker|;
    }
    assert PendingBlock(lines, 1) == [" boom"];
  }

  /**
   * The flush of Retrace.kt:113-151: when the block is not empty, the crash
   * banner for the most recent FATAL line, if there is one, then the block as
   * ReTrace resolves it (the two temporary files are the argument and result
   * of `resolve`).
   */
  method FlushBlock(lines: seq<string>, exceptionLines: seq<string>, lastFatalExceptionLineIndex: int,
                    resolve: seq<string> -> seq<string>)
    returns (written: seq<string>)
    requires -1 <= lastFatalExceptionLineIndex < |lines|
    ensures written == FlushOutput(exceptionLines,
      if lastFatalExceptionLineIndex == -1 then None else Some(lines[lastFatalExceptionLineIndex]), resolve)
  {
    written := [];
    if exceptionLines != [] {
      var resolved := resolve(exceptionLines);
      if lastFatalExceptionLineIndex != -1 {
        written := written + [Banner(lines[lastFatalExceptionLineIndex])];
      }
      written := written + resolved;
    }
  }

  /**
   * The state of the line loop of Retrace.kt:97-183 when line `index` is
   * reached: the output so far, the pending block, and the index of the most
   * recent FATAL line (-1 for none).
   */
  ghost predicate LoopState(lines: seq<string>, index: nat, classNameMap: map<string, string>,
                            resolve: seq<string> -> seq<string>,
                            out: seq<string>, exceptionLines: seq<string>, lastFatalExceptionLineIndex: int)
  {
    index <= |lines|
    && out == Retraced(lines, index, classNameMap, resolve)
    && exceptionLines == PendingBlock(lines, index)
    && lastFatalExceptionLineIndex == FatalIndex(lines, index)
  }

  /**
   * One pass of the loop body (Retrace.kt:100-182): an exception line only
   * adds its payload to the block; any other line flushes the block and is
   * written out rewritten.
   */
  method ProcessLine(lines: seq<string>, index: nat, classNameMap: map<string, string>,
                     resolve: seq<string> -> seq<string>,
                     out: seq<string>, exceptionLines: seq<string>, lastFatalExceptionLineIndex: int)
    returns (out': seq<string>, exceptionLines': seq<string>, lastFatalExceptionLineIndex': int)
    requires index < |lines|
    requires LoopState(lines, index, classNameMap, resolve, out, exceptionLines, lastFatalExceptionLineIndex)
    ensures LoopState(lines, index + 1, classNameMap, resolve, out', exceptionLines', lastFatalExceptionLineIndex')
  {
    var line := lines[index];
    lastFatalExceptionLineIndex' := lastFatalExceptionLineIndex;
    if Contains(line, FatalMarker) {
      lastFatalExceptionLineIndex' := index;
    }
    assert lastFatalExceptionLineIndex' == FatalIndex(lines, index + 1) by {
      FatalIndexStep(lines, index);
    }
    var exceptionIndex := IndexOf(line, ExceptionPrefix);
    if exceptionIndex.Some? {
      exceptionLines' := exceptionLines + [line[exceptionIndex.value + |ExceptionPrefix|..]];
      out' := out;
      ExceptionLineStep(lines, index, classNameMap, resolve);
      PendingStep(lines, index);
      return;
    }
    var flushed := FlushBlock(lines, exceptionLines, lastFatalExceptionLineIndex', resolve);
    assert flushed == Flush(lines, index, resolve) by {
      FlushOf(lines, index, resolve, exceptionLines, lastFatalExceptionLineIndex');
    }
    exceptionLines' := [];
    var updatedLine := RewriteObjRef(classNameMap, line);
    out' := out + flushed + [RewriteLogTag(classNameMap, updatedLine)];
    PlainLineStep(lines, index, classNameMap, resolve);
    PendingStep(lines, index);
  }

  /**
   * The line loop of Retrace.kt:95-183 over the whole file: the output
   * written, and the block and FATAL index it ends with.
   */
  method RetraceLines(lines: seq<string>, classNameMap: map<string, string>, resolve: seq<string> -> seq<string>)
    returns (out: seq<string>, exceptionLines: seq<string>, lastFatalExceptionLineIndex: int)
    ensures LoopState(lines, |lines|, classNameMap, resolve, out, exceptionLines, lastFatalExceptionLineIndex)
  {
    lastFatalExceptionLineIndex := -1;
    out := [];
    var index := 0;
    exceptionLines := [];
    while index < |lines|
      invariant index <= |lines|
      invariant LoopState(lines, index, classNameMap, resolve, out, exceptionLines, lastFatalExceptionLineIndex)
    {
      out, exceptionLines, lastFatalExceptionLineIndex :=
        ProcessLine(lines, index, classNameMap, resolve, out, exceptionLines, lastFatalExceptionLineIndex);
      index := index + 1;
    }
  }

  /**
   * Retrace.kt:78-186, with the file read into `lines` and the lines written
   * through the print writer returned as `out`. The mapping file comes in as
   * the records MappingReader would hand over; `resolve` stands for ProGuard's
   * ReTrace run over the block's temporary file. The block pending when the
   * loop ends is dropped.
   */
  method RetraceFile(records: seq<MappingRecord>, lines: seq<string>, resolve: seq<string> -> seq<string>)
    returns (out: seq<string>)
    ensures out == Retraced(lines, |lines|, ClassMapOf(records), resolve)
  {
    var classNameMap := LoadClassMap(records);
    var pending, lastFatal;
    out, pending, lastFatal := RetraceLines(lines, classNameMap, resolve);
  }

  /** `RetraceFile` with the block still pending at the end of the file flushed after the loop. */
  method RetraceFileFlushed(records: seq<MappingRecord>, lines: seq<string>, resolve: seq<string> -> seq<string>)
    returns (out: seq<string>)
    ensures out == RetracedFlushed(lines, ClassMapOf(records), resolve)
  {
    var classNameMap := LoadClassMap(records);
    var exceptionLines, lastFatalExceptionLineIndex;
    out, exceptionLines, lastFatalExceptionLineIndex := RetraceLines(lines, classNameMap, resolve);
    var flushed := FlushBlock(lines, exceptionLines, lastFatalExceptionLineIndex, resolve);
    out := out + flushed;
  }
}

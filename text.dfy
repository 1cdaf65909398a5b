/**
 * The few Kotlin string operations the retracer uses, on `string` (= seq<char>):
 * `indexOf`, `contains`, `split` on a one-character delimiter, `joinToString`,
 * and the two derived helpers `split(".").last()` and
 * `split(" ").take(2).joinToString(" ")`.
 */
module Text {
  import opened Wrappers

  /** `pat` occurs in `s` starting at index `i`. */
  predicate OccursAt(s: string, pat: string, i: nat)
  {
    i + |pat| <= |s| && s[i..i + |pat|] == pat
  }

  /** Kotlin `s.indexOf(pat, from)`: the first occurrence at or after `from`, or None for -1. */
  function IndexOfFrom(s: string, pat: string, from: nat): (r: Option<nat>)
    requires from <= |s|
    ensures r.Some? ==> from <= r.value && OccursAt(s, pat, r.value)
    ensures r.Some? ==> forall j :: from <= j < r.value ==> !OccursAt(s, pat, j)
    ensures r.None? ==> forall j :: from <= j <= |s| ==> !OccursAt(s, pat, j)
    decreases |s| - from
  {
    if OccursAt(s, pat, from) then Some(from)
    else if from == |s| then None
    else IndexOfFrom(s, pat, from + 1)
  }

  /** Kotlin `s.indexOf(pat)`. */
  function IndexOf(s: string, pat: string): Option<nat>
  {
    IndexOfFrom(s, pat, 0)
  }

  /** Kotlin `s.contains(pat, ignoreCase = false)`. */
  predicate Contains(s: string, pat: string)
  {
    IndexOf(s, pat).Some?
  }

  /** Containment is exactly the existence of an occurrence. */
  lemma ContainsIff(s: string, pat: string)
    ensures Contains(s, pat) <==> exists i: nat :: OccursAt(s, pat, i)
  {
    if exists i: nat :: OccursAt(s, pat, i) {
      var i: nat :| OccursAt(s, pat, i);
      assert i <= |s|;
    }
  }

  /** A string containing `long` also contains every prefix of `long`. */
  lemma {:induction false} ContainsPrefixOf(s: string, long: string, short: string)
    requires Contains(s, long)
    requires |short| <= |long| && long[..|short|] == short
    ensures Contains(s, short)
  {
    var i := IndexOf(s, long).value;
    assert s[i..i + |short|] == s[i..i + |long|][..|short|];
    assert OccursAt(s, short, i);
    ContainsIff(s, short);
  }

  /** Kotlin `s.startsWith(prefix)`. */
  predicate StartsWith(s: string, prefix: string)
  {
    |prefix| <= |s| && s[..|prefix|] == prefix
  }

  /** Kotlin `s.endsWith(suffix)`. */
  predicate EndsWith(s: string, suffix: string)
  {
    |suffix| <= |s| && s[|s| - |suffix|..] == suffix
  }

  /** Kotlin `s.lastIndexOf(c)`: the index of the last `c` in `s`, or None for -1. */
  function LastIndexOf(s: string, c: char): (r: Option<nat>)
    ensures r.Some? ==> r.value < |s|
  {
    if |s| == 0 then None
    else if s[|s| - 1] == c then Some(|s| - 1)
    else LastIndexOf(s[..|s| - 1], c)
  }

  /** `LastIndexOf` finds an occurrence with none after it, and finds none only when there is none. */
  lemma {:induction false} LastIndexOfIsLast(s: string, c: char)
    ensures LastIndexOf(s, c).Some? ==>
      LastIndexOf(s, c).value < |s| && s[LastIndexOf(s, c).value] == c && c !in s[LastIndexOf(s, c).value + 1..]
    ensures LastIndexOf(s, c).None? <==> c !in s
  {
    if |s| > 0 && s[|s| - 1] != c {
      var init := s[..|s| - 1];
      LastIndexOfIsLast(init, c);
      assert s == init + [s[|s| - 1]];
      match LastIndexOf(init, c) {
        case None =>
        case Some(i) =>
          assert s[i + 1..] == init[i + 1..] + [s[|s| - 1]];
      }
    }
  }

  /** The last occurrence is any occurrence with none after it. */
  lemma LastIndexOfAt(s: string, c: char, i: nat)
    requires i < |s| && s[i] == c && c !in s[i + 1..]
    ensures LastIndexOf(s, c) == Some(i)
  {
    LastIndexOfIsLast(s, c);
    var r := LastIndexOf(s, c);
    assert c in s by {
      assert s[i] == c;
    }
    assert forall k :: i < k < |s| ==> s[i + 1..][k - i - 1] == s[k];
    assert forall k :: r.value < k < |s| ==> s[r.value + 1..][k - r.value - 1] == s[k];
  }

  /** The index of the first `c` in `s`, if any. */
  function FirstIndexOf(s: string, c: char): (r: Option<nat>)
    ensures r.Some? ==> r.value < |s| && s[r.value] == c && c !in s[..r.value]
    ensures r.None? <==> c !in s
  {
    if |s| == 0 then None
    else if s[0] == c then Some(0)
    else match FirstIndexOf(s[1..], c)
      case None => None
      case Some(i) =>
        assert s[1..][..i] == s[1..i + 1];
        assert s[..i + 1] == [s[0]] + s[1..i + 1];
        Some(i + 1)
  }

  /**
   * Kotlin `s.split(d)` for a one-character delimiter `d`: the maximal
   * delimiter-free pieces, empty ones included, so there is always at least one.
   */
  function Split(s: string, d: char): (parts: seq<string>)
    ensures |parts| >= 1
    decreases |s|
  {
    match FirstIndexOf(s, d)
      case None => [s]
      case Some(i) => [s[..i]] + Split(s[i + 1..], d)
  }

  /** Kotlin `parts.joinToString(separator = d)`. */
  function Join(parts: seq<string>, d: char): string
  {
    if |parts| == 0 then ""
    else if |parts| == 1 then parts[0]
    else parts[0] + [d] + Join(parts[1..], d)
  }

  /** Joining the pieces of a split with the same delimiter gives the string back. */
  lemma {:induction false} JoinSplit(s: string, d: char)
    ensures Join(Split(s, d), d) == s
    decreases |s|
  {
    match FirstIndexOf(s, d)
      case None =>
      case Some(i) =>
        var rest := s[i + 1..];
        var tail := Split(rest, d);
        JoinSplit(rest, d);
        var parts := [s[..i]] + tail;
        assert Split(s, d) == parts;
        assert parts[1..] == tail;
        assert Join(parts, d) == s[..i] + [d] + Join(tail, d);
        assert s == s[..i] + [d] + rest;
  }

  /** No piece of a split contains the delimiter. */
  lemma {:induction false} SplitPiecesFree(s: string, d: char)
    ensures forall k :: 0 <= k < |Split(s, d)| ==> d !in Split(s, d)[k]
    decreases |s|
  {
    match FirstIndexOf(s, d)
      case None =>
      case Some(i) =>
        SplitPiecesFree(s[i + 1..], d);
  }

  /** The last element of a non-empty sequence (Kotlin `last()`). */
  function Last<T>(xs: seq<T>): T
    requires |xs| > 0
  {
    xs[|xs| - 1]
  }

  /** Kotlin `name.split(".").last()`: the simple name after the final dot. */
  function LastSegment(name: string): string
  {
    Last(Split(name, '.'))
  }

  /**
   * `LastSegment` is the dot-free tail of `name` after its final dot (all of
   * `name` when it has no dot).
   */
  lemma {:induction false} LastSegmentIsTail(name: string)
    ensures |LastSegment(name)| <= |name|
    ensures name[|name| - |LastSegment(name)|..] == LastSegment(name)
    ensures '.' !in LastSegment(name)
    ensures |LastSegment(name)| < |name| ==> name[|name| - |LastSegment(name)| - 1] == '.'
    ensures |LastSegment(name)| == |name| <==> '.' !in name
    decreases |name|
  {
    match FirstIndexOf(name, '.')
      case None =>
      case Some(i) =>
        var rest := name[i + 1..];
        LastSegmentIsTail(rest);
        var tail := Split(rest, '.');
        assert Split(name, '.') == [name[..i]] + tail;
        assert LastSegment(name) == LastSegment(rest);
        var n := |LastSegment(rest)|;
        assert name[|name| - n..] == rest[|rest| - n..];
        if n == |rest| {
          assert name[|name| - n - 1] == name[i];
        } else {
          assert name[|name| - n - 1] == rest[|rest| - n - 1];
        }
  }

  /**
   * Kotlin `line.split(" ").take(2).joinToString(separator = " ")`: the date and
   * time fields at the start of an Android log line.
   */
  function FirstTwoFields(line: string): string
  {
    var parts := Split(line, ' ');
    Join(if |parts| <= 2 then parts else parts[..2], ' ')
  }

  /**
   * `FirstTwoFields` is the longest prefix of the line holding at most one
   * space: it stops right before the second space, or takes the whole line.
   */
  lemma {:induction false} FirstTwoFieldsIsPrefix(line: string)
    ensures |FirstTwoFields(line)| <= |line|
    ensures FirstTwoFields(line) == line[..|FirstTwoFields(line)|]
    ensures FirstTwoFields(line) == line || line[|FirstTwoFields(line)|] == ' '
    ensures FirstTwoFields(line) != line ==> |Split(FirstTwoFields(line), ' ')| == 2
    ensures |Split(FirstTwoFields(line), ' ')| <= 2
  {
    match FirstIndexOf(line, ' ')
      case None =>
        SplitNone(line, ' ');
      case Some(i) =>
        var rest := line[i + 1..];
        match FirstIndexOf(rest, ' ')
          case None =>
            JoinSplit(rest, ' ');
            assert line == line[..i] + [' '] + rest;
            SplitAt(line, ' ', i);
            SplitNone(rest, ' ');
          case Some(j) =>
            SecondSpace(line, i, j);
  }

  /** A split at the first delimiter: the piece before it, then the split of the rest. */
  lemma SplitAt(s: string, d: char, i: nat)
    requires FirstIndexOf(s, d) == Some(i)
    ensures Split(s, d) == [s[..i]] + Split(s[i + 1..], d)
  {
  }

  /** A string without the delimiter splits into itself alone. */
  lemma SplitNone(s: string, d: char)
    requires d !in s
    ensures Split(s, d) == [s]
  {
  }

  /** The first occurrence is any occurrence with none before it. */
  lemma FirstIndexOfAt(s: string, c: char, i: nat)
    requires i < |s| && s[i] == c && c !in s[..i]
    ensures FirstIndexOf(s, c) == Some(i)
  {
    var r := FirstIndexOf(s, c);
    assert c in s by {
      assert s[i] == c;
    }
    assert forall k :: 0 <= k < i ==> s[..i][k] == s[k];
    assert forall k :: 0 <= k < r.value ==> s[..r.value][k] == s[k];
  }

  /** Two pieces joined with the delimiter between them. */
  lemma JoinTwo(a: string, b: string, d: char)
    ensures Join([a, b], d) == a + [d] + b
  {
    assert [a, b][1..] == [b];
  }

  /** The prefix of `s` that runs `j` characters past position `i`, cut at `i`. */
  lemma PrefixAcross(s: string, i: nat, j: nat)
    requires i + 1 + j <= |s|
    ensures s[..i + 1 + j] == s[..i] + [s[i]] + s[i + 1..][..j]
  {
    var r := s[..i] + [s[i]] + s[i + 1..][..j];
    assert |r| == i + 1 + j;
    forall k | 0 <= k < i + 1 + j
      ensures r[k] == s[k]
    {
      if k < i {
        assert r[k] == s[..i][k];
      } else if k > i {
        assert r[k] == s[i + 1..][..j][k - i - 1];
      }
    }
  }

  /** The case of `FirstTwoFieldsIsPrefix` where the line has a second space. */
  lemma SecondSpace(line: string, i: nat, j: nat)
    requires FirstIndexOf(line, ' ') == Some(i)
    requires i + 1 <= |line| && FirstIndexOf(line[i + 1..], ' ') == Some(j)
    ensures FirstTwoFields(line) == line[..i + 1 + j]
    ensures i + 1 + j < |line| && line[i + 1 + j] == ' '
    ensures |Split(FirstTwoFields(line), ' ')| == 2
  {
    var rest := line[i + 1..];
    var first, second := line[..i], rest[..j];
    SplitAt(line, ' ', i);
    SplitAt(rest, ' ', j);
    assert Split(line, ' ')[..2] == [first, second];
    JoinTwo(first, second, ' ');
    var r := first + [' '] + second;
    assert FirstTwoFields(line) == r;
    assert line[i] == ' ';
    PrefixAcross(line, i, j);
    assert line[i + 1 + j] == rest[j];
    assert r[..i] == first && r[i + 1..] == second;
    FirstIndexOfAt(r, ' ', i);
    SplitAt(r, ' ', i);
    SplitNone(second, ' ');
  }
}

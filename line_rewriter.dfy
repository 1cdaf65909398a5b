/**
 * The two single-line substitutions `retraceFile` applies to every line that
 * is not part of an exception block: an object reference `[name@id]` first,
 * then the class name in an Android log tag. Each looks at the first match of
 * its regular expression only, looks the captured class name up in the
 * obfuscated-to-original class map, and replaces just the captured span by
 * the original name's last dotted segment; with no match or no mapping the
 * line is left as it was.
 *
 * Character classes follow java.util.regex without UNICODE_CHARACTER_CLASS:
 * `\d` is [0-9], `\w` is [a-zA-Z_0-9], `\s` is [ \t\n\x0B\f\r], and `.`
 * is any character but a line terminator.
 */
module LineRewriter {
  import opened Wrappers
  import opened Text
  import opened Patterns

  predicate IsDigit(ch: char) { '0' <= ch <= '9' }
  predicate IsLower(ch: char) { 'a' <= ch <= 'z' }
  predicate IsUpper(ch: char) { 'A' <= ch <= 'Z' }

  /** `$-.` inside a Java character class is the range from `$` to `.`: `$%&'()*+,-.` */
  predicate InDollarToDot(ch: char) { '$' <= ch <= '.' }

  /** `[a-z\d$-._]`: the characters of an obfuscated name in an object reference. */
  predicate IsObjNameChar(ch: char) { IsLower(ch) || IsDigit(ch) || InDollarToDot(ch) || ch == '_' }

  /** `[a-z\d+]`: the characters of an object's identity hash. */
  predicate IsObjIdChar(ch: char) { IsLower(ch) || IsDigit(ch) || ch == '+' }

  /** `[A-Za-z\d$-._]`: the characters of a class name in a log tag. */
  predicate IsTagNameChar(ch: char) { IsUpper(ch) || IsLower(ch) || IsDigit(ch) || InDollarToDot(ch) || ch == '_' }

  /** `\s` */
  predicate IsSpace(ch: char) { ch == ' ' || ch == '\t' || ch == '\n' || ch == '\U{B}' || ch == '\U{C}' || ch == '\r' }

  /** `\w` */
  predicate IsWordChar(ch: char) { IsUpper(ch) || IsLower(ch) || IsDigit(ch) || ch == '_' }

  /** `.` without DOTALL: anything but a line terminator. */
  predicate IsAnyChar(ch: char)
  {
    ch != '\n' && ch != '\r' && ch != '\U{85}' && ch != '\U{2028}' && ch != '\U{2029}'
  }

  /** A literal character. */
  function Lit(c: char): char -> bool
  {
    ch => ch == c
  }

  /** `\[([a-z\d$-._]+)@[a-z\d+]*\]`; the captured name is item `ObjRefGroup`. */
  const ObjRef: Pattern :=
    [One(Lit('[')), Plus(IsObjNameChar), One(Lit('@')), Star(IsObjIdChar), One(Lit(']'))]
  const ObjRefGroup: nat := 1

  /**
   * `(\d{2}-\d{2}\s\d{2}:\d{2}:\d{2}.\d{3}\s+\d+\s+\d+\s+\w\s+([A-Za-z\d$-._]+):\d+)`:
   * date, time, pid, tid, level and tag of a logcat line; the captured class
   * name (the last group) is item `LogTagGroup`.
   */
  const LogTag: Pattern :=
    [ One(IsDigit), One(IsDigit), One(Lit('-')), One(IsDigit), One(IsDigit), One(IsSpace),
      One(IsDigit), One(IsDigit), One(Lit(':')), One(IsDigit), One(IsDigit), One(Lit(':')),
      One(IsDigit), One(IsDigit), One(IsAnyChar), One(IsDigit), One(IsDigit), One(IsDigit),
      Plus(IsSpace), Plus(IsDigit), Plus(IsSpace), Plus(IsDigit), Plus(IsSpace), One(IsWordChar),
      Plus(IsSpace), Plus(IsTagNameChar), One(Lit(':')), Plus(IsDigit) ]
  const LogTagGroup: nat := 25

  lemma ObjRefDeterministic()
    ensures Deterministic(ObjRef)
  {
    assert Disjoint(IsObjNameChar, Lit('@'));
    assert Disjoint(IsObjIdChar, Lit(']'));
  }

  lemma LogTagDeterministic()
    ensures Deterministic(LogTag)
  {
    assert Disjoint(IsSpace, IsDigit);
    assert Disjoint(IsDigit, IsSpace);
    assert Disjoint(IsSpace, IsWordChar);
    assert Disjoint(IsSpace, IsTagNameChar);
    assert Disjoint(IsTagNameChar, Lit(':'));
    forall t | 0 <= t < |LogTag| - 1 && !LogTag[t].One?
      ensures !LogTag[t + 1].Star? && Disjoint(LogTag[t].cls, LogTag[t + 1].cls)
    {
      assert 18 <= t <= 25 && t != 23;
      if t == 18 || t == 20 || t == 22 {
      } else if t == 19 || t == 21 {
      } else if t == 24 {
      } else {
        assert t == 25;
      }
    }
  }

  /** What a substitution makes of `line` when its match captured `line[a..b]`. */
  function Replaced(classNameMap: map<string, string>, line: string, a: nat, b: nat): string
    requires a <= b <= |line|
  {
    var name := line[a..b];
    if name in classNameMap then line[..a] + LastSegment(classNameMap[name]) + line[b..] else line
  }

  /**
   * One substitution: find the first match of `p`, look up the text of item
   * `g`, and put the last segment of its original name in its place.
   */
  function Substitute(p: Pattern, g: nat, classNameMap: map<string, string>, line: string): string
    requires g < |p|
  {
    match Find(p, line)
      case None => line
      case Some(ps) =>
        assert Fits(p[g], line, ps[g], ps[g + 1]);
        Replaced(classNameMap, line, ps[g], ps[g + 1])
  }

  /**
   * A substitution, stated against the regular expression's meaning rather
   * than the scanner: when `qs` is a leftmost match, whichever way it is
   * taken, only its captured span may change, and only when its name is mapped.
   */
  lemma SubstituteAt(p: Pattern, g: nat, classNameMap: map<string, string>, line: string, qs: seq<nat>)
    requires Deterministic(p) && g + 1 < |p|
    requires IsTrace(p, line, qs) && NoMatchBefore(p, line, qs[0])
    ensures qs[g] <= qs[g + 1] <= |line|
    ensures Substitute(p, g, classNameMap, line) == Replaced(classNameMap, line, qs[g], qs[g + 1])
  {
    FindIsLeftmost(p, line);
    assert Fits(p[g], line, qs[g], qs[g + 1]);
    var ps := Find(p, line).value;
    assert NoMatchBefore(p, line, ps[0]);
    assert ps[0] <= qs[0] && qs[0] <= ps[0];
    assert qs[g] == ps[g] && qs[g + 1] == ps[g + 1];
  }

  /** Without any match, a substitution leaves the line as it is. */
  lemma SubstituteNoMatch(p: Pattern, g: nat, classNameMap: map<string, string>, line: string)
    requires Deterministic(p) && g + 1 < |p|
    requires forall qs :: !IsTrace(p, line, qs)
    ensures Substitute(p, g, classNameMap, line) == line
  {
    FindIsLeftmost(p, line);
  }

  /** Retrace.kt:157-167 — `[ih2@e43bd21]` becomes `[LocalMemberWrapper@e43bd21]`. */
  function RewriteObjRef(classNameMap: map<string, string>, line: string): string
  {
    Substitute(ObjRef, ObjRefGroup, classNameMap, line)
  }

  /** Retrace.kt:170-180 — the class name in a log tag. */
  function RewriteLogTag(classNameMap: map<string, string>, line: string): string
  {
    Substitute(LogTag, LogTagGroup, classNameMap, line)
  }

  /** Both substitutions, object reference first, on one non-exception line. */
  function RewriteLine(classNameMap: map<string, string>, line: string): string
  {
    RewriteLogTag(classNameMap, RewriteObjRef(classNameMap, line))
  }

  /**
   * Every match of the object-reference pattern is a bracket, a non-empty
   * name, `@`, an id and a closing bracket.
   */
  lemma ObjRefShape(line: string)
    ensures forall qs :: IsTrace(ObjRef, line, qs) ==>
      qs[0] + 1 == qs[1] < qs[2] && qs[2] + 1 == qs[3] <= qs[4] && qs[4] + 1 == qs[5] <= |line| &&
      line[qs[0]] == '[' && line[qs[2]] == '@' && line[qs[4]] == ']'
  {
    forall qs | IsTrace(ObjRef, line, qs)
      ensures qs[0] + 1 == qs[1] < qs[2] && qs[2] + 1 == qs[3] <= qs[4] && qs[4] + 1 == qs[5] <= |line|
      ensures line[qs[0]] == '[' && line[qs[2]] == '@' && line[qs[4]] == ']'
    {
      assert Fits(ObjRef[0], line, qs[0], qs[1]);
      assert Fits(ObjRef[1], line, qs[1], qs[2]);
      assert Fits(ObjRef[2], line, qs[2], qs[3]);
      assert Fits(ObjRef[3], line, qs[3], qs[4]);
      assert Fits(ObjRef[4], line, qs[4], qs[5]);
    }
  }

  /** A line the object-reference pattern does not match is left unchanged. */
  lemma ObjRefNoMatch(classNameMap: map<string, string>, line: string)
    ensures (forall qs :: !IsTrace(ObjRef, line, qs)) ==> RewriteObjRef(classNameMap, line) == line
  {
    ObjRefDeterministic();
    if forall qs :: !IsTrace(ObjRef, line, qs) {
      SubstituteNoMatch(ObjRef, ObjRefGroup, classNameMap, line);
    }
  }

  /**
   * At the leftmost match `[name@id]`, a mapped name is replaced by its simple
   * name, keeping everything before it and the `@id]` after it; an unmapped
   * name leaves the line unchanged.
   */
  lemma ObjRefRewrite(classNameMap: map<string, string>, line: string, qs: seq<nat>)
    requires IsTrace(ObjRef, line, qs) && NoMatchBefore(ObjRef, line, qs[0])
    ensures qs[1] < qs[2] < |line|
    ensures var r := RewriteObjRef(classNameMap, line);
      (line[qs[1]..qs[2]] !in classNameMap ==> r == line) &&
      (line[qs[1]..qs[2]] in classNameMap ==>
        r == line[..qs[1]] + LastSegment(classNameMap[line[qs[1]..qs[2]]]) + line[qs[2]..])
  {
    ObjRefShape(line);
    ObjRefDeterministic();
    SubstituteAt(ObjRef, ObjRefGroup, classNameMap, line, qs);
  }

  /** Every match of the log-tag pattern has the tag's class name (item 25) followed by `:`. */
  lemma LogTagShape(line: string)
    ensures forall qs :: IsTrace(LogTag, line, qs) ==>
      qs[25] < qs[26] < qs[27] <= |line| && line[qs[26]] == ':'
  {
    forall qs | IsTrace(LogTag, line, qs) ensures qs[25] < qs[26] < qs[27] <= |line| && line[qs[26]] == ':' {
      assert Fits(LogTag[25], line, qs[25], qs[26]);
      assert Fits(LogTag[26], line, qs[26], qs[27]);
    }
  }

  /** A line the log-tag pattern does not match is left unchanged. */
  lemma LogTagNoMatch(classNameMap: map<string, string>, line: string)
    ensures (forall qs :: !IsTrace(LogTag, line, qs)) ==> RewriteLogTag(classNameMap, line) == line
  {
    LogTagDeterministic();
    if forall qs :: !IsTrace(LogTag, line, qs) {
      SubstituteNoMatch(LogTag, LogTagGroup, classNameMap, line);
    }
  }

  /**
   * At the leftmost log-tag match, a mapped tag class name is replaced by its
   * simple name and the rest of the line is kept; an unmapped one leaves the
   * line unchanged.
   */
  lemma LogTagRewrite(classNameMap: map<string, string>, line: string, qs: seq<nat>)
    requires IsTrace(LogTag, line, qs) && NoMatchBefore(LogTag, line, qs[0])
    ensures qs[25] < qs[26] < |line| && line[qs[26]] == ':'
    ensures var r := RewriteLogTag(classNameMap, line);
      (line[qs[25]..qs[26]] !in classNameMap ==> r == line) &&
      (line[qs[25]..qs[26]] in classNameMap ==>
        r == line[..qs[25]] + LastSegment(classNameMap[line[qs[25]..qs[26]]]) + line[qs[26]..])
  {
    LogTagShape(line);
    LogTagDeterministic();
    SubstituteAt(LogTag, LogTagGroup, classNameMap, line, qs);
  }

  /** A line without `[` and without `:` matches neither pattern and is emitted as it is. */
  lemma PlainLineUnchanged(classNameMap: map<string, string>, line: string)
    requires '[' !in line && ':' !in line
    ensures RewriteLine(classNameMap, line) == line
  {
    ObjRefShape(line);
    ObjRefNoMatch(classNameMap, line);
    LogTagShape(line);
    LogTagNoMatch(classNameMap, line);
  }

  /**
   * Retracing is not idempotent: when the simple name of one original class is
   * itself an obfuscated name, a second run rewrites the line again.
   */
  lemma RewriteNotIdempotent(classNameMap: map<string, string>)
    requires classNameMap == map["a" := "x.b", "b" := "y.c"]
    ensures RewriteLine(classNameMap, "[a@1]") == "[b@1]"
    ensures RewriteLine(classNameMap, RewriteLine(classNameMap, "[a@1]")) == "[c@1]"
  {
    SimpleNameOfDotted('x', 'b');
    SimpleNameOfDotted('y', 'c');
    assert "x.b" == ['x', '.', 'b'] && "y.c" == ['y', '.', 'c'];
    RewriteOneLetterRef(classNameMap, "[a@1]", 'a', 'b');
    RewriteOneLetterRef(classNameMap, "[b@1]", 'b', 'c');
  }

  /** The simple name of `q.s` is `s`. */
  lemma SimpleNameOfDotted(q: char, s: char)
    requires q != '.' && s != '.'
    ensures LastSegment([q, '.', s]) == [s]
  {
    var name := [q, '.', s];
    LastSegmentIsTail(name);
    assert name[0] == q && name[1] == '.' && name[2] == s;
    assert name[2..] == [s];
  }

  /** `[x@1]` with `x` mapped to a class whose simple name is `y` becomes `[y@1]`. */
  lemma RewriteOneLetterRef(classNameMap: map<string, string>, line: string, x: char, y: char)
    requires line == ['[', x, '@', '1', ']'] && IsLower(x) && IsLower(y)
    requires [x] in classNameMap && LastSegment(classNameMap[[x]]) == [y]
    ensures RewriteLine(classNameMap, line) == ['[', y, '@', '1', ']']
  {
    var qs: seq<nat> := [0, 1, 2, 3, 4, 5];
    assert IsTrace(ObjRef, line, qs) by {
      forall t | 0 <= t < 5 ensures Fits(ObjRef[t], line, qs[t], qs[t + 1]) {
        if t == 0 {} else if t == 1 {} else if t == 2 {} else if t == 3 {} else {}
      }
    }
    ObjRefRewrite(classNameMap, line, qs);
    assert line[1..2] == [x];
    var r: string := ['[', y, '@', '1', ']'];
    assert line[..1] + [y] + line[2..] == r;
    assert forall k :: 0 <= k < |r| ==> r[k] != ':';
    LogTagShape(r);
    LogTagNoMatch(classNameMap, r);
  }

  /** The simple name of `com.example.Foo` is `Foo`. */
  lemma FooIsSimpleName()
    ensures LastSegment("com.example.Foo") == "Foo"
  {
    var name := "com.example.Foo";
    LastSegmentIsTail(name);
    var t := LastSegment(name);
    assert name[11] == '.' && name[12] == 'F' && name[13] == 'o' && name[14] == 'o';
    assert |t| <= 3;
    assert name[12..] == "Foo";
  }

  /** With `com.example.Foo -> a.b.c`, `[a.b.c@1a2b3c]` is rewritten to `[Foo@1a2b3c]`. */
  lemma ObjRefExample(classNameMap: map<string, string>, line: string)
    requires classNameMap == map["a.b.c" := "com.example.Foo"] && line == "[a.b.c@1a2b3c]"
    ensures RewriteObjRef(classNameMap, line) == "[Foo@1a2b3c]"
  {
    var qs: seq<nat> := [0, 1, 6, 7, 13, 14];
    ObjRefExampleTrace(line, qs);
    ObjRefDeterministic();
    SubstituteAt(ObjRef, ObjRefGroup, classNameMap, line, qs);
    ObjRefExampleReplaced(classNameMap, line);
  }

  /** The whole rewrite of the object-reference example: the log-tag step finds no logcat line. */
  lemma ObjRefLineExample(classNameMap: map<string, string>, line: string)
    requires classNameMap == map["a.b.c" := "com.example.Foo"] && line == "[a.b.c@1a2b3c]"
    ensures RewriteLine(classNameMap, line) == "[Foo@1a2b3c]"
  {
    ObjRefExample(classNameMap, line);
    var r := "[Foo@1a2b3c]";
    NoColonInRef(r);
    NoColonNoLogTag(classNameMap, r);
  }

  lemma NoColonInRef(r: string)
    requires r == "[Foo@1a2b3c]"
    ensures ':' !in r
  {
    assert forall k :: 0 <= k < |r| ==> r[k] != ':';
  }

  /** A line without `:` is not a logcat line, so the log-tag step leaves it as it is. */
  lemma NoColonNoLogTag(classNameMap: map<string, string>, line: string)
    requires ':' !in line
    ensures RewriteLogTag(classNameMap, line) == line
  {
    LogTagShape(line);
    LogTagNoMatch(classNameMap, line);
  }

  lemma ObjRefExampleReplaced(classNameMap: map<string, string>, line: string)
    requires classNameMap == map["a.b.c" := "com.example.Foo"] && line == "[a.b.c@1a2b3c]"
    ensures Replaced(classNameMap, line, 1, 6) == "[Foo@1a2b3c]"
  {
    MappedName(classNameMap, line, 1, 6);
    ObjRefExampleSplice(line);
  }

  lemma ObjRefExampleSplice(line: string)
    requires line == "[a.b.c@1a2b3c]"
    ensures line[..1] + "Foo" + line[6..] == "[Foo@1a2b3c]"
  {
  }

  /** In the examples, the captured span is `a.b.c`, whose simple name is `Foo`. */
  lemma MappedName(classNameMap: map<string, string>, line: string, a: nat, b: nat)
    requires classNameMap == map["a.b.c" := "com.example.Foo"]
    requires a <= b <= |line| && line[a..b] == "a.b.c"
    ensures line[a..b] in classNameMap && LastSegment(classNameMap[line[a..b]]) == "Foo"
  {
    FooIsSimpleName();
  }

  lemma ObjRefExampleTrace(line: string, qs: seq<nat>)
    requires line == "[a.b.c@1a2b3c]" && qs == [0, 1, 6, 7, 13, 14]
    ensures IsTrace(ObjRef, line, qs)
  {
    assert Fits(ObjRef[0], line, 0, 1);
    assert Fits(ObjRef[1], line, 1, 6);
    assert Fits(ObjRef[2], line, 6, 7);
    assert Fits(ObjRef[3], line, 7, 13);
    assert Fits(ObjRef[4], line, 13, 14);
    forall t | 0 <= t < 5 ensures Fits(ObjRef[t], line, qs[t], qs[t + 1]) {
      if t == 0 {} else if t == 1 {} else if t == 2 {} else if t == 3 {} else {}
    }
  }

  /** With `com.example.Foo -> a.b.c`, the tag of a logcat line is rewritten to `Foo`. */
  lemma LogTagExample(classNameMap: map<string, string>, line: string)
    requires classNameMap == map["a.b.c" := "com.example.Foo"]
    requires line == "01-01 00:00:00.000 123 456 E a.b.c:42"
    ensures RewriteLogTag(classNameMap, line) == "01-01 00:00:00.000 123 456 E Foo:42"
  {
    var qs := LogTagExampleTrace();
    LogTagExampleIsTrace(line, qs);
    LogTagDeterministic();
    SubstituteAt(LogTag, LogTagGroup, classNameMap, line, qs);
    LogTagExampleSplice(line);
    MappedName(classNameMap, line, 29, 34);
  }

  /** The whole rewrite of the logcat example: the object-reference step finds no `[`. */
  lemma LogTagLineExample(classNameMap: map<string, string>, line: string)
    requires classNameMap == map["a.b.c" := "com.example.Foo"]
    requires line == "01-01 00:00:00.000 123 456 E a.b.c:42"
    ensures RewriteLine(classNameMap, line) == "01-01 00:00:00.000 123 456 E Foo:42"
  {
    assert forall k :: 0 <= k < |line| ==> line[k] != '[';
    ObjRefShape(line);
    ObjRefNoMatch(classNameMap, line);
    LogTagExample(classNameMap, line);
  }

  /** Where each item of the log-tag pattern starts and ends in the example line. */
  function LogTagExampleTrace(): seq<nat>
  {
    [0, 1, 2, 3, 4, 5, 6, 7, 8, 9, 10, 11, 12, 13, 14, 15, 16, 17, 18, 19, 22, 23, 26, 27, 28, 29, 34, 35, 37]
  }

  lemma LogTagExampleIsTrace(line: string, qs: seq<nat>)
    requires line == "01-01 00:00:00.000 123 456 E a.b.c:42" && qs == LogTagExampleTrace()
    ensures IsTrace(LogTag, line, qs) && qs[0] == 0 && qs[25] == 29 && qs[26] == 34
  {
    LogTagExampleDate(line, qs);
    LogTagExampleTime(line, qs);
    LogTagExampleFields(line, qs);
  }

  /** `01-01 00:0` */
  lemma LogTagExampleDate(line: string, qs: seq<nat>)
    requires line == "01-01 00:00:00.000 123 456 E a.b.c:42" && qs == LogTagExampleTrace()
    ensures forall t :: 0 <= t < 9 ==> Fits(LogTag[t], line, qs[t], qs[t + 1])
  {
  }

  /** `0:00.000` */
  lemma LogTagExampleTime(line: string, qs: seq<nat>)
    requires line == "01-01 00:00:00.000 123 456 E a.b.c:42" && qs == LogTagExampleTrace()
    ensures forall t :: 9 <= t < 18 ==> Fits(LogTag[t], line, qs[t], qs[t + 1])
  {
  }

  /** ` 123 456 E a.b.c:42` */
  lemma LogTagExampleFields(line: string, qs: seq<nat>)
    requires line == "01-01 00:00:00.000 123 456 E a.b.c:42" && qs == LogTagExampleTrace()
    ensures forall t :: 18 <= t < 28 ==> Fits(LogTag[t], line, qs[t], qs[t + 1])
  {
  }

  lemma LogTagExampleSplice(line: string)
    requires line == "01-01 00:00:00.000 123 456 E a.b.c:42"
    ensures line[29..34] == "a.b.c"
    ensures line[..29] + "Foo" + line[34..] == "01-01 00:00:00.000 123 456 E Foo:42"
  {
  }
}

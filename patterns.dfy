/**
 * The fragment of java.util.regex that the retracer's two recognisers use:
 * a pattern is a sequence of items, each a character class taken once, or
 * repeated greedily (`+`, `*`); there is no alternation. `IsTrace` is the
 * regular-expression meaning of a pattern (every way it can match), `Greedy`
 * is a scanner that never backtracks, and `Find` is `Regex.find`: the match at
 * the leftmost start that has one. For patterns in which every repetition is
 * followed by a character the repetition cannot consume (`Deterministic`), the
 * scanner agrees with every match on where each item begins.
 */
module Patterns {
  import opened Wrappers

  datatype Item =
    | One(cls: char -> bool)    // one character of the class (a literal is a one-character class)
    | Plus(cls: char -> bool)   // `[cls]+`, greedy
    | Star(cls: char -> bool)   // `[cls]*`, greedy

  type Pattern = seq<Item>

  /** Every character of `s[i..k]` is in the class. */
  predicate AllIn(s: string, i: nat, k: nat, cls: char -> bool)
    requires i <= k <= |s|
  {
    forall m :: i <= m < k ==> cls(s[m])
  }

  /** `s[i..k]` is one match of the item. */
  predicate Fits(item: Item, s: string, i: nat, k: nat)
  {
    i <= k <= |s| &&
    match item
      case One(cls) => k == i + 1 && cls(s[i])
      case Plus(cls) => i < k && AllIn(s, i, k, cls)
      case Star(cls) => AllIn(s, i, k, cls)
  }

  /** `ps` is one way for the pattern to match `s`: item `t` covers `s[ps[t]..ps[t + 1]]`. */
  predicate IsTrace(p: Pattern, s: string, ps: seq<nat>)
  {
    |ps| == |p| + 1 &&
    forall t :: 0 <= t < |p| ==> Fits(p[t], s, ps[t], ps[t + 1])
  }

  /** The pattern has no match starting before `st`. */
  ghost predicate NoMatchBefore(p: Pattern, s: string, st: nat)
  {
    forall qs :: IsTrace(p, s, qs) ==> st <= qs[0]
  }

  /** The end of the longest run of class characters starting at `i`. */
  function RunEnd(s: string, i: nat, cls: char -> bool): (k: nat)
    requires i <= |s|
    ensures i <= k <= |s| && AllIn(s, i, k, cls)
    ensures k < |s| ==> !cls(s[k])
    decreases |s| - i
  {
    if i < |s| && cls(s[i]) then RunEnd(s, i + 1, cls) else i
  }

  /** A run of class characters that stops before a non-class character is the longest one. */
  lemma RunEndUnique(s: string, i: nat, k: nat, cls: char -> bool)
    requires i <= k <= |s| && AllIn(s, i, k, cls)
    requires k < |s| ==> !cls(s[k])
    ensures RunEnd(s, i, cls) == k
  {
    var e := RunEnd(s, i, cls);
    assert AllIn(s, i, e, cls) && AllIn(s, i, k, cls);
  }

  /** Where the item ends when it is taken greedily from `i`, or None if it cannot match there. */
  function Step(item: Item, s: string, i: nat): (r: Option<nat>)
    requires i <= |s|
    ensures r.Some? ==> Fits(item, s, i, r.value)
    ensures r.None? ==> forall k :: !Fits(item, s, i, k)
  {
    match item
      case One(cls) => if i < |s| && cls(s[i]) then Some(i + 1) else None
      case Plus(cls) =>
        var k := RunEnd(s, i, cls);
        if i < k then Some(k)
        else
          assert forall k' :: i < k' <= |s| ==> !AllIn(s, i, k', cls) by {
            forall k' | i < k' <= |s| ensures !AllIn(s, i, k', cls) {
              assert !cls(s[i]);
            }
          }
          None
      case Star(cls) => Some(RunEnd(s, i, cls))
  }

  /** The scanner: every item taken greedily in turn, without backtracking. */
  function Greedy(p: Pattern, s: string, i: nat): (r: Option<seq<nat>>)
    requires i <= |s|
    ensures r.Some? ==> IsTrace(p, s, r.value) && r.value[0] == i
    decreases |p|
  {
    if p == [] then Some([i])
    else
      match Step(p[0], s, i)
        case None => None
        case Some(k) =>
          match Greedy(p[1..], s, k)
            case None => None
            case Some(rest) =>
              var ps := [i] + rest;
              assert forall t :: 1 <= t < |p| ==> p[t] == p[1..][t - 1] && ps[t] == rest[t - 1] && ps[t + 1] == rest[t];
              Some(ps)
  }

  /** `Regex.find(s, from)`: the scanner's match at the leftmost start at or after `from`. */
  function FindFrom(p: Pattern, s: string, from: nat): (r: Option<seq<nat>>)
    requires from <= |s|
    ensures r.Some? ==> IsTrace(p, s, r.value) && from <= r.value[0]
    ensures r.Some? ==> r.value[0] <= |s| && Greedy(p, s, r.value[0]) == r
    ensures r.Some? ==> forall st :: from <= st < r.value[0] ==> Greedy(p, s, st).None?
    ensures r.None? ==> forall st :: from <= st <= |s| ==> Greedy(p, s, st).None?
    decreases |s| - from
  {
    match Greedy(p, s, from)
      case Some(ps) => Some(ps)
      case None => if from == |s| then None else FindFrom(p, s, from + 1)
  }

  /** `Regex.find(s)`. */
  function Find(p: Pattern, s: string): Option<seq<nat>>
  {
    FindFrom(p, s, 0)
  }

  /** No character belongs to both classes. */
  predicate Disjoint(a: char -> bool, b: char -> bool)
  {
    forall ch :: !(a(ch) && b(ch))
  }

  /**
   * Every repetition is followed by an item that must consume a character,
   * and that character cannot belong to the repetition's class: a greedy run
   * therefore never has to give characters back.
   */
  predicate Deterministic(p: Pattern)
  {
    forall t :: 0 <= t < |p| - 1 && !p[t].One? ==> !p[t + 1].Star? && Disjoint(p[t].cls, p[t + 1].cls)
  }

  /**
   * In a deterministic pattern the scanner finds a match wherever there is one,
   * and every match agrees with it on where each item begins.
   */
  lemma {:induction false} GreedyAgrees(p: Pattern, s: string, ps: seq<nat>)
    requires Deterministic(p) && IsTrace(p, s, ps) && |p| > 0
    ensures ps[0] <= |s| && Greedy(p, s, ps[0]).Some?
    ensures forall t :: 0 <= t < |p| ==> Greedy(p, s, ps[0]).value[t] == ps[t]
    decreases |p|
  {
    assert Fits(p[0], s, ps[0], ps[1]);
    if |p| == 1 {
      assert Step(p[0], s, ps[0]).Some?;
      assert Greedy(p, s, ps[0]).Some?;
    } else {
      var tail, qs := p[1..], ps[1..];
      assert IsTrace(tail, s, qs) by {
        forall t | 0 <= t < |tail| ensures Fits(tail[t], s, qs[t], qs[t + 1]) {
          assert Fits(p[t + 1], s, ps[t + 1], ps[t + 2]);
        }
      }
      assert Deterministic(tail) by {
        forall t | 0 <= t < |tail| - 1 && !tail[t].One?
          ensures !tail[t + 1].Star? && Disjoint(tail[t].cls, tail[t + 1].cls)
        {
          assert tail[t] == p[t + 1] && tail[t + 1] == p[t + 2];
        }
      }
      if !p[0].One? {
        // the next item needs a character at ps[1] that the run cannot take
        assert Fits(p[1], s, ps[1], ps[2]);
        assert !p[0].cls(s[ps[1]]) by {
          assert p[1].cls(s[ps[1]]);
          assert Disjoint(p[0].cls, p[1].cls);
        }
        RunEndUnique(s, ps[0], ps[1], p[0].cls);
      }
      assert Step(p[0], s, ps[0]) == Some(ps[1]);
      GreedyAgrees(tail, s, qs);
      var rest := Greedy(tail, s, ps[1]).value;
      assert Greedy(p, s, ps[0]) == Some([ps[0]] + rest);
    }
  }

  /**
   * `Find` is the leftmost match: in a deterministic pattern it finds a match
   * exactly when there is one, none starts before it, and every match at the
   * same start places every item where it does.
   */
  lemma FindIsLeftmost(p: Pattern, s: string)
    requires Deterministic(p) && |p| > 0
    ensures Find(p, s).None? <==> forall qs :: !IsTrace(p, s, qs)
    ensures Find(p, s).Some? ==> NoMatchBefore(p, s, Find(p, s).value[0])
    ensures Find(p, s).Some? ==> forall qs, t :: IsTrace(p, s, qs) && qs[0] == Find(p, s).value[0] && 0 <= t < |p| ==> qs[t] == Find(p, s).value[t]
  {
    forall qs | IsTrace(p, s, qs)
      ensures Find(p, s).Some? && Find(p, s).value[0] <= qs[0]
      ensures qs[0] == Find(p, s).value[0] ==> forall t :: 0 <= t < |p| ==> qs[t] == Find(p, s).value[t]
    {
      GreedyAgrees(p, s, qs);
    }
  }
}

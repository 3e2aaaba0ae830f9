/**
 * The parts of Go's `strings` package that the encoder relies on:
 * `strings.Split` with a one-character separator, `strings.Join` (used
 * only to state the inverse of `Split`), and `strings.Index`.
 * Go strings are byte strings; the separators and markers used here
 * are ASCII, so modelling them as sequences of characters changes nothing.
 */
module GoStrings {

  /** Number of occurrences of the character `c` in `s`. */
  function Count(s: string, c: char): (n: nat)
    ensures n <= |s|
    ensures n == 0 <==> c !in s
  {
    if s == [] then 0 else (if s[0] == c then 1 else 0) + Count(s[1..], c)
  }

  /**
   * `strings.Split(s, [sep])`: every occurrence of `sep` is a split
   * point, empty fields are kept, and the empty string yields `[""]`.
   */
  function Split(s: string, sep: char): (r: seq<string>)
    ensures |r| == Count(s, sep) + 1
    ensures forall i | 0 <= i < |r| :: sep !in r[i]
    decreases |s|
  {
    if s == [] then [""]
    else
      var rest := Split(s[1..], sep);
      if s[0] == sep then [""] + rest
      else [[s[0]] + rest[0]] + rest[1..]
  }

  /** `strings.Join(ts, [sep])`. */
  function Join(ts: seq<string>, sep: char): string
  {
    if |ts| == 0 then ""
    else if |ts| == 1 then ts[0]
    else ts[0] + [sep] + Join(ts[1..], sep)
  }

  /** Joining the fields of a split with the same separator gives back the input. */
  lemma {:induction false} JoinSplit(s: string, sep: char)
    ensures Join(Split(s, sep), sep) == s
    decreases |s|
  {
    if s != [] {
      var rest := Split(s[1..], sep);
      JoinSplit(s[1..], sep);
      if s[0] == sep {
        assert Split(s, sep) == [""] + rest;
        assert ([""] + rest)[1..] == rest;
      } else {
        assert Split(s, sep) == [[s[0]] + rest[0]] + rest[1..];
        if |rest| == 1 {
          assert Join(rest, sep) == rest[0];
        } else {
          assert Join(rest, sep) == rest[0] + [sep] + Join(rest[1..], sep);
          assert ([[s[0]] + rest[0]] + rest[1..])[1..] == rest[1..];
        }
      }
    }
  }

  /** A separator-free string is a single field. */
  lemma {:induction false} SplitSeparatorFree(a: string, sep: char)
    requires sep !in a
    ensures Split(a, sep) == [a]
    decreases |a|
  {
    if a != [] {
      SplitSeparatorFree(a[1..], sep);
      assert [a[0]] + a[1..] == a;
    }
  }

  /** Splitting at the first separator: a separator-free prefix becomes one field. */
  lemma {:induction false} SplitAtFirst(a: string, b: string, sep: char)
    requires sep !in a
    ensures Split(a + [sep] + b, sep) == [a] + Split(b, sep)
    decreases |a|
  {
    var s := a + [sep] + b;
    if a == [] {
      assert s == [sep] + b && s[1..] == b;
    } else {
      var t := a[1..] + [sep] + b;
      assert s == [a[0]] + t;
      assert s[1..] == t;
      SplitAtFirst(a[1..], b, sep);
      var rest := Split(t, sep);
      assert rest[0] == a[1..] && rest[1..] == Split(b, sep);
      assert Split(s, sep) == [[a[0]] + rest[0]] + rest[1..];
      assert [a[0]] + a[1..] == a;
    }
  }

  /**
   * The other direction of the round trip: a non-empty list of
   * separator-free fields is recovered by splitting its join.
   */
  lemma {:induction false} SplitJoin(ts: seq<string>, sep: char)
    requires |ts| >= 1
    requires forall i | 0 <= i < |ts| :: sep !in ts[i]
    ensures Split(Join(ts, sep), sep) == ts
    decreases |ts|
  {
    if |ts| == 1 {
      SplitSeparatorFree(ts[0], sep);
    } else {
      SplitJoin(ts[1..], sep);
      SplitAtFirst(ts[0], Join(ts[1..], sep), sep);
      assert [ts[0]] + ts[1..] == ts;
    }
  }

  /** `p` occurs in `s` at position `k`. */
  predicate OccursAt(s: string, p: string, k: int)
  {
    0 <= k && k + |p| <= |s| && s[k..k + |p|] == p
  }

  /** `p` is a substring of `s`. */
  ghost predicate Occurs(s: string, p: string)
  {
    exists k :: OccursAt(s, p, k)
  }

  /** The search loop of `strings.Index`, started at position `k`. */
  function IndexFrom(s: string, p: string, k: nat): (r: int)
    requires k <= |s|
    ensures r == -1 || (k <= r && OccursAt(s, p, r))
    ensures r == -1 ==> forall j | k <= j :: !OccursAt(s, p, j)
    ensures r != -1 ==> forall j | k <= j < r :: !OccursAt(s, p, j)
    decreases |s| - k
  {
    if k + |p| > |s| then -1
    else if s[k..k + |p|] == p then k
    else IndexFrom(s, p, k + 1)
  }

  /** `strings.Index(s, p)`: the first position of `p` in `s`, or -1. */
  function Index(s: string, p: string): (r: int)
    ensures r == -1 <==> !Occurs(s, p)
    ensures r != -1 ==> OccursAt(s, p, r) && forall j | 0 <= j < r :: !OccursAt(s, p, j)
  {
    IndexFrom(s, p, 0)
  }

  /** Containment survives putting text before or after the string. */
  lemma OccursInContext(a: string, b: string, p: string)
    requires Occurs(a, p)
    ensures Occurs(a + b, p) && Occurs(b + a, p)
  {
    var k :| OccursAt(a, p, k);
    assert (a + b)[k..k + |p|] == a[k..k + |p|];
    assert OccursAt(a + b, p, k);
    assert (b + a)[|b| + k..|b| + k + |p|] == a[k..k + |p|];
    assert OccursAt(b + a, p, |b| + k);
  }
}

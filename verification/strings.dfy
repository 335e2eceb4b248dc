/**
 * Strings as `seq<char>` and the handful of PHP string primitives the merge-tag code is built from:
 * `strpos` (Find/Contains), `explode`/`implode`, and `str_replace` with a single search string,
 * which replaces every leftmost non-overlapping occurrence in one pass.
 */
module Strings {
  import opened Options

  /** `p` occurs in `s` starting at index `k`. */
  predicate OccursAt(s: string, p: string, k: nat) {
    k + |p| <= |s| && s[k..k + |p|] == p
  }

  predicate Contains(s: string, p: string) {
    exists k: nat | k <= |s| :: OccursAt(s, p, k)
  }

  /** A slice of `s` occurs in `s` where it was taken. */
  lemma SliceOccurs(s: string, i: nat, j: nat)
    requires i <= j <= |s|
    ensures OccursAt(s, s[i..j], i) && Contains(s, s[i..j])
  {
    assert i + |s[i..j]| == j;
    assert OccursAt(s, s[i..j], i);
  }

  /** `strpos($s, $p, $from)`: the first occurrence of `p` at or after `from`. */
  function Find(s: string, p: string, from: nat): (r: Option<nat>)
    ensures r.Some? ==> from <= r.value && OccursAt(s, p, r.value)
    ensures r.Some? ==> forall j :: from <= j < r.value ==> !OccursAt(s, p, j)
    ensures r.None? ==> forall j :: from <= j ==> !OccursAt(s, p, j)
    decreases |s| - from
  {
    if from + |p| > |s| then None
    else if s[from..from + |p|] == p then Some(from)
    else Find(s, p, from + 1)
  }

  lemma ContainsFind(s: string, p: string)
    ensures Contains(s, p) <==> Find(s, p, 0).Some?
  {
    if Find(s, p, 0).Some? {
      assert OccursAt(s, p, Find(s, p, 0).value);
    }
  }

  /** `explode($p, $s)` for a non-empty delimiter. */
  function Explode(s: string, p: string): (parts: seq<string>)
    requires |p| > 0
    ensures |parts| >= 1
    decreases |s|
  {
    match Find(s, p, 0)
    case None => [s]
    case Some(k) => [s[..k]] + Explode(s[k + |p|..], p)
  }

  /** `implode($sep, $parts)`. */
  function Implode(sep: string, parts: seq<string>): string
  {
    if |parts| == 0 then ""
    else if |parts| == 1 then parts[0]
    else parts[0] + sep + Implode(sep, parts[1..])
  }

  /**
   * `str_replace($p, $r, $s)` with a single search string: every leftmost non-overlapping occurrence
   * of `p` is replaced by `r` in one left-to-right pass; an empty search string changes nothing.
   */
  function ReplaceAll(s: string, p: string, r: string): (res: string)
    ensures !Contains(s, p) ==> res == s
  {
    if |p| == 0 then s
    else
      ContainsFind(s, p);
      Implode(r, Explode(s, p))
  }

  /** Replaces each pair's search string by its replacement, one `str_replace` after the other. */
  function ReplaceEach(s: string, pairs: seq<(string, string)>): string
    decreases |pairs|
  {
    if pairs == [] then s else ReplaceEach(ReplaceAll(s, pairs[0].0, pairs[0].1), pairs[1..])
  }

  /** Joining the pieces of `explode` with the delimiter gives back the original text. */
  lemma {:induction false} ExplodeImplode(s: string, p: string)
    requires |p| > 0
    ensures Implode(p, Explode(s, p)) == s
    decreases |s|
  {
    match Find(s, p, 0)
    case None =>
    case Some(k) =>
      var rest := s[k + |p|..];
      var tail := Explode(rest, p);
      ExplodeImplode(rest, p);
      assert Explode(s, p) == [s[..k]] + tail;
      ImplodeCons(p, s[..k], tail);
      assert s[k..k + |p|] == p;
      assert s == s[..k] + s[k..k + |p|] + rest;
  }

  lemma ImplodeCons(sep: string, first: string, rest: seq<string>)
    requires |rest| >= 1
    ensures Implode(sep, [first] + rest) == first + sep + Implode(sep, rest)
  {
    assert ([first] + rest)[1..] == rest;
  }

  /** No piece produced by `explode` contains the delimiter. */
  lemma {:induction false} ExplodePartsFree(s: string, p: string)
    requires |p| > 0
    ensures forall i :: 0 <= i < |Explode(s, p)| ==> !Contains(Explode(s, p)[i], p)
    decreases |s|
  {
    match Find(s, p, 0)
    case None =>
      assert Explode(s, p) == [s];
    case Some(k) =>
      var rest := s[k + |p|..];
      ExplodePartsFree(rest, p);
      var head := s[..k];
      if Contains(head, p) {
        var j: nat :| j <= |head| && OccursAt(head, p, j);
        assert j + |p| <= k;
        assert head[j..j + |p|] == s[j..j + |p|];
        assert OccursAt(s, p, j);
        assert false;
      }
      assert Explode(s, p) == [head] + Explode(rest, p);
  }

  /** The delimiter occurs exactly when `explode` cuts the text into at least two pieces. */
  lemma ExplodeCount(s: string, p: string)
    requires |p| > 0
    ensures Contains(s, p) <==> |Explode(s, p)| >= 2
  {
    ContainsFind(s, p);
    if Find(s, p, 0).Some? {
      var k := Find(s, p, 0).value;
      assert Explode(s, p) == [s[..k]] + Explode(s[k + |p|..], p);
    }
  }

  /**
   * `str_replace` replaces every occurrence: its result is the text cut at each occurrence of `p`
   * into pieces that do not contain `p`, joined again with `r` instead of `p`.
   */
  lemma ReplaceAllPieces(s: string, p: string, r: string)
    requires |p| > 0
    ensures Implode(p, Explode(s, p)) == s
    ensures ReplaceAll(s, p, r) == Implode(r, Explode(s, p))
    ensures forall i :: 0 <= i < |Explode(s, p)| ==> !Contains(Explode(s, p)[i], p)
  {
    ExplodeImplode(s, p);
    ExplodePartsFree(s, p);
  }

  lemma ReplaceEachSingle(s: string, pair: (string, string))
    ensures ReplaceEach(s, [pair]) == ReplaceAll(s, pair.0, pair.1)
  {
    assert [pair][1..] == [];
  }

  /** One more step of a `ReplaceEach` over a prefix of the pairs. */
  lemma ReplaceEachPrefix(s: string, pairs: seq<(string, string)>, k: nat)
    requires k < |pairs|
    ensures ReplaceEach(s, pairs[..k + 1]) == ReplaceAll(ReplaceEach(s, pairs[..k]), pairs[k].0, pairs[k].1)
  {
    assert pairs[..k + 1] == pairs[..k] + [pairs[k]];
    ReplaceEachSnoc(s, pairs[..k], pairs[k]);
  }

  /** The replacements of `ReplaceEach` happen one after the other, the last one on the result of the others. */
  lemma {:induction false} ReplaceEachSnoc(s: string, pairs: seq<(string, string)>, last: (string, string))
    ensures ReplaceEach(s, pairs + [last]) == ReplaceAll(ReplaceEach(s, pairs), last.0, last.1)
    decreases |pairs|
  {
    if pairs != [] {
      assert (pairs + [last])[1..] == pairs[1..] + [last];
      ReplaceEachSnoc(ReplaceAll(s, pairs[0].0, pairs[0].1), pairs[1..], last);
    }
  }

  /** The first occurrence of a one-character delimiter is right after a prefix free of it. */
  lemma FindCharAfter(a: string, c: char, b: string)
    requires c !in a
    ensures Find(a + [c] + b, [c], 0) == Some(|a|)
  {
    var s := a + [c] + b;
    FindCharFacts(s, c);
    assert OccursAt(s, [c], |a|);
  }

  lemma FindCharNone(a: string, c: char)
    requires c !in a
    ensures Find(a, [c], 0) == None
  {
    FindCharFacts(a, c);
  }

  /**
   * Cutting pieces joined with a one-character delimiter gives the pieces back, when none of them
   * contains the delimiter.
   */
  lemma {:induction false} ImplodeExplode(c: char, parts: seq<string>)
    requires |parts| >= 1
    requires forall i :: 0 <= i < |parts| ==> c !in parts[i]
    ensures Explode(Implode([c], parts), [c]) == parts
    decreases |parts|
  {
    if |parts| == 1 {
      FindCharNone(parts[0], c);
    } else {
      var rest := parts[1..];
      ImplodeExplode(c, rest);
      ImplodeCons([c], parts[0], rest);
      var s := parts[0] + [c] + Implode([c], rest);
      FindCharAfter(parts[0], c, Implode([c], rest));
      assert s[..|parts[0]|] == parts[0];
      assert s[|parts[0]| + 1..] == Implode([c], rest);
      assert parts == [parts[0]] + rest;
    }
  }

  /** `s` with every `c` turned into `d`. */
  function SwapChar(s: string, c: char, d: char): (r: string)
    ensures |r| == |s|
    ensures forall k :: 0 <= k < |s| ==> r[k] == if s[k] == c then d else s[k]
  {
    seq(|s|, k requires 0 <= k < |s| => if s[k] == c then d else s[k])
  }

  lemma SwapCharFree(s: string, c: char, d: char)
    requires c !in s
    ensures SwapChar(s, c, d) == s
  {
  }

  lemma SwapCharConcat(a: string, b: string, c: char, d: char)
    ensures SwapChar(a + b, c, d) == SwapChar(a, c, d) + SwapChar(b, c, d)
  {
  }

  /** Where `Find` stops for a one-character string: at a `c`, with none before. */
  lemma FindCharFacts(s: string, c: char)
    ensures Find(s, [c], 0).None? ==> c !in s
    ensures Find(s, [c], 0).Some? ==> s[Find(s, [c], 0).value] == c && c !in s[..Find(s, [c], 0).value]
  {
    var r := Find(s, [c], 0);
    forall j | 0 <= j < |s| && (r.None? || j < r.value)
      ensures s[j] != c
    {
      assert !OccursAt(s, [c], j);
      assert s[j..j + 1] == [s[j]];
    }
    if r.Some? {
      assert s[r.value..r.value + 1] == [c];
    }
  }

  /** `str_replace` with one-character search and replacement strings swaps that character everywhere. */
  lemma {:induction false} ReplaceAllChar(s: string, c: char, d: char)
    ensures ReplaceAll(s, [c], [d]) == SwapChar(s, c, d)
    decreases |s|
  {
    FindCharFacts(s, c);
    match Find(s, [c], 0)
    case None =>
      SwapCharFree(s, c, d);
    case Some(k) =>
      ReplaceAllChar(s[k + 1..], c, d);
      ReplaceAllAtFirst(s, [c], [d], k);
      SwapCharAt(s, k, c, d);
  }

  lemma SwapCharAt(s: string, k: nat, c: char, d: char)
    requires k < |s| && s[k] == c && c !in s[..k]
    ensures SwapChar(s, c, d) == s[..k] + [d] + SwapChar(s[k + 1..], c, d)
  {
    assert s == s[..k] + [c] + s[k + 1..];
    SwapCharConcat(s[..k] + [c], s[k + 1..], c, d);
    SwapCharConcat(s[..k], [c], c, d);
    SwapCharFree(s[..k], c, d);
  }

  /** `str_replace` keeps the text before the first occurrence and replaces that occurrence. */
  lemma ReplaceAllAtFirst(s: string, p: string, r: string, k: nat)
    requires |p| > 0 && Find(s, p, 0) == Some(k)
    ensures ReplaceAll(s, p, r) == s[..k] + r + ReplaceAll(s[k + |p|..], p, r)
  {
    var rest := s[k + |p|..];
    ExplodeAtFirst(s, p, k);
    ReplaceAllImplode(s, p, r);
    ReplaceAllImplode(rest, p, r);
    ImplodeCons(r, s[..k], Explode(rest, p));
  }

  lemma ExplodeAtFirst(s: string, p: string, k: nat)
    requires |p| > 0 && Find(s, p, 0) == Some(k)
    ensures Explode(s, p) == [s[..k]] + Explode(s[k + |p|..], p)
  {
    match Find(s, p, 0)
    case Some(j) =>
      assert j == k;
  }

  lemma ReplaceAllImplode(s: string, p: string, r: string)
    requires |p| > 0
    ensures ReplaceAll(s, p, r) == Implode(r, Explode(s, p))
  {
  }

  /** Replacing a whole text by `r` gives `r`. */
  lemma ReplaceWhole(t: string, r: string)
    requires |t| > 0
    ensures ReplaceAll(t, t, r) == r
  {
    assert OccursAt(t, t, 0);
    assert t[|t|..] == [];
    assert Find([], t, 0) == None;
    assert Explode(t, t) == [[], []];
    assert Implode(r, [[], []]) == [] + r + Implode(r, [[]]);
  }

  /** Number of occurrences of character `c` in `s`. */
  function CountChar(c: char, s: string): nat {
    multiset(s)[c]
  }

  /** Total number of occurrences of `c` over all pieces. */
  function SumCount(c: char, parts: seq<string>): nat
  {
    if parts == [] then 0 else CountChar(c, parts[0]) + SumCount(c, parts[1..])
  }

  lemma {:induction false} CountImplode(c: char, sep: string, parts: seq<string>)
    requires |parts| >= 1
    requires CountChar(c, sep) <= 1
    ensures CountChar(c, Implode(sep, parts))
            == SumCount(c, parts) + (if CountChar(c, sep) == 1 then |parts| - 1 else 0)
    decreases |parts|
  {
    if |parts| > 1 {
      var rest := parts[1..];
      CountImplode(c, sep, rest);
      ImplodeCons(sep, parts[0], rest);
      assert parts == [parts[0]] + rest;
      assert multiset(parts[0] + sep + Implode(sep, rest))
             == multiset(parts[0]) + multiset(sep) + multiset(Implode(sep, rest));
    }
  }

  /**
   * Replacing a search string holding exactly one `c` by a replacement holding none removes one `c`
   * per occurrence: the count never grows, and drops when the search string occurs.
   */
  lemma ReplaceAllCount(c: char, s: string, p: string, r: string)
    requires CountChar(c, p) == 1 && CountChar(c, r) == 0
    ensures CountChar(c, ReplaceAll(s, p, r)) <= CountChar(c, s)
    ensures Contains(s, p) ==> CountChar(c, ReplaceAll(s, p, r)) < CountChar(c, s)
  {
    var parts := Explode(s, p);
    ReplaceAllPieces(s, p, r);
    CountImplode(c, p, parts);
    CountImplode(c, r, parts);
    ExplodeCount(s, p);
  }

  /** A sequence of replacements each swapping one `c` for none never increases the count of `c`. */
  lemma {:induction false} ReplaceEachCount(c: char, s: string, pairs: seq<(string, string)>)
    requires forall i :: 0 <= i < |pairs| ==> CountChar(c, pairs[i].0) == 1 && CountChar(c, pairs[i].1) == 0
    ensures CountChar(c, ReplaceEach(s, pairs)) <= CountChar(c, s)
    ensures pairs != [] && Contains(s, pairs[0].0) ==> CountChar(c, ReplaceEach(s, pairs)) < CountChar(c, s)
    decreases |pairs|
  {
    if pairs != [] {
      ReplaceAllCount(c, s, pairs[0].0, pairs[0].1);
      ReplaceEachCount(c, ReplaceAll(s, pairs[0].0, pairs[0].1), pairs[1..]);
    }
  }

  /** Decimal digits of a natural number, as PHP prints an integer. */
  function NatToString(n: nat): (s: string)
    ensures |s| >= 1
    ensures forall i :: 0 <= i < |s| ==> '0' <= s[i] <= '9'
    decreases n
  {
    if n < 10 then [DigitChar(n)] else NatToString(n / 10) + [DigitChar(n % 10)]
  }

  function DigitChar(d: nat): (c: char)
    requires d < 10
    ensures '0' <= c <= '9'
  {
    ('0' as int + d) as char
  }

  /** PHP's string form of an integer, with a leading `-` for negatives. */
  function IntToString(i: int): string {
    if i < 0 then "-" + NatToString(-i) else NatToString(i)
  }
}

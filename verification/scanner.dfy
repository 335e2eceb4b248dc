/**
 * The regular expressions of the merge-tag code, each written out as a scanner over the text.
 * `MatchAt(g, s, i)` is where a match of grammar `g` that starts at `i` ends (PCRE's backtracking
 * has only one way to succeed for each of these patterns), and `Scan` lists the matches the way
 * `preg_match_all` does: leftmost first, the next search resuming where the previous match ended.
 */
module Scanner {
  import opened Options
  import opened Php

  datatype Grammar =
    | Tag       // `{(\w+)(:([\w&,=)(\-]+)){1,2}}`, case-insensitive
    | Modifier  // `([a-z]+)\(([a-z_\-]+)\)`, case-insensitive
    | Label     // `{([^:]+?)}`
    | GetVar    // `{get:(.*?)}`, case-insensitive, `.` also matching a newline
    | QtyTag    // `{[^{]*?:(\d+(\.\d+)?)(:(.*?))?}`

  /** A match: the text `s[start..end]`. */
  datatype Span = Span(start: nat, end: nat)

  predicate IsWordChar(c: char) {
    'a' <= c <= 'z' || 'A' <= c <= 'Z' || '0' <= c <= '9' || c == '_'
  }

  predicate IsArgChar(c: char) {
    IsWordChar(c) || c == '&' || c == ',' || c == '=' || c == ')' || c == '(' || c == '-'
  }

  predicate IsLetter(c: char) {
    'a' <= c <= 'z' || 'A' <= c <= 'Z'
  }

  predicate IsModifierArgChar(c: char) {
    IsLetter(c) || c == '_' || c == '-'
  }

  predicate AllChars(t: string, P: char -> bool) {
    forall k :: 0 <= k < |t| ==> P(t[k])
  }

  /** The end of the longest run of characters satisfying `P` that starts at `i`. */
  function RunEnd(s: string, i: nat, P: char -> bool): (e: nat)
    requires i <= |s|
    ensures i <= e <= |s|
    ensures forall k :: i <= k < e ==> P(s[k])
    ensures e == |s| || !P(s[e])
    decreases |s| - i
  {
    if i < |s| && P(s[i]) then RunEnd(s, i + 1, P) else i
  }

  /** A run that stops where `P` first fails is found by `RunEnd`. */
  lemma {:induction false} RunEndExact(s: string, i: nat, e: nat, P: char -> bool)
    requires i <= e <= |s|
    requires forall k :: i <= k < e ==> P(s[k])
    requires e == |s| || !P(s[e])
    ensures RunEnd(s, i, P) == e
    decreases e - i
  {
    if i < e {
      RunEndExact(s, i + 1, e, P);
    }
  }

  // ---- merge tags -------------------------------------------------------------------------------

  /**
   * The positions of a merge tag starting at `i`: the type is `s[i + 1..typeEnd]`, the argument
   * block PCRE reports (the last of the one or two colon blocks) is `s[argsStart..argsEnd]`.
   */
  datatype TagShape = TagShape(typeEnd: nat, argsStart: nat, argsEnd: nat, end: nat)

  function TagAt(s: string, i: nat): (r: Option<TagShape>)
    ensures r.Some? ==> i + 1 < r.value.typeEnd < r.value.argsStart < r.value.argsEnd < r.value.end <= |s|
    ensures r.Some? ==> s[i] == '{' && s[r.value.end - 1] == '}'
    ensures r.Some? ==> forall k :: i < k < r.value.end ==> s[k] != '{'
    ensures r.Some? ==> r.value.end == r.value.argsEnd + 1 && s[r.value.typeEnd] == ':'
    ensures r.Some? ==> forall k :: i < k < r.value.typeEnd ==> IsWordChar(s[k])
    ensures r.Some? ==> forall k :: r.value.argsStart <= k < r.value.argsEnd ==> IsArgChar(s[k])
    ensures r.Some? && r.value.argsStart != r.value.typeEnd + 1 ==>
              r.value.typeEnd + 2 < r.value.argsStart && s[r.value.argsStart - 1] == ':' &&
              forall k :: r.value.typeEnd < k < r.value.argsStart - 1 ==> IsArgChar(s[k])
  {
    if i < |s| && s[i] == '{' then
      var w := RunEnd(s, i + 1, IsWordChar);
      if w > i + 1 && w < |s| && s[w] == ':' then
        var a := RunEnd(s, w + 1, IsArgChar);
        if a > w + 1 && a < |s| && s[a] == '}' then
          Some(TagShape(w, w + 1, a, a + 1))
        else if a > w + 1 && a < |s| && s[a] == ':' then
          var b := RunEnd(s, a + 1, IsArgChar);
          if b > a + 1 && b < |s| && s[b] == '}' then Some(TagShape(w, a + 1, b, b + 1)) else None
        else None
      else None
    else None
  }

  /** One or two non-empty blocks of argument characters separated by a colon. */
  predicate IsArgBlocks(r: string) {
    (|r| > 0 && AllChars(r, IsArgChar)) ||
    (exists c :: 0 < c < |r| - 1 && r[c] == ':' && AllChars(r[..c], IsArgChar) && AllChars(r[c + 1..], IsArgChar))
  }

  /** The text of a merge tag, stated directly: `{`, a word, `:`, one or two argument blocks, `}`. */
  predicate IsTagText(t: string) {
    |t| >= 5 && t[0] == '{' && t[|t| - 1] == '}' &&
    exists c :: 1 < c < |t| - 2 && t[c] == ':' && AllChars(t[1..c], IsWordChar) && IsArgBlocks(t[c + 1..|t| - 1])
  }

  lemma TagAtSound(s: string, i: nat)
    requires TagAt(s, i).Some?
    ensures IsTagText(s[i..TagAt(s, i).value.end])
  {
    ShapeSound(s, i, TagAt(s, i).value);
  }

  /** The positions `TagAt` promises make the text between them a merge tag. */
  lemma ShapeSound(s: string, i: nat, sh: TagShape)
    requires i + 1 < sh.typeEnd < sh.argsStart < sh.argsEnd < sh.end <= |s|
    requires s[i] == '{' && s[sh.end - 1] == '}'
    requires sh.end == sh.argsEnd + 1 && s[sh.typeEnd] == ':'
    requires forall k :: i < k < sh.typeEnd ==> IsWordChar(s[k])
    requires forall k :: sh.argsStart <= k < sh.argsEnd ==> IsArgChar(s[k])
    requires sh.argsStart != sh.typeEnd + 1 ==>
               sh.typeEnd + 2 < sh.argsStart && s[sh.argsStart - 1] == ':' &&
               forall k :: sh.typeEnd < k < sh.argsStart - 1 ==> IsArgChar(s[k])
    ensures IsTagText(s[i..sh.end])
  {
    ArgBlocksOf(s, sh.typeEnd + 1, sh.argsStart, sh.argsEnd);
    TagTextOf(s, i, sh.typeEnd, sh.argsEnd, sh.end);
  }

  /** A tag given by its positions in the whole string, as `IsTagText`. */
  lemma TagTextOf(s: string, i: nat, w: nat, a: nat, e: nat)
    requires i + 1 < w && w + 1 < a && e == a + 1 && e <= |s|
    requires s[i] == '{' && s[w] == ':' && s[a] == '}'
    requires forall k :: i + 1 <= k < w ==> IsWordChar(s[k])
    requires IsArgBlocks(s[w + 1..a])
    ensures IsTagText(s[i..e])
  {
    var t := s[i..e];
    var c := w - i;
    SliceOfSlice(s, i, e, 1, c);
    AllCharsOf(s, i + 1, w, IsWordChar);
    SliceOfSlice(s, i, e, c + 1, |t| - 1);
    assert t[c] == ':' && AllChars(t[1..c], IsWordChar) && IsArgBlocks(t[c + 1..|t| - 1]);
  }

  /** One or two argument blocks, given by their characters in the whole string, as `IsArgBlocks`. */
  lemma ArgBlocksOf(s: string, lo: nat, st: nat, hi: nat)
    requires lo <= st < hi <= |s|
    requires forall k :: st <= k < hi ==> IsArgChar(s[k])
    requires st != lo ==> lo + 1 < st && s[st - 1] == ':' && forall k :: lo <= k < st - 1 ==> IsArgChar(s[k])
    ensures IsArgBlocks(s[lo..hi])
  {
    if st == lo {
      AllCharsOf(s, lo, hi, IsArgChar);
    } else {
      var c2 := st - 1 - lo;
      SliceOfSlice(s, lo, hi, 0, c2);
      SliceOfSlice(s, lo, hi, c2 + 1, hi - lo);
      AllCharsOf(s, lo, st - 1, IsArgChar);
      AllCharsOf(s, st, hi, IsArgChar);
      assert s[lo..hi][..c2] == s[lo..hi][0..c2];
      assert s[lo..hi][c2 + 1..] == s[lo..hi][c2 + 1..hi - lo];
      assert s[lo..hi][c2] == ':';
    }
  }

  /** Characters given in the whole string, as `AllChars` of the slice. */
  lemma AllCharsOf(s: string, lo: nat, hi: nat, P: char -> bool)
    requires lo <= hi <= |s| && forall k :: lo <= k < hi ==> P(s[k])
    ensures AllChars(s[lo..hi], P)
  {
    forall k | 0 <= k < hi - lo
      ensures P(s[lo..hi][k])
    {
      assert s[lo..hi][k] == s[lo + k];
    }
  }

  /** The characters of a slice, read in the whole string. */
  lemma AllCharsSlice(s: string, lo: nat, hi: nat, P: char -> bool)
    requires lo <= hi <= |s| && AllChars(s[lo..hi], P)
    ensures forall k :: lo <= k < hi ==> P(s[k])
  {
    forall k | lo <= k < hi
      ensures P(s[k])
    {
      assert s[k] == s[lo..hi][k - lo];
    }
  }

  /** A tag with one argument block, closed by the `}` at `c`. */
  lemma TagAtOneBlock(s: string, i: nat, w: nat, c: nat)
    requires i + 1 < w && w + 1 < c < |s|
    requires s[i] == '{' && s[w] == ':' && s[c] == '}'
    requires forall k :: i + 1 <= k < w ==> IsWordChar(s[k])
    requires forall k :: w + 1 <= k < c ==> IsArgChar(s[k])
    ensures TagAt(s, i) == Some(TagShape(w, w + 1, c, c + 1))
  {
    RunEndExact(s, i + 1, w, IsWordChar);
    RunEndExact(s, w + 1, c, IsArgChar);
  }

  /** A tag with two argument blocks split by the `:` at `a`, closed by the `}` at `c`. */
  lemma TagAtTwoBlocks(s: string, i: nat, w: nat, a: nat, c: nat)
    requires i + 1 < w && w + 1 < a && a + 1 < c < |s|
    requires s[i] == '{' && s[w] == ':' && s[a] == ':' && s[c] == '}'
    requires forall k :: i + 1 <= k < w ==> IsWordChar(s[k])
    requires forall k :: w + 1 <= k < a ==> IsArgChar(s[k])
    requires forall k :: a + 1 <= k < c ==> IsArgChar(s[k])
    ensures TagAt(s, i) == Some(TagShape(w, a + 1, c, c + 1))
  {
    RunEndExact(s, i + 1, w, IsWordChar);
    RunEndExact(s, w + 1, a, IsArgChar);
    RunEndExact(s, a + 1, c, IsArgChar);
    TagAtRuns(s, i, w, a, c);
  }

  /** `TagAt` from where the three runs of a two-block tag end. */
  lemma TagAtRuns(s: string, i: nat, w: nat, a: nat, c: nat)
    requires i + 1 < w && w + 1 < a && a + 1 < c < |s|
    requires s[i] == '{' && s[w] == ':' && s[a] == ':' && s[c] == '}'
    requires RunEnd(s, i + 1, IsWordChar) == w && RunEnd(s, w + 1, IsArgChar) == a
    requires RunEnd(s, a + 1, IsArgChar) == c
    ensures TagAt(s, i) == Some(TagShape(w, a + 1, c, c + 1))
  {
  }

  lemma SliceOfSlice(s: string, i: nat, e: nat, lo: nat, hi: nat)
    requires i <= e <= |s| && lo <= hi <= e - i
    ensures s[i..e][lo..hi] == s[i + lo..i + hi]
  {
    assert forall k :: 0 <= k < hi - lo ==> s[i..e][lo..hi][k] == s[i + lo + k];
  }

  /** The argument blocks of a tag, read in the whole string: `a == hi` when there is a single block. */
  lemma ArgBlocksAt(s: string, lo: nat, hi: nat) returns (a: nat)
    requires lo <= hi <= |s| && IsArgBlocks(s[lo..hi])
    ensures lo < a <= hi
    ensures a == hi ==> forall k :: lo <= k < hi ==> IsArgChar(s[k])
    ensures a < hi ==> a + 1 < hi && s[a] == ':' && (forall k :: lo <= k < a ==> IsArgChar(s[k]))
                       && forall k :: a + 1 <= k < hi ==> IsArgChar(s[k])
  {
    var r := s[lo..hi];
    if |r| > 0 && AllChars(r, IsArgChar) {
      AllCharsSlice(s, lo, hi, IsArgChar);
      a := hi;
    } else {
      var c2 :| 0 < c2 < |r| - 1 && r[c2] == ':' && AllChars(r[..c2], IsArgChar) && AllChars(r[c2 + 1..], IsArgChar);
      ArgBlocksSplit(s, lo, hi, c2);
      a := lo + c2;
    }
  }

  /** Two argument blocks split by the colon at `lo + c2`, read in the whole string. */
  lemma ArgBlocksSplit(s: string, lo: nat, hi: nat, c2: nat)
    requires lo <= hi <= |s| && 0 < c2 < hi - lo - 1 && s[lo..hi][c2] == ':'
    requires AllChars(s[lo..hi][..c2], IsArgChar) && AllChars(s[lo..hi][c2 + 1..], IsArgChar)
    ensures s[lo + c2] == ':' && (forall k :: lo <= k < lo + c2 ==> IsArgChar(s[k]))
    ensures forall k :: lo + c2 + 1 <= k < hi ==> IsArgChar(s[k])
  {
    assert s[lo..hi][..c2] == s[lo..lo + c2];
    assert s[lo..hi][c2 + 1..] == s[lo + c2 + 1..hi];
    AllCharsSlice(s, lo, lo + c2, IsArgChar);
    AllCharsSlice(s, lo + c2 + 1, hi, IsArgChar);
  }

  lemma TagAtComplete(s: string, i: nat, e: nat)
    requires i < e <= |s| && IsTagText(s[i..e])
    ensures TagAt(s, i).Some? && TagAt(s, i).value.end == e
  {
    var t := s[i..e];
    var c :| 1 < c < |t| - 2 && t[c] == ':' && AllChars(t[1..c], IsWordChar) && IsArgBlocks(t[c + 1..|t| - 1]);
    TagAtFromColon(s, i, e, c);
  }

  /** A tag text whose first colon is at offset `c`. */
  lemma TagAtFromColon(s: string, i: nat, e: nat, c: nat)
    requires i < e <= |s| && |s[i..e]| >= 5 && s[i..e][0] == '{' && s[i..e][|s[i..e]| - 1] == '}'
    requires 1 < c < |s[i..e]| - 2 && s[i..e][c] == ':' && AllChars(s[i..e][1..c], IsWordChar)
    requires IsArgBlocks(s[i..e][c + 1..|s[i..e]| - 1])
    ensures TagAt(s, i).Some? && TagAt(s, i).value.end == e
  {
    var w := i + c;
    assert s[i] == '{' && s[e - 1] == '}' && s[w] == ':';
    SliceOfSlice(s, i, e, 1, c);
    AllCharsSlice(s, i + 1, w, IsWordChar);
    SliceOfSlice(s, i, e, c + 1, e - i - 1);
    var a := ArgBlocksAt(s, w + 1, e - 1);
    TagAtBlocks(s, i, w, a, e);
  }

  lemma TagAtBlocks(s: string, i: nat, w: nat, a: nat, e: nat)
    requires i + 1 < w && w + 1 < a <= e - 1 && e <= |s|
    requires s[i] == '{' && s[w] == ':' && s[e - 1] == '}'
    requires forall k :: i + 1 <= k < w ==> IsWordChar(s[k])
    requires a == e - 1 ==> forall k :: w + 1 <= k < e - 1 ==> IsArgChar(s[k])
    requires a < e - 1 ==> a + 1 < e - 1 && s[a] == ':' && (forall k :: w + 1 <= k < a ==> IsArgChar(s[k]))
                           && forall k :: a + 1 <= k < e - 1 ==> IsArgChar(s[k])
    ensures TagAt(s, i).Some? && TagAt(s, i).value.end == e
  {
    if a == e - 1 {
      TagAtOneBlock(s, i, w, e - 1);
    } else {
      TagAtTwoBlocks(s, i, w, a, e - 1);
    }
  }

  /** `TagAt` finds a tag at `i` ending at `e` exactly when `s[i..e]` has the shape of a merge tag. */
  lemma TagAtIff(s: string, i: nat, e: nat)
    requires i < e <= |s|
    ensures (TagAt(s, i).Some? && TagAt(s, i).value.end == e) <==> IsTagText(s[i..e])
  {
    if TagAt(s, i).Some? && TagAt(s, i).value.end == e {
      TagAtSound(s, i);
    }
    if IsTagText(s[i..e]) {
      TagAtComplete(s, i, e);
    }
  }

  // ---- value modifiers --------------------------------------------------------------------------

  /** `name(arg)` at `i`: the name is `s[i..nameEnd]`, the argument `s[nameEnd + 1..argEnd]`. */
  datatype ModifierShape = ModifierShape(nameEnd: nat, argEnd: nat)

  function ModifierAt(s: string, i: nat): (r: Option<ModifierShape>)
    ensures r.Some? ==> i < r.value.nameEnd && r.value.nameEnd + 1 < r.value.argEnd < |s|
    ensures r.Some? ==> AllChars(s[i..r.value.nameEnd], IsLetter) && s[r.value.nameEnd] == '('
    ensures r.Some? ==> AllChars(s[r.value.nameEnd + 1..r.value.argEnd], IsModifierArgChar) && s[r.value.argEnd] == ')'
  {
    if i < |s| then
      var n := RunEnd(s, i, IsLetter);
      if n > i && n < |s| && s[n] == '(' then
        var a := RunEnd(s, n + 1, IsModifierArgChar);
        if a > n + 1 && a < |s| && s[a] == ')' then Some(ModifierShape(n, a)) else None
      else None
    else None
  }

  // ---- bare field labels ------------------------------------------------------------------------

  /** From `j` on, the first `}` at least two places after `i`, provided no `:` comes first. */
  function LabelClose(s: string, i: nat, j: nat): (r: Option<nat>)
    requires i < j
    ensures r.Some? ==> j <= r.value < |s| && i + 2 <= r.value && s[r.value] == '}'
    ensures r.Some? ==> forall k :: j <= k < r.value ==> s[k] != ':'
    decreases |s| - j
  {
    if j >= |s| || s[j] == ':' then None
    else if s[j] == '}' && j >= i + 2 then Some(j)
    else LabelClose(s, i, j + 1)
  }

  /** `LabelClose` stops at the first eligible `}` when no colon comes before it. */
  lemma {:induction false} LabelCloseAt(s: string, i: nat, j: nat, c: nat)
    requires i < j <= c < |s| && s[c] == '}' && i + 2 <= c
    requires forall k :: j <= k < c ==> s[k] != ':' && s[k] != '}'
    ensures LabelClose(s, i, j) == Some(c)
    decreases c - j
  {
    if j < c {
      LabelCloseAt(s, i, j + 1, c);
    }
  }

  /** `{label}` at `i` with no colon inside: the position of its closing brace. */
  function LabelAt(s: string, i: nat): (r: Option<nat>)
    ensures r.Some? ==> i + 2 <= r.value < |s| && s[i] == '{' && s[r.value] == '}'
    ensures r.Some? ==> forall k :: i < k < r.value ==> s[k] != ':'
  {
    if i < |s| && s[i] == '{' then LabelClose(s, i, i + 1) else None
  }

  // ---- {get:name} ---------------------------------------------------------------------------------

  function Lower(c: char): char {
    if 'A' <= c <= 'Z' then (c as int + 32) as char else c
  }

  /** The first `}` at or after `j`. */
  function CloseBrace(s: string, j: nat): (r: Option<nat>)
    ensures r.Some? ==> j <= r.value < |s| && s[r.value] == '}'
    ensures r.Some? ==> forall k :: j <= k < r.value ==> s[k] != '}'
    ensures r.None? ==> forall k :: j <= k < |s| ==> s[k] != '}'
    decreases |s| - j
  {
    if j >= |s| then None else if s[j] == '}' then Some(j) else CloseBrace(s, j + 1)
  }

  lemma {:induction false} CloseBraceAt(s: string, j: nat, c: nat)
    requires j <= c < |s| && s[c] == '}'
    requires forall k :: j <= k < c ==> s[k] != '}'
    ensures CloseBrace(s, j) == Some(c)
    decreases c - j
  {
    if j < c {
      CloseBraceAt(s, j + 1, c);
    }
  }

  /** `{get:name}` at `i` (the word `get` in any case): the position of its closing brace. */
  function GetVarAt(s: string, i: nat): (r: Option<nat>)
    ensures r.Some? ==> i + 5 <= r.value < |s| && s[r.value] == '}'
  {
    if i + 5 <= |s| && s[i] == '{' && Lower(s[i + 1]) == 'g' && Lower(s[i + 2]) == 'e' && Lower(s[i + 3]) == 't'
       && s[i + 4] == ':'
    then CloseBrace(s, i + 5)
    else None
  }

  // ---- quantity input tags ----------------------------------------------------------------------

  /** The captured input id is `s[idStart..idEnd]`. */
  datatype QtyShape = QtyShape(idStart: nat, idEnd: nat, end: nat)

  /** The first `}` at or after `j` with no newline before it (`.*?}` without the `s` flag). */
  function CloseBeforeNewline(s: string, j: nat): (r: Option<nat>)
    ensures r.Some? ==> j <= r.value < |s| && s[r.value] == '}'
    decreases |s| - j
  {
    if j >= |s| || s[j] == '\n' then None else if s[j] == '}' then Some(j) else CloseBeforeNewline(s, j + 1)
  }

  /** `\d+(\.\d+)?` then `(:(.*?))?}` from `j`: where the id ends and where the match ends. */
  function QtyRest(s: string, j: nat): (r: Option<(nat, nat)>)
    requires j <= |s|
    ensures r.Some? ==> j < r.value.0 < r.value.1 <= |s|
  {
    var d := RunEnd(s, j, IsDigit);
    if d == j then None
    else
      var idEnd := if d + 1 < |s| && s[d] == '.' && IsDigit(s[d + 1]) then RunEnd(s, d + 1, IsDigit) else d;
      if idEnd < |s| && s[idEnd] == '}' then Some((idEnd, idEnd + 1))
      else if idEnd < |s| && s[idEnd] == ':' then
        match CloseBeforeNewline(s, idEnd + 1)
        case Some(c) => Some((idEnd, c + 1))
        case None => None
      else None
  }

  /** The lazy `[^{]*?:`: tries each colon from `k` on, stopping at a `{`. */
  function QtyColon(s: string, k: nat): (r: Option<QtyShape>)
    ensures r.Some? ==> k < r.value.idStart < r.value.idEnd < r.value.end <= |s|
    decreases |s| - k
  {
    if k >= |s| || s[k] == '{' then None
    else if s[k] == ':' && QtyRest(s, k + 1).Some? then
      var rest := QtyRest(s, k + 1).value;
      Some(QtyShape(k + 1, rest.0, rest.1))
    else QtyColon(s, k + 1)
  }

  function QtyAt(s: string, i: nat): (r: Option<QtyShape>)
    ensures r.Some? ==> i < r.value.idStart < r.value.idEnd < r.value.end <= |s|
  {
    if i < |s| && s[i] == '{' then QtyColon(s, i + 1) else None
  }

  // ---- scanning ---------------------------------------------------------------------------------

  /** Where a match of `g` starting at `i` ends, if there is one. */
  function MatchAt(g: Grammar, s: string, i: nat): (r: Option<nat>)
    ensures r.Some? ==> i < r.value <= |s|
  {
    match g
    case Tag => (match TagAt(s, i) case Some(sh) => Some(sh.end) case None => None)
    case Modifier => (match ModifierAt(s, i) case Some(sh) => Some(sh.argEnd + 1) case None => None)
    case Label => (match LabelAt(s, i) case Some(c) => Some(c + 1) case None => None)
    case GetVar => (match GetVarAt(s, i) case Some(c) => Some(c + 1) case None => None)
    case QtyTag => (match QtyAt(s, i) case Some(sh) => Some(sh.end) case None => None)
  }

  /** The leftmost match at or after `i`. */
  function FirstMatch(g: Grammar, s: string, i: nat): (r: Option<Span>)
    ensures r.Some? ==> i <= r.value.start && MatchAt(g, s, r.value.start) == Some(r.value.end)
    ensures r.Some? ==> forall j :: i <= j < r.value.start ==> MatchAt(g, s, j).None?
    ensures r.None? ==> forall j :: i <= j ==> MatchAt(g, s, j).None?
    decreases |s| - i
  {
    if i >= |s| then None
    else match MatchAt(g, s, i)
      case Some(e) => Some(Span(i, e))
      case None => FirstMatch(g, s, i + 1)
  }

  /** Every match in order, as `preg_match_all` finds them from `i` on. */
  function Scan(g: Grammar, s: string, i: nat): (r: seq<Span>)
    ensures forall k :: 0 <= k < |r| ==> i <= r[k].start && MatchAt(g, s, r[k].start) == Some(r[k].end)
    ensures forall k :: 0 <= k < |r| - 1 ==> r[k].end <= r[k + 1].start
    decreases |s| - i
  {
    match FirstMatch(g, s, i)
    case None => []
    case Some(sp) =>
      var rest := Scan(g, s, sp.end);
      ConsSpans(g, s, i, sp, rest);
      [sp] + rest
  }

  /** A match followed by the matches after it: still in order, each where `MatchAt` puts it. */
  lemma ConsSpans(g: Grammar, s: string, i: nat, sp: Span, rest: seq<Span>)
    requires i <= sp.start && MatchAt(g, s, sp.start) == Some(sp.end)
    requires forall k :: 0 <= k < |rest| ==> sp.end <= rest[k].start && MatchAt(g, s, rest[k].start) == Some(rest[k].end)
    requires forall k :: 0 <= k < |rest| - 1 ==> rest[k].end <= rest[k + 1].start
    ensures forall k :: 0 <= k < |[sp] + rest| ==>
              i <= ([sp] + rest)[k].start && MatchAt(g, s, ([sp] + rest)[k].start) == Some(([sp] + rest)[k].end)
    ensures forall k :: 0 <= k < |[sp] + rest| - 1 ==> ([sp] + rest)[k].end <= ([sp] + rest)[k + 1].start
  {
  }

  /** The scan finds nothing exactly when no position from `i` on starts a match. */
  lemma ScanEmpty(g: Grammar, s: string, i: nat)
    ensures Scan(g, s, i) == [] <==> forall j :: i <= j ==> MatchAt(g, s, j).None?
  {
  }

  /** A text that is one match from end to end is scanned as that one match. */
  lemma ScanWhole(g: Grammar, t: string)
    requires MatchAt(g, t, 0) == Some(|t|)
    ensures Scan(g, t, 0) == [Span(0, |t|)]
  {
    assert FirstMatch(g, t, 0) == Some(Span(0, |t|));
    assert Scan(g, t, |t|) == [];
  }

  /** The matched text. */
  function MatchText(s: string, sp: Span): string
    requires sp.start <= sp.end <= |s|
  {
    s[sp.start..sp.end]
  }
}

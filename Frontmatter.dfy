/** The two patterns of the generator, written as scanners over strings.

    The block pattern `^---\s*\n([\s\S]*?)\n---` (no flags) finds the metadata block at
    the very start of a descriptor; the field pattern `key:\s*(.+)` finds a field in it.
    Each scanner is paired with a declarative description of the match a backtracking
    engine reports, and a lemma proves the two agree. */
module Frontmatter {
  import opened Wrappers
  import opened Text

  // ---------------------------------------------------------------------------
  // The block pattern

  /** The closing `\n---` starts at index j of s. */
  predicate DelimAt(s: string, j: int)
  {
    0 <= j && j + 4 <= |s| && s[j..j + 4] == "\n---"
  }

  /** `^---\s*\n` can end with its newline at index t: s begins with "---", only
      whitespace lies between index 3 and t, and s[t] is a newline. */
  predicate OpensAt(s: string, t: int)
  {
    3 <= t < |s| && s[..3] == "---" && AllWs(s[3..t]) && s[t] == '\n'
  }

  /** One way the block pattern can match s: opening newline at t, closing `\n---` at j,
      captured block s[t + 1..j]. */
  predicate BlockMatch(s: string, t: int, j: int)
  {
    OpensAt(s, t) && t + 1 <= j && DelimAt(s, j)
  }

  /** The match a backtracking engine reports: the greedy `\s*` makes it prefer the
      largest t, and for that t the lazy capture the smallest j. */
  ghost predicate ReportedBlock(s: string, t: int, j: int)
  {
    && BlockMatch(s, t, j)
    && (forall t', j' :: BlockMatch(s, t', j') ==> t' <= t)
    && (forall j' :: BlockMatch(s, t, j') ==> j <= j')
  }

  /** The first `\n---` at or after index `from`. */
  function FindDelim(s: string, from: nat): (r: Option<nat>)
    decreases |s| - from
    ensures r.Some? ==> from <= r.value && DelimAt(s, r.value)
    ensures r.Some? ==> forall j :: from <= j < r.value ==> !DelimAt(s, j)
    ensures r.None? ==> forall j :: from <= j ==> !DelimAt(s, j)
  {
    if from + 4 > |s| then None
    else if s[from..from + 4] == "\n---" then Some(from)
    else FindDelim(s, from + 1)
  }

  /** The end of the whitespace run that starts at index i. */
  function WsRunEnd(s: string, i: nat): (w: nat)
    requires i <= |s|
    decreases |s| - i
    ensures i <= w <= |s| && AllWs(s[i..w])
    ensures w == |s| || !IsWs(s[w])
  {
    if i < |s| && IsWs(s[i]) then
      var w := WsRunEnd(s, i + 1);
      assert s[i..w] == [s[i]] + s[i + 1..w];
      w
    else i
  }

  /** Backtracking over the opening line: tries the newline positions t, t - 1, ..., 3 of
      the whitespace run after "---", and for each the first closing `\n---` after it. */
  function ScanOpen(s: string, t: int): (r: Option<(int, int)>)
    requires |s| >= 3 && s[..3] == "---"
    requires 2 <= t < |s| && AllWs(s[3..t + 1])
    decreases t
    ensures r.Some? ==> BlockMatch(s, r.value.0, r.value.1) && r.value.0 <= t
    ensures r.Some? ==> forall t', j' :: r.value.0 < t' <= t ==> !BlockMatch(s, t', j')
    ensures r.Some? ==> forall j' :: BlockMatch(s, r.value.0, j') ==> r.value.1 <= j'
    ensures r.None? ==> forall t', j' :: t' <= t ==> !BlockMatch(s, t', j')
  {
    if t < 3 then None
    else
      assert AllWs(s[3..t]) by {
        assert forall i :: 0 <= i < t - 3 ==> s[3..t][i] == s[3..t + 1][i];
      }
      if s[t] == '\n' then
        match FindDelim(s, t + 1)
        case Some(j) => Some((t, j))
        case None => ScanOpen(s, t - 1)
      else ScanOpen(s, t - 1)
  }

  /** An opening newline can only lie inside the whitespace run after "---". */
  lemma OpensInsideRun(s: string, t: int)
    requires OpensAt(s, t)
    ensures t < WsRunEnd(s, 3)
  {
  }

  /** The block pattern applied to a descriptor's content: the captured metadata block,
      or None when the pattern does not match. */
  function FindFrontmatter(content: string): (r: Option<string>)
    ensures r.Some? ==> |content| >= 3 && content[..3] == "---"
    ensures r.Some? ==> forall i :: !DelimAt(r.value, i)
  {
    if |content| < 3 || content[..3] != "---" then None
    else
      var w := WsRunEnd(content, 3);
      match ScanOpen(content, w - 1)
      case None => None
      case Some((t, j)) =>
        var fm := content[t + 1..j];
        assert forall i :: DelimAt(fm, i) ==> DelimAt(content, t + 1 + i) by {
          forall i | DelimAt(fm, i) ensures DelimAt(content, t + 1 + i) {
            assert content[t + 1 + i..t + 1 + i + 4] == fm[i..i + 4];
          }
        }
        assert forall i :: DelimAt(fm, i) ==> BlockMatch(content, t, t + 1 + i);
        Some(fm)
  }

  /** The scanner finds a block exactly when the pattern has some match. */
  lemma FindFrontmatterFound(content: string)
    ensures FindFrontmatter(content).Some? <==> exists t, j :: BlockMatch(content, t, j)
  {
    if |content| >= 3 && content[..3] == "---" {
      var w := WsRunEnd(content, 3);
      if ScanOpen(content, w - 1).None? {
        forall t, j | BlockMatch(content, t, j) ensures false {
          OpensInsideRun(content, t);
        }
      }
    }
  }

  /** The block the scanner captures comes from the match a backtracking engine reports. */
  lemma ScanIsReported(content: string) returns (t: int, j: int)
    requires FindFrontmatter(content).Some?
    ensures ReportedBlock(content, t, j) && FindFrontmatter(content).value == content[t + 1..j]
  {
    var w := WsRunEnd(content, 3);
    var r := ScanOpen(content, w - 1);
    t, j := r.value.0, r.value.1;
    forall t', j' | BlockMatch(content, t', j') ensures t' <= t {
      OpensInsideRun(content, t');
    }
  }

  /** The reported block match is unique. */
  lemma ReportedBlockUnique(s: string, t: int, j: int, t2: int, j2: int)
    requires ReportedBlock(s, t, j) && ReportedBlock(s, t2, j2)
    ensures t == t2 && j == j2
  {
  }

  /** What the scanner captures is exactly the capture group of the match a
      backtracking engine reports. */
  lemma FindFrontmatterReported(content: string, fm: string)
    ensures FindFrontmatter(content) == Some(fm)
            <==> exists t, j :: ReportedBlock(content, t, j) && fm == content[t + 1..j]
  {
    if FindFrontmatter(content) == Some(fm) {
      var t, j := ScanIsReported(content);
    }
    if exists t, j :: ReportedBlock(content, t, j) && fm == content[t + 1..j] {
      var t, j :| ReportedBlock(content, t, j) && fm == content[t + 1..j];
      FindFrontmatterFound(content);
      var t2, j2 := ScanIsReported(content);
      ReportedBlockUnique(content, t, j, t2, j2);
    }
  }

  // ---------------------------------------------------------------------------
  // The field pattern

  /** `key:` starts at index i of fm. */
  predicate KeyAt(fm: string, key: string, i: int)
  {
    0 <= i && i + |key| + 1 <= |fm| && fm[i..i + |key| + 1] == key + ":"
  }

  /** After a key that ends at index v, `\s*` can stop at k and `.+` can start there. */
  predicate ValueStartsAt(fm: string, v: int, k: int)
  {
    0 <= v <= k < |fm| && AllWs(fm[v..k]) && !IsLineTerminator(fm[k])
  }

  /** One way the field pattern can match: key at i, value starting at k. */
  predicate FieldMatch(fm: string, key: string, i: int, k: int)
  {
    KeyAt(fm, key, i) && ValueStartsAt(fm, i + |key| + 1, k)
  }

  /** The match a backtracking engine reports: the leftmost key occurrence that can
      match at all, and for it the value start the greedy `\s*` reaches. */
  ghost predicate ReportedField(fm: string, key: string, i: int, k: int)
  {
    && FieldMatch(fm, key, i, k)
    && (forall i', k' :: FieldMatch(fm, key, i', k') ==> i <= i')
    && (forall k' :: FieldMatch(fm, key, i, k') ==> k' <= k)
  }

  /** Where the greedy `.+` stops: the first line terminator at or after k, or the end. */
  function LineEnd(s: string, k: nat): (e: nat)
    requires k <= |s|
    decreases |s| - k
    ensures k <= e <= |s| && NoLineTerminator(s[k..e])
    ensures e == |s| || IsLineTerminator(s[e])
  {
    if k < |s| && !IsLineTerminator(s[k]) then
      var e := LineEnd(s, k + 1);
      assert s[k..e] == [s[k]] + s[k + 1..e];
      e
    else k
  }

  /** `\s*` backing off inside a whitespace run: the last index in [v, k] where `.+`
      can start. */
  function BackOff(fm: string, v: int, k: int): (r: Option<int>)
    requires 0 <= v && v - 1 <= k < |fm|
    decreases k - v + 1
    ensures r.Some? ==> v <= r.value <= k && !IsLineTerminator(fm[r.value])
    ensures r.Some? ==> forall k' :: r.value < k' <= k ==> IsLineTerminator(fm[k'])
    ensures r.None? ==> forall k' :: v <= k' <= k ==> IsLineTerminator(fm[k'])
  {
    if k < v then None
    else if !IsLineTerminator(fm[k]) then Some(k)
    else BackOff(fm, v, k - 1)
  }

  /** Where the value starts after a key ending at v, if anywhere. */
  function ValueStart(fm: string, v: nat): (r: Option<int>)
    requires v <= |fm|
    ensures r.Some? ==> ValueStartsAt(fm, v, r.value)
    ensures r.Some? ==> forall k :: ValueStartsAt(fm, v, k) ==> k <= r.value
    ensures r.None? ==> forall k :: !ValueStartsAt(fm, v, k)
  {
    var w := WsRunEnd(fm, v);
    if w < |fm| then
      Some(w)
    else
      var r := BackOff(fm, v, w - 1);
      assert forall k :: v <= k <= |fm| ==> AllWs(fm[v..k]) by {
        forall k | v <= k <= |fm| ensures AllWs(fm[v..k]) {
          assert forall m :: 0 <= m < k - v ==> fm[v..k][m] == fm[v..w][m];
        }
      }
      r
  }

  /** The engine's scan over start positions i, i + 1, ...: key, then value. */
  function FieldFrom(fm: string, key: string, i: nat): (r: Option<(int, int)>)
    decreases |fm| - i
    ensures r.Some? ==> FieldMatch(fm, key, r.value.0, r.value.1) && i <= r.value.0
    ensures r.Some? ==> forall i', k' :: i <= i' < r.value.0 ==> !FieldMatch(fm, key, i', k')
    ensures r.Some? ==> forall k' :: FieldMatch(fm, key, r.value.0, k') ==> k' <= r.value.1
    ensures r.None? ==> forall i', k' :: i <= i' ==> !FieldMatch(fm, key, i', k')
  {
    if i + |key| + 1 > |fm| then None
    else if fm[i..i + |key| + 1] == key + ":" then
      match ValueStart(fm, i + |key| + 1)
      case Some(k) => Some((i, k))
      case None => FieldFrom(fm, key, i + 1)
    else FieldFrom(fm, key, i + 1)
  }

  /** The field pattern applied to a metadata block: the captured value, or None. The
      value is never empty and never crosses a line. */
  function FindField(fm: string, key: string): (r: Option<string>)
    ensures r.Some? ==> |r.value| >= 1 && NoLineTerminator(r.value)
  {
    match FieldFrom(fm, key, 0)
    case None => None
    case Some((i, k)) =>
      var e := LineEnd(fm, k);
      assert fm[k..e][0] == fm[k];
      Some(fm[k..e])
  }

  /** The scanner finds a value exactly when the pattern has some match. */
  lemma FindFieldFound(fm: string, key: string)
    ensures FindField(fm, key).Some? <==> exists i, k :: FieldMatch(fm, key, i, k)
  {
  }

  /** The reported field match is unique. */
  lemma ReportedFieldUnique(fm: string, key: string, i: int, k: int, i2: int, k2: int)
    requires ReportedField(fm, key, i, k) && ReportedField(fm, key, i2, k2)
    ensures i == i2 && k == k2
  {
  }

  /** What the scanner captures is exactly the capture group of the match a
      backtracking engine reports. */
  lemma FindFieldReported(fm: string, key: string, v: string)
    ensures FindField(fm, key) == Some(v)
            <==> exists i, k :: ReportedField(fm, key, i, k) && v == fm[k..LineEnd(fm, k)]
  {
    var r := FieldFrom(fm, key, 0);
    if r.Some? {
      assert ReportedField(fm, key, r.value.0, r.value.1);
    }
    if exists i, k :: ReportedField(fm, key, i, k) && v == fm[k..LineEnd(fm, k)] {
      var i, k :| ReportedField(fm, key, i, k) && v == fm[k..LineEnd(fm, k)];
      ReportedFieldUnique(fm, key, i, k, r.value.0, r.value.1);
    }
  }

  /** `m ? m[1].trim() : fallback` for the field pattern of `key`. */
  function FieldValue(fm: string, key: string, fallback: string): (r: string)
    ensures FindField(fm, key).None? ==> r == fallback
    ensures FindField(fm, key).Some? ==> r == Trim(FindField(fm, key).value)
  {
    match FindField(fm, key)
    case Some(v) => Trim(v)
    case None => fallback
  }

  /** An extracted field value is a single line with no whitespace at either end: it
      equals its own trim. */
  lemma ExtractedValueIsClean(fm: string, key: string, fallback: string)
    requires FindField(fm, key).Some?
    ensures NoLineTerminator(FieldValue(fm, key, fallback))
    ensures Trimmed(FieldValue(fm, key, fallback))
    ensures Trim(FieldValue(fm, key, fallback)) == FieldValue(fm, key, fallback)
  {
    var v := FindField(fm, key).value;
    TrimKeepsNoLineTerminator(v);
    TrimIdempotent(v);
  }
}

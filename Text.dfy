/** Character classes and the small string operations the generator relies on:
    one whitespace class shared by the `\s` escape and `String.prototype.trim`,
    the line terminators that `.` refuses, trimming, suffixes, joining and
    separator normalisation. */
module Text {

  /** The characters a regular expression `.` does not match. */
  predicate IsLineTerminator(c: char)
  {
    c == '\n' || c == '\r' || c == '\U{2028}' || c == '\U{2029}'
  }

  /** The one whitespace class of this model: what `\s` matches and what `trim()` removes,
      namely the line terminators, tab, vertical tab, form feed, the byte order mark and
      the space separators of Unicode category Zs. */
  predicate IsWs(c: char)
  {
    || IsLineTerminator(c)
    || c == '\t' || c == '\U{000B}' || c == '\U{000C}' || c == '\U{FEFF}'
    || c == ' ' || c == '\U{00A0}' || c == '\U{1680}' || ('\U{2000}' <= c <= '\U{200A}')
    || c == '\U{202F}' || c == '\U{205F}' || c == '\U{3000}'
  }

  predicate AllWs(s: string)
  {
    forall i :: 0 <= i < |s| ==> IsWs(s[i])
  }

  predicate NoLineTerminator(s: string)
  {
    forall i :: 0 <= i < |s| ==> !IsLineTerminator(s[i])
  }

  /** No whitespace at either end. */
  predicate Trimmed(s: string)
  {
    s == [] || (!IsWs(s[0]) && !IsWs(s[|s| - 1]))
  }

  /** Where the text of s starts: the end of its leading whitespace run, from lo on. */
  function FirstNonWs(s: string, lo: nat): (r: nat)
    requires lo <= |s|
    decreases |s| - lo
    ensures lo <= r <= |s| && (forall i :: lo <= i < r ==> IsWs(s[i]))
    ensures r == |s| || !IsWs(s[r])
  {
    if lo < |s| && IsWs(s[lo]) then FirstNonWs(s, lo + 1) else lo
  }

  /** Where the text of s ends: the start of its trailing whitespace run, not before lo. */
  function LastNonWs(s: string, lo: nat, hi: nat): (r: nat)
    requires lo <= hi <= |s|
    decreases hi
    ensures lo <= r <= hi && (forall i :: r <= i < hi ==> IsWs(s[i]))
    ensures r == lo || !IsWs(s[r - 1])
  {
    if lo < hi && IsWs(s[hi - 1]) then LastNonWs(s, lo, hi - 1) else hi
  }

  /** `r` sits in `s` at offset `lo`, with only whitespace before and after it. */
  predicate MiddleOf(s: string, r: string, lo: int)
  {
    && 0 <= lo <= |s| - |r| && s[lo..lo + |r|] == r
    && AllWs(s[..lo]) && AllWs(s[lo + |r|..])
  }

  /** `String.prototype.trim`: the middle of `s` between a whitespace prefix and a
      whitespace suffix, with no whitespace left at either end. */
  function Trim(s: string): (r: string)
    ensures Trimmed(r)
    ensures exists lo :: MiddleOf(s, r, lo)
  {
    var lo := FirstNonWs(s, 0);
    var hi := LastNonWs(s, lo, |s|);
    assert MiddleOf(s, s[lo..hi], lo);
    s[lo..hi]
  }

  /** Trimming an already trimmed string changes nothing. */
  lemma TrimOfTrimmed(s: string)
    requires Trimmed(s)
    ensures Trim(s) == s
  {
    assert FirstNonWs(s, 0) == 0;
    assert s[0..|s|] == s;
  }

  /** Trimming is idempotent: a trimmed value equals its own trim. */
  lemma TrimIdempotent(s: string)
    ensures Trim(Trim(s)) == Trim(s)
  {
    TrimOfTrimmed(Trim(s));
  }

  /** Trimming a string without line terminators cannot introduce one. */
  lemma TrimKeepsNoLineTerminator(s: string)
    requires NoLineTerminator(s)
    ensures NoLineTerminator(Trim(s))
  {
    var r := Trim(s);
    var lo :| MiddleOf(s, r, lo);
    forall i | 0 <= i < |r| ensures !IsLineTerminator(r[i]) {
      assert r[i] == s[lo + i];
    }
  }

  predicate EndsWith(s: string, suffix: string)
  {
    |suffix| <= |s| && s[|s| - |suffix|..] == suffix
  }

  /** `s` without the given trailing suffix. */
  function DropSuffix(s: string, suffix: string): (r: string)
    requires EndsWith(s, suffix)
    ensures r + suffix == s
  {
    s[..|s| - |suffix|]
  }

  /** The names joined with the separator between them: `path.join` for plain names. */
  function JoinWith(sep: char, names: seq<string>): (r: string)
    ensures names == [] ==> r == []
    ensures |names| == 1 ==> r == names[0]
  {
    if |names| <= 1 then (if names == [] then [] else names[0])
    else JoinWith(sep, names[..|names| - 1]) + [sep] + names[|names| - 1]
  }

  /** `s.replace(/\\/g, '/')`: every backslash becomes a forward slash. */
  function SlashNormalize(s: string): (r: string)
    ensures |r| == |s|
    ensures forall i :: 0 <= i < |s| ==> r[i] == (if s[i] == '\\' then '/' else s[i])
    ensures '\\' !in r
  {
    if s == [] then []
    else SlashNormalize(s[..|s| - 1]) + [if s[|s| - 1] == '\\' then '/' else s[|s| - 1]]
  }

  /** Normalising a string that has no backslash leaves it as it is. */
  lemma SlashNormalizeNoBackslash(s: string)
    requires '\\' !in s
    ensures SlashNormalize(s) == s
  {
    var r := SlashNormalize(s);
    forall i | 0 <= i < |s| ensures r[i] == s[i] {
      assert s[i] in s;
    }
  }

  /** Joining with a backslash and then normalising gives the forward-slash join,
      as long as no name holds a backslash of its own. */
  lemma {:induction false} NormalizedJoinIsSlashJoin(sep: char, names: seq<string>)
    requires sep == '/' || sep == '\\'
    requires forall i :: 0 <= i < |names| ==> '\\' !in names[i]
    ensures SlashNormalize(JoinWith(sep, names)) == JoinWith('/', names)
  {
    var r := SlashNormalize(JoinWith(sep, names));
    var w := JoinWith('/', names);
    SameShapeJoin(sep, names);
    forall i | 0 <= i < |w| ensures r[i] == w[i] {
      JoinAt(sep, names, i);
    }
  }

  lemma {:induction false} SameShapeJoin(sep: char, names: seq<string>)
    ensures |JoinWith(sep, names)| == |JoinWith('/', names)|
  {
    if |names| > 1 {
      SameShapeJoin(sep, names[..|names| - 1]);
    }
  }

  /** Position by position, the join with `sep` and the join with '/' differ only where
      one holds the separator. */
  lemma {:induction false} JoinAt(sep: char, names: seq<string>, i: nat)
    requires sep == '/' || sep == '\\'
    requires forall k :: 0 <= k < |names| ==> '\\' !in names[k]
    requires i < |JoinWith('/', names)|
    ensures |JoinWith(sep, names)| == |JoinWith('/', names)|
    ensures SlashNormalize(JoinWith(sep, names))[i] == JoinWith('/', names)[i]
  {
    SameShapeJoin(sep, names);
    if |names| > 1 {
      var init := names[..|names| - 1];
      var last := names[|names| - 1];
      assert '\\' !in last;
      var a := JoinWith(sep, init);
      var b := JoinWith('/', init);
      SameShapeJoin(sep, init);
      if i < |a| {
        JoinAt(sep, init, i);
        assert JoinWith(sep, names)[i] == a[i];
        assert JoinWith('/', names)[i] == b[i];
      } else if i > |a| {
        assert JoinWith(sep, names)[i] == last[i - |a| - 1];
        assert JoinWith('/', names)[i] == last[i - |a| - 1];
        assert last[i - |a| - 1] in last;
      }
    } else if |names| == 1 {
      assert names[0][i] in names[0];
    }
  }
}

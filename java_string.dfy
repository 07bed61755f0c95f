/**
 * The java.lang.String operations the registry facade relies on. A string is
 * a sequence of Dafny chars (Unicode scalar values) where Java has UTF-16
 * code units; the two differ only outside the Basic Multilingual Plane and
 * for lone surrogates, and every operation here only compares characters
 * against ASCII ones.
 */
module JavaString {
  import opened Wrappers

  /** The text string concatenation produces for a possibly-null reference. */
  function Str(s: Option<string>): string
  {
    match s
    case None => "null"
    case Some(v) => v
  }

  /** A character String.trim() strips: any character up to and including U+0020. */
  predicate Blank(c: char)
  {
    c <= ' '
  }

  /** Neither end of `s` is a blank character. */
  predicate Trimmed(s: string)
  {
    s == [] || (!Blank(s[0]) && !Blank(s[|s| - 1]))
  }

  /** Drops the leading blanks. */
  function TrimStart(s: string): (r: string)
    ensures |r| <= |s| && r == s[|s| - |r|..]
    ensures forall k :: 0 <= k < |s| - |r| ==> Blank(s[k])
    ensures r == [] || !Blank(r[0])
  {
    if |s| > 0 && Blank(s[0]) then TrimStart(s[1..]) else s
  }

  /** Drops the trailing blanks. */
  function TrimEnd(s: string): (r: string)
    ensures |r| <= |s| && r == s[..|r|]
    ensures forall k :: |r| <= k < |s| ==> Blank(s[k])
    ensures r == [] || !Blank(r[|r| - 1])
  {
    if |s| > 0 && Blank(s[|s| - 1]) then TrimEnd(s[..|s| - 1]) else s
  }

  /** Every character of `s` is blank. */
  predicate AllBlank(s: string)
  {
    forall k :: 0 <= k < |s| ==> Blank(s[k])
  }

  /**
   * A prefix `r` of a suffix `t` of `s`, where what `t` cuts from `s` and what
   * `r` cuts from `t` is blank, is a slice of `s` with only blanks outside it.
   */
  lemma BlankFramedSlice(s: string, t: string, r: string)
    requires |t| <= |s| && t == s[|s| - |t|..]
    requires forall k :: 0 <= k < |s| - |t| ==> Blank(s[k])
    requires |r| <= |t| && r == t[..|r|]
    requires forall k :: |r| <= k < |t| ==> Blank(t[k])
    ensures var i := |s| - |t|;
      && r == s[i..i + |r|]
      && AllBlank(s[..i])
      && AllBlank(s[i + |r|..])
  {
    var i := |s| - |t|;
    assert s[i..i + |r|] == t[..|r|];
    var rest := s[i + |r|..];
    forall k | 0 <= k < |rest| ensures Blank(rest[k]) {
      assert rest[k] == t[|r| + k];
    }
  }

  /** A text made of a blank prefix and a blank suffix is blank. */
  lemma AllBlankSplit(s: string, i: nat)
    requires i <= |s|
    requires AllBlank(s[..i]) && AllBlank(s[i..])
    ensures AllBlank(s)
  {
    forall k | 0 <= k < |s| ensures Blank(s[k]) {
      if k < i { assert s[k] == s[..i][k]; } else { assert s[k] == s[i..][k - i]; }
    }
  }

  /** String.trim(): `s` without the blanks at both ends. */
  function Trim(s: string): (r: string)
    ensures Trimmed(r)
    ensures r == [] <==> AllBlank(s)
    ensures exists i, j :: 0 <= i <= j <= |s| && r == s[i..j] && AllBlank(s[..i]) && AllBlank(s[j..])
  {
    var t := TrimStart(s);
    var r := TrimEnd(t);
    BlankFramedSlice(s, t, r);
    assert r != [] ==> !Blank(r[0]) by {
      if r != [] { assert r[0] == t[0]; }
    }
    assert r == [] ==> AllBlank(s) by {
      if r == [] { AllBlankSplit(s, |s| - |t|); }
    }
    r
  }

  /** Trimming a string that has no blank at either end gives it back. */
  lemma TrimmedIsFixpoint(s: string)
    requires Trimmed(s)
    ensures Trim(s) == s
  {
  }

  /** Trimming twice is trimming once. */
  lemma TrimIdempotent(s: string)
    ensures Trim(Trim(s)) == Trim(s)
  {
    TrimmedIsFixpoint(Trim(s));
  }

  /** String.startsWith. */
  predicate StartsWith(s: string, prefix: string)
  {
    |prefix| <= |s| && s[..|prefix|] == prefix
  }

  /** String.endsWith. */
  predicate EndsWith(s: string, suffix: string)
  {
    |suffix| <= |s| && s[|s| - |suffix|..] == suffix
  }

  /** `target` occurs in `s` starting at index `i`. */
  predicate OccursAt(s: string, target: string, i: nat)
  {
    i + |target| <= |s| && s[i..i + |target|] == target
  }

  /**
   * String.replace(target, replacement) for a non-empty target: every
   * occurrence of `target`, scanning left to right, is replaced; the
   * replacement text itself is not scanned again.
   */
  function Replace(s: string, target: string, replacement: string): string
    requires target != []
    decreases |s|
  {
    if |s| < |target| then s
    else if s[..|target|] == target then replacement + Replace(s[|target|..], target, replacement)
    else [s[0]] + Replace(s[1..], target, replacement)
  }

  /** A prefix in which no occurrence of `target` starts passes through Replace unchanged. */
  lemma {:induction false} ReplaceSkipsPrefix(a: string, b: string, target: string, replacement: string)
    requires target != []
    requires forall i :: 0 <= i < |a| ==> !OccursAt(a + b, target, i)
    ensures Replace(a + b, target, replacement) == a + Replace(b, target, replacement)
  {
    if a == [] {
      assert a + b == b;
    } else if |a + b| < |target| {
      assert |b| < |target|;
    } else {
      assert !OccursAt(a + b, target, 0);
      assert (a + b)[1..] == a[1..] + b;
      forall i | 0 <= i < |a[1..]|
        ensures !OccursAt(a[1..] + b, target, i)
      {
        assert !OccursAt(a + b, target, i + 1);
        if i + |target| <= |a[1..] + b| {
          assert (a[1..] + b)[i..i + |target|] == (a + b)[i + 1..i + 1 + |target|];
        }
      }
      ReplaceSkipsPrefix(a[1..], b, target, replacement);
      assert [a[0]] + (a[1..] + Replace(b, target, replacement)) == a + Replace(b, target, replacement);
    }
  }

  /** A text in which `target` does not occur is left unchanged. */
  lemma ReplaceWithoutTarget(s: string, target: string, replacement: string)
    requires target != []
    requires forall i :: 0 <= i < |s| ==> !OccursAt(s, target, i)
    ensures Replace(s, target, replacement) == s
  {
    assert s + [] == s;
    ReplaceSkipsPrefix(s, [], target, replacement);
  }

  /**
   * Replacing a target that occurs once, after a prefix that does not hold
   * its first character, and before a tail too short to hold it again.
   */
  lemma ReplaceSingle(prefix: string, target: string, tail: string, replacement: string)
    requires target != [] && |tail| < |target|
    requires target[0] !in prefix
    ensures Replace(prefix + target + tail, target, replacement) == prefix + replacement + tail
  {
    var s := prefix + target + tail;
    assert s == prefix + (target + tail);
    forall i | 0 <= i < |prefix|
      ensures !OccursAt(s, target, i)
    {
      assert s[i] == prefix[i];
    }
    ReplaceSkipsPrefix(prefix, target + tail, target, replacement);
    assert (target + tail)[..|target|] == target;
    assert (target + tail)[|target|..] == tail;
  }
}

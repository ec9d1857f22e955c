/**
 The operations on Python `str` that the artifact-name parser calls:
 `startswith`, `endswith`, `split(sep)[-1]` and `rsplit(sep, maxsplit)`.
 `LastIndex` (the position of the last separator) is a helper that both
 splits use, and `Join` (`sep.join`) is the inverse by which `RSplit` is
 specified. Strings are sequences of characters.
 */
module Text {
  import opened Wrappers

  /** `s.startswith(prefix)`: `s` agrees with `prefix` on all of its positions. */
  predicate StartsWith(s: string, prefix: string)
    ensures StartsWith(s, prefix) <==>
              |prefix| <= |s| && forall i :: 0 <= i < |prefix| ==> s[i] == prefix[i]
  {
    |prefix| <= |s| && s[..|prefix|] == prefix
  }

  /** `s.endswith(suffix)`: the last `|suffix|` characters of `s` are those of `suffix`. */
  predicate EndsWith(s: string, suffix: string)
    ensures EndsWith(s, suffix) <==>
              |suffix| <= |s| && forall i :: 0 <= i < |suffix| ==> s[|s| - |suffix| + i] == suffix[i]
  {
    |suffix| <= |s| && s[|s| - |suffix|..] == suffix
  }

  /** Removing a suffix a string ends with and putting it back gives the string. */
  lemma EndsWithSplit(s: string, suffix: string)
    requires EndsWith(s, suffix)
    ensures s[..|s| - |suffix|] + suffix == s
  {
    assert s == s[..|s| - |suffix|] + s[|s| - |suffix|..];
  }

  /** Appending to a string keeps its prefixes. */
  lemma StartsWithAppend(s: string, prefix: string, more: string)
    requires StartsWith(s, prefix)
    ensures StartsWith(s + more, prefix)
  {
    assert (s + more)[..|prefix|] == s[..|prefix|];
  }

  /** No two occurrences of `c` in `s`. */
  predicate AtMostOnce(s: string, c: char) {
    forall i, j :: 0 <= i < j < |s| && s[i] == c ==> s[j] != c
  }

  /** Position of the last occurrence of `c` in `s` (`s.rfind(c)`, with None for -1). */
  function LastIndex(s: string, c: char): (r: Option<nat>)
    ensures r.Some? ==> r.value < |s| && s[r.value] == c && c !in s[r.value + 1..]
    ensures r.None? <==> c !in s
  {
    if |s| == 0 then None
    else if s[|s| - 1] == c then Some(|s| - 1)
    else
      var r := LastIndex(s[..|s| - 1], c);
      assert s == s[..|s| - 1] + [s[|s| - 1]];
      r
  }

  /** The last occurrence is the only one with no further occurrence after it. */
  lemma LastIndexAt(s: string, c: char, k: nat)
    requires k < |s| && s[k] == c && c !in s[k + 1..]
    ensures LastIndex(s, c) == Some(k)
  {
    assert s[k] == c;
  }

  /** `s.split(c)[-1]`: the text after the last `c`, or all of `s` when it has none. */
  function AfterLast(s: string, c: char): (r: string)
    ensures c !in r
    ensures EndsWith(s, r)
    ensures c in s ==> EndsWith(s, [c] + r)
    ensures c !in s ==> r == s
  {
    match LastIndex(s, c)
    case None => s
    case Some(k) =>
      assert s[|s| - |s[k + 1..]| - 1..] == [c] + s[k + 1..];
      s[k + 1..]
  }

  /** `sep.join(parts)`, written from the right to mirror `RSplit`. */
  function Join(parts: seq<string>, sep: char): string
    requires |parts| >= 1
  {
    if |parts| == 1 then parts[0]
    else Join(parts[..|parts| - 1], sep) + [sep] + parts[|parts| - 1]
  }

  /**
   `s.rsplit(sep, maxsplit)`: split at the `maxsplit` rightmost occurrences of
   `sep` (fewer when `s` has fewer). Joining the parts gives `s` back, and
   only the first part can still hold `sep`.
   */
  function RSplit(s: string, sep: char, maxsplit: nat): (parts: seq<string>)
    ensures 1 <= |parts| <= maxsplit + 1
    ensures Join(parts, sep) == s
    ensures forall i :: 0 < i < |parts| ==> sep !in parts[i]
    ensures |parts| <= maxsplit ==> sep !in parts[0]
  {
    if maxsplit == 0 then [s]
    else
      match LastIndex(s, sep)
      case None => [s]
      case Some(k) =>
        var front := RSplit(s[..k], sep, maxsplit - 1);
        var parts := front + [s[k + 1..]];
        assert parts[..|parts| - 1] == front;
        assert s == s[..k] + [sep] + s[k + 1..];
        parts
  }

  /** Three fields come out of `rsplit(sep, 2)` exactly when `s` holds `sep` twice. */
  lemma {:induction false} RSplitThreeFields(s: string, sep: char)
    ensures |RSplit(s, sep, 2)| == 3 <==> !AtMostOnce(s, sep)
  {
    var parts := RSplit(s, sep, 2);
    if |parts| == 1 {
      assert s == parts[0];
      assert sep !in s;
    } else if |parts| == 2 {
      assert parts[..1] == [parts[0]];
      assert s == parts[0] + [sep] + parts[1];
      forall i, j | 0 <= i < j < |s| && s[i] == sep
        ensures s[j] != sep
      {
        if j > |parts[0]| {
          assert parts[1][j - |parts[0]| - 1] == s[j];
        }
      }
    } else {
      assert parts[..2][..1] == [parts[0]];
      assert Join(parts[..2], sep) == parts[0] + [sep] + parts[1];
      assert s == parts[0] + [sep] + parts[1] + [sep] + parts[2];
      var i, j := |parts[0]|, |parts[0]| + 1 + |parts[1]|;
      assert s[i] == sep && s[j] == sep;
    }
  }

  /** A string with two separators determines the fields of `rsplit(sep, 2)`. */
  lemma {:induction false} RSplitOfThree(a: string, b: string, c: string, sep: char)
    requires sep !in b && sep !in c
    ensures RSplit(a + [sep] + b + [sep] + c, sep, 2) == [a, b, c]
  {
    var s := a + [sep] + b + [sep] + c;
    var k := |a| + 1 + |b|;
    assert s[k + 1..] == c;
    LastIndexAt(s, sep, k);
    assert s[..k] == a + [sep] + b;
    assert s[..k][|a| + 1..] == b;
    LastIndexAt(s[..k], sep, |a|);
    assert s[..k][..|a|] == a;
  }
}

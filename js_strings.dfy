/**
 * The few JavaScript string operations the loader relies on, written out over
 * `seq<char>`: `String.prototype.indexOf`, `replace` with a string pattern (which
 * replaces only the first occurrence), `endsWith`, and the anchored regular
 * expression `/^(\.?\/)/` that strips one leading "./" or "/".
 */
module JsStrings {
  import opened Wrappers

  /** `pat` occurs in `s` starting at index `i`. */
  predicate OccursAt(s: string, pat: string, i: int) {
    0 <= i && i + |pat| <= |s| && s[i..i + |pat|] == pat
  }

  predicate StartsWith(s: string, prefix: string) {
    |prefix| <= |s| && s[..|prefix|] == prefix
  }

  predicate EndsWith(s: string, suffix: string) {
    |suffix| <= |s| && s[|s| - |suffix|..] == suffix
  }

  /** `pat` does not occur in `s` at all. */
  predicate Absent(s: string, pat: string) {
    forall j :: 0 <= j <= |s| ==> !OccursAt(s, pat, j)
  }

  /** `i` is where `pat` first occurs in `s`. */
  predicate FirstOccurrence(s: string, pat: string, i: int) {
    OccursAt(s, pat, i) && forall j :: 0 <= j < i ==> !OccursAt(s, pat, j)
  }

  /** The first index at or after `k` where `pat` occurs in `s`. */
  function IndexOfFrom(s: string, pat: string, k: nat): (r: Option<nat>)
    requires k <= |s|
    ensures r.Some? ==> k <= r.value && r.value + |pat| <= |s|
    decreases |s| - k
  {
    if k + |pat| > |s| then None
    else if s[k..k + |pat|] == pat then Some(k)
    else IndexOfFrom(s, pat, k + 1)
  }

  lemma {:induction false} IndexOfFromSpec(s: string, pat: string, k: nat)
    requires k <= |s|
    ensures var r := IndexOfFrom(s, pat, k);
            && (r.Some? ==> k <= r.value && OccursAt(s, pat, r.value))
            && (r.Some? ==> forall j :: k <= j < r.value ==> !OccursAt(s, pat, j))
            && (r.None? ==> forall j :: k <= j ==> !OccursAt(s, pat, j))
    decreases |s| - k
  {
    if k + |pat| <= |s| && s[k..k + |pat|] != pat {
      IndexOfFromSpec(s, pat, k + 1);
    }
  }

  /** `s.indexOf(pat)`: the first occurrence of `pat` in `s`, if any. */
  function IndexOf(s: string, pat: string): (r: Option<nat>)
    ensures r.Some? ==> r.value + |pat| <= |s|
  {
    IndexOfFrom(s, pat, 0)
  }

  /** `indexOf` finds the first occurrence, and finds none exactly when there is none. */
  lemma IndexOfSpec(s: string, pat: string)
    ensures IndexOf(s, pat).Some? ==> FirstOccurrence(s, pat, IndexOf(s, pat).value)
    ensures IndexOf(s, pat).None? <==> Absent(s, pat)
  {
    IndexOfFromSpec(s, pat, 0);
  }

  /** `s.replace(pat, "")` for a string `pat`: the first occurrence of `pat` is cut out. */
  function RemoveFirst(s: string, pat: string): string {
    match IndexOf(s, pat)
    case None => s
    case Some(i) => s[..i] + s[i + |pat|..]
  }

  /** Without an occurrence nothing changes; otherwise exactly the first occurrence is cut out. */
  lemma RemoveFirstSpec(s: string, pat: string)
    ensures Absent(s, pat) ==> RemoveFirst(s, pat) == s
    ensures forall i :: FirstOccurrence(s, pat, i) ==> RemoveFirst(s, pat) == s[..i] + s[i + |pat|..]
  {
    IndexOfSpec(s, pat);
    forall i | FirstOccurrence(s, pat, i)
      ensures IndexOf(s, pat) == Some(i)
    {
    }
  }

  /** `s.replace(/^(\.?\/)/, "")`. */
  function StripDotSlash(s: string): string {
    if |s| >= 2 && s[0] == '.' && s[1] == '/' then s[2..]
    else if |s| >= 1 && s[0] == '/' then s[1..]
    else s
  }

  /** At most one leading "./" or "/" is dropped, and the string is unchanged only when it has neither. */
  lemma StripDotSlashSpec(s: string)
    ensures var r := StripDotSlash(s);
            && (s == "./" + r || s == "/" + r || r == s)
            && (r == s <==> !StartsWith(s, "./") && !StartsWith(s, "/"))
  {
    var r := StripDotSlash(s);
    if |s| >= 2 && s[0] == '.' && s[1] == '/' {
      assert s == "./" + r;
    } else if |s| >= 1 && s[0] == '/' {
      assert s == "/" + r;
    }
  }

  /** A prefix is its own first occurrence, so removing it leaves the rest. */
  lemma RemoveFirstOfPrefix(prefix: string, rest: string)
    ensures RemoveFirst(prefix + rest, prefix) == rest
  {
    var s := prefix + rest;
    assert s[0..|prefix|] == prefix;
    assert OccursAt(s, prefix, 0);
    assert FirstOccurrence(s, prefix, 0);
    RemoveFirstSpec(s, prefix);
  }

  /** When `pat` first occurs right after `before`, cutting it out joins `before` and what follows. */
  lemma RemoveFirstAt(before: string, pat: string, after: string)
    requires forall j :: 0 <= j < |before| ==> !OccursAt(before + pat + after, pat, j)
    ensures RemoveFirst(before + pat + after, pat) == before + after
  {
    var s := before + pat + after;
    assert s[|before|..|before| + |pat|] == pat;
    assert FirstOccurrence(s, pat, |before|);
    RemoveFirstSpec(s, pat);
    assert s[..|before|] == before;
    assert s[|before| + |pat|..] == after;
  }

  /**
   * Cutting `name` out of `dir + name` gives `dir` when `name` does not already
   * occur earlier in the key.
   */
  lemma RemoveFirstOfTrailingName(dir: string, name: string)
    requires forall j :: 0 <= j < |dir| ==> !OccursAt(dir + name, name, j)
    ensures RemoveFirst(dir + name, name) == dir
  {
    assert dir + name + [] == dir + name;
    RemoveFirstAt(dir, name, []);
    assert dir + [] == dir;
  }

  /** The last character of a string is the last character of each of its non-empty suffixes. */
  lemma EndsWithLast(s: string, suffix: string)
    requires EndsWith(s, suffix) && |suffix| > 0
    ensures s[|s| - 1] == suffix[|suffix| - 1]
  {
    assert s[|s| - |suffix|..][|suffix| - 1] == s[|s| - 1];
  }
}

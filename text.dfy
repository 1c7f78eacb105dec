/** String helpers shared by the server model: the JavaScript string operations
    the request handlers use (`indexOf`, `replace` with a string pattern,
    `slice(1)`, `split('?')[0]`, and a global newline-stripping regex). */
module Text {

  datatype Option<+T> = None | Some(value: T)

  predicate StartsWith(s: string, p: string) {
    |p| <= |s| && s[..|p|] == p
  }

  predicate EndsWith(s: string, p: string) {
    |p| <= |s| && s[|s| - |p|..] == p
  }

  /** `pat` occurs in `s` starting at index `i`. */
  predicate OccursAt(s: string, pat: string, i: int) {
    0 <= i && i + |pat| <= |s| && s[i..i + |pat|] == pat
  }

  /** `i` is the leftmost occurrence of `pat` in `s`. */
  predicate FirstOccurrence(s: string, pat: string, i: int) {
    OccursAt(s, pat, i) && forall j :: 0 <= j < i ==> !OccursAt(s, pat, j)
  }

  /** `indexOf` from position `from` on. */
  function IndexFrom(s: string, pat: string, from: nat): (r: Option<nat>)
    requires from <= |s|
    ensures r.Some? ==> from <= r.value && OccursAt(s, pat, r.value)
    ensures r.Some? ==> forall j :: from <= j < r.value ==> !OccursAt(s, pat, j)
    ensures r.None? ==> forall j :: from <= j <= |s| ==> !OccursAt(s, pat, j)
    decreases |s| - from
  {
    if OccursAt(s, pat, from) then Some(from)
    else if from == |s| then None
    else IndexFrom(s, pat, from + 1)
  }

  /** `s.indexOf(pat)`, with `None` for -1. */
  function IndexOf(s: string, pat: string): (r: Option<nat>)
    ensures r.Some? <==> exists j :: OccursAt(s, pat, j)
    ensures r.Some? ==> FirstOccurrence(s, pat, r.value)
  {
    IndexFrom(s, pat, 0)
  }

  /** `s.replace(pat, rep)` with a string pattern and a replacement without `$`:
      only the leftmost occurrence is replaced. */
  function ReplaceFirst(s: string, pat: string, rep: string): (r: string)
    ensures forall i :: FirstOccurrence(s, pat, i) ==> r == s[..i] + rep + s[i + |pat|..]
    ensures (forall j :: !OccursAt(s, pat, j)) ==> r == s
  {
    match IndexOf(s, pat)
    case Some(i) => s[..i] + rep + s[i + |pat|..]
    case None => s
  }

  /** `s.slice(1)`. */
  function Drop1(s: string): (r: string)
    ensures |r| == if s == [] then 0 else |s| - 1
    ensures forall k :: 0 <= k < |r| ==> r[k] == s[k + 1]
  {
    if s == [] then [] else s[1..]
  }

  /** `url.split('?')[0]`, which is also the path Koa matches routes against
      for a URL without `#` or whitespace. */
  function PathOf(url: string): (p: string)
    ensures StartsWith(url, p)
    ensures '?' !in p
    ensures |p| == |url| || url[|p|] == '?'
  {
    if url == [] || url[0] == '?' then []
    else [url[0]] + PathOf(url[1..])
  }

  /** The path of a URL whose first part holds no `?` starts with that part. */
  lemma {:induction false} PathOfAppend(a: string, b: string)
    requires '?' !in a
    ensures PathOf(a + b) == a + PathOf(b)
  {
    if a != [] {
      assert (a + b)[0] == a[0] && (a + b)[1..] == a[1..] + b;
      PathOfAppend(a[1..], b);
      assert a == [a[0]] + a[1..];
    } else {
      assert a + b == b;
    }
  }

  lemma PathOfQueryFree(url: string)
    requires '?' !in url
    ensures PathOf(url) == url
  {
    PathOfAppend(url, []);
    assert url + [] == url;
  }

  /** `s.replace(/\n/g, '')`: every line feed removed, nothing else touched. */
  function StripNewlines(s: string): (r: string)
    ensures '\n' !in r
    ensures multiset(r) == multiset(s)['\n' := 0]
  {
    if s == [] then []
    else
      assert s == [s[0]] + s[1..];
      if s[0] == '\n' then StripNewlines(s[1..])
      else [s[0]] + StripNewlines(s[1..])
  }

  lemma {:induction false} StripNewlinesConcat(a: string, b: string)
    ensures StripNewlines(a + b) == StripNewlines(a) + StripNewlines(b)
  {
    if a != [] {
      assert (a + b)[0] == a[0] && (a + b)[1..] == a[1..] + b;
      StripNewlinesConcat(a[1..], b);
    } else {
      assert a + b == b;
    }
  }

  lemma {:induction false} StripNewlinesKeepsLineFree(s: string)
    requires '\n' !in s
    ensures StripNewlines(s) == s
  {
    if s != [] {
      assert s == [s[0]] + s[1..];
      StripNewlinesKeepsLineFree(s[1..]);
    }
  }

  lemma {:induction false} StripNewlinesDropsLineFeed(a: string, b: string)
    ensures StripNewlines(a + ['\n'] + b) == StripNewlines(a) + StripNewlines(b)
  {
    var s := a + ['\n'] + b;
    if a == [] {
      assert s[0] == '\n' && s[1..] == b;
    } else {
      assert s[0] == a[0] && s[1..] == a[1..] + ['\n'] + b;
      StripNewlinesDropsLineFeed(a[1..], b);
    }
  }

  /** Any character other than a line feed occurs after the removal exactly
      when it occurs before. */
  lemma StripNewlinesKeepsOthers(s: string, c: char)
    requires c != '\n'
    ensures c in StripNewlines(s) <==> c in s
  {
    assert multiset(StripNewlines(s))[c] == multiset(s)[c];
  }

  /** A sequence is its prefix, one element and its suffix. */
  lemma SplitAt<T>(s: seq<T>, k: nat)
    requires k < |s|
    ensures s == s[..k] + [s[k]] + s[k + 1..]
  {
  }
}

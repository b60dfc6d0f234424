/**
 The string functions of the Python standard library that `download` uses to
 turn an image URL into a file name: the path part of `urllib.parse.urlsplit`,
 `posixpath.basename`, `str.split(c)[0]`, `os.path.splitext` and
 `os.path.join`, on POSIX.
 */
module Paths {
  import opened Wrappers

  /** The first index at or after `from` whose character is in `cs`, or `|s|` when there is none. */
  function FindAny(s: string, cs: set<char>, from: nat): (i: nat)
    requires from <= |s|
    ensures from <= i <= |s|
    ensures i < |s| ==> s[i] in cs
    ensures forall j :: from <= j < i ==> s[j] !in cs
    decreases |s| - from
  {
    if from == |s| then |s|
    else if s[from] in cs then from
    else FindAny(s, cs, from + 1)
  }

  /** `s.rfind(c)`: the index of the last `c` in `s`, or -1. */
  function RFind(s: string, c: char): (i: int)
    ensures -1 <= i < |s|
    ensures 0 <= i ==> s[i] == c
    ensures forall j :: i < j < |s| ==> s[j] != c
  {
    if |s| == 0 then -1
    else if s[|s| - 1] == c then |s| - 1
    else RFind(s[..|s| - 1], c)
  }

  /** `s.split(c)[0]` (and `s.split(c, 1)[0]`): the longest prefix of `s` free of `c`. */
  function Before(s: string, c: char): (r: string)
    ensures r <= s
    ensures c !in r
    ensures |r| < |s| ==> s[|r|] == c
  {
    s[..FindAny(s, {c}, 0)]
  }

  predicate IsAsciiLetter(c: char) {
    'a' <= c <= 'z' || 'A' <= c <= 'Z'
  }

  /** The characters `urllib.parse` allows in a scheme name. */
  predicate IsSchemeChar(c: char) {
    IsAsciiLetter(c) || '0' <= c <= '9' || c == '+' || c == '-' || c == '.'
  }

  /** What `urlsplit` keeps after taking off a `scheme:` prefix, if the URL has one. */
  function AfterScheme(url: string): (rest: string)
    ensures |rest| <= |url| && url[|url| - |rest|..] == rest
  {
    var i := FindAny(url, {':'}, 0);
    if 0 < i < |url| && IsAsciiLetter(url[0]) && forall j :: 0 <= j < i ==> IsSchemeChar(url[j])
    then url[i + 1..]
    else url
  }

  /** Where `urlsplit` starts reading after taking off the scheme. */
  function RestStart(url: string): (i: nat)
    ensures i <= |url| && url[i..] == AfterScheme(url)
  {
    |url| - |AfterScheme(url)|
  }

  /** After the scheme the URL continues with `//`, so a network location follows. */
  predicate HasNetloc(url: string) {
    RestStart(url) + 2 <= |url| && url[RestStart(url)..RestStart(url) + 2] == "//"
  }

  /**
   The index where the path of `urlsplit(url)` starts: the end of the network
   location, which runs from after the `//` to the first `/`, `?` or `#`; the
   start of the rest when there is no `//`.
   */
  function NetlocEnd(url: string): (e: nat)
    ensures RestStart(url) <= e <= |url|
    ensures !HasNetloc(url) ==> e == RestStart(url)
    ensures HasNetloc(url) ==>
              && RestStart(url) + 2 <= e
              && (forall j :: RestStart(url) + 2 <= j < e ==> url[j] !in {'/', '?', '#'})
              && (e < |url| ==> url[e] in {'/', '?', '#'})
  {
    if HasNetloc(url) then FindAny(url, {'/', '?', '#'}, RestStart(url) + 2) else RestStart(url)
  }

  /** The `netloc` field of `urlsplit(url)`, empty when the URL has no `//` after its scheme. */
  function Netloc(url: string): (n: string)
    ensures '/' !in n && '?' !in n && '#' !in n
    ensures HasNetloc(url) ==>
              var s := RestStart(url);
              && s + 2 + |n| <= |url|
              && url[s..s + 2 + |n|] == "//" + n
              && (s + 2 + |n| < |url| ==> url[s + 2 + |n|] in {'/', '?', '#'})
    ensures !HasNetloc(url) ==> n == ""
  {
    if HasNetloc(url) then url[RestStart(url) + 2..NetlocEnd(url)] else ""
  }

  /** The error `urlsplit` raises; both are a `ValueError`. */
  datatype UrlError =
    | InvalidIPv6Url          // a network location with `[` but no `]`, or `]` but no `[`
    | InvalidNetlocCharacters // a network location that NFKC normalization turns into one with `/?#@:`

  /** `unicodedata.normalize('NFKC', s)`, which the model takes as given. */
  type Normalizer = string -> string

  /** `s.isascii()`. */
  predicate IsAscii(s: string) {
    forall c :: c in s ==> (c as int) < 128
  }

  /** `s` with every character of `cs` removed (`s.replace(c, '')` for each `c`). */
  function Without(s: string, cs: set<char>): (r: string)
    ensures |r| <= |s|
    ensures forall c :: c in r <==> c in s && c !in cs
  {
    if |s| == 0 then ""
    else
      var rest := Without(s[1..], cs);
      assert forall c :: c in s <==> c == s[0] || c in s[1..];
      if s[0] in cs then rest else [s[0]] + rest
  }

  /** A network location holding only one kind of bracket. */
  predicate UnmatchedBracket(netloc: string) {
    ('[' in netloc) != (']' in netloc)
  }

  /**
   `_checknetloc` in `urllib.parse`: a non-ASCII network location whose NFKC
   form, after dropping the `@:#?` it already holds, changes and then holds a
   character of `/?#@:`.
   */
  predicate NfkcRejects(netloc: string, nfkc: Normalizer) {
    && netloc != ""
    && !IsAscii(netloc)
    && var n := Without(netloc, {'@', ':', '#', '?'});
       var m := nfkc(n);
       n != m && ('/' in m || '?' in m || '#' in m || '@' in m || ':' in m)
  }

  /** The path `p` sits in `url` at `i`, and what follows it there is nothing, a query or a fragment. */
  ghost predicate PathAt(url: string, p: string, i: int) {
    0 <= i <= |url| - |p| && url[i..i + |p|] == p
    && (i + |p| == |url| || url[i + |p|] in {'?', '#'})
  }

  /** What is left of `s` once the fragment (first `#`) and then the query (first `?`) are cut off. */
  function CutQueryAndFragment(s: string): (p: string)
    ensures p <= s
    ensures '?' !in p && '#' !in p
    ensures |p| < |s| ==> s[|p|] in {'?', '#'}
  {
    Before(Before(s, '#'), '?')
  }

  /**
   The `path` field of `urllib.parse.urlsplit(url)` (bbid.py:48): the text
   from the end of the network location up to the first `?` or `#`. The
   network location raises `ValueError` when it holds an unmatched bracket,
   and when `_checknetloc` rejects it.
   */
  function UrlPath(url: string, nfkc: Normalizer): (r: Result<string, UrlError>)
    ensures r.Failure? <==> UnmatchedBracket(Netloc(url)) || NfkcRejects(Netloc(url), nfkc)
    ensures r.Failure? ==> (r.error == InvalidIPv6Url <==> UnmatchedBracket(Netloc(url)))
    ensures r.Success? ==> PathAt(url, r.value, NetlocEnd(url)) && '?' !in r.value && '#' !in r.value
    ensures '[' !in url && ']' !in url && IsAscii(url) ==> r.Success?
  {
    var netloc := Netloc(url);
    NetlocInUrl(url);
    if UnmatchedBracket(netloc) then
      Failure(InvalidIPv6Url)
    else if NfkcRejects(netloc, nfkc) then
      Failure(InvalidNetlocCharacters)
    else
      var e := NetlocEnd(url);
      var p := CutQueryAndFragment(url[e..]);
      PathInUrl(url, url[e..], p);
      Success(p)
  }

  /** The network location is part of the URL. */
  lemma NetlocInUrl(url: string)
    ensures forall c :: c in Netloc(url) ==> c in url
  {
    if HasNetloc(url) {
      SliceChars(url, RestStart(url) + 2, NetlocEnd(url));
    }
  }

  /** Every character of a slice is a character of the whole. */
  lemma SliceChars(s: string, i: nat, j: nat)
    requires i <= j <= |s|
    ensures forall c :: c in s[i..j] ==> c in s
  {
    forall c | c in s[i..j] ensures c in s {
      var m :| 0 <= m < j - i && s[i..j][m] == c;
      assert s[i + m] == c;
    }
  }

  /** The only path that sits at a given place is the text from there up to the first `?` or `#`. */
  lemma PathAtUnique(url: string, p: string, q: string, i: int)
    requires PathAt(url, p, i) && '?' !in p && '#' !in p
    requires PathAt(url, q, i) && '?' !in q && '#' !in q
    ensures p == q
  {
  }

  lemma PathInUrl(url: string, s: string, p: string)
    requires |s| <= |url| && url[|url| - |s|..] == s
    requires p <= s && (|p| < |s| ==> s[|p|] in {'?', '#'})
    ensures PathAt(url, p, |url| - |s|)
  {
    var i := |url| - |s|;
    assert url[i..i + |p|] == s[..|p|];
    if |p| < |s| {
      assert url[i + |p|] == s[|p|];
    }
  }

  /** `posixpath.basename(p)`: what follows the last `/`. */
  function BaseName(p: string): (b: string)
    ensures '/' !in b
    ensures |b| <= |p| && p[|p| - |b|..] == b
    ensures |b| < |p| ==> p[|p| - |b| - 1] == '/'
  {
    p[RFind(p, '/') + 1..]
  }

  /** `posixpath.join(a, b)` for two components. */
  function Join(a: string, b: string): (r: string)
    ensures |b| <= |r| && r[|r| - |b|..] == b
    ensures b != "" && b[0] == '/' ==> r == b
    ensures (b == "" || b[0] != '/') ==>
              && a <= r
              && |r| == |a| + |b| + (if a != "" && a[|a| - 1] != '/' then 1 else 0)
              && (a != "" && a[|a| - 1] != '/' ==> r[|a|] == '/')
  {
    if |b| > 0 && b[0] == '/' then b
    else if a == "" || a[|a| - 1] == '/' then a + b
    else a + "/" + b
  }

  /**
   Whether `p` has an extension in the sense of `os.path.splitext`: some dot in
   its last component comes after a character of that component that is not a
   dot. Leading dots (`.bashrc`, `..`) do not start an extension.
   */
  ghost predicate HasExtension(p: string) {
    exists j, k :: 0 <= k < j < |p| && p[j] == '.' && p[k] != '.' && '/' !in p[k..]
  }

  /** `os.path.splitext(p)` on POSIX: split at the last dot, unless only dots precede it in the last component. */
  function SplitExt(p: string): (r: (string, string))
    ensures r.0 + r.1 == p
    ensures r.1 != "" ==> r.1[0] == '.' && '.' !in r.1[1..] && '/' !in r.1
  {
    var sep := RFind(p, '/');
    var dot := RFind(p, '.');
    if sep < dot && exists k :: sep < k < dot && p[k] != '.'
    then (p[..dot], p[dot..])
    else (p, "")
  }

  /** `splitext` finds an extension exactly when the name has one, and a found extension is the text from the last dot. */
  lemma SplitExtCharacterized(p: string)
    ensures SplitExt(p).1 != "" <==> HasExtension(p)
    ensures SplitExt(p).1 != "" ==> SplitExt(p).1 == p[RFind(p, '.')..]
  {
    var sep := RFind(p, '/');
    var dot := RFind(p, '.');
    if SplitExt(p).1 != "" {
      var k :| sep < k < dot && p[k] != '.';
      assert '/' !in p[k..] by {
        forall m | 0 <= m < |p[k..]| ensures p[k..][m] != '/' {
          assert p[k..][m] == p[k + m];
        }
      }
      assert 0 <= k < dot < |p| && p[dot] == '.' && p[k] != '.';
    }
    if HasExtension(p) {
      var j, k :| 0 <= k < j < |p| && p[j] == '.' && p[k] != '.' && '/' !in p[k..];
      assert j <= dot;
      assert sep < k < dot && p[k] != '.';
    }
  }
}

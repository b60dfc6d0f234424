/**
 How `download` picks the file name for a URL (bbid.py:48-58): the desired
 name comes from the URL's basename, its stem cut to 36 characters; the
 reserved name is the first of `name.ext`, `name-1.ext`, `name-2.ext`, ...
 that neither exists in the output directory nor appears in the shared list.
 */
module Names {
  import opened Paths

  /** The stem of the desired name keeps at most this many characters (bbid.py:51). */
  const MaxStem := 36

  /** A desired file name, split as `os.path.splitext` split it. */
  datatype Desired = Desired(stem: string, ext: string)

  /** The file name bbid.py:49 takes from a URL path: its basename, cut at the first `?`. */
  function FileName(path: string): (f: string)
    ensures '/' !in f && '?' !in f
    ensures f <= BaseName(path)
    ensures |f| < |BaseName(path)| ==> BaseName(path)[|f|] == '?'
  {
    Before(BaseName(path), '?')
  }

  /**
   `d` is the desired name for file name `f`: the extension is the text from
   the last dot when `f` has one and empty otherwise, and the stem is the
   rest of `f` cut to `MaxStem` characters.
   */
  ghost predicate NamesFile(f: string, d: Desired) {
    && d.stem <= f
    && |d.stem| == (if |f| - |d.ext| <= MaxStem then |f| - |d.ext| else MaxStem)
    && |d.ext| <= |f| && f[|f| - |d.ext|..] == d.ext
    && (d.ext != "" <==> HasExtension(f))
    && (d.ext != "" ==> 0 <= RFind(f, '.') && d.ext == f[RFind(f, '.')..])
    && (|f| - |d.ext| <= MaxStem ==> d.stem + d.ext == f)
  }

  /** bbid.py:49-52: split the file name into stem and extension and truncate the stem. */
  function DesiredName(path: string): (d: Desired)
    ensures |d.stem| <= MaxStem
    ensures NamesFile(FileName(path), d)
  {
    var f := FileName(path);
    SplitTruncated(f);
    Desired(Truncate(SplitExt(f).0, MaxStem), SplitExt(f).1)
  }

  /** Splitting a file name and truncating its stem gives its desired name. */
  lemma SplitTruncated(f: string)
    ensures NamesFile(f, Desired(Truncate(SplitExt(f).0, MaxStem), SplitExt(f).1))
  {
    SplitExtCharacterized(f);
  }

  /** `s[:n]`: the first `n` characters of `s`, or all of them when it is shorter. */
  function Truncate(s: string, n: nat): (t: string)
    ensures t <= s && |t| == if |s| <= n then |s| else n
  {
    if |s| <= n then s else s[..n]
  }

  /** The character of a decimal digit. */
  function Digit(d: nat): char
    requires d < 10
  {
    (48 + d) as char
  }

  /** `str(n)` for a non-negative integer: its decimal digits, most significant first. */
  function Decimal(n: nat): (s: string)
    ensures |s| >= 1
    ensures forall i :: 0 <= i < |s| ==> '0' <= s[i] <= '9'
    ensures n > 0 ==> s[0] != '0'
    ensures |s| == 1 || s[0] != '0'
  {
    if n < 10 then [Digit(n)] else Decimal(n / 10) + [Digit(n % 10)]
  }

  /** The number a string of decimal digits denotes. */
  function ParseDecimal(s: string): nat
    requires forall i :: 0 <= i < |s| ==> '0' <= s[i] <= '9'
  {
    if |s| == 0 then 0 else 10 * ParseDecimal(s[..|s| - 1]) + (s[|s| - 1] as int - 48)
  }

  /** Reading back what `str` wrote gives the number. */
  lemma {:induction false} DecimalRoundTrip(n: nat)
    ensures ParseDecimal(Decimal(n)) == n
  {
    if n >= 10 {
      var s := Decimal(n);
      assert s[..|s| - 1] == Decimal(n / 10);
      DecimalRoundTrip(n / 10);
    }
  }

  /** The i-th name the search at bbid.py:54-57 tries: no suffix for 0, then `"%s-%d%s" % (name, i, ext)`. */
  function Candidate(stem: string, ext: string, i: nat): string {
    if i == 0 then stem + ext else stem + "-" + Decimal(i) + ext
  }

  /** Different indices give different names, so the search never retries a name. */
  lemma CandidateInjective(stem: string, ext: string, i: nat, j: nat)
    requires Candidate(stem, ext, i) == Candidate(stem, ext, j)
    ensures i == j
  {
    if i != 0 && j != 0 {
      var c := Candidate(stem, ext, i);
      assert c[|stem| + 1..|c| - |ext|] == Decimal(i);
      assert c[|stem| + 1..|c| - |ext|] == Decimal(j);
      DecimalRoundTrip(i);
      DecimalRoundTrip(j);
    }
  }

  /**
   `os.path.exists(os.path.join(dir, name))` for the existing directory `dir`
   whose entries are `files`: `.` and `..` always exist, and the empty name
   joins to the directory itself (which `exists` finds unless `dir` is empty).
   */
  predicate OnDisk(dir: string, files: set<string>, name: string) {
    name in files || name == "." || name == ".." || (name == "" && dir != "")
  }

  /** The loop condition at bbid.py:55; `shared` is the one list both `IN_PROGRESS` and `TRIED_URLs` name. */
  predicate Taken(dir: string, files: set<string>, shared: seq<string>, name: string) {
    OnDisk(dir, files, name) || name in shared
  }

  /** Every name `Taken` refuses, as one finite set. */
  ghost function TakenSet(dir: string, files: set<string>, shared: seq<string>): (t: set<string>)
    ensures forall name :: Taken(dir, files, shared, name) <==> name in t
  {
    files + {".", ".."} + (if dir != "" then {""} else {}) + set x | x in shared
  }

  /** The names the search has tried before index `i`. */
  ghost function Tried(stem: string, ext: string, i: nat): set<string> {
    set j | 0 <= j < i :: Candidate(stem, ext, j)
  }

  /** Each taken candidate shrinks the set of taken names not yet tried; this bounds the search. */
  lemma TriedShrinks(dir: string, files: set<string>, shared: seq<string>, stem: string, ext: string, i: nat)
    requires Taken(dir, files, shared, Candidate(stem, ext, i))
    ensures |TakenSet(dir, files, shared) - Tried(stem, ext, i + 1)|
            < |TakenSet(dir, files, shared) - Tried(stem, ext, i)|
  {
    var c := Candidate(stem, ext, i);
    var a := TakenSet(dir, files, shared) - Tried(stem, ext, i);
    assert c !in Tried(stem, ext, i) by {
      if c in Tried(stem, ext, i) {
        var j :| 0 <= j < i && Candidate(stem, ext, j) == c;
        CandidateInjective(stem, ext, i, j);
      }
    }
    assert Tried(stem, ext, i + 1) == Tried(stem, ext, i) + {c};
    assert TakenSet(dir, files, shared) - Tried(stem, ext, i + 1) == a - {c};
    assert a == (a - {c}) + {c};
  }

  /** The suffix search of bbid.py:54-57, from index `i`: the first index whose candidate is free. */
  function FirstFree(dir: string, files: set<string>, shared: seq<string>, stem: string, ext: string, i: nat): (k: nat)
    ensures i <= k
    ensures !Taken(dir, files, shared, Candidate(stem, ext, k))
    ensures forall j :: i <= j < k ==> Taken(dir, files, shared, Candidate(stem, ext, j))
    decreases |TakenSet(dir, files, shared) - Tried(stem, ext, i)|
  {
    if !Taken(dir, files, shared, Candidate(stem, ext, i)) then i
    else
      TriedShrinks(dir, files, shared, stem, ext, i);
      FirstFree(dir, files, shared, stem, ext, i + 1)
  }

  /**
   The name bbid.py:58 appends to the shared list: the candidate with the
   smallest index that is neither on disk nor in the list.
   */
  function Reserve(dir: string, files: set<string>, shared: seq<string>, d: Desired): (name: string)
    ensures !OnDisk(dir, files, name) && name !in shared
    ensures exists k: nat :: name == Candidate(d.stem, d.ext, k)
              && forall j :: 0 <= j < k ==> Taken(dir, files, shared, Candidate(d.stem, d.ext, j))
  {
    Candidate(d.stem, d.ext, FirstFree(dir, files, shared, d.stem, d.ext, 0))
  }

  /** The reserved name is the unique smallest free candidate: no other index has both properties. */
  lemma ReserveIsSmallestFree(dir: string, files: set<string>, shared: seq<string>, d: Desired, k: nat)
    requires !Taken(dir, files, shared, Candidate(d.stem, d.ext, k))
    requires forall j :: 0 <= j < k ==> Taken(dir, files, shared, Candidate(d.stem, d.ext, j))
    ensures Reserve(dir, files, shared, d) == Candidate(d.stem, d.ext, k)
  {
  }

  /**
   The collision test reads the one shared list: while another download holds
   `a.jpg` reserved (its name is in the list and no such file exists yet), the
   next `a.jpg` becomes `a-1.jpg`.
   */
  lemma ReserveAliasExample()
    ensures Reserve("bing", {}, ["a.jpg"], Desired("a", ".jpg")) == "a-1.jpg"
  {
    assert Candidate("a", ".jpg", 0) == "a.jpg";
    assert Decimal(1) == "1";
    assert Candidate("a", ".jpg", 1) == "a-1.jpg";
    ReserveIsSmallestFree("bing", {}, ["a.jpg"], Desired("a", ".jpg"), 1);
  }
}

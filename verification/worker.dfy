/**
 One call of `download` (bbid.py:44-85) as a single atomic step on the
 module-level state. Line 30 binds `IN_PROGRESS` and `TRIED_URLs` to one list,
 so the model keeps one sequence, `shared`, for reserved names and successful
 URLs alike. The network, `imghdr.what` and `hashlib.md5` are inputs.
 */
module Worker {
  import opened Wrappers
  import opened Paths
  import opened Names

  type Bytes = seq<bv8>

  /**
   The state a call reads and writes: the shared list, `IMAGE_MD5s`, the
   entries of the output directory, and the number of permits of the pool
   semaphore that are held.
   */
  datatype State = State(shared: seq<string>, md5s: map<string, string>, files: set<string>, held: nat)

  /** What `urllib.request.urlopen(request).read()` does: raise, or produce a body. */
  datatype Fetch = FetchRaises | Fetched(body: Bytes)

  /** What writing the image file does: succeed, fail in `open`, or fail after `open` created the file. */
  datatype Write = Written | OpenRaises | WriteRaises

  /** The URL of one call together with how its fetch and its file write turn out. */
  datatype Attempt = Attempt(url: string, fetch: Fetch, write: Write)

  /**
   The library behaviour the call depends on: `imghdr.what(None, b)` is
   truthy, `hashlib.md5(b).hexdigest()`, and the NFKC normalization that
   `urlsplit` applies to a non-ASCII network location.
   */
  datatype Env = Env(isImage: Bytes -> bool, md5: Bytes -> string, nfkc: Normalizer)

  /** The second element of the returned pair is the integer 0 in one branch and a string elsewhere. */
  datatype Value = Int(i: int) | Str(s: string)

  datatype Exception = ValueError | TypeError

  /** What the call gives back: a bare `return` (None), a pair, or a propagated exception. */
  datatype Return = NoneValue | Pair(error: int, second: Value) | Raise(exc: Exception)

  /** The line the call prints; every line but `Quiet` names the reserved file. */
  datatype Report =
    | Quiet
    | NotAnImage(file: string)
    | DuplicateOf(owner: string, file: string)
    | Saved(file: string)
    | Failed(file: string)

  datatype Step = Step(state: State, ret: Return, report: Report)

  /** `list.index(x)`: the position of the first occurrence of `x`. */
  function IndexOf(s: seq<string>, x: string): (i: nat)
    requires x in s
    ensures i < |s| && s[i] == x
    ensures forall j :: 0 <= j < i ==> s[j] != x
  {
    if s[0] == x then 0 else 1 + IndexOf(s[1..], x)
  }

  /** `list.remove(x)`: drop the first occurrence of `x`, keeping the order of the rest. */
  function RemoveFirst(s: seq<string>, x: string): (r: seq<string>)
    requires x in s
    ensures multiset(r) == multiset(s) - multiset{x}
    ensures exists i :: 0 <= i < |s| && s[i] == x && x !in s[..i] && r == s[..i] + s[i + 1..]
  {
    var i := IndexOf(s, x);
    assert s == s[..i] + [x] + s[i + 1..];
    s[..i] + s[i + 1..]
  }

  /** Removing a name that was not in the list before it was appended gives back the list without it. */
  lemma RemoveAppended(s: seq<string>, x: string, t: seq<string>)
    requires x !in s
    ensures RemoveFirst(s + [x] + t, x) == s + t
  {
    var l := s + [x] + t;
    assert l[|s|] == x;
    var i := IndexOf(l, x);
    assert l[..|s|] == s && l[|s| + 1..] == t;
  }

  /** The name reserved for a URL whose path is `path` (bbid.py:48-57). */
  function NameFor(st: State, dir: string, path: string): (name: string)
    ensures !OnDisk(dir, st.files, name) && name !in st.shared
  {
    Reserve(dir, st.files, st.shared, DesiredName(path))
  }

  /**
   The state after the `finally` at bbid.py:82-84, when `name` was appended
   to the list and `extra` after it: `name` is removed again and the permit
   released.
   */
  function Finish(st: State, name: string, extra: seq<string>, md5s: map<string, string>, files: set<string>, ret: Return, report: Report): (s: Step)
    requires name !in st.shared
    ensures s.state == State(st.shared + extra, md5s, files, st.held)
    ensures s.ret == ret && s.report == report
  {
    RemoveAppended(st.shared, name, extra);
    Step(State(RemoveFirst(st.shared + [name] + extra, name), md5s, files, st.held), ret, report)
  }

  /**
   What a call that got past line 47 may change: the list gains the URL
   exactly when the image was saved; the hash map either stays or gains the
   body's hash, mapped to the reserved file; the directory either stays or
   gains the reserved file.
   */
  ghost predicate Frame(st: State, a: Attempt, env: Env, s: Step) {
    && s.state.shared == (if s.report.Saved? then st.shared + [a.url] else st.shared)
    && (|| s.state.md5s == st.md5s
        || (&& a.fetch.Fetched? && !s.report.Quiet?
            && env.md5(a.fetch.body) !in st.md5s
            && s.state.md5s == st.md5s[env.md5(a.fetch.body) := s.report.file]))
    && (|| s.state.files == st.files
        || ((s.report.Saved? || s.report.Failed?) && s.state.files == st.files + {s.report.file}))
  }

  /**
   bbid.py:58-85 for a call that reserved `name`: append it, fetch, check the
   image, claim its hash, write the file, and in every case remove `name`
   and release the permit again.
   */
  function Attend(st: State, dir: string, a: Attempt, env: Env, name: string): (s: Step)
    requires name !in st.shared && !OnDisk(dir, st.files, name)
    ensures s.ret.Pair? && s.state.held == st.held
    ensures Frame(st, a, env, s)
  {
    match a.fetch
    case FetchRaises =>
      Finish(st, name, [], st.md5s, st.files, Pair(0, Str("")), Failed(name))
    case Fetched(body) =>
      if !env.isImage(body) then
        Finish(st, name, [], st.md5s, st.files, Pair(-1, Int(0)), NotAnImage(name))
      else
        var key := env.md5(body);
        if key in st.md5s then
          Finish(st, name, [], st.md5s, st.files, Pair(-1, Str("")), DuplicateOf(st.md5s[key], name))
        else
          var md5s := st.md5s[key := name];
          var path := Join(dir, name);
          // open("") raises: the empty name is reserved only when dir is empty.
          var write := if name == "" then OpenRaises else a.write;
          match write
          case OpenRaises =>
            Finish(st, name, [], md5s, st.files, Pair(0, Str(path)), Failed(name))
          case WriteRaises =>
            Finish(st, name, [], md5s, st.files + {name}, Pair(0, Str(path)), Failed(name))
          case Written =>
            Finish(st, name, [a.url], md5s, st.files + {name}, Pair(0, Str(path)), Saved(name))
  }

  /**
   One call `download(pool_sema, a.url, dir)`: a URL already in the shared
   list returns at once (bbid.py:45-46); otherwise the permit is taken, and a
   `urlsplit` that raises leaves it taken, since bbid.py:47-58 is outside the
   `try`.
   */
  function Download(st: State, dir: string, a: Attempt, env: Env): (s: Step)
    ensures s.ret == NoneValue <==> a.url in st.shared
    ensures s.ret.Raise? ==> s.ret.exc == ValueError && s.state == st.(held := st.held + 1)
    ensures !s.ret.Raise? ==> s.state.held == st.held && Frame(st, a, env, s)
  {
    if a.url in st.shared then Step(st, NoneValue, Quiet)
    else
      match UrlPath(a.url, env.nfkc)
      case Failure(_) => Step(st.(held := st.held + 1), Raise(ValueError), Quiet)
      case Success(path) => Attend(st, dir, a, env, NameFor(st, dir, path))
  }

  /** bbid.py:45-46: a URL already in the shared list changes nothing: no permit, no list, map or file change. */
  lemma AlreadyTriedIsNoOp(st: State, dir: string, a: Attempt, env: Env)
    ensures a.url in st.shared <==> Download(st, dir, a, env) == Step(st, NoneValue, Quiet)
  {
  }

  /**
   bbid.py:47-48: a new URL whose network location has an unmatched bracket,
   or one that NFKC normalization rejects, raises `ValueError` out of
   `download` with the permit still taken and nothing else changed; this is
   the only way the call raises.
   */
  lemma UrlErrorKeepsPermit(st: State, dir: string, a: Attempt, env: Env)
    ensures Download(st, dir, a, env).ret.Raise?
            <==> a.url !in st.shared && UrlPath(a.url, env.nfkc).Failure?
    ensures Download(st, dir, a, env).ret.Raise? ==>
              Download(st, dir, a, env) == Step(st.(held := st.held + 1), Raise(ValueError), Quiet)
  {
  }

  /**
   bbid.py:48-58: every call that prints a line reserved the smallest free
   candidate of its URL's desired name, which was neither on disk nor in the
   shared list when it was appended.
   */
  lemma ReservedNameIsFresh(st: State, dir: string, a: Attempt, env: Env)
    ensures var s := Download(st, dir, a, env);
            !s.report.Quiet? <==> s.ret.Pair?
    ensures var s := Download(st, dir, a, env);
            !s.report.Quiet? ==>
              && UrlPath(a.url, env.nfkc).Success?
              && s.report.file == NameFor(st, dir, UrlPath(a.url, env.nfkc).value)
              && s.report.file !in st.shared
              && !OnDisk(dir, st.files, s.report.file)
  {
    var s := Download(st, dir, a, env);
    if a.url !in st.shared && UrlPath(a.url, env.nfkc).Success? {
      var name := NameFor(st, dir, UrlPath(a.url, env.nfkc).value);
      assert s == Attend(st, dir, a, env, name);
      AttendCases(st, dir, a, env, name);
    }
  }

  /** bbid.py:65, 70, 80-85: the pair each outcome returns. */
  lemma ReturnCodes(st: State, dir: string, a: Attempt, env: Env)
    ensures var s := Download(st, dir, a, env);
            s.report.NotAnImage? <==> s.ret == Pair(-1, Int(0))
    ensures var s := Download(st, dir, a, env);
            s.report.DuplicateOf? <==> s.ret == Pair(-1, Str(""))
    ensures var s := Download(st, dir, a, env);
            s.report.Saved? ==> s.ret == Pair(0, Str(Join(dir, s.report.file)))
    ensures var s := Download(st, dir, a, env);
            s.report.Failed? ==>
              if a.fetch.FetchRaises? then s.ret == Pair(0, Str(""))
              else s.ret == Pair(0, Str(Join(dir, s.report.file)))
    ensures var s := Download(st, dir, a, env);
            s.ret.Pair? ==> (s.ret.error == 0 || s.ret.error == -1)
                            && (s.ret.error == 0 ==> s.ret.second.Str?)
  {
    var s := Download(st, dir, a, env);
    if a.url !in st.shared && UrlPath(a.url, env.nfkc).Success? {
      var name := NameFor(st, dir, UrlPath(a.url, env.nfkc).value);
      assert s == Attend(st, dir, a, env, name);
      AttendCases(st, dir, a, env, name);
    }
  }

  /**
   bbid.py:63-72: an invalid image leaves `IMAGE_MD5s` alone; a duplicate
   leaves it alone and names the file that owns the hash; otherwise the new
   hash is mapped to the reserved file and stays so even when the write fails.
   */
  lemma HashClaims(st: State, dir: string, a: Attempt, env: Env)
    ensures var s := Download(st, dir, a, env);
            s.report.NotAnImage? ==> s.state.md5s == st.md5s && a.fetch.Fetched? && !env.isImage(a.fetch.body)
    ensures var s := Download(st, dir, a, env);
            s.report.DuplicateOf? ==>
              && s.state.md5s == st.md5s
              && a.fetch.Fetched? && env.md5(a.fetch.body) in st.md5s
              && s.report.owner == st.md5s[env.md5(a.fetch.body)]
    ensures var s := Download(st, dir, a, env);
            s.state.md5s != st.md5s <==>
              && (s.report.Saved? || s.report.Failed?)
              && a.fetch.Fetched? && env.isImage(a.fetch.body)
              && env.md5(a.fetch.body) !in st.md5s
  {
    var s := Download(st, dir, a, env);
    if a.url !in st.shared && UrlPath(a.url, env.nfkc).Success? {
      var name := NameFor(st, dir, UrlPath(a.url, env.nfkc).value);
      assert s == Attend(st, dir, a, env, name);
      AttendCases(st, dir, a, env, name);
    }
  }

  /**
   bbid.py:72-79: the file is created only after its hash was claimed, and
   the URL joins the list only when the whole write succeeded.
   */
  lemma WritesOnlyAfterClaim(st: State, dir: string, a: Attempt, env: Env)
    ensures var s := Download(st, dir, a, env);
            s.state.files != st.files ==>
              && a.fetch.Fetched?
              && env.md5(a.fetch.body) !in st.md5s
              && !s.report.Quiet?
              && s.state.md5s == st.md5s[env.md5(a.fetch.body) := s.report.file]
    ensures var s := Download(st, dir, a, env);
            s.report.Saved? <==>
              && !s.ret.Raise? && s.ret != NoneValue
              && a.fetch.Fetched? && env.isImage(a.fetch.body)
              && env.md5(a.fetch.body) !in st.md5s
              && a.write.Written? && !s.report.Quiet? && s.report.file != ""
  {
    var s := Download(st, dir, a, env);
    if a.url !in st.shared && UrlPath(a.url, env.nfkc).Success? {
      var name := NameFor(st, dir, UrlPath(a.url, env.nfkc).value);
      assert s == Attend(st, dir, a, env, name);
      AttendCases(st, dir, a, env, name);
    }
  }

  /**
   The part of a call's contract that callers running several calls rely on:
   the list gains the URL exactly when the image was saved, claimed hashes
   stay claimed, a saved image's hash was unclaimed and is claimed after, a
   raised exception is `ValueError` and keeps the permit, and a pair with
   error 0 carries a string.
   */
  ghost predicate StepContract(st: State, a: Attempt, env: Env, s: Step) {
    && s.state.shared == (if s.report.Saved? then st.shared + [a.url] else st.shared)
    && st.md5s.Keys <= s.state.md5s.Keys
    && (s.report.Saved? ==>
          a.fetch.Fetched? && env.md5(a.fetch.body) !in st.md5s && env.md5(a.fetch.body) in s.state.md5s)
    && s.state.held == (if s.ret.Raise? then st.held + 1 else st.held)
    && (s.ret.Raise? ==> s.ret.exc == ValueError)
    && (s.ret == NoneValue <==> a.url in st.shared)
    && (s.ret.Pair? && s.ret.error == 0 ==> s.ret.second.Str?)
  }

  /** Every call of `download` keeps that contract. */
  lemma DownloadKeepsContract(st: State, dir: string, a: Attempt, env: Env)
    ensures StepContract(st, a, env, Download(st, dir, a, env))
  {
    WritesOnlyAfterClaim(st, dir, a, env);
    ReturnCodes(st, dir, a, env);
  }

  /** The step `Attend` takes on each branch, spelled out for the lemmas above. */
  lemma AttendCases(st: State, dir: string, a: Attempt, env: Env, name: string)
    requires name !in st.shared && !OnDisk(dir, st.files, name)
    ensures var s := Attend(st, dir, a, env, name);
            && (a.fetch.FetchRaises? ==> s == Step(st, Pair(0, Str("")), Failed(name)))
            && (a.fetch.Fetched? && !env.isImage(a.fetch.body) ==> s == Step(st, Pair(-1, Int(0)), NotAnImage(name)))
            && (a.fetch.Fetched? && env.isImage(a.fetch.body) && env.md5(a.fetch.body) in st.md5s ==>
                  s == Step(st, Pair(-1, Str("")), DuplicateOf(st.md5s[env.md5(a.fetch.body)], name)))
            && (a.fetch.Fetched? && env.isImage(a.fetch.body) && env.md5(a.fetch.body) !in st.md5s ==>
                  var md5s := st.md5s[env.md5(a.fetch.body) := name];
                  var ret := Pair(0, Str(Join(dir, name)));
                  if name == "" || a.write.OpenRaises? then s == Step(st.(md5s := md5s), ret, Failed(name))
                  else if a.write.WriteRaises? then s == Step(st.(md5s := md5s, files := st.files + {name}), ret, Failed(name))
                  else s == Step(State(st.shared + [a.url], md5s, st.files + {name}, st.held), ret, Saved(name)))
  {
  }
}

/**
 Calls of `download` one after another: the downloads the paging driver
 launches, run in launch order, and the first-success loop of
 `fetch_random_image_from_keyword` (bbid.py:129-133). The drivers are stated
 for any step function that keeps the worker's contract; `Downloads` is the
 one the program uses.
 */
module Drivers {
  import opened Wrappers
  import opened Worker

  /** One call of `download` on the current state. */
  type Stepper = (State, Attempt) -> Step

  /** `step` keeps the contract of `download` on every state and attempt. */
  ghost predicate Keeps(step: Stepper, env: Env) {
    forall st, a :: StepContract(st, a, env, step(st, a))
  }

  /** `download(pool_sema, url, dir)` as a step, with the given library behaviour. */
  function Downloads(dir: string, env: Env): Stepper {
    (st, a) => Download(st, dir, a, env)
  }

  lemma DownloadsKeep(dir: string, env: Env)
    ensures Keeps(Downloads(dir, env), env)
  {
    forall st, a ensures StepContract(st, a, env, Downloads(dir, env)(st, a)) {
      DownloadKeepsContract(st, dir, a, env);
    }
  }

  /** The state after a series of calls, with what each call returned and printed. */
  datatype Run = Run(final: State, results: seq<Return>, reports: seq<Report>)

  /** The downloads launched at bbid.py:101-106, taken in launch order, each an atomic step. */
  function RunInOrder(st: State, attempts: seq<Attempt>, step: Stepper): (r: Run)
    ensures |r.results| == |attempts| && |r.reports| == |attempts|
    decreases |attempts|
  {
    if |attempts| == 0 then Run(st, [], [])
    else
      var s := step(st, attempts[0]);
      var rest := RunInOrder(s.state, attempts[1..], step);
      Run(rest.final, [s.ret] + rest.results, [s.report] + rest.reports)
  }

  /** The URLs of the calls that saved their image, in call order. */
  function SavedUrls(attempts: seq<Attempt>, reports: seq<Report>): seq<string>
    requires |attempts| == |reports|
  {
    if |attempts| == 0 then []
    else (if reports[0].Saved? then [attempts[0].url] else []) + SavedUrls(attempts[1..], reports[1..])
  }

  /**
   After any series of calls the shared list is the initial list followed by
   the URLs that were saved: every reserved name has been removed again.
   */
  lemma {:induction false} RunKeepsOnlySavedUrls(st: State, attempts: seq<Attempt>, step: Stepper, env: Env)
    requires Keeps(step, env)
    ensures var r := RunInOrder(st, attempts, step);
            r.final.shared == st.shared + SavedUrls(attempts, r.reports)
    decreases |attempts|
  {
    if |attempts| > 0 {
      var s := step(st, attempts[0]);
      assert StepContract(st, attempts[0], env, s);
      var rest := RunInOrder(s.state, attempts[1..], step);
      RunKeepsOnlySavedUrls(s.state, attempts[1..], step, env);
      var r := RunInOrder(st, attempts, step);
      assert r == Run(rest.final, [s.ret] + rest.results, [s.report] + rest.reports);
      assert r.reports[1..] == rest.reports;
    }
  }

  /** A call that saves its image found the image's hash unclaimed in the state the series started from. */
  lemma {:induction false} SavedHashWasUnclaimed(st: State, attempts: seq<Attempt>, step: Stepper, env: Env, j: nat)
    requires Keeps(step, env)
    requires j < |attempts|
    requires RunInOrder(st, attempts, step).reports[j].Saved?
    ensures attempts[j].fetch.Fetched? && env.md5(attempts[j].fetch.body) !in st.md5s
    decreases |attempts|
  {
    var s := step(st, attempts[0]);
    assert StepContract(st, attempts[0], env, s);
    var rest := RunInOrder(s.state, attempts[1..], step);
    var r := RunInOrder(st, attempts, step);
    assert r == Run(rest.final, [s.ret] + rest.results, [s.report] + rest.reports);
    if j > 0 {
      assert rest.reports[j - 1] == r.reports[j];
      assert attempts[1..][j - 1] == attempts[j];
      SavedHashWasUnclaimed(s.state, attempts[1..], step, env, j - 1);
    }
  }

  /**
   Deduplication across calls: two calls that both save an image saved
   images with different hashes, so no content is saved twice.
   */
  lemma {:induction false} NoTwoSavesShareHash(st: State, attempts: seq<Attempt>, step: Stepper, env: Env, i: nat, j: nat)
    requires Keeps(step, env)
    requires i < j < |attempts|
    requires RunInOrder(st, attempts, step).reports[i].Saved?
    requires RunInOrder(st, attempts, step).reports[j].Saved?
    ensures attempts[i].fetch.Fetched? && attempts[j].fetch.Fetched?
    ensures env.md5(attempts[i].fetch.body) != env.md5(attempts[j].fetch.body)
    decreases |attempts|
  {
    var s := step(st, attempts[0]);
    assert StepContract(st, attempts[0], env, s);
    var rest := RunInOrder(s.state, attempts[1..], step);
    var r := RunInOrder(st, attempts, step);
    assert r == Run(rest.final, [s.ret] + rest.results, [s.report] + rest.reports);
    assert rest.reports[j - 1] == r.reports[j];
    assert attempts[1..][j - 1] == attempts[j];
    SavedHashWasUnclaimed(s.state, attempts[1..], step, env, j - 1);
    if i > 0 {
      assert rest.reports[i - 1] == r.reports[i];
      assert attempts[1..][i - 1] == attempts[i];
      NoTwoSavesShareHash(s.state, attempts[1..], step, env, i - 1, j - 1);
    }
  }

  /** What `fetch_random_image_from_keyword` ends with: a returned value (`None` included) or an exception. */
  datatype Outcome = Returned(path: Option<Value>) | Raised(exc: Exception)

  datatype Pick = Pick(state: State, outcome: Outcome)

  /**
   Whether the loop stops at a call that returned `r`. As written, a bare
   `return` stops it too, because `error, path = None` raises `TypeError`;
   with `skipTried` such a call is passed over instead.
   */
  predicate Stops(r: Return, skipTried: bool) {
    (r.NoneValue? && !skipTried) || r.Raise? || (r.Pair? && r.error == 0)
  }

  /** What the loop ends with when it stops at a call that returned `r`. */
  function Answer(r: Return): Outcome {
    match r
    case NoneValue => Raised(TypeError)
    case Raise(e) => Raised(e)
    case Pair(_, second) => Returned(Some(second))
  }

  /** bbid.py:129-133 over the given (already shuffled) order, with or without passing over bare returns. */
  function PickFrom(st: State, attempts: seq<Attempt>, step: Stepper, skipTried: bool): (p: Pick)
    decreases |attempts|
  {
    if |attempts| == 0 then Pick(st, Returned(None))
    else
      var s := step(st, attempts[0]);
      if Stops(s.ret, skipTried) then Pick(s.state, Answer(s.ret))
      else PickFrom(s.state, attempts[1..], step, skipTried)
  }

  /** `k` is the index of the first result that stops the loop, or the number of results when none does. */
  ghost predicate FirstStopAt(rs: seq<Return>, skipTried: bool, k: nat) {
    && k <= |rs|
    && (k < |rs| ==> Stops(rs[k], skipTried))
    && forall j :: 0 <= j < k ==> !Stops(rs[j], skipTried)
  }

  /**
   The loop performs exactly the calls of a series run up to call `k`
   (all of them when `k` is past the end), ends in the state that prefix
   leaves, and answers with call `k`'s result, or `None` past the end.
   */
  ghost predicate PickedAt(st: State, attempts: seq<Attempt>, step: Stepper, skipTried: bool, k: nat)
    requires k <= |attempts|
  {
    var p := PickFrom(st, attempts, step, skipTried);
    var rs := RunInOrder(st, attempts, step).results;
    && (k < |attempts| ==> p.outcome == Answer(rs[k]))
    && (k == |attempts| ==> p.outcome == Returned(None))
    && p.state == RunInOrder(st, attempts[..if k < |attempts| then k + 1 else k], step).final
  }

  /** With no calls left, or a first call that stops it, the loop ends right there. */
  lemma PickHere(st: State, attempts: seq<Attempt>, step: Stepper, skipTried: bool, k: nat)
    requires FirstStopAt(RunInOrder(st, attempts, step).results, skipTried, k)
    requires |attempts| == 0 || k == 0
    ensures PickedAt(st, attempts, step, skipTried, k)
  {
    if |attempts| == 0 {
      assert attempts[..0] == attempts;
    } else {
      var s := step(st, attempts[0]);
      var rest := RunInOrder(s.state, attempts[1..], step);
      assert RunInOrder(st, attempts, step).results[0] == s.ret;
      assert attempts[..1][1..] == [];
    }
  }

  /** Past a call that does not stop it, the first stop of the rest of the series comes one call earlier. */
  lemma FirstStopInRest(st: State, attempts: seq<Attempt>, step: Stepper, skipTried: bool, k: nat)
    requires FirstStopAt(RunInOrder(st, attempts, step).results, skipTried, k)
    requires |attempts| > 0 && k > 0
    ensures FirstStopAt(RunInOrder(step(st, attempts[0]).state, attempts[1..], step).results, skipTried, k - 1)
  {
    var s := step(st, attempts[0]);
    var rest := RunInOrder(s.state, attempts[1..], step);
    var rs := RunInOrder(st, attempts, step).results;
    assert rs == [s.ret] + rest.results;
    assert forall j :: 0 <= j < k - 1 ==> rest.results[j] == rs[j + 1];
    if k < |attempts| {
      assert rest.results[k - 1] == rs[k];
    }
  }

  /** Past a call that does not stop it, the loop goes on with the rest of the series. */
  lemma PickLater(st: State, attempts: seq<Attempt>, step: Stepper, skipTried: bool, k: nat)
    requires FirstStopAt(RunInOrder(st, attempts, step).results, skipTried, k)
    requires |attempts| > 0 && k > 0
    requires PickedAt(step(st, attempts[0]).state, attempts[1..], step, skipTried, k - 1)
    ensures PickedAt(st, attempts, step, skipTried, k)
  {
    var s := step(st, attempts[0]);
    var rest := RunInOrder(s.state, attempts[1..], step);
    var rs := RunInOrder(st, attempts, step).results;
    assert rs == [s.ret] + rest.results;
    assert !Stops(rs[0], skipTried);
    var n := if k < |attempts| then k + 1 else k;
    assert attempts[..n][0] == attempts[0];
    assert attempts[..n][1..] == attempts[1..][..n - 1];
    if k < |attempts| {
      assert rest.results[k - 1] == rs[k];
    }
  }

  /**
   The loop performs exactly the calls of a series run up to its first
   stopping call, ends in the state that prefix leaves, and answers with that
   call's result; with no stopping call it runs every call and returns `None`.
   */
  lemma {:induction false} PickIsFirstStop(st: State, attempts: seq<Attempt>, step: Stepper, skipTried: bool, k: nat)
    requires FirstStopAt(RunInOrder(st, attempts, step).results, skipTried, k)
    ensures PickedAt(st, attempts, step, skipTried, k)
    decreases |attempts|
  {
    if |attempts| == 0 || k == 0 {
      PickHere(st, attempts, step, skipTried, k);
    } else {
      FirstStopInRest(st, attempts, step, skipTried, k);
      PickIsFirstStop(step(st, attempts[0]).state, attempts[1..], step, skipTried, k - 1);
      PickLater(st, attempts, step, skipTried, k);
    }
  }

  /** What the loop's result and final permit count can be, for a step keeping the worker's contract. */
  lemma {:induction false} PickFacts(st: State, attempts: seq<Attempt>, step: Stepper, env: Env, skipTried: bool)
    requires Keeps(step, env)
    ensures var p := PickFrom(st, attempts, step, skipTried);
            && (skipTried ==> p.outcome != Raised(TypeError))
            && (p.outcome.Returned? && p.outcome.path.Some? ==> p.outcome.path.value.Str?)
            && p.state.held == if p.outcome == Raised(ValueError) then st.held + 1 else st.held
    decreases |attempts|
  {
    if |attempts| > 0 {
      var s := step(st, attempts[0]);
      assert StepContract(st, attempts[0], env, s);
      if !Stops(s.ret, skipTried) {
        PickFacts(s.state, attempts[1..], step, env, skipTried);
      }
    }
  }

  /**
   `fetch_random_image_from_keyword` after its one search request, as
   written (bbid.py:129-133): the path of the first call with error 0, `None`
   when there is none; a link already in the shared list raises `TypeError`.
   */
  function FirstSuccess(st: State, dir: string, attempts: seq<Attempt>, env: Env): (p: Pick)
    ensures p.outcome.Returned? && p.outcome.path.Some? ==> p.outcome.path.value.Str?
    ensures p.state.held == if p.outcome == Raised(ValueError) then st.held + 1 else st.held
  {
    DownloadsKeep(dir, env);
    PickFacts(st, attempts, Downloads(dir, env), env, false);
    PickFrom(st, attempts, Downloads(dir, env), false)
  }

  /**
   The loop as evidently intended: a link already in the shared list is
   passed over rather than crashing the loop.
   */
  function FirstSuccessIntended(st: State, dir: string, attempts: seq<Attempt>, env: Env): (p: Pick)
    ensures p.outcome != Raised(TypeError)
    ensures p.outcome.Returned? && p.outcome.path.Some? ==> p.outcome.path.value.Str?
    ensures p.state.held == if p.outcome == Raised(ValueError) then st.held + 1 else st.held
  {
    DownloadsKeep(dir, env);
    PickFacts(st, attempts, Downloads(dir, env), env, true);
    PickFrom(st, attempts, Downloads(dir, env), true)
  }

  /**
   The crash the intended loop avoids: asking again for an image whose only
   candidate link was saved before makes the written loop raise `TypeError`.
   */
  lemma FirstSuccessRaisesOnTriedLink(st: State, dir: string, a: Attempt, env: Env)
    requires a.url in st.shared
    ensures FirstSuccess(st, dir, [a], env).outcome == Raised(TypeError)
    ensures FirstSuccessIntended(st, dir, [a], env).outcome == Returned(None)
  {
    AlreadyTriedIsNoOp(st, dir, a, env);
    assert Downloads(dir, env)(st, a) == Step(st, NoneValue, Quiet);
    assert [a][1..] == [];
    assert PickFrom(st, [a], Downloads(dir, env), true) == PickFrom(st, [], Downloads(dir, env), true);
  }
}

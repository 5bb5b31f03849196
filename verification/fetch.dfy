/** The network as the download loops see it. A request's fate is not computed
    here: a `Script` says, for attempt number 1, 2, ..., whether that request
    succeeds, fails with an error the loop catches, or fails with an error it
    does not catch (which then propagates to the caller). */
module Fetch {

  /** The fate of one request attempt. */
  datatype Attempt = Fetched | Transient | Fatal

  /** How a download call ends: the file was saved, the call gave up and
      returned `None`, or an exception escaped it. */
  datatype Outcome = Saved | GaveUp | Raised

  /** The fate of each numbered attempt (attempts are numbered from 1). */
  type Script = nat -> Attempt

  /** How a retry loop ended and how many requests it sent. */
  datatype Run = Run(outcome: Outcome, requests: nat)

  /** The first attempt from `from` on, up to `retries`, that does not fail
      with a caught error; just past `retries` when every one of them does. */
  function FirstDecisive(script: Script, from: nat, retries: int): (k: nat)
    requires from >= 1
    ensures from <= k
    ensures k <= retries ==> script(k) != Transient
    ensures k > retries ==> k == from || k == retries + 1
    ensures forall a :: from <= a < k ==> script(a) == Transient
    decreases retries - from
  {
    if from > retries || script(from) != Transient then from
    else FirstDecisive(script, from + 1, retries)
  }

  /** What `for attempt in range(1, retries + 1)` around a request that returns
      on success and catches `Transient` errors ends with: the first request that
      does not fail with a caught error decides, and when all `retries` requests
      fail that way the loop gives up. */
  function Retry(script: Script, retries: int): Run {
    var k := FirstDecisive(script, 1, retries);
    if k > retries then Run(GaveUp, if retries < 0 then 0 else retries)
    else if script(k) == Fetched then Run(Saved, k)
    else Run(Raised, k)
  }

  /** At most `retries` requests are sent; every request before the last failed
      with a caught error; the loop saves exactly when the last request succeeded
      and raises exactly when it failed with an uncaught error; it gives up only
      after `retries` caught errors. */
  lemma RetryShape(script: Script, retries: int)
    ensures var run := Retry(script, retries);
      && run.requests <= (if retries < 0 then 0 else retries)
      && (forall a :: 1 <= a < run.requests ==> script(a) == Transient)
      && (run.outcome == Saved ==> script(run.requests) == Fetched)
      && (run.outcome == Raised ==> script(run.requests) == Fatal)
      && (run.outcome == GaveUp ==> run.requests == (if retries < 0 then 0 else retries))
      && (run.outcome == GaveUp ==> forall a :: 1 <= a <= retries ==> script(a) == Transient)
      && (run.outcome != GaveUp ==> run.requests >= 1)
  {
  }

  /** The loop gives up exactly when every allowed request fails with a caught error. */
  lemma RetryGivesUpIff(script: Script, retries: int)
    ensures Retry(script, retries).outcome == GaveUp <==>
      forall a :: 1 <= a <= retries ==> script(a) == Transient
  {
    var k := FirstDecisive(script, 1, retries);
    if k <= retries {
      assert script(k) != Transient;
    }
  }

  /** A first request that succeeds is the only one sent. */
  lemma RetryFirstSuccess(script: Script, retries: int)
    requires retries >= 1 && script(1) == Fetched
    ensures Retry(script, retries) == Run(Saved, 1)
  {
  }

  /** Allowing more retries never changes the outcome of a loop that did not give up. */
  lemma {:induction false} RetryMonotone(script: Script, retries: int, more: int)
    requires retries <= more
    requires Retry(script, retries).outcome != GaveUp
    ensures Retry(script, more) == Retry(script, retries)
  {
    FirstDecisiveMonotone(script, 1, retries, more);
  }

  lemma {:induction false} FirstDecisiveMonotone(script: Script, from: nat, retries: int, more: int)
    requires from >= 1 && retries <= more
    requires FirstDecisive(script, from, retries) <= retries
    ensures FirstDecisive(script, from, more) == FirstDecisive(script, from, retries)
    decreases retries - from
  {
    if script(from) == Transient {
      FirstDecisiveMonotone(script, from + 1, retries, more);
    }
  }

  /** What a retry loop ends with when its `except Exception` block (which
      catches every failure) re-raises on the last attempt and otherwise
      returns `None` at once: only the first request is ever sent. */
  function GiveUpEarly(script: Script, retries: int): Run {
    if retries < 1 then Run(GaveUp, 0)
    else if script(1) == Fetched then Run(Saved, 1)
    else if retries == 1 then Run(Raised, 1)
    else Run(GaveUp, 1)
  }

  /** Such a loop never sends a second request, so it saves exactly when the
      full retry loop would save with its first request. */
  lemma GiveUpEarlyVsRetry(script: Script, retries: int)
    requires retries >= 1
    ensures GiveUpEarly(script, retries).requests == 1
    ensures GiveUpEarly(script, retries).outcome == Saved <==>
      Retry(script, retries) == Run(Saved, 1)
  {
    if script(1) == Fetched {
      RetryFirstSuccess(script, retries);
    }
  }

  /** It raises exactly when it was allowed one attempt only and that one failed. */
  lemma GiveUpEarlyRaises(script: Script, retries: int)
    ensures GiveUpEarly(script, retries).outcome == Raised <==> retries == 1 && script(1) != Fetched
  {
  }

  /** `download_image` of the toomics and daycomics scrapers: the `except
      Exception` block re-raises on the last attempt and otherwise sleeps one
      second and returns `None`, so every path of the loop body leaves the
      function during the first attempt; the loop is therefore one
      conditional here. `sleeps` lists the pauses in seconds. */
  method DownloadImage(script: Script, retries: int) returns (outcome: Outcome, requests: nat, sleeps: seq<nat>)
    ensures Run(outcome, requests) == GiveUpEarly(script, retries)
    ensures sleeps == if outcome == GaveUp && requests == 1 then [1] else []
  {
    requests := 0;
    sleeps := [];
    var attempt := 1;
    if attempt <= retries {
      requests := requests + 1;
      if script(attempt) == Fetched {
        outcome := Saved;
      } else if attempt == retries {
        outcome := Raised;
      } else {
        sleeps := sleeps + [attempt];
        outcome := GaveUp;
      }
    } else {
      outcome := GaveUp;
    }
  }
}

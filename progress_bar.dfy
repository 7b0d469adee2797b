/**
 * `ProgressBar` of js/content/common.js: a request counter behind the
 * progress indicator that the extension places next to Steam's global
 * actions. `Background.message` starts a request before every message to
 * the background page and finishes it, reports a server outage or reports
 * a failure when the answer arrives.
 *
 * The bar's element is reduced to the classes and notes the code sets: the
 * `es_progress--complete`, `--warning` and `--error` classes, the title, and
 * the warning and error notes placed after it. Pixel widths are left out.
 */
module ProgressBars {
  import opened Wrappers

  datatype Requests = Requests(initiated: nat, completed: nat)

  datatype Title = TitleReady | TitleLoading

  datatype Bar = Bar(
    present: bool,            // ProgressBar._progress is set
    requests: Option<Requests>,
    failedRequests: nat,      // ProgressBar._failedRequests
    complete: bool,           // class es_progress--complete
    warning: bool,            // class es_progress--warning
    error: bool,              // class es_progress--error
    title: Title,
    warningNote: bool,        // an .es_progress__warning element follows the bar
    errorNote: Option<nat>)   // the failure count an .es_progress__error element shows

  /** Before `create`: no element, no requests, no failures. */
  const Initial: Bar := Bar(false, None, 0, false, false, false, TitleReady, false, None)

  // ---------------------------------------------------------------------------
  // The operations

  /** `ProgressBar.create`: only when `show_progressbar` is on and `#global_actions` exists. */
  function AfterCreate(b: Bar, showProgressbar: bool, containerPresent: bool): (r: Bar)
    ensures !showProgressbar || !containerPresent ==> r == b
  {
    if !showProgressbar || !containerPresent then b
    else b.(present := true, complete := true, warning := false, error := false, title := TitleReady,
            warningNote := false, errorNote := None)
  }

  /** `ProgressBar.loading`: counting starts over at 0 of 0. */
  function AfterLoading(b: Bar): Bar {
    if !b.present then b
    else b.(title := TitleLoading, requests := Some(Requests(0, 0)), complete := false)
  }

  /** The completion test `value >= 100` for `value = 100 * completed / initiated`. */
  predicate ReachesFull(r: Requests) {
    r.initiated > 0 && (100 * r.completed) as real / r.initiated as real >= 100.0
  }

  /**
   * `ProgressBar.progress(value)`. A falsy value (undefined or 0) is replaced
   * by the share of completed requests, which stays undefined while nothing
   * was initiated; a value of 100 or more marks the bar complete and stops
   * the counting.
   */
  function AfterProgress(b: Bar, value: Option<int>): Bar {
    if !b.present then b
    else if (value.None? || value.value == 0) && b.requests.None? then b
    else
      var full :=
        if value.None? || value.value == 0 then ReachesFull(b.requests.value)
        else value.value >= 100;
      if full then b.(complete := true, title := TitleReady, requests := None) else b
  }

  /** `ProgressBar.startRequest`. */
  function AfterStart(b: Bar): Bar {
    if b.requests.None? then b
    else AfterProgress(b.(requests := Some(b.requests.value.(initiated := b.requests.value.initiated + 1))), None)
  }

  /** `ProgressBar.finishRequest`. */
  function AfterFinish(b: Bar): Bar {
    if b.requests.None? then b
    else AfterProgress(b.(requests := Some(b.requests.value.(completed := b.requests.value.completed + 1))), None)
  }

  /** `ProgressBar.serverOutage`: a warning note is added only when no warning or error note is there. */
  function AfterOutage(b: Bar): Bar {
    if !b.present then b
    else b.(warning := true, requests := None,
            warningNote := b.warningNote || b.errorNote.None?)
  }

  /**
   * `ProgressBar.failed`: an error replaces a warning, and the failure count
   * goes up by one whether the error note is created or updated.
   */
  function AfterFailure(b: Bar): Bar {
    if !b.present then b
    else
      var count := b.failedRequests + 1;
      b.(warning := if b.warningNote then false else b.warning, warningNote := false,
         error := true, requests := None, failedRequests := count, errorNote := Some(count))
  }

  // ---------------------------------------------------------------------------
  // What the state machine promises

  /** The share reaches 100 exactly when at least as many requests completed as were initiated. */
  lemma {:induction false} ReachesFullIff(r: Requests)
    ensures ReachesFull(r) <==> r.initiated > 0 && r.completed >= r.initiated
  {
    if r.initiated > 0 {
      var i := r.initiated as real;
      var c := (100 * r.completed) as real;
      QuotientAtLeast(c, i, 100.0);
      assert c >= 100.0 * i <==> r.completed >= r.initiated;
    }
  }

  lemma {:induction false} QuotientAtLeast(x: real, y: real, k: real)
    requires y > 0.0
    ensures x / y >= k <==> x >= k * y
  {
    var q := x / y;
    assert q * y == x;
    if q >= k {
      assert (q - k) * y >= 0.0;
    } else {
      assert (k - q) * y > 0.0;
    }
  }

  /** After `loading()` the counters start at 0/0 and the bar is not complete. */
  lemma {:induction false} LoadingStartsAtZero(b: Bar)
    requires b.present
    ensures AfterLoading(b).requests == Some(Requests(0, 0))
    ensures !AfterLoading(b).complete && AfterLoading(b).title == TitleLoading
    ensures AfterLoading(b).failedRequests == b.failedRequests
  {
  }

  /** A finished request completes the bar, and stops the counting, exactly when the counts meet. */
  lemma {:induction false} FinishCompletesIff(b: Bar)
    requires b.present && b.requests.Some?
    ensures var r := b.requests.value; var after := AfterFinish(b);
      (after.requests.None? <==> r.completed + 1 >= r.initiated > 0)
      && (after.requests.None? ==> after.complete && after.title == TitleReady)
      && (after.requests.Some? ==> after.requests == Some(r.(completed := r.completed + 1)) && after.complete == b.complete)
  {
    ReachesFullIff(b.requests.value.(completed := b.requests.value.completed + 1));
  }

  /** Starting a request completes the bar only when more requests already completed than were initiated. */
  lemma {:induction false} StartCompletesIff(b: Bar)
    requires b.present && b.requests.Some?
    ensures var r := b.requests.value; var after := AfterStart(b);
      (after.requests.None? <==> r.completed >= r.initiated + 1)
      && (after.requests.Some? ==> after.requests == Some(r.(initiated := r.initiated + 1)))
  {
    ReachesFullIff(b.requests.value.(initiated := b.requests.value.initiated + 1));
  }

  /** The calls a page makes on the bar once `create` has run. */
  datatype Event = Start | Finish | Outage | Fail | Load | Progress(value: Option<int>)

  function Step(b: Bar, e: Event): Bar {
    match e
    case Start => AfterStart(b)
    case Finish => AfterFinish(b)
    case Outage => AfterOutage(b)
    case Fail => AfterFailure(b)
    case Load => AfterLoading(b)
    case Progress(v) => AfterProgress(b, v)
  }

  function Run(b: Bar, events: seq<Event>): Bar
    decreases |events|
  {
    if events == [] then b else Run(Step(b, events[0]), events[1..])
  }

  predicate CountingOnly(events: seq<Event>) {
    forall k :: 0 <= k < |events| ==> events[k] == Start || events[k] == Finish
  }

  /** Once counting stopped, `startRequest` and `finishRequest` change nothing until the next `loading()`. */
  lemma {:induction false} StoppedCountingIgnoresRequests(b: Bar, events: seq<Event>)
    requires b.requests.None?
    requires CountingOnly(events)
    ensures Run(b, events) == b
    decreases |events|
  {
    if events != [] {
      assert Step(b, events[0]) == b;
      StoppedCountingIgnoresRequests(b, events[1..]);
    }
  }

  function CountFails(events: seq<Event>): nat {
    if events == [] then 0 else (if events[0] == Fail then 1 else 0) + CountFails(events[1..])
  }

  /** Once the bar exists, the failure count is the number of `failed()` calls, and the error note shows it. */
  lemma {:induction false} FailuresAreCounted(b: Bar, events: seq<Event>)
    requires b.present
    ensures Run(b, events).failedRequests == b.failedRequests + CountFails(events)
    ensures Run(b, events).present
    ensures CountFails(events) > 0 ==> Run(b, events).errorNote == Some(Run(b, events).failedRequests)
    decreases |events|
  {
    if events != [] {
      var next := Step(b, events[0]);
      assert next.present;
      assert next.failedRequests == b.failedRequests + (if events[0] == Fail then 1 else 0);
      FailuresAreCounted(next, events[1..]);
      if CountFails(events[1..]) == 0 && events[0] == Fail {
        NoFailKeepsErrorNote(next, events[1..]);
      }
    }
  }

  lemma {:induction false} NoFailKeepsErrorNote(b: Bar, events: seq<Event>)
    requires b.present && CountFails(events) == 0
    ensures Run(b, events).errorNote == b.errorNote
    ensures Run(b, events).failedRequests == b.failedRequests
    decreases |events|
  {
    if events != [] {
      NoFailKeepsErrorNote(Step(b, events[0]), events[1..]);
    }
  }

  /** Errors outrank warnings: after a failure no warning note is shown, and a later outage adds none. */
  lemma {:induction false} ErrorOutranksWarning(b: Bar)
    requires b.present
    ensures !AfterFailure(b).warningNote && AfterFailure(b).error
    ensures !AfterOutage(AfterFailure(b)).warningNote
    ensures b.warningNote ==> !AfterFailure(b).warning
  {
  }

  /** While requests are counted, the bar is shown and not complete. */
  ghost predicate Counting(b: Bar) {
    b.requests.Some? ==> b.present && !b.complete
  }

  /**
   * No sequence of `loading`, `progress`, `startRequest`, `finishRequest`,
   * `serverOutage` and `failed` calls breaks the invariant. The page calls
   * `create` once, before `loading`; a second `create` is not covered, see
   * `CreateWhileCounting`.
   */
  lemma {:induction false} CountingPreserved(b: Bar, events: seq<Event>)
    requires Counting(b)
    ensures Counting(Run(b, events))
    decreases |events|
  {
    if events != [] {
      var next := Step(b, events[0]);
      assert Counting(next);
      CountingPreserved(next, events[1..]);
    }
  }
  /** A `create` while requests are counted marks the bar complete and keeps the counters, so the invariant fails. */
  lemma {:induction false} CreateWhileCounting(b: Bar)
    requires b.present && b.requests.Some?
    ensures !Counting(AfterCreate(b, true, true))
  {
  }


  // ---------------------------------------------------------------------------
  // The static class, its fields updated in place

  class ProgressBar {
    var present: bool
    var requests: Option<Requests>
    var failedRequests: nat
    var complete: bool
    var warning: bool
    var error: bool
    var title: Title
    var warningNote: bool
    var errorNote: Option<nat>

    function State(): Bar
      reads this
    {
      Bar(present, requests, failedRequests, complete, warning, error, title, warningNote, errorNote)
    }

    /** `_progress = null; _failedRequests = 0`. */
    constructor ()
      ensures State() == Initial
    {
      present, requests, failedRequests := false, None, 0;
      complete, warning, error, title := false, false, false, TitleReady;
      warningNote, errorNote := false, None;
    }

    method Create(showProgressbar: bool, containerPresent: bool)
      modifies this
      ensures State() == AfterCreate(old(State()), showProgressbar, containerPresent)
    {
      if !showProgressbar || !containerPresent {
        return;
      }
      present, complete, warning, error, title := true, true, false, false, TitleReady;
      warningNote, errorNote := false, None;
    }

    method Loading()
      modifies this
      ensures State() == AfterLoading(old(State()))
    {
      if !present {
        return;
      }
      title := TitleLoading;
      requests := Some(Requests(0, 0));
      complete := false;
    }

    method ShowProgress(value: Option<int>)
      modifies this
      ensures State() == AfterProgress(old(State()), value)
    {
      if !present {
        return;
      }
      var full: bool;
      if value.None? || value.value == 0 {
        if requests.None? {
          return;
        }
        full := ReachesFull(requests.value);
      } else {
        full := value.value >= 100;
      }
      if full {
        complete := true;
        title := TitleReady;
        requests := None;
      }
    }

    method StartRequest()
      modifies this
      ensures State() == AfterStart(old(State()))
    {
      if requests.None? {
        return;
      }
      requests := Some(requests.value.(initiated := requests.value.initiated + 1));
      ShowProgress(None);
    }

    method FinishRequest()
      modifies this
      ensures State() == AfterFinish(old(State()))
    {
      if requests.None? {
        return;
      }
      requests := Some(requests.value.(completed := requests.value.completed + 1));
      ShowProgress(None);
    }

    method ServerOutage()
      modifies this
      ensures State() == AfterOutage(old(State()))
    {
      if !present {
        return;
      }
      warning := true;
      requests := None;
      if !warningNote && errorNote.None? {
        warningNote := true;
      }
    }

    method Failed()
      modifies this
      ensures State() == AfterFailure(old(State()))
    {
      if !present {
        return;
      }
      if warningNote {
        warning := false;
        warningNote := false;
      }
      error := true;
      requests := None;
      failedRequests := failedRequests + 1;
      errorNote := Some(failedRequests);
    }
  }
}

/** The authentication page of the onboarding wizard: an embedded browser
    view loads the hosted sign-in flow, the page follows the view's load
    events, reads the result the flow leaves in the page, and on success
    merges it into the account info and moves to the next step. */
module AuthenticatePage {
  import opened Js

  /** The JSON the sign-in flow leaves in its `#pro-account` element; only
      the three fields the page reads are kept. */
  datatype AuthResult = AuthResult(email: Option<string>, firstname: Option<string>, lastname: Option<string>)

  /** What the page shows: whether the view is ready, and the load error if any. */
  datatype ViewState = ViewState(ready: bool, error: Option<string>)

  /** The state of a freshly constructed page. */
  const InitialView := ViewState(false, None)

  /** "Operation was aborted": fired when the view moves between pages quickly. */
  const AbortedErrorCode := -3

  /** The load events of the embedded view, and the completion of the
      script that reads the `#pro-account` element (`None` when it is absent). */
  datatype WebviewEvent =
    | StartLoading
    | FailLoad(code: int, description: Option<string>, url: string)
    | FinishLoad
    | ScriptResult(result: Option<AuthResult>)

  /** What a handler asks of the outside world besides its state change. */
  datatype Effect = NoEffect | ExecuteScript | FinishAuth(json: AuthResult)

  datatype Transition = Transition(view: ViewState, effect: Effect)

  /** A failure that the page reports: every failed load except an abort. */
  predicate IsReportedFailure(e: WebviewEvent) {
    e.FailLoad? && e.code != AbortedErrorCode
  }

  function ReachPrefix(url: string): string {
    "Could not reach " + url + ". "
  }

  /** The error shown for a failed load: the view's own description when it
      is truthy; otherwise a sentence naming the URL followed by the message
      `lookup` knows for the code, or the code itself in decimal. `lookup`
      stands for the browser networking stack's table of error codes. */
  function LoadErrorMessage(code: int, description: Option<string>, url: string, lookup: int -> Option<string>): (m: string)
    ensures Truthy(description) ==> m == description.value
    ensures !Truthy(description) ==> ReachPrefix(url) <= m
    ensures !Truthy(description) && lookup(code).Some? ==> m[|ReachPrefix(url)|..] == lookup(code).value
    ensures m != ""
  {
    if Truthy(description) then description.value
    else
      var detail := match lookup(code) case Some(message) => message case None => IntToDecimal(code);
      ReachPrefix(url) + detail
  }

  /** When neither the view nor the lookup can describe the failure, the
      code can be read back from the message. */
  lemma SynthesizedMessageNamesCode(code: int, description: Option<string>, url: string, lookup: int -> Option<string>)
    requires !Truthy(description) && lookup(code).None?
    ensures var m := LoadErrorMessage(code, description, url, lookup);
            SignedDecimalValue(m[|ReachPrefix(url)|..]) == code
  {
    var m := LoadErrorMessage(code, description, url, lookup);
    assert m[|ReachPrefix(url)|..] == IntToDecimal(code);
    IntToDecimalRoundTrip(code);
  }

  /** The page's handler for one event of the view. */
  function Step(v: ViewState, e: WebviewEvent, lookup: int -> Option<string>): (t: Transition)
    ensures e.StartLoading? ==> t == Transition(ViewState(v.ready, None), NoEffect)
    ensures e.FailLoad? && e.code == AbortedErrorCode ==> t == Transition(v, NoEffect)
    ensures IsReportedFailure(e) ==>
              && t == Transition(ViewState(false, Some(LoadErrorMessage(e.code, e.description, e.url, lookup))), NoEffect)
              && Truthy(t.view.error)
    ensures t.effect == ExecuteScript ==> e.FinishLoad?
    ensures e.FinishLoad? ==> t.view == v && (t.effect == ExecuteScript <==> !Truthy(v.error))
    ensures e.ScriptResult? ==> t.view.ready && t.view.error == v.error
    ensures t.effect.FinishAuth? <==> e.ScriptResult? && e.result.Some?
    ensures t.effect.FinishAuth? ==> t.effect.json == e.result.value
  {
    match e
    case StartLoading => Transition(v.(error := None), NoEffect)
    case FailLoad(code, description, url) =>
      if code == AbortedErrorCode then Transition(v, NoEffect)
      else Transition(ViewState(false, Some(LoadErrorMessage(code, description, url, lookup))), NoEffect)
    case FinishLoad =>
      // a finish event can follow a failure; the failure stands
      if Truthy(v.error) then Transition(v, NoEffect) else Transition(v, ExecuteScript)
    case ScriptResult(result) =>
      Transition(v.(ready := true), if result.Some? then FinishAuth(result.value) else NoEffect)
  }

  /** The state and the effects after a sequence of events, in order. */
  datatype Trace = Trace(view: ViewState, effects: seq<Effect>)

  function Run(v: ViewState, events: seq<WebviewEvent>, lookup: int -> Option<string>): (r: Trace)
    ensures |r.effects| == |events|
    decreases |events|
  {
    if |events| == 0 then Trace(v, [])
    else
      var before := Run(v, events[..|events| - 1], lookup);
      var t := Step(before.view, events[|events| - 1], lookup);
      Trace(t.view, before.effects + [t.effect])
  }

  /** Reference reading of `ready`: decided by the latest script completion
      (true) or reported failure (false) among the events; `ready0` when
      there is neither. */
  function LatestReady(ready0: bool, events: seq<WebviewEvent>): bool
    decreases |events|
  {
    if |events| == 0 then ready0
    else
      var e := events[|events| - 1];
      if e.ScriptResult? then true
      else if IsReportedFailure(e) then false
      else LatestReady(ready0, events[..|events| - 1])
  }

  /** Reference reading of `error`: decided by the latest start of a load
      (no error) or reported failure (its message) among the events;
      `error0` when there is neither. */
  function LatestError(error0: Option<string>, events: seq<WebviewEvent>, lookup: int -> Option<string>): Option<string>
    decreases |events|
  {
    if |events| == 0 then error0
    else
      var e := events[|events| - 1];
      if e.StartLoading? then None
      else if IsReportedFailure(e) then Some(LoadErrorMessage(e.code, e.description, e.url, lookup))
      else LatestError(error0, events[..|events| - 1], lookup)
  }

  /** The page's state after any sequence of events is the one the latest
      deciding events give: aborts, finishes and the ready flag never affect
      the error, and finishes and starts never affect the ready flag. */
  lemma {:induction false} RunMatchesLatestEvents(v: ViewState, events: seq<WebviewEvent>, lookup: int -> Option<string>)
    ensures Run(v, events, lookup).view ==
              ViewState(LatestReady(v.ready, events), LatestError(v.error, events, lookup))
    decreases |events|
  {
    if |events| > 0 {
      RunMatchesLatestEvents(v, events[..|events| - 1], lookup);
    }
  }

  /** From the initial state an error is either absent or a non-empty message,
      so "an error is set" and "the error is truthy" agree on every state the
      page reaches. */
  lemma {:induction false} ReachableErrorIsAbsentOrTruthy(events: seq<WebviewEvent>, lookup: int -> Option<string>)
    ensures var v := Run(InitialView, events, lookup).view;
            v.error.None? || Truthy(v.error)
    decreases |events|
  {
    if |events| > 0 {
      ReachableErrorIsAbsentOrTruthy(events[..|events| - 1], lookup);
    }
  }

  /** On every reachable state a finished load runs the extraction script
      exactly when no error is set. */
  lemma FinishRunsScriptExactlyWithoutError(events: seq<WebviewEvent>, lookup: int -> Option<string>)
    ensures var v := Run(InitialView, events, lookup).view;
            Step(v, FinishLoad, lookup).effect == ExecuteScript <==> v.error.None?
  {
    ReachableErrorIsAbsentOrTruthy(events, lookup);
  }

  /** A finished load that races behind a reported failure is ignored: the
      page stays not ready with the failure shown, and no script runs. */
  lemma FinishAfterFailureIgnored(v: ViewState, code: int, description: Option<string>, url: string, lookup: int -> Option<string>)
    requires code != AbortedErrorCode
    ensures var failed := Step(v, FailLoad(code, description, url), lookup).view;
            && Step(failed, FinishLoad, lookup) == Transition(failed, NoEffect)
            && !failed.ready
            && failed.error == Some(LoadErrorMessage(code, description, url, lookup))
  {
  }

  /** The results the script found, in order. */
  function FoundResults(events: seq<WebviewEvent>): seq<AuthResult>
    decreases |events|
  {
    if |events| == 0 then []
    else
      var e := events[|events| - 1];
      FoundResults(events[..|events| - 1]) + if e.ScriptResult? && e.result.Some? then [e.result.value] else []
  }

  /** The results handed to the success path, in order. */
  function Successes(effects: seq<Effect>): seq<AuthResult>
    decreases |effects|
  {
    if |effects| == 0 then []
    else
      var e := effects[|effects| - 1];
      Successes(effects[..|effects| - 1]) + if e.FinishAuth? then [e.json] else []
  }

  /** The success path runs exactly once for every non-null script result,
      with that result, in the order the results arrived, and never otherwise. */
  lemma {:induction false} SuccessOncePerResult(v: ViewState, events: seq<WebviewEvent>, lookup: int -> Option<string>)
    ensures Successes(Run(v, events, lookup).effects) == FoundResults(events)
    decreases |events|
  {
    if |events| > 0 {
      var r := Run(v, events, lookup);
      var before := Run(v, events[..|events| - 1], lookup);
      SuccessOncePerResult(v, events[..|events| - 1], lookup);
      assert r.effects[..|r.effects| - 1] == before.effects;
    }
  }

  /** A value of the shared account info. */
  datatype Value = Str(text: string) | Number(number: int) | Boolean(flag: bool) | Undefined

  /** The display name built from the result: first name, a space, last name,
      each missing part read as empty. */
  function DisplayName(json: AuthResult): (name: string)
    ensures ' ' in name
  {
    OrEmpty(json.firstname) + " " + OrEmpty(json.lastname)
  }

  /** The text before the first space, and the text after it. */
  function SplitAtFirstSpace(s: string): (string, string)
    decreases |s|
  {
    if |s| == 0 then ("", "")
    else if s[0] == ' ' then ("", s[1..])
    else
      var rest := SplitAtFirstSpace(s[1..]);
      ([s[0]] + rest.0, rest.1)
  }

  lemma {:induction false} SplitJoined(a: string, b: string)
    requires ' ' !in a
    ensures SplitAtFirstSpace(a + " " + b) == (a, b)
    decreases |a|
  {
    if |a| > 0 {
      assert (a + " " + b)[1..] == a[1..] + " " + b;
      SplitJoined(a[1..], b);
      assert [a[0]] + a[1..] == a;
    } else {
      assert a + " " + b == " " + b;
    }
  }

  /** When the first name has no space, the display name splits back into
      the two names it was built from. */
  lemma DisplayNameSplitsBack(json: AuthResult)
    requires ' ' !in OrEmpty(json.firstname)
    ensures SplitAtFirstSpace(DisplayName(json)) == (OrEmpty(json.firstname), OrEmpty(json.lastname))
  {
    SplitJoined(OrEmpty(json.firstname), OrEmpty(json.lastname));
  }

  /** The value `email` takes in the merged account info: the result's email,
      or undefined when it has none. */
  function EmailValue(json: AuthResult): Value {
    if json.email.Some? then Str(json.email.value) else Undefined
  }

  /** The account info published on success: the prior account info with
      `email` taken from the result and `name` the display name; every other
      key keeps its value. */
  function MergeAuthResult(prior: map<string, Value>, json: AuthResult): (m: map<string, Value>)
    ensures m.Keys == prior.Keys + {"email", "name"}
    ensures forall k :: k in prior && k != "email" && k != "name" ==> m[k] == prior[k]
    ensures m["email"] == EmailValue(json)
    ensures m["name"] == Str(DisplayName(json))
  {
    prior["email" := EmailValue(json)]["name" := Str(DisplayName(json))]
  }

  /** The published name splits back into the two names of the result when
      the first name has no space. */
  lemma MergedNameSplitsBack(prior: map<string, Value>, json: AuthResult)
    requires ' ' !in OrEmpty(json.firstname)
    ensures SplitAtFirstSpace(MergeAuthResult(prior, json)["name"].text) == (OrEmpty(json.firstname), OrEmpty(json.lastname))
  {
    DisplayNameSplitsBack(json);
  }

  /** `m` is some account info with `json` merged in: merging `json` once more
      changes nothing. */
  predicate IsMergeOf(m: map<string, Value>, json: AuthResult)
    ensures IsMergeOf(m, json) ==>
              "email" in m && "name" in m && m["email"] == EmailValue(json) && m["name"] == Str(DisplayName(json))
  {
    m == MergeAuthResult(m, json)
  }

  /** Every merge is a merge of its result; with the choice `prior := m`,
      every `IsMergeOf(m, json)` is one, so the predicate characterises the
      merges of `json` exactly. */
  lemma MergeIsMergeOf(prior: map<string, Value>, json: AuthResult)
    ensures IsMergeOf(MergeAuthResult(prior, json), json)
  {
    var m := MergeAuthResult(prior, json);
    assert MergeAuthResult(m, json).Keys == m.Keys;
  }

  /** The page the wizard moves to after a successful sign-in. */
  const NextPage := "account-choose"

  /** The hosted sign-in flow the view is pointed at on mount. */
  const OnboardingUrl := "http://pro.nylas.toad:5555/onboarding"

  /** The page with its pending success callbacks, scheduled one second after
      each success in that order and so firing in that order. */
  datatype Page = Page(view: ViewState, pendingSuccess: seq<AuthResult>, mounted: bool)

  datatype PageEvent =
    | Webview(event: WebviewEvent)
    | TryAgain
    | SuccessDelayElapsed(storeInfo: map<string, Value>)  // the store's account info when the callback runs
    | Unmount

  /** Calls the page makes on the view and on the wizard's stores. */
  datatype Action =
    | LoadUrl(url: string)
    | RunExtractionScript
    | Reload
    | SetUserAccount(json: AuthResult)
    | SetAccountInfo(info: map<string, Value>)
    | MoveToPage(page: string)

  datatype Reaction = Reaction(page: Page, actions: seq<Action>)

  /** On mount the view is pointed at the sign-in flow. */
  const Mounted := Reaction(Page(InitialView, [], true), [LoadUrl(OnboardingUrl)])

  predicate IsNavigation(a: Action) {
    a.SetAccountInfo? || a.MoveToPage?
  }

  predicate NoNavigation(actions: seq<Action>) {
    forall i :: 0 <= i < |actions| ==> !IsNavigation(actions[i])
  }

  /** What unmount does with the pending success callbacks. As written, each
      success overwrites the one remembered timer handle, so unmount clears
      only the latest callback; as intended, it cancels them all. */
  datatype Teardown = ClearLatestHandle | ClearAll

  /** The success callbacks still scheduled after unmount. */
  function PendingAfterUnmount(t: Teardown, pending: seq<AuthResult>): (r: seq<AuthResult>)
    ensures r <= pending
    ensures t.ClearAll? ==> r == []
    ensures t.ClearLatestHandle? && |pending| > 0 ==> r + [pending[|pending| - 1]] == pending
  {
    match t
    case ClearLatestHandle => if |pending| == 0 then [] else pending[..|pending| - 1]
    case ClearAll => []
  }

  /** The page's reaction to one event; `t` says how unmount treats the
      pending success callbacks. */
  function PageStep(p: Page, ev: PageEvent, lookup: int -> Option<string>, t: Teardown): (r: Reaction)
    ensures NoNavigation(r.actions) || (ev.SuccessDelayElapsed? && |p.pendingSuccess| > 0)
    ensures !p.mounted ==> !r.page.mounted && |r.page.pendingSuccess| <= |p.pendingSuccess|
    ensures !p.mounted && (ev.Webview? || ev.TryAgain?) ==> r == Reaction(p, [])
    ensures p.mounted && ev.Webview? ==>
              var e := ev.event;
              && r.page.mounted
              && r.page.view == Step(p.view, e, lookup).view
              && (r.actions == [RunExtractionScript] <==> e.FinishLoad? && !Truthy(p.view.error))
              && (e.ScriptResult? && e.result.Some? ==>
                    && r.actions == [SetUserAccount(e.result.value)]
                    && r.page.pendingSuccess == p.pendingSuccess + [e.result.value])
              && (!(e.ScriptResult? && e.result.Some?) ==> r.page.pendingSuccess == p.pendingSuccess)
              && (!(e.FinishLoad? && !Truthy(p.view.error)) && !(e.ScriptResult? && e.result.Some?) ==> r.actions == [])
    ensures p.mounted && ev.TryAgain? ==> r == Reaction(p, [Reload])
    ensures ev.SuccessDelayElapsed? && |p.pendingSuccess| > 0 ==>
              && r.actions == [SetAccountInfo(MergeAuthResult(ev.storeInfo, p.pendingSuccess[0])), MoveToPage(NextPage)]
              && r.page == p.(pendingSuccess := p.pendingSuccess[1..])
    ensures ev.SuccessDelayElapsed? && |p.pendingSuccess| == 0 ==> r == Reaction(p, [])
    ensures ev.Unmount? ==>
              && !r.page.mounted && r.page.view == p.view && r.actions == []
              && r.page.pendingSuccess <= p.pendingSuccess
              && (t.ClearAll? ==> r.page.pendingSuccess == [])
  {
    match ev
    case Webview(e) =>
      if !p.mounted then Reaction(p, [])
      else
        var s := Step(p.view, e, lookup);
        (match s.effect
         case NoEffect => Reaction(p.(view := s.view), [])
         case ExecuteScript => Reaction(p.(view := s.view), [RunExtractionScript])
         case FinishAuth(json) =>
           Reaction(Page(s.view, p.pendingSuccess + [json], true), [SetUserAccount(json)]))
    case TryAgain =>
      if p.mounted then Reaction(p, [Reload]) else Reaction(p, [])
    case SuccessDelayElapsed(storeInfo) =>
      if |p.pendingSuccess| == 0 then Reaction(p, [])
      else
        var json := p.pendingSuccess[0];
        Reaction(p.(pendingSuccess := p.pendingSuccess[1..]),
                 [SetAccountInfo(MergeAuthResult(storeInfo, json)), MoveToPage(NextPage)])
    case Unmount =>
      Reaction(Page(p.view, PendingAfterUnmount(t, p.pendingSuccess), false), [])
  }

  /** The page after a sequence of events, with every action in order. */
  function RunPage(p: Page, events: seq<PageEvent>, lookup: int -> Option<string>, t: Teardown): Reaction
    decreases |events|
  {
    if |events| == 0 then Reaction(p, [])
    else
      var first := PageStep(p, events[0], lookup, t);
      var rest := RunPage(first.page, events[1..], lookup, t);
      Reaction(rest.page, first.actions + rest.actions)
  }

  /** The account info the actions publish, in order. */
  function Published(actions: seq<Action>): seq<map<string, Value>>
    decreases |actions|
  {
    if |actions| == 0 then []
    else (if actions[0].SetAccountInfo? then [actions[0].info] else []) + Published(actions[1..])
  }

  lemma {:induction false} PublishedAppend(a: seq<Action>, b: seq<Action>)
    ensures Published(a + b) == Published(a) + Published(b)
    decreases |a|
  {
    if |a| > 0 {
      assert (a + b)[0] == a[0];
      assert (a + b)[1..] == a[1..] + b;
      PublishedAppend(a[1..], b);
      var head := if a[0].SetAccountInfo? then [a[0].info] else [];
      assert Published(a + b) == head + Published(a[1..] + b);
      assert Published(a) == head + Published(a[1..]);
    } else {
      assert a + b == b;
    }
  }

  /** The results the script finds over a sequence of page events, in order. */
  function PageResults(events: seq<PageEvent>): seq<AuthResult>
    decreases |events|
  {
    if |events| == 0 then []
    else
      var e := events[0];
      (if e.Webview? && e.event.ScriptResult? && e.event.result.Some? then [e.event.result.value] else [])
        + PageResults(events[1..])
  }

  /** The success callbacks a page has scheduled over `events`: those
      already pending, then, while it is mounted, one per result found. */
  function Scheduled(p: Page, events: seq<PageEvent>): seq<AuthResult> {
    p.pendingSuccess + if p.mounted then PageResults(events) else []
  }

  /** Publications `pubs` and the still pending callbacks follow the
      schedule `q`: each publication merges the scheduled result of its
      rank, the pending ones come right after, and a page still mounted has
      lost none. */
  predicate FollowsSchedule(pubs: seq<map<string, Value>>, pending: seq<AuthResult>, q: seq<AuthResult>, mounted: bool) {
    && |pubs| + |pending| <= |q|
    && (forall i :: 0 <= i < |pubs| ==> IsMergeOf(pubs[i], q[i]))
    && pending == q[|pubs|..|pubs| + |pending|]
    && (mounted ==> |pubs| + |pending| == |q|)
  }

  lemma FollowsScheduleCons(m: map<string, Value>, pubs: seq<map<string, Value>>, pending: seq<AuthResult>,
                            q: seq<AuthResult>, mounted: bool)
    requires |q| > 0 && IsMergeOf(m, q[0])
    requires FollowsSchedule(pubs, pending, q[1..], mounted)
    ensures FollowsSchedule([m] + pubs, pending, q, mounted)
  {
    forall i | 0 < i < |pubs| + 1
      ensures IsMergeOf(([m] + pubs)[i], q[i])
    {
      assert q[1..][i - 1] == q[i];
    }
    assert q[1..][|pubs|..|pubs| + |pending|] == q[|pubs| + 1..|pubs| + 1 + |pending|];
  }

  lemma FollowsSchedulePrefix(pubs: seq<map<string, Value>>, pending: seq<AuthResult>, q1: seq<AuthResult>, q: seq<AuthResult>)
    requires q1 <= q && FollowsSchedule(pubs, pending, q1, false)
    ensures FollowsSchedule(pubs, pending, q, false)
  {
    assert q1[|pubs|..|pubs| + |pending|] == q[|pubs|..|pubs| + |pending|];
  }

  /** Actions without navigation publish nothing. */
  lemma {:induction false} NoNavigationPublishesNothing(actions: seq<Action>)
    requires NoNavigation(actions)
    ensures Published(actions) == []
    decreases |actions|
  {
    if |actions| > 0 {
      assert !IsNavigation(actions[0]);
      NoNavigationPublishesNothing(actions[1..]);
    }
  }

  /** A view event or a retry publishes nothing and leaves the schedule as
      it is: a result found while mounted is queued at the end. */
  lemma ViewEventKeepsSchedule(p: Page, events: seq<PageEvent>, lookup: int -> Option<string>, t: Teardown)
    requires |events| > 0 && (events[0].Webview? || events[0].TryAgain?)
    ensures var first := PageStep(p, events[0], lookup, t);
            && Published(first.actions) == []
            && first.page.mounted == p.mounted
            && Scheduled(first.page, events[1..]) == Scheduled(p, events)
  {
    var e := events[0];
    var first := PageStep(p, e, lookup, t);
    NoNavigationPublishesNothing(first.actions);
    var found := if e.Webview? && e.event.ScriptResult? && e.event.result.Some? then [e.event.result.value] else [];
    assert PageResults(events) == found + PageResults(events[1..]);
    if p.mounted {
      assert first.page.pendingSuccess == p.pendingSuccess + found;
    }
  }

  /** A firing with a callback pending publishes a merge of the first
      scheduled result and drops it from the schedule. */
  lemma {:induction false} FiringAdvancesSchedule(p: Page, events: seq<PageEvent>, lookup: int -> Option<string>, t: Teardown)
    requires |events| > 0 && events[0].SuccessDelayElapsed? && |p.pendingSuccess| > 0
    ensures var first := PageStep(p, events[0], lookup, t);
            var q := Scheduled(p, events);
            && |Published(first.actions)| == 1 && IsMergeOf(Published(first.actions)[0], q[0])
            && first.page.mounted == p.mounted
            && |q| > 0 && Scheduled(first.page, events[1..]) == q[1..]
  {
    var e := events[0];
    var first := PageStep(p, e, lookup, t);
    assert e == SuccessDelayElapsed(e.storeInfo);
    FiringTakesOldest(p, e.storeInfo, lookup, t);
    MergeIsMergeOf(e.storeInfo, p.pendingSuccess[0]);
    ScheduleDropsOldest(p, first.page, events);
  }

  /** Dropping the oldest pending callback at a firing drops the first
      scheduled result. */
  lemma ScheduleDropsOldest(p: Page, p': Page, events: seq<PageEvent>)
    requires |events| > 0 && events[0].SuccessDelayElapsed? && |p.pendingSuccess| > 0
    requires p'.pendingSuccess == p.pendingSuccess[1..] && p'.mounted == p.mounted
    ensures var q := Scheduled(p, events);
            |q| > 0 && q[0] == p.pendingSuccess[0] && Scheduled(p', events[1..]) == q[1..]
  {
    assert PageResults(events) == [] + PageResults(events[1..]);
    var rest := if p.mounted then PageResults(events[1..]) else [];
    assert Scheduled(p, events) == p.pendingSuccess + rest;
    assert Scheduled(p', events[1..]) == p.pendingSuccess[1..] + rest;
    assert (p.pendingSuccess + rest)[1..] == p.pendingSuccess[1..] + rest;
  }

  /** A firing with nothing pending publishes nothing and changes nothing. */
  lemma IdleFiringKeepsSchedule(p: Page, events: seq<PageEvent>, lookup: int -> Option<string>, t: Teardown)
    requires |events| > 0 && events[0].SuccessDelayElapsed? && |p.pendingSuccess| == 0
    ensures var first := PageStep(p, events[0], lookup, t);
            && Published(first.actions) == []
            && first.page.mounted == p.mounted
            && Scheduled(first.page, events[1..]) == Scheduled(p, events)
  {
    assert PageResults(events) == PageResults(events[1..]);
  }

  /** Unmount publishes nothing and may cut the schedule short. */
  lemma UnmountCutsSchedule(p: Page, events: seq<PageEvent>, lookup: int -> Option<string>, t: Teardown)
    requires |events| > 0 && events[0].Unmount?
    ensures var first := PageStep(p, events[0], lookup, t);
            && Published(first.actions) == []
            && !first.page.mounted
            && Scheduled(first.page, events[1..]) <= Scheduled(p, events)
  {
  }

  /** The queue discipline of the success callbacks: what a run publishes
      and what it leaves pending follow the callbacks the page scheduled. */
  lemma {:induction false} PublishedFollowScheduled(p: Page, events: seq<PageEvent>, lookup: int -> Option<string>, t: Teardown)
    ensures var r := RunPage(p, events, lookup, t);
            && (!p.mounted ==> !r.page.mounted)
            && FollowsSchedule(Published(r.actions), r.page.pendingSuccess, Scheduled(p, events), r.page.mounted)
    decreases |events|
  {
    if |events| == 0 {
      assert Scheduled(p, events) == p.pendingSuccess;
      assert p.pendingSuccess[0..|p.pendingSuccess|] == p.pendingSuccess;
    } else {
      var e := events[0];
      var first := PageStep(p, e, lookup, t);
      var rest := RunPage(first.page, events[1..], lookup, t);
      var r := RunPage(p, events, lookup, t);
      assert r == Reaction(rest.page, first.actions + rest.actions);
      PublishedFollowScheduled(first.page, events[1..], lookup, t);
      PublishedAppend(first.actions, rest.actions);
      var q := Scheduled(p, events);
      var q1 := Scheduled(first.page, events[1..]);
      var pubs := Published(rest.actions);
      if e.SuccessDelayElapsed? && |p.pendingSuccess| > 0 {
        FiringAdvancesSchedule(p, events, lookup, t);
        var m := Published(first.actions)[0];
        assert Published(first.actions) == [m];
        assert Published(r.actions) == [m] + pubs;
        FollowsScheduleCons(m, pubs, rest.page.pendingSuccess, q, rest.page.mounted);
      } else if e.Unmount? {
        UnmountCutsSchedule(p, events, lookup, t);
        assert Published(r.actions) == pubs;
        FollowsSchedulePrefix(pubs, rest.page.pendingSuccess, q1, q);
      } else if e.SuccessDelayElapsed? {
        IdleFiringKeepsSchedule(p, events, lookup, t);
        assert Published(r.actions) == pubs;
      } else {
        ViewEventKeepsSchedule(p, events, lookup, t);
        assert Published(r.actions) == pubs;
      }
    }
  }

  /** From mount, the account info the page publishes is, in order, a merge of
      a prefix of the results the script found: the first publication carries
      the first result, the second the second, and so on. */
  lemma PublishedFromMount(events: seq<PageEvent>, lookup: int -> Option<string>, t: Teardown)
    ensures var pubs := Published(RunPage(Mounted.page, events, lookup, t).actions);
            var found := PageResults(events);
            && |pubs| <= |found|
            && forall i :: 0 <= i < |pubs| ==> IsMergeOf(pubs[i], found[i])
  {
    PublishedFollowScheduled(Mounted.page, events, lookup, t);
    assert Scheduled(Mounted.page, events) == PageResults(events);
  }

  /** The user accounts the actions hand to the identity store, in order. */
  function UserAccounts(actions: seq<Action>): seq<AuthResult>
    decreases |actions|
  {
    if |actions| == 0 then []
    else (if actions[0].SetUserAccount? then [actions[0].json] else []) + UserAccounts(actions[1..])
  }

  lemma {:induction false} UserAccountsAppend(a: seq<Action>, b: seq<Action>)
    ensures UserAccounts(a + b) == UserAccounts(a) + UserAccounts(b)
    decreases |a|
  {
    if |a| > 0 {
      assert (a + b)[0] == a[0];
      assert (a + b)[1..] == a[1..] + b;
      UserAccountsAppend(a[1..], b);
      var head := if a[0].SetUserAccount? then [a[0].json] else [];
      assert UserAccounts(a + b) == head + UserAccounts(a[1..] + b);
      assert UserAccounts(a) == head + UserAccounts(a[1..]);
    } else {
      assert a + b == b;
    }
  }

  /** The results the script finds before the page is first unmounted. */
  function ResultsWhileMounted(events: seq<PageEvent>): seq<AuthResult>
    decreases |events|
  {
    if |events| == 0 || events[0].Unmount? then []
    else
      var e := events[0];
      (if e.Webview? && e.event.ScriptResult? && e.event.result.Some? then [e.event.result.value] else [])
        + ResultsWhileMounted(events[1..])
  }

  /** One event hands over a user account exactly when it is a non-null
      script result reaching a mounted page, and only unmount unmounts. */
  lemma StepUserAccounts(p: Page, ev: PageEvent, lookup: int -> Option<string>, t: Teardown)
    ensures var r := PageStep(p, ev, lookup, t);
            && UserAccounts(r.actions)
                 == (if p.mounted && ev.Webview? && ev.event.ScriptResult? && ev.event.result.Some?
                     then [ev.event.result.value] else [])
            && r.page.mounted == (p.mounted && !ev.Unmount?)
  {
    var r := PageStep(p, ev, lookup, t);
    if r.actions != [] {
      assert UserAccounts(r.actions) == (if r.actions[0].SetUserAccount? then [r.actions[0].json] else [])
                                        + UserAccounts(r.actions[1..]);
      if |r.actions| == 2 {
        assert UserAccounts(r.actions[1..]) == UserAccounts(r.actions[2..]);
      }
    }
  }

  /** Over any run, the user accounts handed to the identity store are
      exactly the non-null script results that reach the page while it is
      mounted, in order, each once; an unmounted page hands over none. */
  lemma {:induction false} UserAccountsFollowResults(p: Page, events: seq<PageEvent>, lookup: int -> Option<string>, t: Teardown)
    ensures UserAccounts(RunPage(p, events, lookup, t).actions) == if p.mounted then ResultsWhileMounted(events) else []
    decreases |events|
  {
    if |events| > 0 {
      var first := PageStep(p, events[0], lookup, t);
      var rest := RunPage(first.page, events[1..], lookup, t);
      StepUserAccounts(p, events[0], lookup, t);
      UserAccountsFollowResults(first.page, events[1..], lookup, t);
      UserAccountsAppend(first.actions, rest.actions);
    }
  }

  /** From mount, the user accounts handed over are exactly the results
      found before the first unmount. */
  lemma UserAccountsFromMount(events: seq<PageEvent>, lookup: int -> Option<string>, t: Teardown)
    ensures UserAccounts(Mounted.actions + RunPage(Mounted.page, events, lookup, t).actions) == ResultsWhileMounted(events)
  {
    UserAccountsFollowResults(Mounted.page, events, lookup, t);
    UserAccountsAppend(Mounted.actions, RunPage(Mounted.page, events, lookup, t).actions);
    assert UserAccounts(Mounted.actions) == UserAccounts(Mounted.actions[1..]);
  }

  /** `pubs` is what firings with the store's account info of `events` publish
      from the pending results `q`: one merge per firing, in order, until
      the results run out. */
  predicate PublishesPending(pubs: seq<map<string, Value>>, events: seq<PageEvent>, q: seq<AuthResult>)
    requires forall i :: 0 <= i < |events| ==> events[i].SuccessDelayElapsed?
  {
    && |pubs| == (if |events| < |q| then |events| else |q|)
    && forall i :: 0 <= i < |pubs| ==> pubs[i] == MergeAuthResult(events[i].storeInfo, q[i])
  }

  lemma ConsPublishesPending(m: map<string, Value>, pubs: seq<map<string, Value>>, events: seq<PageEvent>, q: seq<AuthResult>)
    requires forall i :: 0 <= i < |events| ==> events[i].SuccessDelayElapsed?
    requires |events| > 0 && |q| > 0 && m == MergeAuthResult(events[0].storeInfo, q[0])
    requires PublishesPending(pubs, events[1..], q[1..])
    ensures PublishesPending([m] + pubs, events, q)
  {
    forall i | 0 < i < |pubs| + 1
      ensures ([m] + pubs)[i] == MergeAuthResult(events[i].storeInfo, q[i])
    {
      assert events[1..][i - 1] == events[i];
      assert q[1..][i - 1] == q[i];
    }
  }

  /** One firing publishes the oldest pending result, if any, and removes it. */
  lemma FiringTakesOldest(p: Page, storeInfo: map<string, Value>, lookup: int -> Option<string>, t: Teardown)
    ensures var first := PageStep(p, SuccessDelayElapsed(storeInfo), lookup, t);
            var q := p.pendingSuccess;
            && Published(first.actions) == (if |q| > 0 then [MergeAuthResult(storeInfo, q[0])] else [])
            && first.page.pendingSuccess == (if |q| > 0 then q[1..] else q)
            && first.page.mounted == p.mounted
  {
    var first := PageStep(p, SuccessDelayElapsed(storeInfo), lookup, t);
    if |p.pendingSuccess| > 0 {
      assert Published(first.actions[1..]) == [];
    } else {
      assert first.actions == [];
    }
  }

  /** A run of success-callback firings publishes the pending results in
      order, one per firing until none is left; each publication is the
      store's account info at that firing with the result merged in. */
  lemma {:induction false} FiringsPublishPending(p: Page, events: seq<PageEvent>, lookup: int -> Option<string>, t: Teardown)
    requires forall i :: 0 <= i < |events| ==> events[i].SuccessDelayElapsed?
    ensures PublishesPending(Published(RunPage(p, events, lookup, t).actions), events, p.pendingSuccess)
    decreases |events|
  {
    if |events| > 0 {
      var first := PageStep(p, events[0], lookup, t);
      var rest := RunPage(first.page, events[1..], lookup, t);
      FiringTakesOldest(p, events[0].storeInfo, lookup, t);
      FiringsPublishPending(first.page, events[1..], lookup, t);
      PublishedAppend(first.actions, rest.actions);
      if |p.pendingSuccess| > 0 {
        ConsPublishesPending(MergeAuthResult(events[0].storeInfo, p.pendingSuccess[0]),
                             Published(rest.actions), events, p.pendingSuccess);
      }
    }
  }

  lemma {:induction false} QuietPageStaysQuiet(p: Page, events: seq<PageEvent>, lookup: int -> Option<string>, t: Teardown)
    requires !p.mounted && p.pendingSuccess == []
    ensures var r := RunPage(p, events, lookup, t);
            NoNavigation(r.actions) && !r.page.mounted && r.page.pendingSuccess == []
    decreases |events|
  {
    if |events| > 0 {
      var first := PageStep(p, events[0], lookup, t);
      QuietPageStaysQuiet(first.page, events[1..], lookup, t);
    }
  }

  /** With unmount cancelling every pending callback, nothing that happens
      afterwards (a late view event, a late success callback) publishes
      account info or moves the wizard. View events after unmount are taken
      to be ignored because the view is torn down with the page; the source
      does not guard the script's completion callback, so a completion that
      still arrived would schedule a new success callback. */
  lemma NoNavigationAfterUnmount(p: Page, events: seq<PageEvent>, lookup: int -> Option<string>)
    ensures NoNavigation(RunPage(p, [Unmount] + events, lookup, ClearAll).actions)
  {
    var u := PageStep(p, Unmount, lookup, ClearAll);
    QuietPageStaysQuiet(u.page, events, lookup, ClearAll);
    assert ([Unmount] + events)[1..] == events;
  }

  /** As written, unmount leaves every pending success callback but the
      latest scheduled: the firings that follow still publish, in order, each
      earlier result merged into the store's account info. */
  lemma {:induction false} UnmountAsWrittenKeepsEarlierCallbacks(p: Page, events: seq<PageEvent>, lookup: int -> Option<string>)
    requires forall i :: 0 <= i < |events| ==> events[i].SuccessDelayElapsed?
    ensures var q := p.pendingSuccess;
            var kept := if |q| == 0 then [] else q[..|q| - 1];
            var pubs := Published(RunPage(p, [Unmount] + events, lookup, ClearLatestHandle).actions);
            && |pubs| == (if |events| < |kept| then |events| else |kept|)
            && forall i :: 0 <= i < |pubs| ==> pubs[i] == MergeAuthResult(events[i].storeInfo, kept[i])
  {
    var q := p.pendingSuccess;
    var kept := if |q| == 0 then [] else q[..|q| - 1];
    var u := PageStep(p, Unmount, lookup, ClearLatestHandle);
    assert u.actions == [] && u.page.pendingSuccess == kept;
    var rest := RunPage(u.page, events, lookup, ClearLatestHandle);
    assert ([Unmount] + events)[0] == Unmount && ([Unmount] + events)[1..] == events;
    assert RunPage(p, [Unmount] + events, lookup, ClearLatestHandle).actions == [] + rest.actions;
    assert [] + rest.actions == rest.actions;
    FiringsPublishPending(u.page, events, lookup, ClearLatestHandle);
    assert PublishesPending(Published(rest.actions), events, kept);
  }

  /** A result found while mounted is queued and handed to the user account. */
  lemma ResultQueued(p: Page, json: AuthResult, lookup: int -> Option<string>, t: Teardown)
    requires p.mounted
    ensures var r := PageStep(p, Webview(ScriptResult(Some(json))), lookup, t);
            r.actions == [SetUserAccount(json)] && r.page.pendingSuccess == p.pendingSuccess + [json] && r.page.mounted
  {
  }

  /** Unmount with two callbacks pending, then one firing. */
  lemma UnmountThenFiring(p: Page, storeInfo: map<string, Value>, lookup: int -> Option<string>, t: Teardown)
    requires |p.pendingSuccess| == 2
    ensures RunPage(p, [Unmount, SuccessDelayElapsed(storeInfo)], lookup, t).actions ==
              if t.ClearAll? then [] else [SetAccountInfo(MergeAuthResult(storeInfo, p.pendingSuccess[0])), MoveToPage(NextPage)]
  {
    var events := [Unmount, SuccessDelayElapsed(storeInfo)];
    var s1 := PageStep(p, events[0], lookup, t);
    var s2 := PageStep(s1.page, events[1], lookup, t);
    assert s1.page.pendingSuccess == if t.ClearAll? then [] else [p.pendingSuccess[0]];
    assert RunPage(s2.page, events[2..], lookup, t) == Reaction(s2.page, []);
    assert RunPage(s1.page, events[1..], lookup, t) == Reaction(s2.page, s2.actions);
  }

  /** A run is its first step followed by the run of the remaining events. */
  lemma RunPageCons(p: Page, e: PageEvent, rest: seq<PageEvent>, lookup: int -> Option<string>, t: Teardown)
    ensures var first := PageStep(p, e, lookup, t);
            var r := RunPage(first.page, rest, lookup, t);
            RunPage(p, [e] + rest, lookup, t) == Reaction(r.page, first.actions + r.actions)
  {
    assert ([e] + rest)[0] == e;
    assert ([e] + rest)[1..] == rest;
  }

  /** Two results found, unmount, then one firing, under either teardown. */
  lemma TwoResultsThenUnmount(a: AuthResult, b: AuthResult, storeInfo: map<string, Value>,
                              lookup: int -> Option<string>, t: Teardown)
    ensures RunPage(Mounted.page, [Webview(ScriptResult(Some(a))), Webview(ScriptResult(Some(b))),
                                   Unmount, SuccessDelayElapsed(storeInfo)], lookup, t).actions ==
              [SetUserAccount(a), SetUserAccount(b)] +
                if t.ClearAll? then [] else [SetAccountInfo(MergeAuthResult(storeInfo, a)), MoveToPage(NextPage)]
  {
    var tail := [Unmount, SuccessDelayElapsed(storeInfo)];
    var s1 := PageStep(Mounted.page, Webview(ScriptResult(Some(a))), lookup, t);
    var s2 := PageStep(s1.page, Webview(ScriptResult(Some(b))), lookup, t);
    ResultQueued(Mounted.page, a, lookup, t);
    ResultQueued(s1.page, b, lookup, t);
    UnmountThenFiring(s2.page, storeInfo, lookup, t);
    RunPageCons(s1.page, Webview(ScriptResult(Some(b))), tail, lookup, t);
    RunPageCons(Mounted.page, Webview(ScriptResult(Some(a))), [Webview(ScriptResult(Some(b)))] + tail, lookup, t);
    assert [Webview(ScriptResult(Some(a)))] + ([Webview(ScriptResult(Some(b)))] + tail) ==
           [Webview(ScriptResult(Some(a))), Webview(ScriptResult(Some(b))), Unmount, SuccessDelayElapsed(storeInfo)];
  }

  /** Two sign-in results within a second, then unmount, then the first
      callback fires: as written it still publishes the first result and
      moves the wizard; with every callback cancelled nothing happens. */
  lemma UnmountAsWrittenLeaksNavigation(a: AuthResult, b: AuthResult, storeInfo: map<string, Value>,
                                        lookup: int -> Option<string>)
    ensures var events := [Webview(ScriptResult(Some(a))), Webview(ScriptResult(Some(b))),
                           Unmount, SuccessDelayElapsed(storeInfo)];
            && RunPage(Mounted.page, events, lookup, ClearLatestHandle).actions ==
                 [SetUserAccount(a), SetUserAccount(b), SetAccountInfo(MergeAuthResult(storeInfo, a)), MoveToPage(NextPage)]
            && RunPage(Mounted.page, events, lookup, ClearAll).actions == [SetUserAccount(a), SetUserAccount(b)]
  {
    TwoResultsThenUnmount(a, b, storeInfo, lookup, ClearLatestHandle);
    TwoResultsThenUnmount(a, b, storeInfo, lookup, ClearAll);
  }

  /** A clean start and finish on the freshly mounted page run the script
      and leave the page as it was. */
  lemma CleanLoadRunsScript(rest: seq<PageEvent>, lookup: int -> Option<string>, t: Teardown)
    ensures var r := RunPage(Mounted.page, rest, lookup, t);
            RunPage(Mounted.page, [Webview(StartLoading), Webview(FinishLoad)] + rest, lookup, t) ==
              Reaction(r.page, [RunExtractionScript] + r.actions)
  {
    var e1, e2 := Webview(StartLoading), Webview(FinishLoad);
    assert PageStep(Mounted.page, e1, lookup, t) == Reaction(Mounted.page, []);
    assert PageStep(Mounted.page, e2, lookup, t) == Reaction(Mounted.page, [RunExtractionScript]);
    RunPageCons(Mounted.page, e2, rest, lookup, t);
    RunPageCons(Mounted.page, e1, [e2] + rest, lookup, t);
    assert [e1] + ([e2] + rest) == [e1, e2] + rest;
  }

  /** A result on a mounted page with nothing pending, then the callback:
      the result goes to the user account, then the merge is published and
      the wizard moves on. */
  lemma ResultThenFiring(p: Page, json: AuthResult, storeInfo: map<string, Value>, lookup: int -> Option<string>, t: Teardown)
    requires p.mounted && p.pendingSuccess == []
    ensures var r := RunPage(p, [Webview(ScriptResult(Some(json))), SuccessDelayElapsed(storeInfo)], lookup, t);
            && r.actions == [SetUserAccount(json), SetAccountInfo(MergeAuthResult(storeInfo, json)), MoveToPage(NextPage)]
            && r.page.view.ready && r.page.pendingSuccess == []
  {
    var e3, e4 := Webview(ScriptResult(Some(json))), SuccessDelayElapsed(storeInfo);
    var s3 := PageStep(p, e3, lookup, t);
    ResultQueued(p, json, lookup, t);
    assert s3.page.view.ready;
    RunPageCons(s3.page, e4, [], lookup, t);
    RunPageCons(p, e3, [e4], lookup, t);
    assert [e4] + [] == [e4] && [e3] + [e4] == [e3, e4];
  }

  /** A load that starts and finishes cleanly, a script result, then the
      one-second callback: the script runs once, the result goes to the user
      account, and the merged account info is published before the move. */
  lemma SignInRun(json: AuthResult, storeInfo: map<string, Value>, lookup: int -> Option<string>, t: Teardown)
    ensures var r := RunPage(Mounted.page, [Webview(StartLoading), Webview(FinishLoad),
                                            Webview(ScriptResult(Some(json))), SuccessDelayElapsed(storeInfo)], lookup, t);
            && r.actions == [RunExtractionScript, SetUserAccount(json),
                             SetAccountInfo(MergeAuthResult(storeInfo, json)), MoveToPage(NextPage)]
            && r.page.view.ready && r.page.pendingSuccess == []
  {
    var rest := [Webview(ScriptResult(Some(json))), SuccessDelayElapsed(storeInfo)];
    CleanLoadRunsScript(rest, lookup, t);
    ResultThenFiring(Mounted.page, json, storeInfo, lookup, t);
    assert [Webview(StartLoading), Webview(FinishLoad)] + rest ==
           [Webview(StartLoading), Webview(FinishLoad), Webview(ScriptResult(Some(json))), SuccessDelayElapsed(storeInfo)];
  }

  /** The sign-in scenario end to end: the load finishes, the script finds
      `{"email":"a@b.com","firstname":"A","lastname":"B"}`, and one second later
      the wizard receives the merged account info and moves on, exactly once. */
  lemma SignInScenario(storeInfo: map<string, Value>, lookup: int -> Option<string>, t: Teardown)
    ensures var json := AuthResult(Some("a@b.com"), Some("A"), Some("B"));
            var r := RunPage(Mounted.page, [Webview(StartLoading), Webview(FinishLoad),
                                            Webview(ScriptResult(Some(json))), SuccessDelayElapsed(storeInfo)], lookup, t);
            && r.actions == [RunExtractionScript, SetUserAccount(json),
                             SetAccountInfo(MergeAuthResult(storeInfo, json)), MoveToPage(NextPage)]
            && MergeAuthResult(storeInfo, json)["email"] == Str("a@b.com")
            && MergeAuthResult(storeInfo, json)["name"] == Str("A B")
            && r.page.view.ready && r.page.pendingSuccess == []
  {
    var json := AuthResult(Some("a@b.com"), Some("A"), Some("B"));
    SignInRun(json, storeInfo, lookup, t);
    assert DisplayName(json) == "A B";
  }
}

/**
  The mobile navigation: the toggle button flips the panel's `open` class and
  copies the result into the button's `aria-expanded` attribute; a click on
  an in-page link (an `href` starting with `#`) cancels the default
  navigation, looks the target up with `document.querySelector(href)`, and
  then closes an open panel. The lookup throws for an `href` that is not a
  valid selector (`#` alone, or an id starting with a digit such as `#2024`);
  the exception leaves the handler before the panel is closed. Whether the
  lookup throws is an input. Scrolling to the target is not modelled. The
  model assumes both the panel and the button exist. The toggle handler is
  attached only when both do; the link handler is always attached, and
  without a panel a link click only cancels navigation and looks up the
  target.
 */
module Nav {
  import opened Text

  /** The panel's `open` class and the button's `aria-expanded` attribute text. */
  datatype NavState = NavState(open: bool, ariaExpanded: string)

  /** `setAttribute` turns the boolean into its string form. */
  function AriaText(b: bool): string {
    if b then "true" else "false"
  }

  /** The attribute reports the panel's real state. */
  predicate Mirrored(n: NavState) {
    n.ariaExpanded == AriaText(n.open)
  }

  /** The toggle button's click handler. */
  function ToggleClick(n: NavState): (m: NavState)
    ensures m.open != n.open
    ensures Mirrored(m)
  {
    var open := !n.open;
    NavState(open, AriaText(open))
  }

  /** Two clicks on the toggle restore the panel, with the attribute in step. */
  lemma ToggleTwiceRestores(n: NavState)
    ensures ToggleClick(ToggleClick(n)).open == n.open
    ensures Mirrored(n) ==> ToggleClick(ToggleClick(n)) == n
  {
  }

  /** An in-page link's click handler, as the script has it: the returned flag
      says whether the default navigation was cancelled. When the target
      lookup throws, nothing after it runs and the panel stays as it was;
      otherwise the panel is closed, but `aria-expanded` is left as it was. */
  function LinkClick(n: NavState, href: string, lookupThrows: bool): (r: (NavState, bool))
    ensures r.1 <==> StartsWith(href, "#")
    ensures r.1 && !lookupThrows ==> !r.0.open
    ensures r.1 && lookupThrows ==> r.0 == n
    ensures r.0.ariaExpanded == n.ariaExpanded
    ensures !r.1 ==> r.0 == n
  {
    if StartsWith(href, "#") then
      if lookupThrows then (n, true) else (NavState(false, n.ariaExpanded), true)
    else
      (n, false)
  }

  /** Opening the panel and then following an in-page link leaves the button
      announcing an expanded menu over a closed panel. */
  lemma LinkClickLeavesAttributeStale()
    ensures var expanded := ToggleClick(NavState(false, "false"));
            var r := LinkClick(expanded, "#about", false);
            Mirrored(expanded) && !r.0.open && !Mirrored(r.0)
  {
    assert StartsWith("#about", "#");
  }

  /** Opening the panel and then following a `#` link, whose lookup throws,
      cancels the navigation but leaves the panel open. */
  lemma LinkClickWithBadSelectorKeepsPanelOpen()
    ensures var expanded := ToggleClick(NavState(false, "false"));
            var r := LinkClick(expanded, "#", true);
            expanded.open && r.1 && r.0.open
  {
    assert StartsWith("#", "#");
  }

  /** The in-page link handler corrected on both counts: the panel is closed
      whether or not the target lookup succeeds, and the attribute is updated
      with it. */
  function LinkClickCorrected(n: NavState, href: string): (r: (NavState, bool))
    ensures r.1 <==> StartsWith(href, "#")
    ensures r.1 ==> !r.0.open
    ensures !r.1 ==> r.0 == n
    ensures r.0.open == LinkClick(n, href, false).0.open
    ensures Mirrored(n) ==> Mirrored(r.0)
  {
    if StartsWith(href, "#") then
      if n.open then (NavState(false, AriaText(false)), true) else (n, true)
    else
      (n, false)
  }

  /** A user event on the navigation; a link click carries whether the lookup
      of its target throws. */
  datatype NavEvent = Toggle | FollowLink(href: string, lookupThrows: bool)

  /** Which link handler is installed. */
  datatype Handler = AsWritten | Corrected

  function Step(h: Handler, n: NavState, ev: NavEvent): NavState {
    match ev
    case Toggle => ToggleClick(n)
    case FollowLink(href, lookupThrows) =>
      match h
      case AsWritten => LinkClick(n, href, lookupThrows).0
      case Corrected => LinkClickCorrected(n, href).0
  }

  function Run(h: Handler, n: NavState, events: seq<NavEvent>): NavState
    decreases |events|
  {
    if events == [] then n else Run(h, Step(h, n, events[0]), events[1..])
  }

  /** The event is a link click after which the panel is certainly closed. */
  predicate Closes(h: Handler, ev: NavEvent) {
    ev.FollowLink? && StartsWith(ev.href, "#") && (h == Corrected || !ev.lookupThrows)
  }

  /** With the corrected handler, once the attribute mirrors the panel, it keeps
      doing so through any sequence of toggles and link clicks. */
  lemma {:induction false} RunKeepsMirrored(n: NavState, events: seq<NavEvent>)
    requires Mirrored(n)
    ensures Mirrored(Run(Corrected, n, events))
    decreases |events|
  {
    if events != [] {
      RunKeepsMirrored(Step(Corrected, n, events[0]), events[1..]);
    }
  }

  /** The open state predicted from the events alone: open exactly when the
      events since the last closing link click hold an odd number of toggles,
      counted from the initial state if there is no such click. */
  predicate PredictedOpen(h: Handler, initiallyOpen: bool, events: seq<NavEvent>) {
    var k := LastClose(h, events);
    if k < 0 then initiallyOpen != Odd(Toggles(events)) else Odd(Toggles(events[k + 1..]))
  }

  /** With either handler, the panel ends open exactly as predicted from the
      toggles since the last closing link click. A link click whose lookup
      throws closes nothing under the handler as written. */
  lemma {:induction false} RunOpenParity(h: Handler, n: NavState, events: seq<NavEvent>)
    ensures Run(h, n, events).open == PredictedOpen(h, n.open, events)
    decreases |events|
  {
    if events != [] {
      var first, rest := events[0], events[1..];
      var m := Step(h, n, first);
      RunOpenParity(h, m, rest);
      StepOpen(h, n, first);
      assert events == [first] + rest;
      PredictedOpenCons(h, n.open, m.open, first, rest);
    }
  }

  /** Prediction for a sequence from the prediction for its tail, taken from
      the state after the first event. */
  lemma PredictedOpenCons(h: Handler, open: bool, open': bool, first: NavEvent, rest: seq<NavEvent>)
    requires open' == (if Closes(h, first) then false else if first == Toggle then !open else open)
    ensures PredictedOpen(h, open, [first] + rest) == PredictedOpen(h, open', rest)
  {
    ParitySplit(h, first, rest);
    if LastClose(h, rest) >= 0 {
      LaterCloseDecides(h, first, rest);
    } else if Closes(h, first) {
      assert ([first] + rest)[1..] == rest;
    } else if first == Toggle {
      OddSucc(Toggles(rest));
    }
  }

  /** A closing click in the tail fixes the prediction for the whole sequence. */
  lemma LaterCloseDecides(h: Handler, first: NavEvent, rest: seq<NavEvent>)
    requires LastClose(h, rest) >= 0
    ensures ([first] + rest)[LastClose(h, rest) + 2..] == rest[LastClose(h, rest) + 1..]
  {
  }

  lemma OddSucc(k: nat)
    ensures Odd(k + 1) == !Odd(k)
  {
  }

  /** One event's effect on the open state: a closing click closes, a toggle
      flips, anything else leaves it. */
  lemma StepOpen(h: Handler, n: NavState, ev: NavEvent)
    ensures Step(h, n, ev).open == (if Closes(h, ev) then false else if ev == Toggle then !n.open else n.open)
  {
  }

  /** Index of the last closing link click, or -1 when there is none. */
  function LastClose(h: Handler, events: seq<NavEvent>): (k: int)
    ensures -1 <= k < |events|
    ensures k >= 0 ==> Closes(h, events[k])
    ensures forall j :: k < j < |events| ==> !Closes(h, events[j])
  {
    if events == [] then -1
    else if Closes(h, events[|events| - 1]) then |events| - 1
    else LastClose(h, events[..|events| - 1])
  }

  /** Number of toggle clicks. */
  function Toggles(events: seq<NavEvent>): nat {
    if events == [] then 0 else (if events[0] == Toggle then 1 else 0) + Toggles(events[1..])
  }

  predicate Odd(k: nat) {
    k % 2 == 1
  }

  lemma ParitySplit(h: Handler, first: NavEvent, rest: seq<NavEvent>)
    ensures Toggles([first] + rest) == (if first == Toggle then 1 else 0) + Toggles(rest)
    ensures LastClose(h, rest) >= 0 ==> LastClose(h, [first] + rest) == LastClose(h, rest) + 1
    ensures LastClose(h, rest) < 0 ==> LastClose(h, [first] + rest) == (if Closes(h, first) then 0 else -1)
  {
    assert ([first] + rest)[1..] == rest;
    var k := LastClose(h, [first] + rest);
    if LastClose(h, rest) >= 0 {
      assert ([first] + rest)[LastClose(h, rest) + 1] == rest[LastClose(h, rest)];
    }
    if k >= 1 {
      assert rest[k - 1] == ([first] + rest)[k];
    }
  }
}

/** When exactly a protected credential is held, and when exactly it is shown, over all runs of the control app. */
module Showing {
  import opened Options
  import opened Delivery

  // ------------------------------------------------------------------
  // What an accepted reply leaves behind.
  // ------------------------------------------------------------------

  /** The reply to the current request, while the window is open and shows no saved report. */
  ghost predicate Accepts(app: App, e: Event) {
    && e.Finish? && app.client == Some(e.number) && !e.error && e.result.Some?
    && app.ui.visible && !app.ui.snapshot
  }

  /** It carries a credential that was asked for, to be shown (1) or copied (2). */
  ghost predicate Brings(app: App, e: Event, held: Held)
    requires Sound(app) && Accepts(app, e)
  {
    && held == Held(held.credential, app.actions[e.number], e.number) && (held.action == 1 || held.action == 2)
    && held.credential != "" && CREDENTIAL in e.result.value && e.result.value[CREDENTIAL] == held.credential
  }

  /** At most one request is current, nothing is held meanwhile, and what is held has its timer. */
  ghost predicate Waiting(app: App) {
    app.protected.pending.Some? ==> app.client.None? && app.timer
  }

  lemma DeliverWaits(app: App, checked: real, taken: real)
    requires Waiting(app)
    ensures Waiting(Deliver(app, checked, taken))
  {
  }

  lemma StepWaiting(app: App, e: Event)
    requires Sound(app) && Waiting(app)
    ensures Waiting(Step(app, e))
  {
    match e {
      case TimerFired(checked, taken) => DeliverWaits(app, checked, taken);
      case BecameActive(checked, taken) => DeliverWaits(app.(ui := app.ui.(active := true)), checked, taken);
      case _ =>
    }
  }

  lemma {:induction false} RunWaiting(events: seq<Event>)
    ensures Sound(Run(events)) && Waiting(Run(events))
  {
    RunSound(events);
    if events != [] {
      RunWaiting(events[..|events| - 1]);
      StepWaiting(Run(events[..|events| - 1]), events[|events| - 1]);
    }
  }

  // ------------------------------------------------------------------
  // One step.
  // ------------------------------------------------------------------

  ghost predicate Holds(app: App, held: Held, deadline: real) {
    app.protected.pending == Some(held) && app.protected.deadline == deadline
  }

  /** The reply arrives while the window is not in the foreground, and is still fresh when the handler is done. */
  ghost predicate Arrives(app: App, e: Event, held: Held, deadline: real)
    requires Sound(app)
  {
    && Accepts(app, e) && Brings(app, e, held) && deadline == e.received + 30.0
    && e.checked < deadline && e.last < deadline && !Foreground(app.ui)
  }

  /** An occasion to deliver what is held. */
  predicate Attempts(e: Event) {
    e.TimerFired? || e.BecameActive?
  }

  /** Nothing happens to what is held: no clear, no new request, no attempt that comes late or in the foreground. */
  ghost predicate Quiet(app: App, e: Event, deadline: real) {
    !Disarms(app, e) && (Attempts(e) ==> e.checked < deadline && !Foreground(UiDuring(app, e)))
  }

  /** An attempt in time, in the foreground, on the pane. */
  ghost predicate Fires(app: App, e: Event, deadline: real) {
    && Attempts(e) && e.checked < deadline && e.taken < deadline
    && Foreground(UiDuring(app, e)) && OnConnectionPane(UiDuring(app, e))
  }

  /** The reply arrives in the foreground, on the pane, and is shown at once. */
  ghost predicate ShownAtOnce(app: App, e: Event, held: Held)
    requires Sound(app)
  {
    && Accepts(app, e) && Brings(app, e, held)
    && e.checked < e.received + 30.0 && e.taken < e.received + 30.0
    && Foreground(app.ui) && OnConnectionPane(app.ui)
  }

  lemma AttemptOnHeld(app: App, checked: real, taken: real, held: Held, deadline: real)
    requires Holds(app, held, deadline)
    ensures var after := Deliver(app, checked, taken);
            && (Holds(after, held, deadline) <==> checked < deadline && !Foreground(app.ui))
            && (after.protected.pending.Some? ==> Holds(after, held, deadline))
            && (after.shown != app.shown <==>
                  checked < deadline && taken < deadline && Foreground(app.ui) && OnConnectionPane(app.ui))
            && (after.shown != app.shown ==>
                  && after.shown == app.shown + [AsShown(held)]
                  && (after.ui.credentialSheet <==> held.action == 1))
  {
    assert |app.shown + [AsShown(held)]| == |app.shown| + 1;
  }

  lemma AttemptOnNothing(app: App, checked: real, taken: real)
    requires app.protected.pending.None?
    ensures Deliver(app, checked, taken).protected.pending.None?
    ensures Deliver(app, checked, taken).shown == app.shown
  {
  }

  /** What is held stays exactly through quiet events, and an attempt shows it exactly if it fires. */
  lemma StepOnHeld(app: App, e: Event, held: Held, deadline: real)
    requires Sound(app) && Waiting(app) && Holds(app, held, deadline)
    ensures Holds(Step(app, e), held, deadline) <==> Quiet(app, e, deadline)
    ensures Step(app, e).protected.pending.Some? ==> Holds(Step(app, e), held, deadline)
    ensures Step(app, e).shown != app.shown <==> Fires(app, e, deadline)
    ensures Step(app, e).shown != app.shown ==>
      && Step(app, e).shown == app.shown + [AsShown(held)]
      && (Step(app, e).ui.credentialSheet <==> held.action == 1)
  {
    match e {
      case TimerFired(checked, taken) => AttemptOnHeld(app, checked, taken, held, deadline);
      case BecameActive(checked, taken) =>
        AttemptOnHeld(app.(ui := app.ui.(active := true)), checked, taken, held, deadline);
      case _ =>
    }
  }

  /** The state in which the handler of an accepted reply tries to deliver. */
  function Arrived(app: App, e: Event): App
    requires e.Finish? && e.number < |app.actions|
  {
    var idle := Completed(app, e.number).(client := None);
    idle.(protected := Received(idle.protected, e.result, app.actions[e.number], e.number, e.received))
  }

  lemma ReplyDelivers(app: App, e: Event)
    requires Sound(app) && Accepts(app, e)
    ensures var tried := Deliver(Arrived(app, e), e.checked, e.taken);
            && Step(app, e).protected == Expired(tried.protected, e.last)
            && Step(app, e).shown == tried.shown && Step(app, e).ui == tried.ui
  {
  }

  lemma Brought(app: App, e: Event, held: Held)
    requires Sound(app) && Accepts(app, e)
    ensures var arrived := Arrived(app, e);
            && arrived.shown == app.shown && arrived.ui == app.ui
            && (Brings(app, e, held) <==> arrived.protected.pending == Some(held))
            && (arrived.protected.pending.Some? ==> arrived.protected.deadline == e.received + 30.0)
  {
  }

  /** Without anything held, only an accepted reply changes that, and what it brings is held or shown. */
  lemma StepOnNothing(app: App, e: Event, held: Held, deadline: real)
    requires Sound(app) && app.protected.pending.None?
    ensures Holds(Step(app, e), held, deadline) <==> Arrives(app, e, held, deadline)
    ensures Step(app, e).shown == app.shown + [AsShown(held)] <== ShownAtOnce(app, e, held)
    ensures (forall h :: !ShownAtOnce(app, e, h)) ==> Step(app, e).shown == app.shown
  {
    match e {
      case TimerFired(checked, taken) => AttemptOnNothing(app, checked, taken);
      case BecameActive(checked, taken) => AttemptOnNothing(app.(ui := app.ui.(active := true)), checked, taken);
      case Finish(_, _, _, _, checked, taken, _) =>
        if Accepts(app, e) {
          ReplyOnNothing(app, e, held, deadline);
        }
      case _ =>
    }
  }

  lemma ReplyOnNothing(app: App, e: Event, held: Held, deadline: real)
    requires Sound(app) && Accepts(app, e)
    ensures Holds(Step(app, e), held, deadline) <==> Arrives(app, e, held, deadline)
    ensures Step(app, e).shown == app.shown + [AsShown(held)] <== ShownAtOnce(app, e, held)
    ensures (forall h :: !ShownAtOnce(app, e, h)) ==> Step(app, e).shown == app.shown
  {
    var arrived := Arrived(app, e);
    ReplyDelivers(app, e);
    Brought(app, e, held);
    if arrived.protected.pending.None? {
      AttemptOnNothing(arrived, e.checked, e.taken);
    } else {
      var h := arrived.protected.pending.value;
      Brought(app, e, h);
      AttemptOnHeld(arrived, e.checked, e.taken, h, e.received + 30.0);
      if Step(app, e).shown != app.shown {
        assert ShownAtOnce(app, e, h);
      }
    }
  }

  // ------------------------------------------------------------------
  // Whole runs.
  // ------------------------------------------------------------------

  ghost predicate ArrivesAt(events: seq<Event>, i: nat, held: Held, deadline: real) {
    i < |events| && Sound(Run(events[..i])) && Arrives(Run(events[..i]), events[i], held, deadline)
  }

  ghost predicate QuietAt(events: seq<Event>, k: nat, deadline: real) {
    k < |events| && Quiet(Run(events[..k]), events[k], deadline)
  }

  /** Event i brought the credential while the window was elsewhere, and all has been quiet since. */
  ghost predicate HeldSince(events: seq<Event>, i: nat, held: Held, deadline: real) {
    ArrivesAt(events, i, held, deadline) && forall k | i < k < |events| :: QuietAt(events, k, deadline)
  }

  lemma LastEvent(events: seq<Event>, e: Event)
    ensures (events + [e])[..|events|] == events && Run(events + [e]) == Step(Run(events), e)
  {
    assert (events + [e])[..|events + [e]| - 1] == events;
  }

  lemma SameAtPrefix(events: seq<Event>, e: Event, k: nat, held: Held, deadline: real)
    requires k < |events|
    ensures ArrivesAt(events + [e], k, held, deadline) <==> ArrivesAt(events, k, held, deadline)
    ensures QuietAt(events + [e], k, deadline) <==> QuietAt(events, k, deadline)
  {
    assert (events + [e])[..k] == events[..k];
  }

  lemma NewAtEnd(events: seq<Event>, e: Event, held: Held, deadline: real)
    requires Sound(Run(events))
    ensures ArrivesAt(events + [e], |events|, held, deadline) <==> Arrives(Run(events), e, held, deadline)
    ensures QuietAt(events + [e], |events|, deadline) <==> Quiet(Run(events), e, deadline)
  {
    LastEvent(events, e);
  }

  lemma HeldSinceOneMore(events: seq<Event>, e: Event, i: nat, held: Held, deadline: real)
    requires Sound(Run(events))
    ensures HeldSince(events + [e], i, held, deadline) <==>
      || (HeldSince(events, i, held, deadline) && Quiet(Run(events), e, deadline))
      || (i == |events| && Arrives(Run(events), e, held, deadline))
  {
    NewAtEnd(events, e, held, deadline);
    forall k: nat | k < |events|
      ensures ArrivesAt(events + [e], k, held, deadline) <==> ArrivesAt(events, k, held, deadline)
      ensures QuietAt(events + [e], k, deadline) <==> QuietAt(events, k, deadline)
    {
      SameAtPrefix(events, e, k, held, deadline);
    }
  }

  /** In every run, a credential is held exactly if some event brought it and all has been quiet since. */
  lemma {:induction false} HeldExactly(events: seq<Event>, held: Held, deadline: real)
    ensures Holds(Run(events), held, deadline) <==> exists i :: HeldSince(events, i, held, deadline)
  {
    if events != [] {
      var front, e := events[..|events| - 1], events[|events| - 1];
      assert front + [e] == events;
      HeldExactly(front, held, deadline);
      RunWaiting(front);
      LastEvent(front, e);
      OneMoreEvent(front, e, held, deadline);
    }
  }

  lemma OneMoreEvent(events: seq<Event>, e: Event, held: Held, deadline: real)
    requires Sound(Run(events)) && Waiting(Run(events))
    requires Holds(Run(events), held, deadline) <==> exists i :: HeldSince(events, i, held, deadline)
    ensures Holds(Step(Run(events), e), held, deadline)
      <==> exists i :: HeldSince(events + [e], i, held, deadline)
  {
    var app := Run(events);
    forall i: nat ensures HeldSince(events + [e], i, held, deadline) <==>
      || (HeldSince(events, i, held, deadline) && Quiet(app, e, deadline))
      || (i == |events| && Arrives(app, e, held, deadline))
    {
      HeldSinceOneMore(events, e, i, held, deadline);
    }
    if app.protected.pending.Some? {
      StepOnHeld(app, e, app.protected.pending.value, app.protected.deadline);
    } else {
      StepOnNothing(app, e, held, deadline);
      if Arrives(app, e, held, deadline) {
        assert HeldSince(events + [e], |events|, held, deadline);
      }
    }
  }

  /**
   * In every run, an event shows a credential exactly if it is the reply that brings it, in the foreground and on
   * the pane, or an attempt in time, in the foreground and on the pane, after a reply brought it while the window
   * was elsewhere and all has been quiet since.
   */
  lemma ShownExactly(events: seq<Event>, e: Event, held: Held)
    ensures Sound(Run(events))
    ensures Run(events + [e]).shown == Run(events).shown + [AsShown(held)] <==>
      || ShownAtOnce(Run(events), e, held)
      || exists i, deadline :: HeldSince(events, i, held, deadline) && Fires(Run(events), e, deadline)
  {
    RunWaiting(events);
    LastEvent(events, e);
    StepShowsExactly(Run(events), e, held);
    forall deadline ensures Holds(Run(events), held, deadline) <==> exists i :: HeldSince(events, i, held, deadline) {
      HeldExactly(events, held, deadline);
    }
  }

  lemma StepShowsExactly(app: App, e: Event, held: Held)
    requires Sound(app) && Waiting(app)
    ensures Step(app, e).shown == app.shown + [AsShown(held)] <==>
      ShownAtOnce(app, e, held) || exists deadline :: Holds(app, held, deadline) && Fires(app, e, deadline)
  {
    Longer(app.shown, AsShown(held));
    if app.protected.pending.Some? {
      var h := app.protected.pending.value;
      StepOnHeld(app, e, h, app.protected.deadline);
      LastOf(app.shown, AsShown(h), AsShown(held));
      if h == held && Fires(app, e, app.protected.deadline) {
        assert Holds(app, held, app.protected.deadline);
      }
    } else {
      StepOnNothing(app, e, held, 0.0);
      if h :| ShownAtOnce(app, e, h) {
        StepOnNothing(app, e, h, 0.0);
        LastOf(app.shown, AsShown(h), AsShown(held));
      }
    }
  }

  lemma Longer<T>(s: seq<T>, t: T)
    ensures s + [t] != s
  {
    assert |s + [t]| == |s| + 1;
  }

  lemma LastOf<T>(s: seq<T>, t: T, t': T)
    ensures s + [t] == s + [t'] <==> t == t'
  {
    assert (s + [t])[|s|] == t && (s + [t'])[|s|] == t';
  }

  // ------------------------------------------------------------------
  // Clearing, and what stays on screen.
  // ------------------------------------------------------------------

  /** An attempt in time and in the foreground, but on another pane. */
  ghost predicate Misplaced(app: App, e: Event) {
    && Attempts(e) && app.protected.pending.Some? && e.checked < app.protected.deadline
    && Foreground(UiDuring(app, e)) && !OnConnectionPane(UiDuring(app, e))
  }

  /** Everything is forgotten, the timer stopped, the sheet hidden, and the current request completed. */
  ghost predicate Forgets(app: App, after: App) {
    && after.client.None? && after.protected.pending.None? && after.protected.metadata.None?
    && !after.timer && !after.ui.credentialSheet && after.shown == app.shown && after.actions == app.actions
    && after.completed == app.completed + if app.client.Some? then [app.client.value] else []
  }

  lemma ClearForgets(app: App)
    requires Sound(app)
    ensures Forgets(app, ClearProtected(app))
  {
    assert app.completed + [] == app.completed;
  }

  lemma RefreshForgets(app: App)
    requires Sound(app) && !app.ui.busy && !app.ui.snapshot
    ensures Forgets(app, Refresh(app))
  {
    ClearForgets(app);
  }

  lemma MisplacedForgets(app: App, checked: real, taken: real)
    requires Sound(app) && app.protected.pending.Some? && checked < app.protected.deadline
    requires Foreground(app.ui) && !OnConnectionPane(app.ui)
    ensures Forgets(app, Deliver(app, checked, taken))
  {
    ClearForgets(app);
  }

  lemma AttemptForgets(app: App, e: Event)
    requires Sound(app) && Waiting(app) && Misplaced(app, e)
    ensures Forgets(app, Step(app, e))
  {
    if e.TimerFired? {
      MisplacedForgets(app, e.checked, e.taken);
    } else {
      ScreenIsFree(app, app.ui.(active := true));
      MisplacedForgets(app.(ui := app.ui.(active := true)), e.checked, e.taken);
    }
  }

  lemma LeavingForgets(app: App, e: Event)
    requires Sound(app) && !app.ui.busy && (e.InspectedLocal? || e.PrefixChosen?)
    ensures Forgets(app, Step(app, e))
  {
    var left := app.(ui := app.ui.(snapshot := false));
    ScreenIsFree(app, left.ui);
    RefreshForgets(left);
    assert Step(app, e) == Refresh(left);
  }

  lemma OccasionForgets(app: App, e: Event)
    requires Sound(app) && (e.Cleared? || (e.OpeningPanel? && !app.ui.busy))
    ensures Forgets(app, Step(app, e))
  {
    ClearForgets(app);
  }

  lemma ClearingForgets(app: App, e: Event)
    requires Sound(app) && Waiting(app)
    requires (Disarms(app, e) && !e.Request?) || Misplaced(app, e)
    ensures Forgets(app, Step(app, e))
  {
    if Misplaced(app, e) {
      AttemptForgets(app, e);
    } else if e.Refreshed? {
      RefreshForgets(app);
    } else if e.InspectedLocal? || e.PrefixChosen? {
      LeavingForgets(app, e);
    } else {
      OccasionForgets(app, e);
    }
  }

  /** A request that may be made becomes the current one, with nothing held and nothing shown. */
  lemma RequestStarts(app: App, e: Event)
    requires e.Request?
    ensures var after := Step(app, e);
            if Disarms(app, e) then
              && after.client == Some(|app.actions|) && after.actions == app.actions + [e.action]
              && after.protected == app.protected.(pending := None) && !after.timer && !after.ui.credentialSheet
              && after.shown == app.shown && after.completed == app.completed
            else after == app
    ensures Disarms(app, e) <==>
      && e.permitted && app.client.None? && !app.ui.snapshot && !app.ui.busy && app.ui.edition == 0
  {
  }

  /** Exactly the four settings that may be displayed, as the reply has them. */
  ghost predicate ShowsSettings(m: Values, r: Values) {
    && (forall key :: key in m <==>
          key in r && (key == "port" || key == "address" || key == "auth_mode" || key == "credential_source"))
    && (forall key | key in m :: m[key] == r[key])
  }

  /** An accepted reply's settings are displayed, unless its credential meets the window on another pane. */
  lemma SettingsAreDisplayed(app: App, e: Event)
    requires Sound(app) && Accepts(app, e)
    ensures var metadata := Step(app, e).protected.metadata;
            && (metadata.Some? ==> ShowsSettings(metadata.value, e.result.value))
            && (metadata.None? <==>
                  && (exists held :: Brings(app, e, held)) && e.checked < e.received + 30.0
                  && Foreground(app.ui) && !OnConnectionPane(app.ui))
  {
    var arrived := Arrived(app, e);
    ReplyDelivers(app, e);
    if arrived.protected.pending.Some? {
      Brought(app, e, arrived.protected.pending.value);
    } else if held :| Brings(app, e, held) {
      Brought(app, e, held);
    }
  }

  /** The sheet is on screen only for the credential shown last, and only if that was to be shown. */
  ghost predicate SheetFits(app: App) {
    app.ui.credentialSheet ==> app.shown != [] && app.shown[|app.shown| - 1].action == 1
  }

  lemma {:induction false} SheetShowsLast(events: seq<Event>)
    ensures SheetFits(Run(events))
  {
    if events != [] {
      var front, e := events[..|events| - 1], events[|events| - 1];
      SheetShowsLast(front);
      StepKeepsSheet(Run(front), e);
    }
  }

  lemma DeliverKeepsSheet(app: App, checked: real, taken: real)
    requires SheetFits(app)
    ensures SheetFits(Deliver(app, checked, taken))
  {
  }

  lemma ReplyKeepsSheet(app: App, e: Event)
    requires SheetFits(app) && e.Finish?
    ensures SheetFits(Step(app, e))
  {
    if e.number < |app.actions| && Step(app, e).shown != app.shown {
      DeliverKeepsSheet(Arrived(app, e), e.checked, e.taken);
    }
  }

  lemma OthersHideSheet(app: App, e: Event)
    requires !Attempts(e) && !e.Finish?
    ensures Step(app, e).shown == app.shown && (Step(app, e).ui.credentialSheet ==> app.ui.credentialSheet)
    ensures e.ResignedActive? || e.SheetHidden? ==> !Step(app, e).ui.credentialSheet
  {
  }

  lemma StepKeepsSheet(app: App, e: Event)
    requires SheetFits(app)
    ensures SheetFits(Step(app, e))
  {
    match e {
      case TimerFired(checked, taken) => DeliverKeepsSheet(app, checked, taken);
      case BecameActive(checked, taken) => DeliverKeepsSheet(app.(ui := app.ui.(active := true)), checked, taken);
      case Finish(_, _, _, _, _, _, _) => ReplyKeepsSheet(app, e);
      case _ => OthersHideSheet(app, e);
    }
  }
}

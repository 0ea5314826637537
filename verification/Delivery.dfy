/** The control app's one-shot delivery of a protected credential, over all runs of its event handlers. */
module Delivery {
  import opened Options

  /** The reply of the settings helper: named values, the credential among them when it was asked for. */
  type Values = map<string, string>

  const CREDENTIAL: string := "credential"

  /** Keeps the four settings that are safe to display. */
  function Displayable(result: Values): Values {
    map key | key in result && (key == "port" || key == "address" || key == "auth_mode" || key == "credential_source")
      :: result[key]
  }

  /** What a held credential remembers; `request` names the request it answers. */
  datatype Held = Held(credential: string, action: int, request: nat)

  datatype Protected = Protected(pending: Option<Held>, deadline: real, metadata: Option<Values>)

  const NOTHING: Protected := Protected(None, 0.0, None)

  function Received(s: Protected, result: Option<Values>, action: int, request: nat, time: real): Protected {
    if result.None? then s.(pending := None)
    else
      var r := result.value;
      var kept := s.(pending := None, metadata := Some(Displayable(r)));
      if (action == 1 || action == 2) && CREDENTIAL in r && r[CREDENTIAL] != ""
      then kept.(pending := Some(Held(r[CREDENTIAL], action, request)), deadline := time + 30.0)
      else kept
  }

  function Expired(s: Protected, time: real): Protected {
    if time >= s.deadline then s.(pending := None) else s
  }

  class ISCProtectedSettingsState {
    var pending: Option<Held>
    var deadline: real
    var metadata: Option<Values>

    constructor ()
      ensures View() == NOTHING
    {
      pending, deadline, metadata := None, 0.0, None;
    }

    function View(): Protected
      reads this
    {
      Protected(pending, deadline, metadata)
    }

    method BeginRequest()
      modifies this
      ensures View() == old(View()).(pending := None)
    {
      pending := None;
    }

    method ReceiveResult(result: Option<Values>, action: int, request: nat, time: real)
      modifies this
      ensures View() == Received(old(View()), result, action, request, time)
    {
      pending := None;
      if result.None? {
        return;
      }
      metadata := Some(Displayable(result.value));
      if CREDENTIAL in result.value {
        var credential := result.value[CREDENTIAL];
        if (action == 1 || action == 2) && credential != "" {
          pending := Some(Held(credential, action, request));
          deadline := time + 30.0;
        }
      }
    }

    method HasPendingCredential(time: real) returns (has: bool)
      modifies this
      ensures View() == Expired(old(View()), time) && has == pending.Some?
    {
      if time >= deadline {
        pending := None;
      }
      has := pending.Some?;
    }

    method TakePendingCredential(time: real) returns (result: Option<Held>)
      modifies this
      ensures result == Expired(old(View()), time).pending && View() == old(View()).(pending := None)
    {
      var has := HasPendingCredential(time);
      if !has {
        return None;
      }
      result := pending;
      pending := None;
    }

    method Clear()
      modifies this
      ensures View() == Protected(None, old(deadline), None)
    {
      pending, metadata := None, None;
    }
  }

  /** Metadata is a function of the four displayable settings: it cannot depend on the credential. */
  lemma MetadataHidesCredential(s: Protected, r: Values, r': Values, action: int, request: nat, time: real)
    requires forall key | key != CREDENTIAL :: (key in r <==> key in r') && (key in r ==> r[key] == r'[key])
    ensures Received(s, Some(r), action, request, time).metadata
      == Received(s, Some(r'), action, request, time).metadata
    ensures CREDENTIAL !in Received(s, Some(r), action, request, time).metadata.value
  {
    assert |CREDENTIAL| == 10 && |"port"| == 4 && |"address"| == 7 && |"auth_mode"| == 9 && |"credential_source"| == 17;
    assert Displayable(r) == Displayable(r');
  }

  // ------------------------------------------------------------------
  // The app.
  // ------------------------------------------------------------------

  /** A credential that was shown (action 1) or copied (action 2). */
  datatype Shown = Shown(request: nat, action: int, credential: string)

  function AsShown(held: Held): Shown {
    Shown(held.request, held.action, held.credential)
  }

  /**
   * `client` is the request in progress; requests are numbered in order and `actions` holds what each is for.
   * `finished` are the clients that are done, `completed` the calls of their completion blocks.
   */
  datatype App = App(
    client: Option<nat>, actions: seq<int>, finished: set<nat>, completed: seq<nat>,
    protected: Protected, timer: bool, shown: seq<Shown>, ui: Ui)

  /** What is on screen: a saved report or not, the selected segments, and the window's focus. */
  datatype Ui = Ui(
    snapshot: bool, busy: bool, edition: int, tab: int,
    active: bool, visible: bool, keyWindow: bool, credentialSheet: bool, otherSheet: bool)

  const LAUNCHED: App :=
    App(None, [], {}, [], NOTHING, false, [], Ui(false, false, 0, 0, false, true, true, false, false))

  /** The occasions on which the app clears protected state. */
  datatype Occasion = TabChanged(tab: int) | EditionChanged(edition: int) | Disabled | WindowClosed | Terminated

  datatype Event =
    /** A read, reveal or copy button; `permitted` stands for the helper's installation and approval. */
    | Request(action: int, permitted: bool)
    /** Some path in a client calls its `finish`; the three later clock readings follow the reply's. */
    | Finish(number: nat, result: Option<Values>, error: bool, received: real, checked: real, taken: real, last: real)
    | TimerFired(checked: real, taken: real)
    | BecameActive(checked: real, taken: real)
    | ResignedActive
    | Cleared(occasion: Occasion)
    | Refreshed
    | RefreshDone(edition: Option<int>)
    | OpeningPanel
    | ReportOpened(edition: Option<int>)
    | InspectedLocal
    | PrefixChosen
    | SheetHidden
    | FocusChanged(active: bool, visible: bool, keyWindow: bool, otherSheet: bool)

  predicate Foreground(ui: Ui) {
    ui.active && ui.visible && ui.keyWindow && !ui.credentialSheet && !ui.otherSheet
  }

  predicate OnConnectionPane(ui: Ui) {
    !ui.snapshot && ui.edition == 0 && ui.tab == 1
  }

  predicate CanRead(app: App, permitted: bool) {
    !app.ui.snapshot && !app.ui.busy && app.client.None? && app.ui.edition == 0 && permitted
  }

  /** `finish` runs its completion block once. */
  function Completed(app: App, number: nat): App {
    if number in app.finished then app
    else app.(finished := app.finished + {number}, completed := app.completed + [number])
  }

  function Hidden(ui: Ui): Ui {
    ui.(credentialSheet := false)
  }

  function Released(app: App): App {
    app.(client := None, protected := Protected(None, app.protected.deadline, None), timer := false,
      ui := Hidden(app.ui))
  }

  function ClearProtected(app: App): App {
    var released := Released(app);
    if app.client.Some? then Completed(released, app.client.value) else released
  }

  function Requested(app: App, action: int): App {
    app.(protected := app.protected.(pending := None), timer := false, ui := Hidden(app.ui),
         client := Some(|app.actions|), actions := app.actions + [action])
  }

  /** Delivers the held credential, if there is one and this is the place and time for it. */
  function Deliver(app: App, checked: real, taken: real): App {
    var current := app.(protected := Expired(app.protected, checked));
    if current.protected.pending.None? then current.(timer := false)
    else if !Foreground(current.ui) then current
    else if !OnConnectionPane(current.ui) then ClearProtected(current)
    else
      var held := Expired(current.protected, taken).pending;
      var emptied := current.(protected := current.protected.(pending := None), timer := false);
      if held.None? then emptied
      else emptied.(shown := emptied.shown + [AsShown(held.value)],
                   ui := emptied.ui.(credentialSheet := held.value.action == 1))
  }

  /** The app's completion block for its current client. */
  function Replied(app: App, number: nat, result: Option<Values>, error: bool,
                   received: real, checked: real, taken: real, last: real): App
    requires number < |app.actions|
  {
    var idle := app.(client := None);
    if error || result.None? || app.ui.snapshot || !app.ui.visible then idle
    else
      var held := idle.(protected := Received(idle.protected, result, app.actions[number], number, received));
      var tried := Deliver(held, checked, taken);
      var kept := tried.(protected := Expired(tried.protected, last));
      if kept.protected.pending.Some? then kept.(timer := true) else kept
  }

  function Refresh(app: App): App {
    if app.ui.busy || app.ui.snapshot then app
    else var cleared := ClearProtected(app); cleared.(ui := cleared.ui.(busy := true))
  }

  function WithEdition(ui: Ui, edition: Option<int>): Ui {
    if edition.Some? then ui.(edition := edition.value) else ui
  }

  function AfterOccasion(ui: Ui, occasion: Occasion): Ui {
    match occasion
    case TabChanged(tab) => ui.(tab := tab)
    case EditionChanged(edition) => ui.(edition := edition)
    case WindowClosed => ui.(visible := false)
    case _ => ui
  }

  function Step(app: App, e: Event): App {
    match e
    case Request(action, permitted) => if CanRead(app, permitted) then Requested(app, action) else app
    case Finish(number, result, error, received, checked, taken, last) =>
      if number >= |app.actions| || number in app.finished then app
      else
        var done := Completed(app, number);
        if done.client == Some(number)
        then Replied(done, number, result, error, received, checked, taken, last) else done
    case TimerFired(checked, taken) => if app.timer then Deliver(app, checked, taken) else app
    case BecameActive(checked, taken) => Deliver(app.(ui := app.ui.(active := true)), checked, taken)
    case ResignedActive => app.(ui := Hidden(app.ui).(active := false))
    case SheetHidden => app.(ui := Hidden(app.ui))
    case Cleared(occasion) => ClearProtected(app).(ui := AfterOccasion(Hidden(app.ui), occasion))
    case Refreshed => Refresh(app)
    case RefreshDone(edition) => app.(ui := WithEdition(app.ui.(busy := false), edition))
    case OpeningPanel => if app.ui.busy then app else ClearProtected(app)
    case ReportOpened(edition) => app.(ui := WithEdition(app.ui.(snapshot := true), edition))
    case InspectedLocal => if app.ui.busy then app else Refresh(app.(ui := app.ui.(snapshot := false)))
    case PrefixChosen => Refresh(app.(ui := app.ui.(snapshot := false)))
    case FocusChanged(active, visible, keyWindow, otherSheet) =>
      app.(ui := app.ui.(active := active, visible := visible, keyWindow := keyWindow, otherSheet := otherSheet))
  }

  predicate OnlyScreen(e: Event) {
    e.ResignedActive? || e.SheetHidden? || e.RefreshDone? || e.ReportOpened? || e.FocusChanged?
  }

  function Run(events: seq<Event>): App {
    if events == [] then LAUNCHED else Step(Run(events[..|events| - 1]), events[|events| - 1])
  }

  // ------------------------------------------------------------------
  // The handlers, updating the app in place.
  // ------------------------------------------------------------------

  class ISCApp {
    const protectedState: ISCProtectedSettingsState
    var client: Option<nat>
    var actions: seq<int>
    var finished: set<nat>
    var completed: seq<nat>
    var timer: bool
    var shown: seq<Shown>
    var ui: Ui

    constructor ()
      ensures View() == LAUNCHED && fresh(protectedState)
    {
      protectedState := new ISCProtectedSettingsState();
      client, actions, finished, completed, timer, shown := None, [], {}, [], false, [];
      ui := LAUNCHED.ui;
    }

    function View(): App
      reads this, protectedState
    {
      App(client, actions, finished, completed, protectedState.View(), timer, shown, ui)
    }

    /** ISCSettingsClient's `finish`: the completion block runs the first time only. */
    method FinishClient(number: nat) returns (ran: bool)
      modifies this
      ensures View() == Completed(old(View()), number) && ran == (number !in old(finished))
    {
      ran := number !in finished;
      if ran {
        finished, completed := finished + {number}, completed + [number];
      }
    }

    method ClearProtectedState()
      modifies this, protectedState
      ensures View() == ClearProtected(old(View()))
    {
      var previous := client;
      client := None;
      if previous.Some? {
        // The completion block finds that its client is no longer current.
        var ran := FinishClient(previous.value);
      }
      protectedState.Clear();
      timer := false;
      ui := ui.(credentialSheet := false);
    }

    method RequestProtected(action: int, permitted: bool)
      modifies this, protectedState
      ensures View() == Step(old(View()), Request(action, permitted))
    {
      if ui.snapshot || ui.busy || client.Some? || ui.edition != 0 || !permitted {
        return;
      }
      protectedState.BeginRequest();
      timer := false;
      ui := ui.(credentialSheet := false);
      client := Some(|actions|);
      actions := actions + [action];
    }

    method DeliverProtectedCredential(checked: real, taken: real)
      modifies this, protectedState
      ensures View() == Deliver(old(View()), checked, taken)
    {
      var pending := protectedState.HasPendingCredential(checked);
      if !pending {
        timer := false;
        return;
      }
      if !Foreground(ui) {
        return;
      }
      if ui.snapshot || ui.edition != 0 || ui.tab != 1 {
        ClearProtectedState();
        return;
      }
      var result := protectedState.TakePendingCredential(taken);
      timer := false;
      if result.Some? {
        shown := shown + [AsShown(result.value)];
        ui := ui.(credentialSheet := result.value.action == 1);
      }
    }

    /** The completion block of the current request. */
    method ReadCompleted(number: nat, result: Option<Values>, error: bool,
                         received: real, checked: real, taken: real, last: real)
      requires number < |actions|
      modifies this, protectedState
      ensures View() == Replied(old(View()), number, result, error, received, checked, taken, last)
    {
      client := None;
      if error || result.None? || ui.snapshot || !ui.visible {
        return;
      }
      protectedState.ReceiveResult(result, actions[number], number, received);
      DeliverProtectedCredential(checked, taken);
      var pending := protectedState.HasPendingCredential(last);
      if pending {
        timer := true;
      }
    }

    method RefreshStatus()
      modifies this, protectedState
      ensures View() == Refresh(old(View()))
    {
      if ui.busy || ui.snapshot {
        return;
      }
      ClearProtectedState();
      ui := ui.(busy := true);
    }

    /** Some path in client `number` calls its `finish`. */
    method ClientFinished(number: nat, result: Option<Values>, error: bool,
                          received: real, checked: real, taken: real, last: real)
      modifies this, protectedState
      ensures View() == Step(old(View()), Finish(number, result, error, received, checked, taken, last))
    {
      if number < |actions| {
        var ran := FinishClient(number);
        if ran && client == Some(number) {
          ReadCompleted(number, result, error, received, checked, taken, last);
        }
      }
    }

    method BecomeActive(checked: real, taken: real)
      modifies this, protectedState
      ensures View() == Step(old(View()), BecameActive(checked, taken))
    {
      ui := ui.(active := true);
      DeliverProtectedCredential(checked, taken);
    }

    method ClearOn(occasion: Occasion)
      modifies this, protectedState
      ensures View() == Step(old(View()), Cleared(occasion))
    {
      ClearProtectedState();
      ui := AfterOccasion(ui, occasion);
    }

    method LeaveReport()
      modifies this, protectedState
      ensures View() == Step(old(View()), PrefixChosen)
    {
      ui := ui.(snapshot := false);
      RefreshStatus();
    }

    /** The handlers that touch nothing but the screen. */
    method UpdateScreen(e: Event)
      requires OnlyScreen(e)
      modifies this`ui
      ensures View() == Step(old(View()), e)
    {
      match e {
        case ResignedActive => ui := ui.(active := false, credentialSheet := false);
        case SheetHidden => ui := ui.(credentialSheet := false);
        case RefreshDone(edition) => ui := WithEdition(ui.(busy := false), edition);
        case ReportOpened(edition) => ui := WithEdition(ui.(snapshot := true), edition);
        case FocusChanged(active, visible, keyWindow, otherSheet) =>
          ui := ui.(active := active, visible := visible, keyWindow := keyWindow, otherSheet := otherSheet);
      }
    }

    method Handle(e: Event)
      modifies this, protectedState
      ensures View() == Step(old(View()), e)
    {
      match e {
        case Request(action, permitted) => RequestProtected(action, permitted);
        case Finish(number, result, error, received, checked, taken, last) =>
          ClientFinished(number, result, error, received, checked, taken, last);
        case TimerFired(checked, taken) =>
          if timer {
            DeliverProtectedCredential(checked, taken);
          }
        case BecameActive(checked, taken) => BecomeActive(checked, taken);
        case Cleared(occasion) => ClearOn(occasion);
        case Refreshed => RefreshStatus();
        case OpeningPanel =>
          if !ui.busy {
            ClearProtectedState();
          }
        case InspectedLocal =>
          if !ui.busy {
            LeaveReport();
          }
        case PrefixChosen => LeaveReport();
        case _ => UpdateScreen(e);
      }
    }
  }

  // ------------------------------------------------------------------
  // Invariants of every run.
  // ------------------------------------------------------------------

  ghost predicate Distinct(s: seq<nat>) {
    forall i, j | 0 <= i < j < |s| :: s[i] != s[j]
  }

  /** Requests and their completions. */
  ghost predicate Orderly(app: App) {
    && Distinct(app.completed)
    && (forall n | n in app.completed :: n in app.finished)
    && (forall n | n in app.finished :: n < |app.actions|)
    && (app.client.Some? ==> app.client.value < |app.actions| && app.client.value !in app.finished)
  }

  ghost predicate ShownOnce(shown: seq<Shown>, finished: set<nat>) {
    && (forall i, j | 0 <= i < j < |shown| :: shown[i].request != shown[j].request)
    && (forall i | 0 <= i < |shown| :: shown[i].request in finished)
  }

  /** A held credential answers a finished request with its own action, and has not been shown yet. */
  ghost predicate Owed(app: App) {
    var pending := app.protected.pending;
    pending.Some? ==>
      var held := pending.value;
      && held.request in app.finished && held.request < |app.actions|
      && held.action == app.actions[held.request] && (held.action == 1 || held.action == 2)
      && forall i | 0 <= i < |app.shown| :: app.shown[i].request != held.request
  }

  ghost predicate Sound(app: App) {
    Orderly(app) && ShownOnce(app.shown, app.finished) && Owed(app)
  }

  lemma CompletedSound(app: App, number: nat)
    requires Sound(app) && number < |app.actions| && app.client != Some(number)
    ensures Sound(Completed(app, number))
  {
  }

  lemma ClearSound(app: App)
    requires Sound(app)
    ensures Sound(ClearProtected(app))
  {
    var released := Released(app);
    if app.client.Some? {
      CompletedSound(released, app.client.value);
    }
  }

  lemma DeliverSound(app: App, checked: real, taken: real)
    requires Sound(app)
    ensures Sound(Deliver(app, checked, taken))
  {
    var current := app.(protected := Expired(app.protected, checked));
    ClearSound(current);
  }

  lemma FinishSound(app: App, number: nat, result: Option<Values>, error: bool,
                    received: real, checked: real, taken: real, last: real)
    requires Sound(app) && app.client == Some(number)
    ensures Sound(Replied(Completed(app, number), number, result, error, received, checked, taken, last))
  {
    var idle := Completed(app, number).(client := None);
    CompletedSound(app.(client := None), number);
    var held := idle.(protected := Received(idle.protected, result, app.actions[number], number, received));
    assert forall i | 0 <= i < |app.shown| :: app.shown[i].request != number;
    DeliverSound(held, checked, taken);
  }

  lemma StepSound(app: App, e: Event)
    requires Sound(app)
    ensures Sound(Step(app, e))
  {
    match e {
      case Request(action, permitted) =>
        if CanRead(app, permitted) {
          RequestSound(app, action);
        }
      case Finish(number, result, error, received, checked, taken, last) =>
        if app.client == Some(number) {
          FinishSound(app, number, result, error, received, checked, taken, last);
        } else if number < |app.actions| {
          CompletedSound(app, number);
        }
      case TimerFired(checked, taken) => DeliverSound(app, checked, taken);
      case BecameActive(checked, taken) =>
        ScreenIsFree(app, app.ui.(active := true));
        DeliverSound(app.(ui := app.ui.(active := true)), checked, taken);
      case _ => OtherStepSound(app, e);
    }
  }

  lemma ScreenIsFree(app: App, ui: Ui)
    requires Sound(app)
    ensures Sound(app.(ui := ui))
  {
  }

  lemma RequestSound(app: App, action: int)
    requires Sound(app) && app.client.None?
    ensures Sound(Requested(app, action))
  {
  }

  lemma RefreshSound(app: App)
    requires Sound(app)
    ensures Sound(Refresh(app))
  {
    if !app.ui.busy && !app.ui.snapshot {
      ClearSound(app);
      ScreenIsFree(ClearProtected(app), Refresh(app).ui);
    }
  }

  lemma OnlyScreenChanges(app: App, e: Event)
    requires OnlyScreen(e)
    ensures Step(app, e) == app.(ui := Step(app, e).ui)
  {
  }

  lemma OtherStepSound(app: App, e: Event)
    requires Sound(app) && !e.Request? && !e.Finish? && !e.TimerFired? && !e.BecameActive?
    ensures Sound(Step(app, e))
  {
    if OnlyScreen(e) {
      OnlyScreenChanges(app, e);
      ScreenIsFree(app, Step(app, e).ui);
    } else if e.Refreshed? {
      RefreshSound(app);
    } else if e.InspectedLocal? || e.PrefixChosen? {
      ScreenIsFree(app, app.ui.(snapshot := false));
      RefreshSound(app.(ui := app.ui.(snapshot := false)));
    } else {
      ClearSound(app);
      ScreenIsFree(ClearProtected(app), Step(app, e).ui);
    }
  }

  lemma {:induction false} RunSound(events: seq<Event>)
    ensures Sound(Run(events))
  {
    if events != [] {
      RunSound(events[..|events| - 1]);
      StepSound(Run(events[..|events| - 1]), events[|events| - 1]);
    }
  }

  /** In every run, each request completes at most once and its credential is shown at most once. */
  lemma AtMostOnce(events: seq<Event>)
    ensures Distinct(Run(events).completed)
    ensures forall i, j | 0 <= i < j < |Run(events).shown| ::
      Run(events).shown[i].request != Run(events).shown[j].request
  {
    RunSound(events);
  }

  /** A reply to a request that is no longer current changes nothing but the record that it came. */
  lemma LateRepliesAreInert(app: App, e: Event)
    requires e.Finish? && app.client != Some(e.number)
    ensures Step(app, e) == app || Step(app, e) == Completed(app, e.number)
  {
  }

  // ------------------------------------------------------------------
  // Where a shown credential comes from.
  // ------------------------------------------------------------------

  /** A new request, or one of the handlers that clears protected state, when it takes effect. */
  predicate Disarms(app: App, e: Event) {
    match e
    case Request(_, permitted) => CanRead(app, permitted)
    case Cleared(_) => true
    case Refreshed => !app.ui.busy && !app.ui.snapshot
    case OpeningPanel => !app.ui.busy
    case InspectedLocal => !app.ui.busy
    case PrefixChosen => !app.ui.busy
    case _ => false
  }

  /** `e` is the reply to the current request that delivers the credential held until `deadline`. */
  ghost predicate Arms(app: App, e: Event, held: Held, deadline: real) {
    && e.Finish? && !e.error && e.result.Some?
    && app.client == Some(held.request) && e.number == held.request
    && CREDENTIAL in e.result.value && e.result.value[CREDENTIAL] == held.credential
    && deadline == e.received + 30.0
  }

  predicate HasClock(e: Event) {
    e.Finish? || e.TimerFired? || e.BecameActive?
  }

  /** The window as the delivering handler sees it. */
  function UiDuring(app: App, e: Event): Ui {
    if e.BecameActive? then app.ui.(active := true) else app.ui
  }

  lemma DeliverShows(app: App, checked: real, taken: real)
    ensures var after := Deliver(app, checked, taken);
            && (after.protected.pending.Some? ==> after.protected == app.protected)
            && (after.shown != app.shown ==>
                  && app.protected.pending.Some?
                  && after.shown == app.shown + [AsShown(app.protected.pending.value)]
                  && Foreground(app.ui) && OnConnectionPane(app.ui)
                  && checked < app.protected.deadline && taken < app.protected.deadline)
  {
  }

  /** What holds before a step still does, or has just arrived with it. */
  ghost predicate HeldOrArrived(app: App, e: Event, after: Protected) {
    after.pending.Some? ==>
      || (after.pending == app.protected.pending && after.deadline == app.protected.deadline && !Disarms(app, e))
      || Arms(app, e, after.pending.value, after.deadline)
  }

  lemma FinishHolds(app: App, e: Event)
    requires Sound(app) && e.Finish?
    ensures HeldOrArrived(app, e, Step(app, e).protected)
  {
    if app.client == Some(e.number) && e.result.Some? {
      var idle := Completed(app, e.number).(client := None);
      DeliverShows(
        idle.(protected := Received(idle.protected, e.result, app.actions[e.number], e.number, e.received)),
        e.checked, e.taken);
    }
  }

  /** A credential held after a step was held before and not disarmed, or has just arrived. */
  lemma StepHolds(app: App, e: Event)
    requires Sound(app)
    ensures HeldOrArrived(app, e, Step(app, e).protected)
  {
    match e {
      case Finish(_, _, _, _, _, _, _) => FinishHolds(app, e);
      case TimerFired(checked, taken) => DeliverShows(app, checked, taken);
      case BecameActive(checked, taken) => DeliverShows(app.(ui := app.ui.(active := true)), checked, taken);
      case _ =>
    }
  }

  lemma StepShows(app: App, e: Event) returns (held: Held, deadline: real)
    requires Sound(app) && Step(app, e).shown != app.shown
    ensures HasClock(e) && Foreground(UiDuring(app, e)) && OnConnectionPane(UiDuring(app, e))
    ensures Step(app, e).shown == app.shown + [AsShown(held)]
    ensures e.checked < deadline && e.taken < deadline
    ensures (app.protected.pending == Some(held) && app.protected.deadline == deadline && !Disarms(app, e))
      || Arms(app, e, held, deadline)
  {
    held, deadline := Held("", 0, 0), 0.0;
    match e {
      case Finish(number, result, error, received, checked, taken, last) =>
        var idle := Completed(app, number).(client := None);
        var arrived := Received(idle.protected, result, app.actions[number], number, received);
        DeliverShows(idle.(protected := arrived), checked, taken);
        held, deadline := arrived.pending.value, arrived.deadline;
      case TimerFired(checked, taken) =>
        DeliverShows(app, checked, taken);
        held, deadline := app.protected.pending.value, app.protected.deadline;
      case BecameActive(checked, taken) =>
        DeliverShows(app.(ui := app.ui.(active := true)), checked, taken);
        held, deadline := app.protected.pending.value, app.protected.deadline;
      case _ =>
    }
  }

  /** Event i of the run armed the credential, and nothing after it disarmed it. */
  ghost predicate ArmedAt(events: seq<Event>, i: nat, held: Held, deadline: real) {
    && i < |events| && Arms(Run(events[..i]), events[i], held, deadline)
    && forall k | i < k < |events| :: !Disarms(Run(events[..k]), events[k])
  }

  lemma ArmedAtExtends(events: seq<Event>, e: Event, i: nat, held: Held, deadline: real)
    requires ArmedAt(events, i, held, deadline) && !Disarms(Run(events), e)
    ensures ArmedAt(events + [e], i, held, deadline)
  {
    var longer := events + [e];
    assert longer[..|events|] == events;
    assert forall k | 0 <= k <= |events| :: longer[..k] == events[..k];
  }

  lemma ArmedAtLast(events: seq<Event>, e: Event, held: Held, deadline: real)
    requires Arms(Run(events), e, held, deadline)
    ensures ArmedAt(events + [e], |events|, held, deadline)
  {
    assert (events + [e])[..|events|] == events;
  }

  lemma {:induction false} HeldIsArmed(events: seq<Event>) returns (i: nat)
    requires Run(events).protected.pending.Some?
    ensures ArmedAt(events, i, Run(events).protected.pending.value, Run(events).protected.deadline)
  {
    var front, e := events[..|events| - 1], events[|events| - 1];
    var app, after := Run(front), Run(events).protected;
    assert events == front + [e];
    RunSound(front);
    StepHolds(app, e);
    if Arms(app, e, after.pending.value, after.deadline) {
      ArmedAtLast(front, e, after.pending.value, after.deadline);
      i := |front|;
    } else {
      i := HeldIsArmed(front);
      ArmedAtExtends(front, e, i, after.pending.value, after.deadline);
    }
  }

  /**
   * Whenever an event shows a credential, the window is in the foreground on the modern Connection pane, and
   * an earlier or the same event was the reply to that very request, less than 30 seconds before, with no
   * clear and no new request since.
   */
  lemma ShownOnlyAsAllowed(events: seq<Event>, e: Event) returns (i: nat, held: Held)
    requires Run(events + [e]).shown != Run(events).shown
    ensures Run(events + [e]).shown == Run(events).shown + [AsShown(held)]
    ensures HasClock(e) && Foreground(UiDuring(Run(events), e)) && OnConnectionPane(UiDuring(Run(events), e))
    ensures i <= |events| && (events + [e])[i].Finish?
    ensures ArmedAt(events + [e], i, held, (events + [e])[i].received + 30.0)
    ensures e.checked - (events + [e])[i].received < 30.0 && e.taken - (events + [e])[i].received < 30.0
  {
    var all := events + [e];
    assert all[..|events|] == events;
    RunSound(events);
    var deadline;
    held, deadline := StepShows(Run(events), e);
    if Arms(Run(events), e, held, deadline) {
      ArmedAtLast(events, e, held, deadline);
      i := |events|;
    } else {
      i := HeldIsArmed(events);
      ArmedAtExtends(events, e, i, held, deadline);
    }
    assert Run(all[..i]).client == Some(held.request);
  }
}

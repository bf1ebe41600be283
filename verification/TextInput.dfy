/**
 The text-input-v3 bridge of compositor/native/src/text_input_handler.c as a state machine:
 text-input resources of all clients, the one focused surface, the one active input, and
 the requests to show and hide the Android IME. A surface's protocol resource is taken to
 live as long as the surface.
 */
module TextInput {
  import opened Common

  type ClientId = nat
  type Text = seq<byte>

  datatype Surface = Surface(id: nat, client: ClientId)
  datatype Rect = Rect(x: int, y: int, width: int, height: int)

  /** Surrounding text with its cursor and anchor. */
  datatype Around = Around(text: Text, cursor: int, anchor: int)

  /** struct text_input. */
  datatype Input = Input(
    id: nat, client: ClientId,
    pendingEnabled: bool, currentEnabled: bool, serial: nat,
    entered: bool, enteredSurface: Option<Surface>,
    around: Option<Around>, pendingAround: Option<Around>,
    pendingRect: Option<Rect>, rect: Option<Rect>)

  /** What the handler sends, and what else ends a client's view of an entered input. */
  datatype Event =
    | EnterSent(id: nat, surface: Surface)
    | LeaveSent(id: nat, surface: Surface)
    | SurfaceGone(surface: Surface)
    | InputGone(id: nat)
    | Closed
    | Show
    | Hide

  /** committed is the flag other threads read; up says that g_text_input_server is set. */
  datatype State = State(
    inputs: seq<Input>, focused: Option<Surface>, active: Option<nat>, committed: bool, up: bool, log: seq<Event>)

  const INITIAL: State := State([], None, None, false, true, [])

  datatype Request =
    | GetTextInput(id: nat, client: ClientId)
    | DestroyInput(i: nat)
    | Enable(i: nat)
    | Disable(i: nat)
    | SetSurrounding(i: nat, text: Text, cursor: int, anchor: int)
    | SetRect(i: nat, rect: Rect)
    | Commit(i: nat)
    | KeyboardEnter(surface: Surface)
    | KeyboardLeave(surface: Surface)
    | DestroySurface(surface: Surface)
    | Shutdown

  // ---------------------------------------------------------------------
  // Steps on one input
  // ---------------------------------------------------------------------

  /** clear_pending_text_input_state and clear_surrounding_text_state. */
  function PendingCleared(t: Input): Input {
    t.(pendingEnabled := false, pendingRect := None, around := None, pendingAround := None)
  }

  /** reset_text_input_request_state. */
  function RequestsReset(t: Input): Input {
    PendingCleared(t).(currentEnabled := false, rect := None)
  }

  function Clamp(at: int, text: Text): (c: int)
    ensures Nearest(c, at, |text|)
  {
    if at < 0 then 0 else if at > |text| then |text| else at
  }

  function WithSurrounding(t: Input, text: Text, cursor: int, anchor: int): Input {
    if !t.entered then t else t.(pendingAround := Some(Around(text, Clamp(cursor, text), Clamp(anchor, text))))
  }

  /** The part of ti_commit that concerns the input alone. */
  function Applied(t: Input): Input {
    if !t.entered then PendingCleared(t)
    else
      t.(serial := Wrap32(t.serial + 1), currentEnabled := t.pendingEnabled,
         around := if !t.pendingEnabled then None else if t.pendingAround.Some? then t.pendingAround else t.around,
         pendingAround := None,
         rect := if t.pendingRect.Some? then t.pendingRect else t.rect, pendingRect := None)
  }

  // ---------------------------------------------------------------------
  // Steps on the whole
  // ---------------------------------------------------------------------

  function Send(s: State, e: Event): State {
    s.(log := s.log + [e])
  }

  /** request_ime_show and request_ime_hide reach the pipe only while the server is set. */
  function Ask(s: State, e: Event): State {
    if s.up then Send(s, e) else s
  }

  function SetActive(s: State, t: Option<Input>): State {
    match t
    case None => s.(active := None, committed := false)
    case Some(ti) => s.(active := Some(ti.id), committed := ti.currentEnabled)
  }

  /** The input t stops being the active one, if it is, and an enabled one takes the IME along. */
  function Dropped(s: State, t: Input): (s': State)
    ensures s' == s.(active := s'.active, committed := s'.committed, log := s'.log)
  {
    if s.active != Some(t.id) then s
    else if t.currentEnabled then Ask(SetActive(s, None), Hide) else SetActive(s, None)
  }

  function Left(t: Input): Input {
    RequestsReset(t.(entered := false, enteredSurface := None))
  }

  function LeaveTold(s: State, t: Input, sendLeave: bool): (s': State)
    ensures s' == s.(log := s'.log)
  {
    if sendLeave && t.enteredSurface.Some? then Send(s, LeaveSent(t.id, t.enteredSurface.value)) else s
  }

  /** maybe_send_leave. */
  function LeaveOne(s: State, i: nat, sendLeave: bool): (s': State)
    requires i < |s.inputs|
    ensures |s'.inputs| == |s.inputs| && s'.focused == s.focused && s'.up == s.up
  {
    var t := s.inputs[i];
    if !t.entered then s else Dropped(LeaveTold(s, t, sendLeave), t).(inputs := s.inputs[i := Left(t)])
  }

  predicate Leaves(t: Input, surface: Option<Surface>) {
    t.entered && (surface.None? || t.enteredSurface == surface)
  }

  /** The loop of clear_text_input_focus over the inputs before n. */
  function LeaveUpTo(s: State, surface: Option<Surface>, sendLeave: bool, n: nat): (s': State)
    requires n <= |s.inputs|
    ensures |s'.inputs| == |s.inputs| && s'.focused == s.focused && s'.up == s.up
  {
    if n == 0 then s
    else
      var s' := LeaveUpTo(s, surface, sendLeave, n - 1);
      if Leaves(s'.inputs[n - 1], surface) then LeaveOne(s', n - 1, sendLeave) else s'
  }

  /** clear_text_input_focus. */
  function ClearFocus(s: State, surface: Option<Surface>, sendLeave: bool): State {
    var s' := LeaveUpTo(s, surface, sendLeave, |s.inputs|);
    if surface.None? || s'.focused == surface then s'.(focused := None) else s'
  }

  /** The body of the loop of text_input_handle_keyboard_enter. */
  function EnterOne(s: State, i: nat, surface: Surface): State
    requires i < |s.inputs|
  {
    var t := s.inputs[i];
    Send(s.(inputs := s.inputs[i := RequestsReset(t).(entered := true, enteredSurface := Some(surface))]),
         EnterSent(t.id, surface))
  }

  /** The loop of text_input_handle_keyboard_enter over the inputs before n. */
  function EnterUpTo(s: State, surface: Surface, n: nat): (s': State)
    requires n <= |s.inputs|
    ensures |s'.inputs| == |s.inputs| && s' == s.(inputs := s'.inputs, log := s'.log)
  {
    if n == 0 then s
    else
      var s' := EnterUpTo(s, surface, n - 1);
      if s'.inputs[n - 1].client == surface.client then EnterOne(s', n - 1, surface) else s'
  }

  /** text_input_handle_keyboard_enter. */
  function EnterSurface(s: State, surface: Surface): State {
    if s.focused == Some(surface) then s
    else
      var s' := ClearFocus(s, None, true).(focused := Some(surface));
      EnterUpTo(s', surface, |s'.inputs|)
  }

  /** ti_commit. */
  function CommitInput(s: State, i: nat): State
    requires i < |s.inputs|
  {
    var t := s.inputs[i];
    var t' := Applied(t);
    var s' := s.(inputs := s.inputs[i := t']);
    if !t.entered then s'
    else if t'.currentEnabled then
      var s'' := SetActive(s', Some(t'));
      if t.currentEnabled then s'' else Ask(s'', Show)
    else Dropped(s', t)
  }

  /** ti_resource_destroy. */
  function RemoveInput(s: State, i: nat): State
    requires i < |s.inputs|
  {
    var t := s.inputs[i];
    Send(Dropped(s, t), InputGone(t.id)).(inputs := s.inputs[..i] + s.inputs[i + 1..])
  }

  /** manager_get_text_input. */
  function AddInput(s: State, id: nat, client: ClientId): State {
    var t := Input(id, client, false, false, 0, false, None, None, None, None, None);
    if s.focused.Some? && s.focused.value.client == client
    then Send(s.(inputs := [t.(entered := true, enteredSurface := s.focused)] + s.inputs), EnterSent(id, s.focused.value))
    else s.(inputs := [t] + s.inputs)
  }

  /** The end of a surface, which handle_focused_text_input_surface_destroy hears of if it
      is the focused one. */
  function EndSurface(s: State, surface: Surface): State {
    Send(if s.focused == Some(surface) then ClearFocus(s, Some(surface), false) else s, SurfaceGone(surface))
  }

  /** text_input_handler_destroy after its call of clear_text_input_focus. */
  function Close(s: State): State {
    SetActive(Send(s, Closed), None).(up := false)
  }

  predicate Allowed(s: State, r: Request) {
    match r
    case GetTextInput(id, _) => forall i :: 0 <= i < |s.inputs| ==> s.inputs[i].id != id
    case DestroyInput(i) => i < |s.inputs|
    case Enable(i) => i < |s.inputs|
    case Disable(i) => i < |s.inputs|
    case SetSurrounding(i, _, _, _) => i < |s.inputs|
    case SetRect(i, _) => i < |s.inputs|
    case Commit(i) => i < |s.inputs|
    case _ => true
  }

  /** A request that changes nothing but pending fields of an entered input. */
  function Pended(t: Input, r: Request): Input {
    if !t.entered then t
    else
      match r
      case Enable(_) => t.(around := None, pendingEnabled := true)
      case Disable(_) => t.(around := None, pendingEnabled := false)
      case SetSurrounding(_, text, cursor, anchor) => WithSurrounding(t, text, cursor, anchor)
      case SetRect(_, rect) => t.(pendingRect := Some(rect))
      case _ => t
  }

  function Step(s: State, r: Request): State
    requires Allowed(s, r)
  {
    match r
    case GetTextInput(id, client) => AddInput(s, id, client)
    case DestroyInput(i) => RemoveInput(s, i)
    case Enable(i) => s.(inputs := s.inputs[i := Pended(s.inputs[i], r)])
    case Disable(i) => s.(inputs := s.inputs[i := Pended(s.inputs[i], r)])
    case SetSurrounding(i, _, _, _) => s.(inputs := s.inputs[i := Pended(s.inputs[i], r)])
    case SetRect(i, _) => s.(inputs := s.inputs[i := Pended(s.inputs[i], r)])
    case Commit(i) => CommitInput(s, i)
    case KeyboardEnter(surface) => EnterSurface(s, surface)
    case KeyboardLeave(surface) => ClearFocus(s, Some(surface), true)
    case DestroySurface(surface) => EndSurface(s, surface)
    case Shutdown => Close(ClearFocus(s, None, false))
  }

  // ---------------------------------------------------------------------
  // The invariant
  // ---------------------------------------------------------------------

  predicate DistinctIds(ts: seq<Input>) {
    forall i, j :: 0 <= i < j < |ts| ==> ts[i].id != ts[j].id
  }

  /** No request of the client is pending or in force. */
  predicate NothingAsked(t: Input) {
    && !t.pendingEnabled && t.pendingAround.None? && t.pendingRect.None?
    && !t.currentEnabled && t.around.None? && t.rect.None?
  }

  predicate InText(a: Option<Around>) {
    a.Some? ==> 0 <= a.value.cursor <= |a.value.text| && 0 <= a.value.anchor <= |a.value.text|
  }

  /** Entered exactly when the focused surface is the client's, and then on that surface. */
  predicate Routed(t: Input, focused: Option<Surface>) {
    RoutedIfEntered(t, focused) && (focused.Some? && focused.value.client == t.client ==> t.entered)
  }

  /** Half of it, which holds inside the loops over the inputs too: entered only on the
      focused surface and only if it is the client's; nothing asked for while not entered;
      cursors and anchors inside their text. */
  predicate RoutedIfEntered(t: Input, focused: Option<Surface>) {
    && (t.entered ==> focused.Some? && focused.value.client == t.client)
    && t.enteredSurface == (if t.entered then focused else None)
    && (!t.entered ==> NothingAsked(t))
    && InText(t.around) && InText(t.pendingAround)
  }

  predicate Sound(ts: seq<Input>, focused: Option<Surface>) {
    DistinctIds(ts) && forall i :: 0 <= i < |ts| ==> RoutedIfEntered(ts[i], focused)
  }

  predicate IsActive(t: Input, id: nat) {
    t.id == id && t.entered && t.currentEnabled
  }

  /** The active input is a live, entered and enabled one. */
  predicate HasActive(ts: seq<Input>, active: Option<nat>) {
    active.Some? ==> exists i :: 0 <= i < |ts| && IsActive(ts[i], active.value)
  }

  predicate Mid(s: State) {
    Sound(s.inputs, s.focused) && HasActive(s.inputs, s.active) && s.committed == s.active.Some?
  }

  predicate Core(s: State) {
    Mid(s) && forall i :: 0 <= i < |s.inputs| ==> Routed(s.inputs[i], s.focused)
  }

  // ---------------------------------------------------------------------
  // What the IME is asked
  // ---------------------------------------------------------------------

  /** The requests to the IME among the events. */
  function Asked(log: seq<Event>): seq<Event> {
    if log == [] then []
    else
      var e := log[|log| - 1];
      Asked(log[..|log| - 1]) + (if e.Show? || e.Hide? then [e] else [])
  }

  lemma AskedAfter(log: seq<Event>, e: Event)
    ensures Asked(log + [e]) == Asked(log) + (if e.Show? || e.Hide? then [e] else [])
  {
    assert (log + [e])[..|log|] == log;
  }

  /** From s to s' the IME was asked to hide if the active input went away, and nothing else. */
  predicate AskedOnUnset(s: State, s': State) {
    Asked(s'.log) == Asked(s.log) + (if s.up && s.active.Some? && s'.active.None? then [Hide] else [])
  }

  lemma AskedTwice(s: State, s1: State, s2: State)
    requires AskedOnUnset(s, s1) && AskedOnUnset(s1, s2) && s.up == s1.up
    requires (s.active.None? ==> s1.active.None?) && (s1.active.None? ==> s2.active.None?)
    ensures AskedOnUnset(s, s2)
  {
  }

  lemma ActiveIsEnabled(s: State, i: nat)
    requires Mid(s) && i < |s.inputs| && s.active == Some(s.inputs[i].id)
    ensures s.inputs[i].entered && s.inputs[i].currentEnabled
  {
    var w :| 0 <= w < |s.inputs| && IsActive(s.inputs[w], s.active.value);
    assert i == w;
  }

  /** Replacing one input keeps the active one if the new one may stand in for it. */
  lemma ReplaceKeepsActive(ts: seq<Input>, i: nat, t: Input, active: Option<nat>)
    requires DistinctIds(ts) && HasActive(ts, active) && i < |ts| && t.id == ts[i].id
    requires active == Some(t.id) ==> t.entered && t.currentEnabled
    ensures HasActive(ts[i := t], active)
  {
    if active.Some? {
      var w :| 0 <= w < |ts| && IsActive(ts[w], active.value);
      assert IsActive(ts[i := t][w], active.value);
    }
  }

  lemma ReplaceKeepsSound(ts: seq<Input>, i: nat, t: Input, focused: Option<Surface>)
    requires Sound(ts, focused) && i < |ts| && t.id == ts[i].id && RoutedIfEntered(t, focused)
    ensures Sound(ts[i := t], focused)
  {
  }

  // ---------------------------------------------------------------------
  // What a client sees
  // ---------------------------------------------------------------------

  datatype View = Outside | Inside(surface: Surface) | Broken

  /** One event in the view of the client that owns the input called id: Broken is an enter
      while entered, or a leave while not entered or from another surface. */
  function Observe(v: View, e: Event, id: nat): View {
    match e
    case EnterSent(i, surface) => if i != id then v else if v.Outside? then Inside(surface) else Broken
    case LeaveSent(i, surface) => if i != id then v else if v == Inside(surface) then Outside else Broken
    case SurfaceGone(surface) => if v == Inside(surface) then Outside else v
    case InputGone(i) => if i == id && v.Inside? then Outside else v
    case Closed => if v.Inside? then Outside else v
    case _ => v
  }

  function Seen(log: seq<Event>, id: nat): View {
    if log == [] then Outside else Observe(Seen(log[..|log| - 1], id), log[|log| - 1], id)
  }

  lemma SeenAfter(log: seq<Event>, e: Event, id: nat)
    ensures Seen(log + [e], id) == Observe(Seen(log, id), e, id)
  {
    assert (log + [e])[..|log|] == log;
  }

  function ViewOf(t: Input): View {
    if t.entered && t.enteredSurface.Some? then Inside(t.enteredSurface.value) else Outside
  }

  predicate Named(ts: seq<Input>, id: nat) {
    exists i :: 0 <= i < |ts| && ts[i].id == id
  }

  /** What the client of the input called id has been told is what the input is in. */
  predicate Told(s: State, id: nat) {
    ToldIn(s.inputs, id, Seen(s.log, id))
  }

  predicate ToldIn(ts: seq<Input>, id: nat, v: View) {
    && (forall i :: 0 <= i < |ts| && ts[i].id == id ==> v == ViewOf(ts[i]))
    && (!Named(ts, id) ==> v == Outside)
  }

  lemma ReplaceTold(ts: seq<Input>, i: nat, t: Input, id: nat, v: View, v': View)
    requires DistinctIds(ts) && i < |ts| && t.id == ts[i].id && ToldIn(ts, id, v)
    requires v' == if id == t.id then ViewOf(t) else v
    ensures ToldIn(ts[i := t], id, v')
  {
    SameNames(ts[i := t], ts, id);
  }

  /** Inputs with the same identity and serial. */
  predicate SameInputs(a: seq<Input>, b: seq<Input>) {
    |a| == |b| && forall i :: 0 <= i < |a| ==> a[i].id == b[i].id && a[i].client == b[i].client && a[i].serial == b[i].serial
  }

  lemma SameNames(a: seq<Input>, b: seq<Input>, id: nat)
    requires |a| == |b| && forall i :: 0 <= i < |a| ==> a[i].id == b[i].id
    ensures Named(a, id) == Named(b, id)
  {
    if Named(a, id) {
      var i :| 0 <= i < |a| && a[i].id == id;
      assert b[i].id == id;
    }
    if Named(b, id) {
      var i :| 0 <= i < |b| && b[i].id == id;
      assert a[i].id == id;
    }
  }

  // ---------------------------------------------------------------------
  // Leaving
  // ---------------------------------------------------------------------

  lemma LeaveOneKeeps(s: State, i: nat, sendLeave: bool)
    requires Mid(s) && i < |s.inputs| && s.inputs[i].entered
    ensures var s' := LeaveOne(s, i, sendLeave);
            Mid(s') && s'.inputs == s.inputs[i := Left(s.inputs[i])] && (s.active.None? ==> s'.active.None?)
  {
    ReplaceKeepsSound(s.inputs, i, Left(s.inputs[i]), s.focused);
    if s.active != Some(s.inputs[i].id) {
      ReplaceKeepsActive(s.inputs, i, Left(s.inputs[i]), s.active);
    }
  }

  lemma LeaveOneAsks(s: State, i: nat, sendLeave: bool)
    requires Mid(s) && i < |s.inputs| && s.inputs[i].entered
    ensures AskedOnUnset(s, LeaveOne(s, i, sendLeave))
  {
    var t := s.inputs[i];
    AskedAfter(s.log, LeaveSent(t.id, t.enteredSurface.value));
    if s.active == Some(t.id) {
      ActiveIsEnabled(s, i);
      AskedAfter(s.log, Hide);
      AskedAfter(s.log + [LeaveSent(t.id, t.enteredSurface.value)], Hide);
    }
  }

  lemma DroppedSeen(s: State, t: Input, id: nat)
    ensures Seen(Dropped(s, t).log, id) == Seen(s.log, id)
  {
    SeenAfter(s.log, Hide, id);
  }

  lemma LeaveOneSeen(s: State, i: nat, sendLeave: bool, id: nat)
    requires Mid(s) && i < |s.inputs| && s.inputs[i].entered
    ensures var v := Seen(s.log, id);
            Seen(LeaveOne(s, i, sendLeave).log, id)
            == if sendLeave then Observe(v, LeaveSent(s.inputs[i].id, s.inputs[i].enteredSurface.value), id) else v
  {
    var t := s.inputs[i];
    SeenAfter(s.log, LeaveSent(t.id, t.enteredSurface.value), id);
    DroppedSeen(LeaveTold(s, t, sendLeave), t, id);
  }

  lemma LeaveOneTells(s: State, i: nat, id: nat)
    requires Mid(s) && i < |s.inputs| && s.inputs[i].entered && Told(s, id)
    ensures Told(LeaveOne(s, i, true), id)
  {
    var v' := Observe(Seen(s.log, id), LeaveSent(s.inputs[i].id, s.inputs[i].enteredSurface.value), id);
    LeaveOneSeen(s, i, true, id);
    ReplaceTold(s.inputs, i, Left(s.inputs[i]), id, Seen(s.log, id), v');
  }

  lemma {:induction false} LeaveUpToKeeps(s: State, surface: Option<Surface>, sendLeave: bool, n: nat)
    requires Mid(s) && n <= |s.inputs| && (surface.None? || surface == s.focused)
    ensures var s' := LeaveUpTo(s, surface, sendLeave, n);
            Mid(s') && (forall j :: 0 <= j < n ==> !s'.inputs[j].entered) && (s.active.None? ==> s'.active.None?)
  {
    if n > 0 {
      LeaveUpToKeeps(s, surface, sendLeave, n - 1);
      var s' := LeaveUpTo(s, surface, sendLeave, n - 1);
      if Leaves(s'.inputs[n - 1], surface) {
        LeaveOneKeeps(s', n - 1, sendLeave);
      }
    }
  }

  lemma {:induction false} LeaveUpToAsks(s: State, surface: Option<Surface>, sendLeave: bool, n: nat)
    requires Mid(s) && n <= |s.inputs| && (surface.None? || surface == s.focused)
    ensures AskedOnUnset(s, LeaveUpTo(s, surface, sendLeave, n))
  {
    if n > 0 {
      LeaveUpToAsks(s, surface, sendLeave, n - 1);
      LeaveUpToKeeps(s, surface, sendLeave, n - 1);
      var s' := LeaveUpTo(s, surface, sendLeave, n - 1);
      if Leaves(s'.inputs[n - 1], surface) {
        LeaveOneAsks(s', n - 1, sendLeave);
        AskedTwice(s, s', LeaveOne(s', n - 1, sendLeave));
      }
    }
  }

  lemma LeaveIfTells(s: State, i: nat, surface: Option<Surface>, id: nat, s': State)
    requires Mid(s) && i < |s.inputs| && Told(s, id)
    requires s' == if Leaves(s.inputs[i], surface) then LeaveOne(s, i, true) else s
    ensures Told(s', id)
  {
    if Leaves(s.inputs[i], surface) {
      LeaveOneTells(s, i, id);
    }
  }

  lemma {:induction false} LeaveUpToTells(s: State, surface: Option<Surface>, n: nat, id: nat)
    requires Mid(s) && n <= |s.inputs| && (surface.None? || surface == s.focused) && Told(s, id)
    ensures Told(LeaveUpTo(s, surface, true, n), id)
  {
    if n > 0 {
      var s' := LeaveUpTo(s, surface, true, n - 1);
      assert Mid(s') && Told(s', id) by {
        LeaveUpToTells(s, surface, n - 1, id);
        LeaveUpToKeeps(s, surface, true, n - 1);
      }
      LeaveIfTells(s', n - 1, surface, id, LeaveUpTo(s, surface, true, n));
    }
  }

  lemma {:induction false} LeaveUpToSilent(s: State, surface: Option<Surface>, n: nat, id: nat)
    requires Mid(s) && n <= |s.inputs| && (surface.None? || surface == s.focused)
    ensures Seen(LeaveUpTo(s, surface, false, n).log, id) == Seen(s.log, id)
  {
    if n > 0 {
      var s' := LeaveUpTo(s, surface, false, n - 1);
      assert Mid(s') && Seen(s'.log, id) == Seen(s.log, id) by {
        LeaveUpToSilent(s, surface, n - 1, id);
        LeaveUpToKeeps(s, surface, false, n - 1);
      }
      if Leaves(s'.inputs[n - 1], surface) {
        LeaveOneSeen(s', n - 1, false, id);
      }
    }
  }

  lemma {:induction false} LeaveUpToSame(s: State, surface: Option<Surface>, sendLeave: bool, n: nat)
    requires n <= |s.inputs|
    ensures SameInputs(LeaveUpTo(s, surface, sendLeave, n).inputs, s.inputs)
  {
    if n > 0 {
      LeaveUpToSame(s, surface, sendLeave, n - 1);
    }
  }

  lemma {:induction false} LeaveNothing(s: State, surface: Surface, sendLeave: bool, n: nat)
    requires Mid(s) && n <= |s.inputs| && s.focused != Some(surface)
    ensures LeaveUpTo(s, Some(surface), sendLeave, n) == s
  {
    if n > 0 {
      LeaveNothing(s, surface, sendLeave, n - 1);
    }
  }

  /** Clearing the focus makes every input leave that had it, and hides the IME if one of
      them was active. */
  lemma ClearFocusKeeps(s: State, surface: Option<Surface>, sendLeave: bool)
    requires Core(s)
    ensures var s' := ClearFocus(s, surface, sendLeave);
            && Core(s') && SameInputs(s'.inputs, s.inputs) && s'.up == s.up && AskedOnUnset(s, s')
            && (if surface.None? || surface == s.focused
                then s'.focused == None && s'.active == None && (forall j :: 0 <= j < |s'.inputs| ==> !s'.inputs[j].entered)
                else s' == s)
  {
    if surface.None? || surface == s.focused {
      LeaveUpToKeeps(s, surface, sendLeave, |s.inputs|);
      LeaveUpToSame(s, surface, sendLeave, |s.inputs|);
      LeaveUpToAsks(s, surface, sendLeave, |s.inputs|);
    } else {
      LeaveNothing(s, surface.value, sendLeave, |s.inputs|);
    }
  }

  lemma ClearFocusSeen(s: State, surface: Option<Surface>, sendLeave: bool, id: nat)
    requires Core(s) && Told(s, id)
    ensures var s' := ClearFocus(s, surface, sendLeave);
            if sendLeave then Told(s', id) else Seen(s'.log, id) == Seen(s.log, id)
  {
    if surface.None? || surface == s.focused {
      if sendLeave {
        LeaveUpToTells(s, surface, |s.inputs|, id);
      } else {
        LeaveUpToSilent(s, surface, |s.inputs|, id);
      }
    } else {
      LeaveNothing(s, surface.value, sendLeave, |s.inputs|);
    }
  }

  // ---------------------------------------------------------------------
  // Entering
  // ---------------------------------------------------------------------

  lemma EnterOneKeeps(s: State, i: nat, surface: Surface)
    requires Mid(s) && i < |s.inputs| && s.focused == Some(surface) && s.active == None
    requires s.inputs[i].client == surface.client
    ensures var s' := EnterOne(s, i, surface);
            Mid(s') && Routed(s'.inputs[i], s.focused)
  {
    ReplaceKeepsSound(s.inputs, i, EnterOne(s, i, surface).inputs[i], s.focused);
  }

  lemma {:induction false} EnterUpToSame(s: State, surface: Surface, n: nat)
    requires n <= |s.inputs|
    ensures var s' := EnterUpTo(s, surface, n);
            SameInputs(s'.inputs, s.inputs) && (forall j :: n <= j < |s.inputs| ==> s'.inputs[j] == s.inputs[j])
  {
    if n > 0 {
      EnterUpToSame(s, surface, n - 1);
    }
  }

  lemma {:induction false} EnterUpToAsks(s: State, surface: Surface, n: nat)
    requires n <= |s.inputs|
    ensures Asked(EnterUpTo(s, surface, n).log) == Asked(s.log)
  {
    if n > 0 {
      EnterUpToAsks(s, surface, n - 1);
      var s' := EnterUpTo(s, surface, n - 1);
      AskedAfter(s'.log, EnterSent(s'.inputs[n - 1].id, surface));
    }
  }

  lemma EnterIfKeeps(s: State, i: nat, surface: Surface)
    requires Mid(s) && i < |s.inputs| && s.focused == Some(surface) && s.active == None
    requires forall j :: 0 <= j < i ==> Routed(s.inputs[j], s.focused)
    ensures var s' := if s.inputs[i].client == surface.client then EnterOne(s, i, surface) else s;
            Mid(s') && forall j :: 0 <= j <= i ==> Routed(s'.inputs[j], s.focused)
  {
    if s.inputs[i].client == surface.client {
      EnterOneKeeps(s, i, surface);
    }
  }

  lemma {:induction false} EnterUpToKeeps(s: State, surface: Surface, n: nat)
    requires Mid(s) && n <= |s.inputs| && s.focused == Some(surface) && s.active == None
    ensures var s' := EnterUpTo(s, surface, n);
            Mid(s') && forall j :: 0 <= j < n ==> Routed(s'.inputs[j], s.focused)
  {
    if n > 0 {
      EnterUpToKeeps(s, surface, n - 1);
      EnterIfKeeps(EnterUpTo(s, surface, n - 1), n - 1, surface);
    }
  }

  lemma EnterOneTells(s: State, i: nat, surface: Surface, id: nat)
    requires DistinctIds(s.inputs) && i < |s.inputs| && !s.inputs[i].entered && Told(s, id)
    ensures Told(EnterOne(s, i, surface), id)
  {
    SeenAfter(s.log, EnterSent(s.inputs[i].id, surface), id);
    var s' := EnterOne(s, i, surface);
    ReplaceTold(s.inputs, i, s'.inputs[i], id, Seen(s.log, id), Seen(s'.log, id));
  }

  lemma EnterIfTells(s: State, i: nat, surface: Surface, id: nat)
    requires DistinctIds(s.inputs) && i < |s.inputs| && !s.inputs[i].entered && Told(s, id)
    ensures Told(if s.inputs[i].client == surface.client then EnterOne(s, i, surface) else s, id)
  {
    if s.inputs[i].client == surface.client {
      EnterOneTells(s, i, surface, id);
    }
  }

  lemma {:induction false} EnterUpToTells(s: State, surface: Surface, n: nat, id: nat)
    requires DistinctIds(s.inputs) && n <= |s.inputs| && Told(s, id)
    requires forall j :: 0 <= j < |s.inputs| ==> !s.inputs[j].entered
    ensures Told(EnterUpTo(s, surface, n), id)
  {
    if n > 0 {
      EnterUpToTells(s, surface, n - 1, id);
      EnterUpToSame(s, surface, n - 1);
      var s' := EnterUpTo(s, surface, n - 1);
      assert s'.inputs[n - 1] == s.inputs[n - 1];
      SameIdsDistinct(s'.inputs, s.inputs);
      EnterIfTells(s', n - 1, surface, id);
    }
  }

  lemma SameIdsDistinct(a: seq<Input>, b: seq<Input>)
    requires SameInputs(a, b) && DistinctIds(b)
    ensures DistinctIds(a)
  {
  }

  lemma EnterSurfaceKeeps(s: State, surface: Surface)
    requires Core(s)
    ensures var s' := EnterSurface(s, surface);
            Core(s') && s'.focused == Some(surface) && SameInputs(s'.inputs, s.inputs) && AskedOnUnset(s, s')
  {
    if s.focused != Some(surface) {
      ClearFocusKeeps(s, None, true);
      var s' := ClearFocus(s, None, true).(focused := Some(surface));
      EnterUpToKeeps(s', surface, |s'.inputs|);
      EnterUpToSame(s', surface, |s'.inputs|);
      EnterUpToAsks(s', surface, |s'.inputs|);
    }
  }

  lemma EnterSurfaceTells(s: State, surface: Surface, id: nat)
    requires Core(s) && Told(s, id)
    ensures Told(EnterSurface(s, surface), id)
  {
    if s.focused != Some(surface) {
      ClearFocusKeeps(s, None, true);
      ClearFocusSeen(s, None, true, id);
      var s' := ClearFocus(s, None, true).(focused := Some(surface));
      EnterUpToTells(s', surface, |s'.inputs|, id);
    }
  }

  // ---------------------------------------------------------------------
  // The other requests
  // ---------------------------------------------------------------------

  lemma PendedKeeps(s: State, i: nat, r: Request)
    requires Core(s) && i < |s.inputs|
    ensures Core(s.(inputs := s.inputs[i := Pended(s.inputs[i], r)]))
    ensures forall id :: Told(s, id) ==> Told(s.(inputs := s.inputs[i := Pended(s.inputs[i], r)]), id)
  {
    var t, s' := Pended(s.inputs[i], r), s.(inputs := s.inputs[i := Pended(s.inputs[i], r)]);
    if s.active == Some(s.inputs[i].id) {
      ActiveIsEnabled(s, i);
    }
    ReplaceKeepsActive(s.inputs, i, t, s.active);
    ReplaceKeepsSound(s.inputs, i, t, s.focused);
    forall id | Told(s, id) ensures Told(s', id) {
      ReplaceTold(s.inputs, i, t, id, Seen(s.log, id), Seen(s.log, id));
    }
  }

  lemma CommitKeeps(s: State, i: nat)
    requires Core(s) && i < |s.inputs|
    ensures Core(CommitInput(s, i))
  {
    var t, t', s' := s.inputs[i], Applied(s.inputs[i]), CommitInput(s, i);
    ReplaceKeepsSound(s.inputs, i, t', s.focused);
    if s.active == Some(t.id) {
      ActiveIsEnabled(s, i);
    }
    if t.entered && t'.currentEnabled {
      assert IsActive(s'.inputs[i], t.id);
    } else if s.active != Some(t.id) {
      ReplaceKeepsActive(s.inputs, i, t', s.active);
    }
  }

  /** The commit that turns an input on. */
  predicate TurnsOn(s: State, r: Request) {
    r.Commit? && r.i < |s.inputs|
    && s.inputs[r.i].entered && s.inputs[r.i].pendingEnabled && !s.inputs[r.i].currentEnabled
  }

  lemma CommitAsks(s: State, i: nat)
    requires Core(s) && i < |s.inputs|
    ensures if TurnsOn(s, Commit(i)) then Asked(CommitInput(s, i).log) == Asked(s.log) + (if s.up then [Show] else [])
            else AskedOnUnset(s, CommitInput(s, i))
  {
    if s.active == Some(s.inputs[i].id) {
      ActiveIsEnabled(s, i);
    }
    AskedAfter(s.log, Show);
    AskedAfter(s.log, Hide);
  }

  lemma CommitSeen(s: State, i: nat, id: nat)
    requires i < |s.inputs|
    ensures Seen(CommitInput(s, i).log, id) == Seen(s.log, id)
  {
    var t := s.inputs[i];
    if t.entered && t.pendingEnabled {
      SeenAfter(s.log, Show, id);
    } else {
      DroppedSeen(s.(inputs := s.inputs[i := Applied(t)]), t, id);
    }
  }

  lemma CommitTells(s: State, i: nat, id: nat)
    requires Core(s) && i < |s.inputs| && Told(s, id)
    ensures Told(CommitInput(s, i), id)
  {
    var t := Applied(s.inputs[i]);
    assert CommitInput(s, i).inputs == s.inputs[i := t];
    CommitSeen(s, i, id);
    ReplaceTold(s.inputs, i, t, id, Seen(s.log, id), Seen(s.log, id));
  }

  lemma RemoveKeeps(s: State, i: nat)
    requires Core(s) && i < |s.inputs|
    ensures Core(RemoveInput(s, i))
  {
    var s' := RemoveInput(s, i);
    assert forall j :: 0 <= j < |s'.inputs| ==> s'.inputs[j] == s.inputs[if j < i then j else j + 1];
    if s.active.Some? && s.active != Some(s.inputs[i].id) {
      var w :| 0 <= w < |s.inputs| && IsActive(s.inputs[w], s.active.value);
      assert IsActive(s'.inputs[if w < i then w else w - 1], s.active.value);
    }
  }

  lemma RemoveAsks(s: State, i: nat)
    requires Core(s) && i < |s.inputs|
    ensures AskedOnUnset(s, RemoveInput(s, i))
  {
    if s.active == Some(s.inputs[i].id) {
      ActiveIsEnabled(s, i);
    }
    AskedAfter(s.log, Hide);
    AskedAfter(s.log, InputGone(s.inputs[i].id));
    AskedAfter(s.log + [Hide], InputGone(s.inputs[i].id));
  }

  lemma RemoveTells(s: State, i: nat, id: nat)
    requires Core(s) && i < |s.inputs| && Told(s, id)
    ensures Told(RemoveInput(s, i), id)
  {
    var s' := RemoveInput(s, i);
    assert Seen(s'.log, id) == Observe(Seen(s.log, id), InputGone(s.inputs[i].id), id) by {
      SeenAfter(s.log, Hide, id);
      SeenAfter(s.log, InputGone(s.inputs[i].id), id);
      SeenAfter(s.log + [Hide], InputGone(s.inputs[i].id), id);
    }
    assert s'.inputs == s.inputs[..i] + s.inputs[i + 1..];
    RemoveTellsRest(s, i, s', id);
  }

  lemma RemoveTellsRest(s: State, i: nat, s': State, id: nat)
    requires DistinctIds(s.inputs) && i < |s.inputs| && Told(s, id) && s'.inputs == s.inputs[..i] + s.inputs[i + 1..]
    requires Seen(s'.log, id) == Observe(Seen(s.log, id), InputGone(s.inputs[i].id), id)
    ensures Told(s', id)
  {
    assert forall j :: 0 <= j < |s'.inputs| ==> s'.inputs[j] == s.inputs[if j < i then j else j + 1];
    if id != s.inputs[i].id && Named(s.inputs, id) {
      var w :| 0 <= w < |s.inputs| && s.inputs[w].id == id;
      assert s'.inputs[if w < i then w else w - 1].id == id;
    }
  }

  lemma AddKeeps(s: State, id: nat, client: ClientId)
    requires Core(s) && Allowed(s, GetTextInput(id, client))
    ensures Core(AddInput(s, id, client))
  {
    var s' := AddInput(s, id, client);
    PrependKeepsSound(s.inputs, s'.inputs[0], s.focused);
    PrependKeepsActive(s.inputs, s'.inputs[0], s.active);
    assert forall j :: 0 < j < |s'.inputs| ==> s'.inputs[j] == s.inputs[j - 1];
  }

  lemma PrependKeepsActive(ts: seq<Input>, t: Input, active: Option<nat>)
    requires HasActive(ts, active)
    ensures HasActive([t] + ts, active)
  {
    if active.Some? {
      var w :| 0 <= w < |ts| && IsActive(ts[w], active.value);
      assert ([t] + ts)[w + 1] == ts[w];
    }
  }

  lemma PrependKeepsSound(ts: seq<Input>, t: Input, focused: Option<Surface>)
    requires Sound(ts, focused) && RoutedIfEntered(t, focused) && forall i :: 0 <= i < |ts| ==> ts[i].id != t.id
    ensures Sound([t] + ts, focused)
  {
    assert forall j :: 0 < j < |[t] + ts| ==> ([t] + ts)[j] == ts[j - 1];
  }

  lemma AddAsks(s: State, id: nat, client: ClientId)
    ensures AskedOnUnset(s, AddInput(s, id, client))
  {
    if s.focused.Some? {
      AskedAfter(s.log, EnterSent(id, s.focused.value));
    }
  }

  /** A new input called added, in front of the others. */
  lemma PrependTold(ts: seq<Input>, t: Input, id: nat, v: View, v': View)
    requires ToldIn(ts, id, v) && forall i :: 0 <= i < |ts| ==> ts[i].id != t.id
    requires v' == if id == t.id then ViewOf(t) else v
    ensures ToldIn([t] + ts, id, v')
  {
    var ts' := [t] + ts;
    assert ts'[0] == t && forall j :: 0 < j < |ts'| ==> ts'[j] == ts[j - 1];
    if Named(ts, id) {
      var w :| 0 <= w < |ts| && ts[w].id == id;
      assert ts'[w + 1].id == id;
    }
  }

  lemma AddTells(s: State, added: nat, client: ClientId, id: nat)
    requires Core(s) && Allowed(s, GetTextInput(added, client)) && Told(s, id)
    ensures Told(AddInput(s, added, client), id)
  {
    var s' := AddInput(s, added, client);
    if s.focused.Some? {
      SeenAfter(s.log, EnterSent(added, s.focused.value), id);
    }
    assert Named(s.inputs, added) ==> id != added;
    PrependTold(s.inputs, s'.inputs[0], id, Seen(s.log, id), Seen(s'.log, id));
  }

  // ---------------------------------------------------------------------
  // Every request, every run
  // ---------------------------------------------------------------------

  /** Every input is where the focus puts it and its client knows; the active one is live. */
  ghost predicate Inv(s: State) {
    Core(s) && forall id :: Told(s, id)
  }

  lemma StepKeepsCore(s: State, r: Request)
    requires Core(s) && Allowed(s, r)
    ensures Core(Step(s, r))
  {
    match r
    case GetTextInput(id, client) => AddKeeps(s, id, client);
    case DestroyInput(i) => RemoveKeeps(s, i);
    case Enable(i) => PendedKeeps(s, i, r);
    case Disable(i) => PendedKeeps(s, i, r);
    case SetSurrounding(i, _, _, _) => PendedKeeps(s, i, r);
    case SetRect(i, _) => PendedKeeps(s, i, r);
    case Commit(i) => CommitKeeps(s, i);
    case KeyboardEnter(surface) => EnterSurfaceKeeps(s, surface);
    case KeyboardLeave(surface) => ClearFocusKeeps(s, Some(surface), true);
    case DestroySurface(surface) => ClearFocusKeeps(s, Some(surface), false);
    case Shutdown => ClearFocusKeeps(s, None, false);
  }

  /** With no input left on it, a surface may go without a word. */
  lemma SurfaceGoneTells(s: State, surface: Surface, id: nat)
    requires Core(s) && Told(s, id)
    ensures Told(Step(s, DestroySurface(surface)), id)
  {
    ClearFocusKeeps(s, Some(surface), false);
    ClearFocusSeen(s, Some(surface), false, id);
    var s' := ClearFocus(s, Some(surface), false);
    SeenAfter(s.log, SurfaceGone(surface), id);
    SeenAfter(s'.log, SurfaceGone(surface), id);
    SameNames(s'.inputs, s.inputs, id);
  }

  lemma ShutdownTells(s: State, id: nat)
    requires Core(s) && Told(s, id)
    ensures Told(Step(s, Shutdown), id)
  {
    ClearFocusKeeps(s, None, false);
    ClearFocusSeen(s, None, false, id);
    var s' := ClearFocus(s, None, false);
    SeenAfter(s'.log, Closed, id);
    SameNames(s'.inputs, s.inputs, id);
  }

  lemma StepTells(s: State, r: Request, id: nat)
    requires Core(s) && Allowed(s, r) && Told(s, id)
    ensures Told(Step(s, r), id)
  {
    match r
    case GetTextInput(added, client) => AddTells(s, added, client, id);
    case DestroyInput(i) => RemoveTells(s, i, id);
    case Enable(i) => PendedKeeps(s, i, r);
    case Disable(i) => PendedKeeps(s, i, r);
    case SetSurrounding(i, _, _, _) => PendedKeeps(s, i, r);
    case SetRect(i, _) => PendedKeeps(s, i, r);
    case Commit(i) => CommitTells(s, i, id);
    case KeyboardEnter(surface) => EnterSurfaceTells(s, surface, id);
    case KeyboardLeave(surface) => ClearFocusSeen(s, Some(surface), true, id);
    case DestroySurface(surface) => SurfaceGoneTells(s, surface, id);
    case Shutdown => ShutdownTells(s, id);
  }

  /** The IME is asked to show itself exactly when an input is turned on and to hide exactly
      when the active input goes from set to unset. */
  lemma StepAsks(s: State, r: Request)
    requires Core(s) && Allowed(s, r)
    ensures var s' := Step(s, r);
            if TurnsOn(s, r) then s'.active.Some? && Asked(s'.log) == Asked(s.log) + (if s.up then [Show] else [])
            else AskedOnUnset(s, s') && (s.active.None? && s'.active.Some? ==> r.Commit?)
  {
    match r
    case GetTextInput(id, client) => AddAsks(s, id, client);
    case DestroyInput(i) => RemoveAsks(s, i);
    case Enable(_) =>
    case Disable(_) =>
    case SetSurrounding(_, _, _, _) =>
    case SetRect(_, _) =>
    case Commit(i) => CommitAsks(s, i);
    case KeyboardEnter(surface) =>
      EnterSurfaceKeeps(s, surface);
      EnterSurfaceUnsets(s, surface);
    case KeyboardLeave(surface) => ClearFocusKeeps(s, Some(surface), true);
    case DestroySurface(surface) =>
      ClearFocusKeeps(s, Some(surface), false);
      AskedAfter(ClearFocus(s, Some(surface), false).log, SurfaceGone(surface));
      AskedAfter(s.log, SurfaceGone(surface));
    case Shutdown =>
      ClearFocusKeeps(s, None, false);
      AskedAfter(ClearFocus(s, None, false).log, Closed);
  }

  lemma EnterSurfaceUnsets(s: State, surface: Surface)
    requires Core(s)
    ensures s.active.None? ==> EnterSurface(s, surface).active.None?
  {
    if s.focused != Some(surface) {
      ClearFocusKeeps(s, None, true);
    }
  }

  lemma StepKeepsInv(s: State, r: Request)
    requires Inv(s) && Allowed(s, r)
    ensures Inv(Step(s, r))
  {
    StepKeepsCore(s, r);
    forall id ensures Told(Step(s, r), id) {
      StepTells(s, r, id);
    }
  }

  predicate Schedule(s: State, rs: seq<Request>)
    decreases |rs|
  {
    rs == [] || (Allowed(s, rs[0]) && Schedule(Step(s, rs[0]), rs[1..]))
  }

  function Run(s: State, rs: seq<Request>): State
    requires Schedule(s, rs)
    decreases |rs|
  {
    if rs == [] then s else Run(Step(s, rs[0]), rs[1..])
  }

  /** In every reachable state each input is entered exactly when the focused surface is
      its client's and no client has seen an enter while entered or a leave while not; a
      handler that was shut down stays so. */
  lemma {:induction false} RunKeepsInv(s: State, rs: seq<Request>)
    requires Inv(s) && Schedule(s, rs)
    ensures Inv(Run(s, rs)) && (Run(s, rs).up ==> s.up)
    decreases |rs|
  {
    if rs != [] {
      StepKeepsInv(s, rs[0]);
      if !s.up {
        StaysDown(s, rs[0]);
      }
      RunKeepsInv(Step(s, rs[0]), rs[1..]);
    }
  }

  /** The surface that the keyboard entered last, unless it has left it or the surface is
      gone. */
  function FocusAfter(f: Option<Surface>, r: Request): Option<Surface> {
    match r
    case KeyboardEnter(surface) => Some(surface)
    case KeyboardLeave(surface) => if f == Some(surface) then None else f
    case DestroySurface(surface) => if f == Some(surface) then None else f
    case Shutdown => None
    case _ => f
  }

  function FocusOf(rs: seq<Request>, f: Option<Surface>): Option<Surface> {
    if rs == [] then f else FocusOf(rs[1..], FocusAfter(f, rs[0]))
  }

  lemma StepFocuses(s: State, r: Request)
    requires Core(s) && Allowed(s, r)
    ensures Step(s, r).focused == FocusAfter(s.focused, r) && (Step(s, r).up <==> s.up && !r.Shutdown?)
  {
    match r
    case KeyboardEnter(surface) => EnterSurfaceKeeps(s, surface);
    case KeyboardLeave(surface) => ClearFocusKeeps(s, Some(surface), true);
    case DestroySurface(surface) => ClearFocusKeeps(s, Some(surface), false);
    case Shutdown => ClearFocusKeeps(s, None, false);
    case _ =>
  }

  lemma {:induction false} RunFocuses(s: State, rs: seq<Request>)
    requires Core(s) && Schedule(s, rs)
    ensures Run(s, rs).focused == FocusOf(rs, s.focused) && (Run(s, rs).up <==> s.up && Shutdown !in rs)
    decreases |rs|
  {
    if rs != [] {
      StepFocuses(s, rs[0]);
      StepKeepsCore(s, rs[0]);
      RunFocuses(Step(s, rs[0]), rs[1..]);
      assert rs == [rs[0]] + rs[1..];
    }
  }

  lemma FocusRouting(rs: seq<Request>)
    requires Schedule(INITIAL, rs)
    ensures var s := Run(INITIAL, rs);
            && s.focused == FocusOf(rs, None) && (s.up <==> Shutdown !in rs)
            && (forall i :: 0 <= i < |s.inputs| ==> var t := s.inputs[i];
                  && (t.entered <==> s.focused.Some? && s.focused.value.client == t.client)
                  && (t.entered ==> t.enteredSurface == s.focused)
                  && (!t.entered ==> NothingAsked(t)))
            && (s.active.Some? ==> exists i :: 0 <= i < |s.inputs| && IsActive(s.inputs[i], s.active.value))
            && s.committed == s.active.Some?
            && (forall id :: !Seen(s.log, id).Broken?)
  {
    RunKeepsInv(INITIAL, rs);
    RunFocuses(INITIAL, rs);
    var s := Run(INITIAL, rs);
    forall id ensures !Seen(s.log, id).Broken? {
      assert Told(s, id);
      if Named(s.inputs, id) {
        var i :| 0 <= i < |s.inputs| && s.inputs[i].id == id;
        assert Seen(s.log, id) == ViewOf(s.inputs[i]);
      }
    }
    forall i | 0 <= i < |s.inputs|
      ensures var t := s.inputs[i];
              && (t.entered <==> s.focused.Some? && s.focused.value.client == t.client)
              && (t.entered ==> t.enteredSurface == s.focused)
              && (!t.entered ==> NothingAsked(t))
    {
      assert Routed(s.inputs[i], s.focused);
    }
  }

  // ---------------------------------------------------------------------
  // A change of focus forgets what was asked for
  // ---------------------------------------------------------------------

  lemma {:induction false} EnterUpToForgets(s: State, surface: Surface, n: nat)
    requires n <= |s.inputs| && forall j :: 0 <= j < |s.inputs| ==> NothingAsked(s.inputs[j])
    ensures forall j :: 0 <= j < |s.inputs| ==> NothingAsked(EnterUpTo(s, surface, n).inputs[j])
  {
    if n > 0 {
      EnterUpToForgets(s, surface, n - 1);
    }
  }

  lemma EnterSurfaceForgets(s: State, surface: Surface)
    requires Core(s) && s.focused != Some(surface)
    ensures forall j :: 0 <= j < |EnterSurface(s, surface).inputs| ==> NothingAsked(EnterSurface(s, surface).inputs[j])
  {
    ClearFocusKeeps(s, None, true);
    var s' := ClearFocus(s, None, true).(focused := Some(surface));
    EnterUpToForgets(s', surface, |s'.inputs|);
  }

  /** No request made in one focus is pending or in force in the next: not for an input that
      has just left or entered, nor for a new one. */
  lemma RefocusForgets(s: State, r: Request)
    requires Core(s) && Allowed(s, r)
    ensures var s' := Step(s, r);
            && (s'.focused != s.focused ==> forall i :: 0 <= i < |s'.inputs| ==> NothingAsked(s'.inputs[i]))
            && (r.GetTextInput? ==> |s'.inputs| > 0 && s'.inputs[0].id == r.id && NothingAsked(s'.inputs[0]))
  {
    match r
    case KeyboardEnter(surface) =>
      if s.focused != Some(surface) {
        EnterSurfaceForgets(s, surface);
      }
    case KeyboardLeave(surface) => ClearFocusKeeps(s, Some(surface), true);
    case DestroySurface(surface) => ClearFocusKeeps(s, Some(surface), false);
    case Shutdown => ClearFocusKeeps(s, None, false);
    case _ =>
  }

  /** Whether the last toggle of the input called id was an enable, and came since the focus
      last changed and since the input is there, while it was entered. */
  function Wants(s: State, rs: seq<Request>, id: nat, before: bool): bool
    requires Schedule(s, rs)
    decreases |rs|
  {
    if rs == [] then before else Wants(Step(s, rs[0]), rs[1..], id, WantsAfter(s, rs[0], id, before))
  }

  function WantsAfter(s: State, r: Request, id: nat, before: bool): bool
    requires Allowed(s, r)
  {
    if Step(s, r).focused != s.focused then false
    else
      match r
      case GetTextInput(added, _) => added != id && before
      case Enable(i) => if s.inputs[i].id == id then s.inputs[i].entered else before
      case Disable(i) => s.inputs[i].id != id && before
      case _ => before
  }

  predicate WantsIs(s: State, id: nat, wants: bool) {
    forall i :: 0 <= i < |s.inputs| && s.inputs[i].id == id ==> s.inputs[i].pendingEnabled == wants
  }

  lemma StepWants(s: State, r: Request, id: nat, wants: bool)
    requires Core(s) && Allowed(s, r) && WantsIs(s, id, wants)
    ensures WantsIs(Step(s, r), id, WantsAfter(s, r, id, wants))
  {
    if Step(s, r).focused != s.focused {
      RefocusForgets(s, r);
    } else {
      match r
      case GetTextInput(added, client) => AddWants(s, added, client, id, wants);
      case DestroyInput(i) => RemoveWants(s, i, id, wants);
      case KeyboardEnter(_) =>
      case KeyboardLeave(surface) => ClearFocusKeeps(s, Some(surface), true);
      case DestroySurface(surface) => ClearFocusKeeps(s, Some(surface), false);
      case Shutdown => ShutdownWants(s, id, wants);
      case _ => OwnWants(s, r, id, wants);
    }
  }

  lemma OwnWants(s: State, r: Request, id: nat, wants: bool)
    requires Core(s) && Allowed(s, r) && WantsIs(s, id, wants)
    requires r.Enable? || r.Disable? || r.SetSurrounding? || r.SetRect? || r.Commit?
    ensures WantsIs(Step(s, r), id, WantsAfter(s, r, id, wants))
  {
    var s' := Step(s, r);
    assert forall j :: 0 <= j < |s.inputs| && j != r.i ==> s'.inputs[j] == s.inputs[j] && s.inputs[j].id != s.inputs[r.i].id;
  }

  lemma AddWants(s: State, added: nat, client: ClientId, id: nat, wants: bool)
    requires Allowed(s, GetTextInput(added, client)) && WantsIs(s, id, wants)
    ensures WantsIs(AddInput(s, added, client), id, added != id && wants)
  {
    var s' := AddInput(s, added, client);
    assert forall j :: 0 < j < |s'.inputs| ==> s'.inputs[j] == s.inputs[j - 1];
  }

  lemma RemoveWants(s: State, i: nat, id: nat, wants: bool)
    requires i < |s.inputs| && WantsIs(s, id, wants)
    ensures WantsIs(RemoveInput(s, i), id, wants)
  {
    var s' := RemoveInput(s, i);
    assert forall j :: 0 <= j < |s'.inputs| ==> s'.inputs[j] == s.inputs[if j < i then j else j + 1];
  }

  lemma ShutdownWants(s: State, id: nat, wants: bool)
    requires Core(s) && WantsIs(s, id, wants) && s.focused == None
    ensures WantsIs(Step(s, Shutdown), id, wants)
  {
    ClearFocusKeeps(s, None, false);
    var s' := Step(s, Shutdown);
    forall i | 0 <= i < |s'.inputs| && s'.inputs[i].id == id ensures s'.inputs[i].pendingEnabled == wants {
      assert s'.inputs[i].id == s.inputs[i].id && RoutedIfEntered(s.inputs[i], s.focused);
      assert RoutedIfEntered(s'.inputs[i], s'.focused);
    }
  }

  lemma {:induction false} RunWants(s: State, rs: seq<Request>, id: nat, wants: bool)
    requires Core(s) && Schedule(s, rs) && WantsIs(s, id, wants)
    ensures Core(Run(s, rs)) && WantsIs(Run(s, rs), id, Wants(s, rs, id, wants))
    decreases |rs|
  {
    if rs != [] {
      StepWants(s, rs[0], id, wants);
      StepKeepsCore(s, rs[0]);
      RunWants(Step(s, rs[0]), rs[1..], id, WantsAfter(s, rs[0], id, wants));
    }
  }

  /** Over every run a commit makes an input the active one exactly if it is entered and
      its last toggle in this focus was an enable, and asks for Show exactly if it was off
      until then. */
  lemma TurnedOnIff(rs: seq<Request>, i: nat)
    requires Schedule(INITIAL, rs) && i < |Run(INITIAL, rs).inputs|
    ensures var s := Run(INITIAL, rs); var t, s' := s.inputs[i], Step(s, Commit(i));
            var on := t.entered && Wants(INITIAL, rs, t.id, false);
            && (s'.active == Some(t.id) <==> on)
            && (TurnsOn(s, Commit(i)) <==> on && !t.currentEnabled)
  {
    RunWants(INITIAL, rs, Run(INITIAL, rs).inputs[i].id, false);
    var s := Run(INITIAL, rs);
    if s.active == Some(s.inputs[i].id) {
      ActiveIsEnabled(s, i);
    }
  }

  // ---------------------------------------------------------------------
  // Pending state takes effect on commit
  // ---------------------------------------------------------------------

  predicate OnlyPends(rs: seq<Request>) {
    forall i :: 0 <= i < |rs| ==> rs[i].Enable? || rs[i].Disable? || rs[i].SetSurrounding? || rs[i].SetRect?
  }

  /** The requests on one input, in order. */
  function PendedAll(t: Input, rs: seq<Request>): Input {
    if rs == [] then t else Pended(PendedAll(t, rs[..|rs| - 1]), rs[|rs| - 1])
  }

  /** Some request turns the input on or off. */
  predicate Toggles(rs: seq<Request>) {
    exists i :: 0 <= i < |rs| && (rs[i].Enable? || rs[i].Disable?)
  }

  function LastToggle(rs: seq<Request>, before: bool): bool {
    if rs == [] then before
    else if rs[|rs| - 1].Enable? then true
    else if rs[|rs| - 1].Disable? then false
    else LastToggle(rs[..|rs| - 1], before)
  }

  function LastText(rs: seq<Request>, before: Option<Around>): Option<Around> {
    if rs == [] then before
    else
      match rs[|rs| - 1]
      case SetSurrounding(_, text, cursor, anchor) => Some(Around(text, Clamp(cursor, text), Clamp(anchor, text)))
      case _ => LastText(rs[..|rs| - 1], before)
  }

  /** The last request that sets the surrounding text. */
  function LastSet(rs: seq<Request>): (r: Option<Request>)
    ensures r.Some? ==> r.value.SetSurrounding?
  {
    if rs == [] then None else if rs[|rs| - 1].SetSurrounding? then Some(rs[|rs| - 1]) else LastSet(rs[..|rs| - 1])
  }

  /** The text of the request, with cursor and anchor where it put them, or at the end of
      the text that is nearer. */
  ghost predicate Holds(a: Option<Around>, r: Request)
    requires r.SetSurrounding?
  {
    a.Some? && a.value.text == r.text && Nearest(a.value.cursor, r.cursor, |r.text|) && Nearest(a.value.anchor, r.anchor, |r.text|)
  }

  /** The surrounding text that a commit after the requests makes current. */
  ghost predicate AroundAfter(a: Option<Around>, t: Input, rs: seq<Request>) {
    if !LastToggle(rs, t.pendingEnabled) then a == None
    else if LastSet(rs).Some? then Holds(a, LastSet(rs).value)
    else if t.pendingAround.Some? then a == t.pendingAround
    else a == if Toggles(rs) then None else t.around
  }

  lemma {:induction false} LastTextHolds(rs: seq<Request>, before: Option<Around>)
    ensures match LastSet(rs) case None => LastText(rs, before) == before case Some(r) => Holds(LastText(rs, before), r)
  {
    if rs != [] {
      LastTextHolds(rs[..|rs| - 1], before);
    }
  }

  function LastRect(rs: seq<Request>, before: Option<Rect>): Option<Rect> {
    if rs == [] then before
    else
      match rs[|rs| - 1]
      case SetRect(_, rect) => Some(rect)
      case _ => LastRect(rs[..|rs| - 1], before)
  }

  lemma {:induction false} PendedAllIs(t: Input, rs: seq<Request>)
    requires t.entered && OnlyPends(rs)
    ensures PendedAll(t, rs) == t.(pendingEnabled := LastToggle(rs, t.pendingEnabled),
                                   around := if Toggles(rs) then None else t.around,
                                   pendingAround := LastText(rs, t.pendingAround), pendingRect := LastRect(rs, t.pendingRect))
  {
    if rs != [] {
      var rs' := rs[..|rs| - 1];
      PendedAllIs(t, rs');
      assert Toggles(rs) <==> Toggles(rs') || rs[|rs| - 1].Enable? || rs[|rs| - 1].Disable? by {
        TogglesStep(rs);
      }
    }
  }

  lemma TogglesStep(rs: seq<Request>)
    requires rs != []
    ensures Toggles(rs) <==> Toggles(rs[..|rs| - 1]) || rs[|rs| - 1].Enable? || rs[|rs| - 1].Disable?
  {
    var rs' := rs[..|rs| - 1];
    assert forall i :: 0 <= i < |rs'| ==> rs'[i] == rs[i];
    if Toggles(rs') {
      var i :| 0 <= i < |rs'| && (rs'[i].Enable? || rs'[i].Disable?);
      assert rs[i].Enable? || rs[i].Disable?;
    }
  }

  /** A commit makes current what the last request of each kind since the previous commit
      asked for, and keeps what none of them touched. Nothing takes effect before, but the
      committed surrounding text goes with the request that turns the input on or off; an
      input that is off has none. */
  lemma CommitAppliesLast(t: Input, rs: seq<Request>)
    requires t.entered && OnlyPends(rs)
    ensures var before, t' := PendedAll(t, rs), Applied(PendedAll(t, rs));
            && before.currentEnabled == t.currentEnabled && before.rect == t.rect
            && before.around == (if Toggles(rs) then None else t.around)
            && t'.currentEnabled == LastToggle(rs, t.pendingEnabled)
            && t'.rect == (if LastRect(rs, t.pendingRect).Some? then LastRect(rs, t.pendingRect) else t.rect)
            && AroundAfter(t'.around, t, rs)
            && t'.pendingRect == None && t'.pendingAround == None && t'.pendingEnabled == t'.currentEnabled
  {
    PendedAllIs(t, rs);
    LastTextHolds(rs, t.pendingAround);
  }

  /** A request on any input, but no commit of the one at i. */
  predicate NotCommitted(r: Request, i: nat) {
    r.Enable? || r.Disable? || r.SetSurrounding? || r.SetRect? || (r.Commit? && r.i != i)
  }

  predicate LeavesPending(rs: seq<Request>, i: nat) {
    forall k :: 0 <= k < |rs| ==> NotCommitted(rs[k], i)
  }

  /** Those of them on the input at i. */
  function Mine(rs: seq<Request>, i: nat): (mine: seq<Request>)
    requires LeavesPending(rs, i)
    ensures OnlyPends(mine)
  {
    if rs == [] then [] else (if rs[0].i == i then [rs[0]] else []) + Mine(rs[1..], i)
  }

  lemma {:induction false} PendedFirst(t: Input, r: Request, rs: seq<Request>)
    ensures PendedAll(t, [r] + rs) == PendedAll(Pended(t, r), rs)
  {
    var all := [r] + rs;
    if rs == [] {
      assert all[..|all| - 1] == [];
    } else {
      PendedFirst(t, r, rs[..|rs| - 1]);
      assert all[..|all| - 1] == [r] + rs[..|rs| - 1];
    }
  }

  /** Requests on other inputs, commits included, leave an input alone. */
  lemma OthersLeaveAlone(s: State, r: Request, i: nat)
    requires Allowed(s, r) && i < |s.inputs| && NotCommitted(r, i)
    ensures |Step(s, r).inputs| == |s.inputs|
    ensures Step(s, r).inputs[i] == if r.i == i then Pended(s.inputs[i], r) else s.inputs[i]
  {
  }

  lemma {:induction false} RunPends(s: State, rs: seq<Request>, i: nat)
    requires Schedule(s, rs) && i < |s.inputs| && LeavesPending(rs, i)
    ensures var s' := Run(s, rs);
            |s'.inputs| == |s.inputs| && s'.inputs[i] == PendedAll(s.inputs[i], Mine(rs, i))
    decreases |rs|
  {
    if rs != [] {
      var r := rs[0];
      OthersLeaveAlone(s, r, i);
      RunPends(Step(s, r), rs[1..], i);
      if r.i == i {
        PendedFirst(s.inputs[i], r, Mine(rs[1..], i));
      } else {
        assert Mine(rs, i) == Mine(rs[1..], i);
      }
    }
  }

  /** Over any run of requests, those of other inputs and their commits in between, a commit
      makes current what the last request of each kind on its own input asked for. */
  lemma CommitTakesEffect(s: State, rs: seq<Request>, i: nat)
    requires Schedule(s, rs) && i < |s.inputs| && LeavesPending(rs, i) && s.inputs[i].entered
    ensures var t, mine, s1 := s.inputs[i], Mine(rs, i), Run(s, rs);
            && Allowed(s1, Commit(i)) && i < |Step(s1, Commit(i)).inputs|
            && var t' := Step(s1, Commit(i)).inputs[i];
               && s1.inputs[i].currentEnabled == t.currentEnabled && s1.inputs[i].rect == t.rect
               && t'.currentEnabled == LastToggle(mine, t.pendingEnabled)
               && t'.rect == (if LastRect(mine, t.pendingRect).Some? then LastRect(mine, t.pendingRect) else t.rect)
               && AroundAfter(t'.around, t, mine)
  {
    RunPends(s, rs, i);
    CommitAppliesLast(s.inputs[i], Mine(rs, i));
  }

  /** While the input is not entered, requests do nothing, and a commit clears what is pending
      and the committed surrounding text; the committed rectangle, the enabled state and the
      serial stay. */
  lemma {:induction false} IgnoredWhileOut(t: Input, rs: seq<Request>)
    requires !t.entered && OnlyPends(rs)
    ensures Applied(PendedAll(t, rs)) == t.(pendingEnabled := false, pendingRect := None, around := None, pendingAround := None)
    ensures PendedAll(t, rs) == t
  {
    if rs != [] {
      IgnoredWhileOut(t, rs[..|rs| - 1]);
    }
  }

  // ---------------------------------------------------------------------
  // Show and Hide in turn
  // ---------------------------------------------------------------------

  predicate Alternating(a: seq<Event>) {
    forall k :: 0 <= k < |a| ==> a[k] == if k % 2 == 0 then Show else Hide
  }

  /** Show and Hide have been asked for in turn, and the last was Show exactly while an
      input is active. */
  predicate InSync(s: State) {
    Alternating(Asked(s.log)) && (s.up ==> (|Asked(s.log)| % 2 == 1) == s.active.Some?)
  }

  /** A commit that asks for Show while the IME is up, or makes an input active unasked. */
  predicate Doubles(s: State, r: Request) {
    r.Commit? && r.i < |s.inputs| && s.inputs[r.i].entered && s.inputs[r.i].pendingEnabled
    && s.inputs[r.i].currentEnabled != s.active.Some?
  }

  lemma CommitActivates(s: State, i: nat)
    requires Core(s) && i < |s.inputs|
    ensures s.active.None? && CommitInput(s, i).active.Some? ==> s.inputs[i].entered && s.inputs[i].pendingEnabled
    ensures s.inputs[i].entered && s.inputs[i].pendingEnabled ==> CommitInput(s, i).active.Some?
  {
  }

  /** A step keeps the requests to the IME in turn exactly if it is no commit that turns an
      input on while some input is active, or keeps one on while none is. */
  lemma SyncIff(s: State, r: Request)
    requires Core(s) && Allowed(s, r) && s.up && InSync(s)
    ensures InSync(Step(s, r)) <==> !Doubles(s, r)
  {
    StepAsks(s, r);
    if r.Commit? {
      CommitActivates(s, r.i);
    }
    var a, a' := Asked(s.log), Asked(Step(s, r).log);
    if TurnsOn(s, r) {
      assert a' == a + [Show];
      assert a'[|a|] == Show;
    }
  }

  lemma StaysDown(s: State, r: Request)
    requires Allowed(s, r) && !s.up
    ensures !Step(s, r).up
  {
  }

  lemma StepSyncs(s: State, r: Request)
    requires Core(s) && Allowed(s, r) && InSync(s) && (s.up ==> !Doubles(s, r))
    ensures InSync(Step(s, r))
  {
    if s.up {
      SyncIff(s, r);
    } else {
      StepAsks(s, r);
      StaysDown(s, r);
    }
  }

  predicate OnePerClient(ts: seq<Input>) {
    forall i, j :: 0 <= i < j < |ts| ==> ts[i].client != ts[j].client
  }

  /** Only the active input is enabled. */
  predicate Sole(s: State) {
    forall i :: 0 <= i < |s.inputs| && s.inputs[i].currentEnabled ==> s.active == Some(s.inputs[i].id)
  }

  lemma EnteredIsActive(s: State, i: nat)
    requires Core(s) && Sole(s) && OnePerClient(s.inputs) && i < |s.inputs| && s.inputs[i].entered
    ensures s.active.Some? <==> s.inputs[i].currentEnabled
  {
    if s.active.Some? {
      var w :| 0 <= w < |s.inputs| && IsActive(s.inputs[w], s.active.value);
      assert s.inputs[w].client == s.inputs[i].client;
      assert w == i;
    }
  }

  lemma OneNeverDoubles(s: State, r: Request)
    requires Core(s) && Sole(s) && OnePerClient(s.inputs)
    ensures !Doubles(s, r)
  {
    if r.Commit? && r.i < |s.inputs| && s.inputs[r.i].entered {
      EnteredIsActive(s, r.i);
    }
  }

  lemma {:induction false} LeaveUpToKeepsSole(s: State, surface: Option<Surface>, sendLeave: bool, n: nat)
    requires Mid(s) && n <= |s.inputs| && Sole(s) && (surface.None? || surface == s.focused)
    ensures Sole(LeaveUpTo(s, surface, sendLeave, n))
  {
    if n > 0 {
      LeaveUpToKeepsSole(s, surface, sendLeave, n - 1);
      LeaveUpToKeeps(s, surface, sendLeave, n - 1);
      var s' := LeaveUpTo(s, surface, sendLeave, n - 1);
      if Leaves(s'.inputs[n - 1], surface) {
        LeaveOneKeepsSole(s', n - 1, sendLeave);
      }
    }
  }

  lemma LeaveOneKeepsSole(s: State, i: nat, sendLeave: bool)
    requires DistinctIds(s.inputs) && i < |s.inputs| && Sole(s)
    ensures Sole(LeaveOne(s, i, sendLeave))
  {
    var s' := LeaveOne(s, i, sendLeave);
    forall j | 0 <= j < |s'.inputs| && s'.inputs[j].currentEnabled ensures s'.active == Some(s'.inputs[j].id) {
      if s.inputs[i].entered {
        assert j != i && s'.inputs[j] == s.inputs[j];
      }
    }
  }

  lemma CommitKeepsSole(s: State, i: nat)
    requires Core(s) && Sole(s) && i < |s.inputs| && !Doubles(s, Commit(i))
    ensures Sole(CommitInput(s, i))
  {
    var s' := CommitInput(s, i);
    forall j | 0 <= j < |s'.inputs| && s'.inputs[j].currentEnabled ensures s'.active == Some(s'.inputs[j].id) {
      if j != i {
        assert s'.inputs[j] == s.inputs[j];
        assert s.inputs[i].id != s.inputs[j].id;
      }
    }
  }

  lemma EnterSurfaceKeepsSole(s: State, surface: Surface)
    requires Core(s) && Sole(s)
    ensures Sole(EnterSurface(s, surface))
  {
    if s.focused != Some(surface) {
      ClearFocusKeeps(s, None, true);
      var s' := ClearFocus(s, None, true).(focused := Some(surface));
      EnterUpToForgets(s', surface, |s'.inputs|);
    }
  }

  lemma ClearFocusKeepsSole(s: State, surface: Option<Surface>, sendLeave: bool)
    requires Core(s) && Sole(s)
    ensures Sole(ClearFocus(s, surface, sendLeave))
  {
    if surface.None? || surface == s.focused {
      LeaveUpToKeepsSole(s, surface, sendLeave, |s.inputs|);
    } else {
      LeaveNothing(s, surface.value, sendLeave, |s.inputs|);
    }
  }

  lemma RemoveKeepsSole(s: State, i: nat)
    requires DistinctIds(s.inputs) && Sole(s) && i < |s.inputs|
    ensures Sole(RemoveInput(s, i))
  {
    var s' := RemoveInput(s, i);
    assert forall j :: 0 <= j < |s'.inputs| ==> s'.inputs[j] == s.inputs[if j < i then j else j + 1];
  }

  lemma AddKeepsSole(s: State, id: nat, client: ClientId)
    requires Sole(s)
    ensures Sole(AddInput(s, id, client))
  {
    var s' := AddInput(s, id, client);
    assert forall j :: 0 < j < |s'.inputs| ==> s'.inputs[j] == s.inputs[j - 1];
  }

  lemma ShutdownKeepsSole(s: State)
    requires Core(s)
    ensures Sole(Step(s, Shutdown))
  {
    ClearFocusKeeps(s, None, false);
    var s' := ClearFocus(s, None, false);
    forall j | 0 <= j < |s'.inputs| ensures !s'.inputs[j].currentEnabled {
      assert RoutedIfEntered(s'.inputs[j], s'.focused);
    }
  }

  /** Only the active input is enabled, as long as no commit doubles. */
  lemma StepKeepsSole(s: State, r: Request)
    requires Core(s) && Sole(s) && Allowed(s, r) && !Doubles(s, r)
    ensures Sole(Step(s, r))
  {
    match r
    case GetTextInput(id, client) => AddKeepsSole(s, id, client);
    case DestroyInput(i) => RemoveKeepsSole(s, i);
    case Enable(_) =>
    case Disable(_) =>
    case SetSurrounding(_, _, _, _) =>
    case SetRect(_, _) =>
    case Commit(i) => CommitKeepsSole(s, i);
    case KeyboardEnter(surface) => EnterSurfaceKeepsSole(s, surface);
    case KeyboardLeave(surface) => ClearFocusKeepsSole(s, Some(surface), true);
    case DestroySurface(surface) => ClearFocusKeepsSole(s, Some(surface), false);
    case Shutdown => ShutdownKeepsSole(s);
  }

  /** No client ever has two inputs. */
  predicate OneEach(s: State, rs: seq<Request>)
    requires Schedule(s, rs)
    decreases |rs|
  {
    OnePerClient(s.inputs) && (rs == [] || OneEach(Step(s, rs[0]), rs[1..]))
  }

  lemma {:induction false} RunSyncs(s: State, rs: seq<Request>)
    requires Core(s) && Sole(s) && InSync(s) && Schedule(s, rs) && OneEach(s, rs)
    ensures InSync(Run(s, rs))
    decreases |rs|
  {
    if rs != [] {
      OneNeverDoubles(s, rs[0]);
      StepKeepsCore(s, rs[0]);
      StepSyncs(s, rs[0]);
      StepKeepsSole(s, rs[0]);
      RunSyncs(Step(s, rs[0]), rs[1..]);
    }
  }

  /** While no client has two inputs, the IME is asked to show and to hide strictly in turn,
      and is up exactly while an input is active. */
  lemma ShowAndHideAlternate(rs: seq<Request>)
    requires Schedule(INITIAL, rs) && OneEach(INITIAL, rs)
    ensures var s := Run(INITIAL, rs);
            Alternating(Asked(s.log)) && (s.up ==> (|Asked(s.log)| % 2 == 1 <==> s.active.Some?))
  {
    RunSyncs(INITIAL, rs);
  }

  /** The requests to the IME have been in turn all along. */
  predicate AlwaysInSync(s: State, rs: seq<Request>)
    requires Schedule(s, rs)
    decreases |rs|
  {
    InSync(s) && (rs == [] || AlwaysInSync(Step(s, rs[0]), rs[1..]))
  }

  /** At some step an input is turned on while another is active. */
  predicate TurnsOnTwice(s: State, rs: seq<Request>)
    requires Schedule(s, rs)
    decreases |rs|
  {
    rs != [] && ((s.up && TurnsOn(s, rs[0]) && s.active.Some?) || TurnsOnTwice(Step(s, rs[0]), rs[1..]))
  }

  /** While only the active input is enabled, that is the only way to double. */
  lemma SoleDoubles(s: State, r: Request)
    requires Core(s) && Sole(s)
    ensures Doubles(s, r) <==> TurnsOn(s, r) && s.active.Some?
  {
  }

  lemma {:induction false} DownStaysInSync(s: State, rs: seq<Request>)
    requires Core(s) && InSync(s) && Schedule(s, rs) && !s.up
    ensures AlwaysInSync(s, rs) && !TurnsOnTwice(s, rs)
    decreases |rs|
  {
    if rs != [] {
      StepKeepsCore(s, rs[0]);
      StepSyncs(s, rs[0]);
      StaysDown(s, rs[0]);
      DownStaysInSync(Step(s, rs[0]), rs[1..]);
    }
  }

  /** Over every run the IME has been asked to show and to hide in turn, and been up exactly
      while an input was active, if and only if no input was ever turned on while another
      was active. */
  lemma {:induction false} RunSyncIff(s: State, rs: seq<Request>)
    requires Core(s) && Sole(s) && InSync(s) && Schedule(s, rs)
    ensures AlwaysInSync(s, rs) <==> !TurnsOnTwice(s, rs)
    decreases |rs|
  {
    if !s.up {
      DownStaysInSync(s, rs);
    } else if rs != [] {
      SyncIff(s, rs[0]);
      SoleDoubles(s, rs[0]);
      if !Doubles(s, rs[0]) {
        StepKeepsCore(s, rs[0]);
        StepKeepsSole(s, rs[0]);
        RunSyncIff(Step(s, rs[0]), rs[1..]);
      } else {
        NotInSync(Step(s, rs[0]), rs[1..]);
      }
    }
  }

  lemma NotInSync(s: State, rs: seq<Request>)
    requires Schedule(s, rs) && !InSync(s)
    ensures !AlwaysInSync(s, rs)
  {
  }

  /** In particular from the start. */
  lemma InTurnIff(rs: seq<Request>)
    requires Schedule(INITIAL, rs)
    ensures AlwaysInSync(INITIAL, rs) <==> !TurnsOnTwice(INITIAL, rs)
  {
    RunSyncIff(INITIAL, rs);
  }

  /** Turning two inputs on one after the other has the IME shown twice. */
  lemma TwoInputsShowTwice(s: State, i: nat, j: nat)
    requires i < |s.inputs| && j < |s.inputs| && i != j && s.up
    requires s.inputs[i].entered && !s.inputs[i].currentEnabled && s.inputs[j].entered && !s.inputs[j].currentEnabled
    ensures Asked(TurnedOn(TurnedOn(s, i), j).log) == Asked(s.log) + [Show] + [Show]
  {
    TurningOnShows(s, i);
    TurningOnShows(TurnedOn(s, i), j);
  }

  function TurnedOn(s: State, i: nat): State
    requires i < |s.inputs|
  {
    Step(Step(s, Enable(i)), Commit(i))
  }

  function TurnedOff(s: State, i: nat): State
    requires i < |s.inputs|
  {
    Step(Step(s, Disable(i)), Commit(i))
  }

  /** If the second one is then turned off and the first commits again, the first is active
      while the IME was last asked to hide. */
  lemma RecommitIsSilent(s: State, i: nat, j: nat)
    requires i < |s.inputs| && j < |s.inputs| && s.inputs[i].id != s.inputs[j].id && s.up
    requires s.inputs[i].entered && !s.inputs[i].currentEnabled && s.inputs[j].entered && !s.inputs[j].currentEnabled
    ensures var s1 := TurnedOff(TurnedOn(TurnedOn(s, i), j), j);
            var s2 := Step(s1, Commit(i));
            && Asked(s2.log) == Asked(s.log) + [Show] + [Show] + [Hide] && s2.active == Some(s.inputs[i].id)
            && Doubles(s1, Commit(i)) && !TurnsOn(s1, Commit(i))
  {
    TurningOnShows(s, i);
    TurningOnShows(TurnedOn(s, i), j);
    TurningOffHides(TurnedOn(TurnedOn(s, i), j), j);
    RecommitAsksNothing(TurnedOff(TurnedOn(TurnedOn(s, i), j), j), i);
  }

  lemma TurningOffHides(s: State, i: nat)
    requires i < |s.inputs| && s.inputs[i].entered && s.inputs[i].currentEnabled && s.up && s.active == Some(s.inputs[i].id)
    ensures var s' := TurnedOff(s, i);
            && Asked(s'.log) == Asked(s.log) + [Hide] && s'.up && |s'.inputs| == |s.inputs| && s'.active == None
            && forall j :: 0 <= j < |s.inputs| && j != i ==> s'.inputs[j] == s.inputs[j]
  {
    AskedAfter(s.log, Hide);
    var t := s.inputs[i].(around := None, pendingEnabled := false);
    var s1 := s.(inputs := s.inputs[i := t]);
    assert Step(s, Disable(i)) == s1;
    assert CommitInput(s1, i).log == s.log + [Hide];
  }

  lemma RecommitAsksNothing(s: State, i: nat)
    requires i < |s.inputs| && s.inputs[i].entered && s.inputs[i].currentEnabled && s.inputs[i].pendingEnabled
    ensures Step(s, Commit(i)).log == s.log && Step(s, Commit(i)).active == Some(s.inputs[i].id)
  {
  }

  lemma TurningOnShows(s: State, i: nat)
    requires i < |s.inputs| && s.inputs[i].entered && !s.inputs[i].currentEnabled && s.up
    ensures var s' := TurnedOn(s, i);
            && Asked(s'.log) == Asked(s.log) + [Show] && s'.up && |s'.inputs| == |s.inputs|
            && (forall j :: 0 <= j < |s.inputs| && j != i ==> s'.inputs[j] == s.inputs[j])
            && s'.active == Some(s.inputs[i].id) && s'.inputs[i].id == s.inputs[i].id && s'.inputs[i].entered
            && s'.inputs[i].currentEnabled && s'.inputs[i].pendingEnabled
  {
    var t := s.inputs[i].(around := None, pendingEnabled := true);
    var s1 := s.(inputs := s.inputs[i := t]);
    assert Step(s, Enable(i)) == s1;
    CommitOnShows(s1, i);
  }

  lemma CommitOnShows(s: State, i: nat)
    requires i < |s.inputs| && s.up && TurnsOn(s, Commit(i))
    ensures var s' := CommitInput(s, i);
            && Asked(s'.log) == Asked(s.log) + [Show] && s'.up && s'.inputs == s.inputs[i := Applied(s.inputs[i])]
            && s'.active == Some(s.inputs[i].id)
  {
    AskedAfter(s.log, Show);
  }

  /** A client can have two such inputs as soon as it has the focus. */
  lemma TwoInputsOnSurface(w: Surface)
    ensures var s := Step(Step(Step(INITIAL, KeyboardEnter(w)), GetTextInput(10, w.client)), GetTextInput(11, w.client));
            && Asked(s.log) == [] && |s.inputs| == 2 && s.up
            && (forall i :: 0 <= i < 2 ==> s.inputs[i].entered && !s.inputs[i].currentEnabled)
            && s.inputs[0].id != s.inputs[1].id
  {
    var s1 := Step(INITIAL, KeyboardEnter(w));
    assert s1 == State([], Some(w), None, false, true, []);
    var s2 := Step(s1, GetTextInput(10, w.client));
    AskedAfter([], EnterSent(10, w));
    AskedAfter(s2.log, EnterSent(11, w));
  }

  /** The commits of the input called id since it is there, all of them and those that came
      while it was not entered. */
  datatype Tally = Tally(all: nat, early: nat)

  function TallyAfter(s: State, r: Request, id: nat, n: Tally): Tally
    requires Allowed(s, r)
  {
    match r
    case GetTextInput(added, _) => if added == id then Tally(0, 0) else n
    case Commit(i) =>
      if s.inputs[i].id != id then n else Tally(n.all + 1, if s.inputs[i].entered then n.early else n.early + 1)
    case _ => n
  }

  function TallyOf(s: State, rs: seq<Request>, id: nat, n: Tally): Tally
    requires Schedule(s, rs)
    decreases |rs|
  {
    if rs == [] then n else TallyOf(Step(s, rs[0]), rs[1..], id, TallyAfter(s, rs[0], id, n))
  }

  predicate Counts(s: State, id: nat, n: Tally) {
    n.early <= n.all && forall i :: 0 <= i < |s.inputs| && s.inputs[i].id == id ==> s.inputs[i].serial == Wrap32(n.all - n.early)
  }

  lemma StepCounts(s: State, r: Request, id: nat, n: Tally)
    requires Core(s) && Allowed(s, r) && Counts(s, id, n)
    ensures Counts(Step(s, r), id, TallyAfter(s, r, id, n))
  {
    match r
    case GetTextInput(added, client) => AddCounts(s, added, client, id, n);
    case DestroyInput(i) => RemoveCounts(s, i, id, n);
    case Commit(i) => CommitCounts(s, i, id, n);
    case KeyboardEnter(surface) => EnterSurfaceKeeps(s, surface);
    case KeyboardLeave(surface) => ClearFocusKeeps(s, Some(surface), true);
    case DestroySurface(surface) => ClearFocusKeeps(s, Some(surface), false);
    case Shutdown => ClearFocusKeeps(s, None, false);
    case _ => assert Counts(s.(inputs := s.inputs[r.i := Pended(s.inputs[r.i], r)]), id, n);
  }

  lemma AddCounts(s: State, added: nat, client: ClientId, id: nat, n: Tally)
    requires Allowed(s, GetTextInput(added, client)) && Counts(s, id, n)
    ensures Counts(AddInput(s, added, client), id, if added == id then Tally(0, 0) else n)
  {
    var s' := AddInput(s, added, client);
    assert forall j :: 0 < j < |s'.inputs| ==> s'.inputs[j] == s.inputs[j - 1];
  }

  lemma RemoveCounts(s: State, i: nat, id: nat, n: Tally)
    requires i < |s.inputs| && Counts(s, id, n)
    ensures Counts(RemoveInput(s, i), id, n)
  {
    var s' := RemoveInput(s, i);
    assert forall j :: 0 <= j < |s'.inputs| ==> s'.inputs[j] == s.inputs[if j < i then j else j + 1];
  }

  lemma CommitCounts(s: State, i: nat, id: nat, n: Tally)
    requires DistinctIds(s.inputs) && i < |s.inputs| && Counts(s, id, n)
    ensures Counts(CommitInput(s, i), id, TallyAfter(s, Commit(i), id, n))
  {
    var s', t := CommitInput(s, i), s.inputs[i];
    WrapNext(n.all - n.early);
    forall j | 0 <= j < |s'.inputs| && s'.inputs[j].id == id
      ensures var n' := TallyAfter(s, Commit(i), id, n); s'.inputs[j].serial == Wrap32(n'.all - n'.early)
    {
      if j != i {
        assert s'.inputs[j] == s.inputs[j] && t.id != id;
      }
    }
  }

  lemma WrapNext(x: nat)
    ensures Wrap32(Wrap32(x) + 1) == Wrap32(x + 1)
  {
    assert (x % U32 + 1) % U32 == (x + 1) % U32;
  }

  lemma {:induction false} RunCounts(s: State, rs: seq<Request>, id: nat, n: Tally)
    requires Core(s) && Schedule(s, rs) && Counts(s, id, n)
    ensures Counts(Run(s, rs), id, TallyOf(s, rs, id, n))
    decreases |rs|
  {
    if rs != [] {
      StepCounts(s, rs[0], id, n);
      StepKeepsCore(s, rs[0]);
      RunCounts(Step(s, rs[0]), rs[1..], id, TallyAfter(s, rs[0], id, n));
    }
  }

  /** Over every run the serial that a client is sent back counts all commits of its input
      exactly while a multiple of 2^32 of them, normally none, came when it was not entered;
      it always counts the others. */
  lemma SerialCountsCommitsIff(rs: seq<Request>, i: nat)
    requires Schedule(INITIAL, rs) && i < |Run(INITIAL, rs).inputs|
    ensures var t := Run(INITIAL, rs).inputs[i]; var n := TallyOf(INITIAL, rs, t.id, Tally(0, 0));
            && n.early <= n.all && t.serial == Wrap32(n.all - n.early)
            && (t.serial == Wrap32(n.all) <==> n.early % U32 == 0)
  {
    var t := Run(INITIAL, rs).inputs[i];
    var n := TallyOf(INITIAL, rs, t.id, Tally(0, 0));
    RunCounts(INITIAL, rs, t.id, Tally(0, 0));
    assert n.all % U32 == (n.all - n.early) % U32 <==> n.early % U32 == 0;
  }

  /** A commit before the input has been entered puts the serial behind for good. */
  lemma EarlyCommitIsNotCounted()
    ensures var rs := [GetTextInput(10, 1), Commit(0)];
            && Schedule(INITIAL, rs) && |Run(INITIAL, rs).inputs| == 1
            && TallyOf(INITIAL, rs, 10, Tally(0, 0)) == Tally(1, 1) && Run(INITIAL, rs).inputs[0].serial == 0
  {
    var r1, r2 := GetTextInput(10, 1), Commit(0);
    assert [r1, r2][1..] == [r2] && [r2][1..] == [];
    assert Run(INITIAL, [r1, r2]) == Run(Step(INITIAL, r1), [r2]) == Step(Step(INITIAL, r1), r2);
    assert TallyOf(Step(INITIAL, r1), [r2], 10, Tally(0, 0)) == Tally(1, 1);
  }

  /** A surrounding text that has been committed is gone with the next enable, before any
      commit. */
  lemma EnableDropsText(w: Surface, text: Text)
    ensures var s := Step(Step(INITIAL, KeyboardEnter(w)), GetTextInput(10, w.client));
            var s1 := Step(Step(Step(s, Enable(0)), SetSurrounding(0, text, 0, 0)), Commit(0));
            && s1.inputs[0].around == Some(Around(text, 0, 0))
            && Step(s1, Enable(0)).inputs[0].around == None
  {
    var s := Step(Step(INITIAL, KeyboardEnter(w)), GetTextInput(10, w.client));
    assert Step(INITIAL, KeyboardEnter(w)) == State([], Some(w), None, false, true, []);
    assert s.inputs[0].entered;
    var t := s.inputs[0].(around := None, pendingEnabled := true);
    assert Step(s, Enable(0)).inputs == [t];
    assert Step(Step(s, Enable(0)), SetSurrounding(0, text, 0, 0)).inputs == [WithSurrounding(t, text, 0, 0)];
  }
}

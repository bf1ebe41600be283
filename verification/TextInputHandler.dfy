/**
 The functions of compositor/native/src/text_input_handler.c that move the focus of text
 inputs and apply their requests, over mutable text_input structs and the handler's
 globals; each is proved to take the step of module TextInput.
 */
module TextInputHandler {
  import opened Common
  import opened TextInput

  /** struct text_input. */
  class Resource {
    const id: nat
    const client: ClientId
    var pendingEnabled: bool
    var currentEnabled: bool
    var serial: nat
    var entered: bool
    var enteredSurface: Option<Surface>
    var around: Option<Around>
    var pendingAround: Option<Around>
    var pendingRect: Option<Rect>
    var rect: Option<Rect>

    constructor (id: nat, client: ClientId)
      ensures Is(Input(id, client, false, false, 0, false, None, None, None, None, None))
    {
      this.id, this.client := id, client;
      pendingEnabled, currentEnabled, serial, entered, enteredSurface := false, false, 0, false, None;
      around, pendingAround, pendingRect, rect := None, None, None, None;
    }

    ghost predicate Is(t: Input)
      reads this
    {
      t == Input(id, client, pendingEnabled, currentEnabled, serial, entered, enteredSurface,
                 around, pendingAround, pendingRect, rect)
    }

    /** clear_pending_text_input_state, then clear_surrounding_text_state. */
    method ClearPending(ghost t: Input)
      requires Is(t)
      modifies this
      ensures Is(PendingCleared(t))
    {
      pendingEnabled, pendingRect := false, None;
      around, pendingAround := None, None;
    }

    method SetEntered(surface: Option<Surface>, ghost t: Input)
      requires Is(t)
      modifies this
      ensures Is(t.(entered := surface.Some?, enteredSurface := surface))
    {
      entered, enteredSurface := surface.Some?, surface;
    }

    /** reset_text_input_request_state. */
    method Reset(ghost t: Input)
      requires Is(t)
      modifies this
      ensures Is(RequestsReset(t))
    {
      ClearPending(t);
      currentEnabled, rect := false, None;
    }

    /** ti_enable and ti_disable. */
    method SetPendingEnabled(on: bool, ghost t: Input)
      requires Is(t)
      modifies this
      ensures Is(Pended(t, if on then Enable(0) else Disable(0)))
    {
      if !entered {
        return;
      }
      around := None;
      pendingEnabled := on;
    }

    /** ti_set_surrounding_text. */
    method SetSurroundingText(text: Text, cursor: int, anchor: int, ghost t: Input)
      requires Is(t)
      modifies this
      ensures Is(Pended(t, SetSurrounding(0, text, cursor, anchor)))
    {
      if !entered {
        return;
      }
      pendingAround := Some(Around(text, Clamp(cursor, text), Clamp(anchor, text)));
    }

    /** ti_set_cursor_rectangle. */
    method SetCursorRectangle(r: Rect, ghost t: Input)
      requires Is(t)
      modifies this
      ensures Is(Pended(t, SetRect(0, r)))
    {
      if !entered {
        return;
      }
      pendingRect := Some(r);
    }

    /** ti_commit while not entered. */
    method IgnoreCommit(ghost t: Input)
      requires Is(t) && !t.entered
      modifies this
      ensures Is(Applied(t))
    {
      ClearPending(t);
    }

    /** What ti_commit takes over before it looks at the active input. */
    method TakePending(ghost t: Input)
      requires Is(t) && t.entered
      modifies this
      ensures Is(Taken(t))
    {
      serial := Wrap32(serial + 1);
      currentEnabled := pendingEnabled;
      if pendingAround.Some? {
        around, pendingAround := pendingAround, None;
      }
    }

    /** What ti_commit does last. */
    method FinishCommit(ghost t: Input)
      requires t.entered && Is(Taken(t))
      modifies this
      ensures Is(Applied(t))
    {
      if !currentEnabled {
        around, pendingAround := None, None;
      }
      if pendingRect.Some? {
        rect, pendingRect := pendingRect, None;
      }
    }
  }

  function Taken(t: Input): Input {
    t.(serial := Wrap32(t.serial + 1), currentEnabled := t.pendingEnabled,
       around := if t.pendingAround.Some? then t.pendingAround else t.around, pendingAround := None)
  }

  class Handler {
    var inputs: seq<Resource>
    var focused: Option<Surface>
    var active: Resource?
    var committed: bool
    var up: bool
    var log: seq<Event>
    ghost var st: State

    /** The globals and the resources are in the state s. */
    ghost predicate Matches(s: State)
      reads this, inputs
    {
      GlobalsMatch(s) && InputsMatch(s.inputs)
    }

    ghost predicate InputsMatch(ts: seq<Input>)
      reads this, inputs
    {
      |inputs| == |ts| && forall i :: 0 <= i < |inputs| ==> inputs[i].Is(ts[i])
    }

    ghost predicate GlobalsMatch(s: State)
      reads this, inputs
    {
      focused == s.focused && committed == s.committed && up == s.up && log == s.log && ActiveIs(s.active)
    }

    ghost predicate ActiveIs(id: Option<nat>)
      reads this
    {
      (active == null) == id.None? && (active != null ==> active in inputs && id == Some(active.id))
    }

    ghost predicate Valid()
      reads this, inputs
    {
      Matches(st) && Inv(st)
    }

    /** text_input_handler_init. */
    constructor ()
      ensures Valid() && st == INITIAL
    {
      inputs, focused, active, committed, up, log := [], None, null, false, true, [];
      st := INITIAL;
    }

    /** set_active_text_input. */
    method SetActiveInput(ti: Resource?)
      modifies this`active, this`committed
      ensures active == ti && committed == (ti != null && ti.currentEnabled)
    {
      committed := ti != null && ti.currentEnabled;
      active := ti;
    }

    /** request_ime_show and request_ime_hide. */
    method Request(e: Event)
      modifies this`log
      ensures log == old(log) + [e]
    {
      log := log + [e];
    }

    lemma ActiveTest(s: State, i: nat)
      requires Matches(s) && DistinctIds(s.inputs) && i < |inputs|
      ensures active == inputs[i] <==> s.active == Some(s.inputs[i].id)
    {
      assert inputs[i].Is(s.inputs[i]);
      if active != null && active.id == inputs[i].id {
        var k :| 0 <= k < |inputs| && inputs[k] == active;
        assert inputs[k].Is(s.inputs[k]);
        assert k == i;
      }
    }

    lemma Apart(ts: seq<Input>)
      requires InputsMatch(ts) && DistinctIds(ts)
      ensures forall i, j :: 0 <= i < j < |inputs| ==> inputs[i] != inputs[j]
    {
      assert forall i :: 0 <= i < |inputs| ==> inputs[i].Is(ts[i]);
    }

    /** What maybe_send_leave, ti_commit and ti_resource_destroy do to the active input. */
    method Drop(ti: Resource, wasEnabled: bool, ghost s: State, ghost t: Input)
      requires GlobalsMatch(s) && t.currentEnabled == wasEnabled && (active == ti <==> s.active == Some(t.id))
      modifies this`active, this`committed, this`log
      ensures GlobalsMatch(Dropped(s, t)) && active != ti
    {
      if active == ti {
        SetActiveInput(null);
        if wasEnabled && up {
          Request(Hide);
        }
      }
    }

    /** zwp_text_input_v3_send_leave, if asked for. */
    method SendLeave(ti: Resource, sendLeave: bool, ghost s: State, ghost t: Input)
      requires GlobalsMatch(s) && ti.Is(t)
      modifies this`log
      ensures GlobalsMatch(LeaveTold(s, t, sendLeave))
    {
      if sendLeave && ti.enteredSurface.Some? {
        log := log + [LeaveSent(ti.id, ti.enteredSurface.value)];
      }
    }

    /** maybe_send_leave. */
    method MaybeSendLeave(ti: Resource, sendLeave: bool, ghost s: State, ghost t: Input)
      requires GlobalsMatch(s) && ti.Is(t) && (active == ti <==> s.active == Some(t.id))
      modifies this`active, this`committed, this`log, ti
      ensures GlobalsMatch(if t.entered then Dropped(LeaveTold(s, t, sendLeave), t) else s)
      ensures ti.Is(if t.entered then Left(t) else t)
    {
      if !ti.entered {
        return;
      }
      var wasEnabled := ti.currentEnabled;
      SendLeave(ti, sendLeave, s, t);
      ti.SetEntered(None, t);
      Drop(ti, wasEnabled, LeaveTold(s, t, sendLeave), t);
      ti.Reset(t.(entered := false, enteredSurface := None));
    }

    /** All resources but one are as before, that one is t now. */
    lemma Replaced(ts: seq<Input>, i: nat, t: Input)
      requires i < |inputs| == |ts| && inputs[i].Is(t) && forall j :: 0 <= j < |inputs| && j != i ==> inputs[j].Is(ts[j])
      ensures InputsMatch(ts[i := t])
    {
    }

    /** The body of the loop of clear_text_input_focus. */
    method LeaveIf(ti: Resource, surface: Option<Surface>, sendLeave: bool, ghost n: nat, ghost s: State)
      requires Matches(s) && DistinctIds(s.inputs) && n < |inputs| && inputs[n] == ti
      modifies this`active, this`committed, this`log, ti
      ensures Matches(if Leaves(s.inputs[n], surface) then LeaveOne(s, n, sendLeave) else s)
    {
      assert ti.Is(s.inputs[n]);
      if !ti.entered {
        return;
      }
      if surface.None? || ti.enteredSurface == surface {
        Apart(s.inputs);
        ActiveTest(s, n);
        MaybeSendLeave(ti, sendLeave, s, s.inputs[n]);
        Replaced(s.inputs, n, Left(s.inputs[n]));
      }
    }

    /** The loop of clear_text_input_focus. */
    method LeaveAll(surface: Option<Surface>, sendLeave: bool, ghost s: State)
      requires Matches(s) && DistinctIds(s.inputs)
      modifies this`active, this`committed, this`log, inputs
      ensures Matches(LeaveUpTo(s, surface, sendLeave, |s.inputs|))
    {
      for n := 0 to |inputs|
        invariant Matches(LeaveUpTo(s, surface, sendLeave, n))
      {
        LeaveUpToSame(s, surface, sendLeave, n);
        LeaveIf(inputs[n], surface, sendLeave, n, LeaveUpTo(s, surface, sendLeave, n));
      }
    }

    /** clear_text_input_focus. */
    method ClearTextInputFocus(surface: Option<Surface>, sendLeave: bool, ghost s: State)
      requires Matches(s) && DistinctIds(s.inputs)
      modifies this`active, this`committed, this`log, this`focused, inputs
      ensures Matches(ClearFocus(s, surface, sendLeave))
    {
      LeaveAll(surface, sendLeave, s);
      if surface.None? || focused == surface {
        focused := None;
      }
    }

    /** The body of the loop of text_input_handle_keyboard_enter. */
    method EnterIf(ti: Resource, surface: Surface, ghost n: nat, ghost s: State)
      requires Matches(s) && DistinctIds(s.inputs) && n < |inputs| && inputs[n] == ti
      modifies this`log, ti
      ensures Matches(if s.inputs[n].client == surface.client then EnterOne(s, n, surface) else s)
    {
      ghost var t := s.inputs[n];
      assert ti.Is(t);
      if ti.client == surface.client {
        Apart(s.inputs);
        ti.Reset(t);
        ti.SetEntered(Some(surface), RequestsReset(t));
        log := log + [EnterSent(ti.id, surface)];
        Replaced(s.inputs, n, RequestsReset(t).(entered := true, enteredSurface := Some(surface)));
      }
    }

    /** The loop of text_input_handle_keyboard_enter. */
    method EnterAll(surface: Surface, ghost s: State)
      requires Matches(s) && DistinctIds(s.inputs)
      modifies this`log, inputs
      ensures Matches(EnterUpTo(s, surface, |s.inputs|))
    {
      for n := 0 to |inputs|
        invariant Matches(EnterUpTo(s, surface, n))
      {
        EnterUpToSame(s, surface, n);
        EnterIf(inputs[n], surface, n, EnterUpTo(s, surface, n));
      }
    }

    method MoveFocus(surface: Surface, ghost s: State)
      requires Matches(s) && DistinctIds(s.inputs)
      modifies this`active, this`committed, this`log, this`focused, inputs
      ensures Matches(EnterSurface(s, surface))
    {
      if focused == Some(surface) {
        return;
      }
      ClearTextInputFocus(None, true, s);
      focused := Some(surface);
      ghost var s' := ClearFocus(s, None, true).(focused := Some(surface));
      LeaveUpToSame(s, None, true, |s.inputs|);
      EnterAll(surface, s');
    }

    /** text_input_handle_keyboard_enter. */
    method HandleKeyboardEnter(surface: Surface)
      requires Valid()
      modifies this, inputs
      ensures Valid() && st == Step(old(st), KeyboardEnter(surface))
    {
      StepKeepsInv(st, KeyboardEnter(surface));
      MoveFocus(surface, st);
      st := EnterSurface(st, surface);
    }

    /** text_input_handle_keyboard_leave. */
    method HandleKeyboardLeave(surface: Surface)
      requires Valid()
      modifies this, inputs
      ensures Valid() && st == Step(old(st), KeyboardLeave(surface))
    {
      StepKeepsInv(st, KeyboardLeave(surface));
      ClearTextInputFocus(Some(surface), true, st);
      st := ClearFocus(st, Some(surface), true);
    }

    method SurfaceEnds(surface: Surface, ghost s: State)
      requires Matches(s) && DistinctIds(s.inputs)
      modifies this`active, this`committed, this`log, this`focused, inputs
      ensures Matches(EndSurface(s, surface))
    {
      if focused == Some(surface) {
        ClearTextInputFocus(Some(surface), false, s);
      }
      log := log + [SurfaceGone(surface)];
    }

    /** The end of a surface; only the focused one has a listener, which
        handle_focused_text_input_surface_destroy serves. */
    method HandleSurfaceDestroy(surface: Surface)
      requires Valid()
      modifies this, inputs
      ensures Valid() && st == Step(old(st), DestroySurface(surface))
    {
      StepKeepsInv(st, DestroySurface(surface));
      SurfaceEnds(surface, st);
      st := EndSurface(st, surface);
    }

    /** The manager global goes, and with it what clients know. */
    method Close(ghost s: State)
      requires Matches(s)
      modifies this`log, this`active, this`committed, this`up
      ensures Matches(TextInput.Close(s))
    {
      log := log + [Closed];
      SetActiveInput(null);
      up := false;
    }

    method CloseAll(ghost s: State)
      requires Matches(s) && DistinctIds(s.inputs)
      modifies this`log, this`active, this`committed, this`up, this`focused, inputs
      ensures Matches(TextInput.Close(ClearFocus(s, None, false)))
    {
      ClearTextInputFocus(None, false, s);
      Close(ClearFocus(s, None, false));
    }

    /** text_input_handler_destroy. */
    method Destroy()
      requires Valid()
      modifies this, inputs
      ensures Valid() && st == Step(old(st), Shutdown)
    {
      CloseAll(st);
      StepKeepsInv(st, Shutdown);
      st := TextInput.Close(ClearFocus(st, None, false));
    }

    /** The request r only touched pending fields of the input at i. */
    ghost method Pend(i: nat, r: Request)
      requires Inv(st) && GlobalsMatch(st) && i < |inputs| == |st.inputs|
      requires (r.Enable? || r.Disable? || r.SetSurrounding? || r.SetRect?) && r.i == i
      requires inputs[i].Is(Pended(st.inputs[i], r)) && forall j :: 0 <= j < |inputs| && j != i ==> inputs[j].Is(st.inputs[j])
      modifies this`st
      ensures Valid() && st == Step(old(st), r)
    {
      StepKeepsInv(st, r);
      Replaced(st.inputs, i, Pended(st.inputs[i], r));
      st := st.(inputs := st.inputs[i := Pended(st.inputs[i], r)]);
    }

    /** ti_enable, ti_disable. */
    method OnSetEnabled(ti: Resource, on: bool, ghost i: nat)
      requires Valid() && i < |inputs| && inputs[i] == ti
      modifies this`st, ti
      ensures Valid() && st == Step(old(st), if on then Enable(i) else Disable(i))
    {
      Apart(st.inputs);
      assert ti.Is(st.inputs[i]);
      ti.SetPendingEnabled(on, st.inputs[i]);
      Pend(i, if on then Enable(i) else Disable(i));
    }

    /** ti_set_surrounding_text. */
    method OnSetSurroundingText(ti: Resource, text: Text, cursor: int, anchor: int, ghost i: nat)
      requires Valid() && i < |inputs| && inputs[i] == ti
      modifies this`st, ti
      ensures Valid() && st == Step(old(st), SetSurrounding(i, text, cursor, anchor))
    {
      Apart(st.inputs);
      assert ti.Is(st.inputs[i]);
      ti.SetSurroundingText(text, cursor, anchor, st.inputs[i]);
      Pend(i, SetSurrounding(i, text, cursor, anchor));
    }

    /** ti_set_cursor_rectangle. */
    method OnSetCursorRectangle(ti: Resource, rect: Rect, ghost i: nat)
      requires Valid() && i < |inputs| && inputs[i] == ti
      modifies this`st, ti
      ensures Valid() && st == Step(old(st), SetRect(i, rect))
    {
      Apart(st.inputs);
      assert ti.Is(st.inputs[i]);
      ti.SetCursorRectangle(rect, st.inputs[i]);
      Pend(i, SetRect(i, rect));
    }

    /** The part of ti_commit about the active input. */
    method Activate(ti: Resource, wasEnabled: bool, ghost s: State, ghost t: Input)
      requires GlobalsMatch(s) && t.currentEnabled == wasEnabled && t.entered
      requires (active == ti <==> s.active == Some(t.id)) && ti in inputs && ti.Is(Taken(t))
      modifies this`active, this`committed, this`log
      ensures GlobalsMatch(if !t.pendingEnabled then Dropped(s, t)
                           else if wasEnabled then SetActive(s, Some(Applied(t))) else Ask(SetActive(s, Some(Applied(t))), Show))
    {
      if ti.currentEnabled {
        SetActiveInput(ti);
        if !wasEnabled && up {
          Request(Show);
        }
      } else {
        Drop(ti, wasEnabled, s, t);
      }
    }

    /** ti_commit on the input at i. */
    method CommitAt(ti: Resource, ghost i: nat, ghost s: State)
      requires Matches(s) && DistinctIds(s.inputs) && i < |inputs| && inputs[i] == ti
      modifies this`active, this`committed, this`log, ti
      ensures Matches(CommitInput(s, i))
    {
      ghost var t := s.inputs[i];
      Apart(s.inputs);
      ActiveTest(s, i);
      assert ti.Is(t);
      if !ti.entered {
        ti.IgnoreCommit(t);
        Replaced(s.inputs, i, Applied(t));
        return;
      }
      var wasEnabled := ti.currentEnabled;
      ti.TakePending(t);
      Activate(ti, wasEnabled, s, t);
      ti.FinishCommit(t);
      Replaced(s.inputs, i, Applied(t));
    }

    /** ti_commit. */
    method OnCommit(ti: Resource, ghost i: nat)
      requires Valid() && i < |inputs| && inputs[i] == ti
      modifies this`active, this`committed, this`log, this`st, ti
      ensures Valid() && st == Step(old(st), Commit(i))
    {
      StepKeepsInv(st, Commit(i));
      CommitAt(ti, i, st);
      st := CommitInput(st, i);
    }

    /** wl_list_insert of a new resource. */
    method Link(ti: Resource, ghost s: State, ghost t: Input)
      requires Matches(s) && ti.Is(t)
      modifies this`inputs
      ensures inputs == [ti] + old(inputs) && Matches(s.(inputs := [t] + s.inputs))
    {
      inputs := [ti] + inputs;
    }

    /** manager_get_text_input. */
    method OnGetTextInput(id: nat, client: ClientId) returns (ti: Resource)
      requires Valid() && Allowed(st, GetTextInput(id, client))
      modifies this
      ensures Valid() && fresh(ti) && st == Step(old(st), GetTextInput(id, client)) && inputs == [ti] + old(inputs)
    {
      StepKeepsInv(st, GetTextInput(id, client));
      ghost var t := Input(id, client, false, false, 0, false, None, None, None, None, None);
      ti := new Resource(id, client);
      if focused.Some? && focused.value.client == client {
        ti.SetEntered(focused, t);
        log := log + [EnterSent(id, focused.value)];
        Link(ti, st.(log := log), t.(entered := true, enteredSurface := focused));
      } else {
        Link(ti, st, t);
      }
      st := AddInput(st, id, client);
    }

    /** wl_list_remove. */
    method Unlink(ti: Resource, ghost i: nat, ghost s: State)
      requires GlobalsMatch(s) && InputsMatch(s.inputs) && DistinctIds(s.inputs) && i < |inputs| && inputs[i] == ti
      requires active != ti
      modifies this`inputs
      ensures inputs == old(inputs)[..i] + old(inputs)[i + 1..]
      ensures Matches(s.(inputs := s.inputs[..i] + s.inputs[i + 1..]))
    {
      Apart(s.inputs);
      var n := 0;
      while inputs[n] != ti
        invariant n <= i
        decreases i - n
      {
        n := n + 1;
      }
      assert active in inputs ==> active in inputs[..i] + inputs[i + 1..] by {
        if active in inputs {
          var k :| 0 <= k < |inputs| && inputs[k] == active;
          assert k != i && active in (if k < i then inputs[..i] else inputs[i + 1..]);
        }
      }
      inputs := inputs[..n] + inputs[n + 1..];
    }

    /** ti_resource_destroy. */
    method OnResourceDestroy(ti: Resource, ghost i: nat)
      requires Valid() && i < |inputs| && inputs[i] == ti
      modifies this
      ensures Valid() && st == Step(old(st), DestroyInput(i))
      ensures inputs == old(inputs)[..i] + old(inputs)[i + 1..]
    {
      StepKeepsInv(st, DestroyInput(i));
      ActiveTest(st, i);
      assert ti.Is(st.inputs[i]);
      Drop(ti, ti.currentEnabled, st, st.inputs[i]);
      log := log + [InputGone(ti.id)];
      Unlink(ti, i, Send(Dropped(st, st.inputs[i]), InputGone(ti.id)));
      st := RemoveInput(st, i);
    }
  }
}

/**
 The toplevel list of compositor/native/src/compositor_server.c: windows in most recently
 used order, their activation, and the handlers that change both. A "rendering-only"
 toplevel is the surface the EGL wrapper draws into; it never takes the keyboard.
 */
module Toplevels {
  import opened Common

  const RENDERING_APP_ID: string := "com.coder.vscode"

  datatype Top = Top(id: nat, renderingOnly: bool, activated: bool)

  /** The list, head first, and the history: when each toplevel was last touched (created
      or focused), which have never been focused, the argument of the last focus_toplevel,
      the last toplevel it gave the keyboard, which is the seat's focused surface, the one
      that the text-input handler was last told to enter and not to leave, and which
      toplevels are mapped, a thing that the code itself does not look at. */
  datatype State = State(
    list: seq<Top>, clock: nat, touched: map<nat, nat>, unfocused: set<nat>,
    lastFocus: Option<nat>, keyboard: Option<nat>, textFocus: Option<nat>, mapped: set<nat>)

  datatype Handler =
    | New(id: nat)
    | Map(index: nat, appId: string)
    | Unmap(index: nat)
    | Destroy(index: nat)

  const EMPTY: State := State([], 0, map[], {}, None, None, None, {})

  /** What focusing one toplevel does to another: when the rendering-only one is focused,
      the window behind it keeps believing that it is active. */
  function Dimmed(t: Top, focused: Top): Top {
    if focused.renderingOnly && !t.renderingOnly then t else t.(activated := false)
  }

  function DimmedAll(ts: seq<Top>, focused: Top): (r: seq<Top>)
    ensures |r| == |ts| && forall i :: 0 <= i < |ts| ==> r[i] == Dimmed(ts[i], focused)
  {
    if ts == [] then [] else [Dimmed(ts[0], focused)] + DimmedAll(ts[1..], focused)
  }

  function FocusedList(ts: seq<Top>, k: nat): seq<Top>
    requires k < |ts|
  {
    [ts[k].(activated := true)] + DimmedAll(ts[..k], ts[k]) + DimmedAll(ts[k + 1..], ts[k])
  }

  /** focus_toplevel. */
  function Focus(s: State, k: nat): State
    requires k < |s.list|
  {
    var t := s.list[k];
    State(FocusedList(s.list, k), s.clock + 1, s.touched[t.id := s.clock], s.unfocused - {t.id},
          Some(t.id), if t.renderingOnly then s.keyboard else Some(t.id),
          if t.renderingOnly then s.textFocus else Some(t.id), s.mapped)
  }

  predicate Enabled(s: State, h: Handler) {
    match h
    case New(id) => id !in s.touched
    case Map(k, _) => k < |s.list|
    case Unmap(k) => k < |s.list|
    case Destroy(k) => k < |s.list|
  }

  /** text_input_handle_keyboard_leave: nothing happens to another surface's focus. */
  function TextLeft(textFocus: Option<nat>, id: nat): Option<nat> {
    if textFocus == Some(id) then None else textFocus
  }

  /** What on_toplevel_unmap does before it looks at the list. */
  function Unmapped(s: State, k: nat): State
    requires k < |s.list|
  {
    var id := s.list[k].id;
    s.(mapped := s.mapped - {id}, textFocus := if s.keyboard == Some(id) then TextLeft(s.textFocus, id) else s.textFocus)
  }

  /** on_new_xdg_toplevel, on_toplevel_map, on_toplevel_unmap, on_toplevel_destroy. */
  function Step(s: State, h: Handler): State
    requires Enabled(s, h)
  {
    match h
    case New(id) =>
      s.(list := [Top(id, false, false)] + s.list, clock := s.clock + 1,
         touched := s.touched[id := s.clock], unfocused := s.unfocused + {id})
    case Map(k, appId) =>
      Focus(Marked(s, k, appId), k)
    case Unmap(k) =>
      var s' := Unmapped(s, k);
      if k == 0 && |s.list| > 1 then Focus(s', 1) else s'
    case Destroy(k) =>
      s.(list := s.list[..k] + s.list[k + 1..], unfocused := s.unfocused - {s.list[k].id},
         mapped := s.mapped - {s.list[k].id}, textFocus := TextLeft(s.textFocus, s.list[k].id))
  }

  // ---------------------------------------------------------------------
  // Focusing: to the head, the rest keeping its order
  // ---------------------------------------------------------------------

  function Ids(ts: seq<Top>): (r: seq<nat>)
    ensures |r| == |ts| && forall i :: 0 <= i < |ts| ==> r[i] == ts[i].id
  {
    if ts == [] then [] else [ts[0].id] + Ids(ts[1..])
  }

  lemma FocusMovesToHead(ts: seq<Top>, k: nat)
    requires k < |ts|
    ensures Ids(FocusedList(ts, k)) == [ts[k].id] + Ids(ts[..k]) + Ids(ts[k + 1..])
  {
    IdsOfDimmed(ts[..k], ts[k]);
    IdsOfDimmed(ts[k + 1..], ts[k]);
    IdsConcat(DimmedAll(ts[..k], ts[k]), DimmedAll(ts[k + 1..], ts[k]));
    IdsConcat([ts[k].(activated := true)], DimmedAll(ts[..k], ts[k]) + DimmedAll(ts[k + 1..], ts[k]));
    var first, front, back := [ts[k].(activated := true)], DimmedAll(ts[..k], ts[k]), DimmedAll(ts[k + 1..], ts[k]);
    assert FocusedList(ts, k) == first + (front + back);
  }

  lemma IdsOfDimmed(ts: seq<Top>, focused: Top)
    ensures Ids(DimmedAll(ts, focused)) == Ids(ts)
  {
    assert forall i :: 0 <= i < |ts| ==> Ids(DimmedAll(ts, focused))[i] == Ids(ts)[i];
  }

  lemma IdsConcat(a: seq<Top>, b: seq<Top>)
    ensures Ids(a + b) == Ids(a) + Ids(b)
  {
    assert forall i :: 0 <= i < |a + b| ==> Ids(a + b)[i] == (Ids(a) + Ids(b))[i];
  }

  // ---------------------------------------------------------------------
  // The invariant
  // ---------------------------------------------------------------------

  predicate DistinctIds(ts: seq<Top>) {
    forall i, j :: 0 <= i < j < |ts| ==> ts[i].id != ts[j].id
  }

  /** At most one rendering-only and at most one other toplevel is activated. */
  predicate AtMostOneActive(ts: seq<Top>) {
    forall i, j :: 0 <= i < j < |ts| && ts[i].activated && ts[j].activated ==> ts[i].renderingOnly != ts[j].renderingOnly
  }

  /** The activated window is the one that last got the keyboard. */
  predicate ActiveHasKeyboard(s: State) {
    forall i :: 0 <= i < |s.list| && s.list[i].activated && !s.list[i].renderingOnly ==> s.keyboard == Some(s.list[i].id)
  }

  /** Most recently used order: each entry was touched after the next one. */
  predicate MruOrder(s: State) {
    && (forall i :: 0 <= i < |s.list| ==> s.list[i].id in s.touched && s.touched[s.list[i].id] < s.clock)
    && (forall i, j :: 0 <= i < j < |s.list| ==>
          s.list[i].id in s.touched && s.list[j].id in s.touched && s.touched[s.list[i].id] > s.touched[s.list[j].id])
  }

  /** In front of the toplevel focused last there are only ones never focused. */
  predicate NewestInFront(s: State) {
    forall i, j :: 0 <= i < j < |s.list| && s.lastFocus == Some(s.list[j].id) ==> s.list[i].id in s.unfocused
  }

  predicate Inv(s: State) {
    DistinctIds(s.list) && AtMostOneActive(s.list) && ActiveHasKeyboard(s) && MruOrder(s) && NewestInFront(s)
  }

  /** Where the i-th entry of the list after focus k was before. */
  function Origin(k: nat, i: nat): nat {
    if i == 0 then k else if i <= k then i - 1 else i
  }

  lemma FocusedAt(ts: seq<Top>, k: nat)
    requires k < |ts|
    ensures |FocusedList(ts, k)| == |ts|
    ensures forall i: nat :: i < |ts| ==>
              FocusedList(ts, k)[i] == if i == 0 then ts[k].(activated := true) else Dimmed(ts[Origin(k, i)], ts[k])
  {}

  /** Focusing establishes the activation limit; only for a rendering surface, which leaves
      the windows alone, must they have kept it before. */
  lemma FocusKeepsInv(s: State, k: nat)
    requires k < |s.list| && DistinctIds(s.list) && MruOrder(s)
    requires s.list[k].renderingOnly ==> ActiveHasKeyboard(s)
    ensures Inv(Focus(s, k))
  {
    FocusLimitsActive(s, k);
    FocusKeepsOrder(s, k);
  }

  lemma FocusLimitsActive(s: State, k: nat)
    requires k < |s.list| && DistinctIds(s.list)
    requires s.list[k].renderingOnly ==> ActiveHasKeyboard(s)
    ensures AtMostOneActive(Focus(s, k).list) && ActiveHasKeyboard(Focus(s, k)) && DistinctIds(Focus(s, k).list)
  {
    var ts, s' := s.list, Focus(s, k);
    var ts' := s'.list;
    FocusedAt(ts, k);
    forall i, j | 0 <= i < j < |ts|
      ensures ts'[i].id != ts'[j].id
      ensures ts'[i].activated && ts'[j].activated ==> ts'[i].renderingOnly != ts'[j].renderingOnly
    {
      var p, q := Origin(k, i), Origin(k, j);
      assert ts'[i].id == ts[p].id && ts'[j].id == ts[q].id && p != q;
      assert ts[if p < q then p else q].id != ts[if p < q then q else p].id;
      assert i > 0 ==> ts'[i] == Dimmed(ts[p], ts[k]);
      assert ts'[j] == Dimmed(ts[q], ts[k]);
    }
    forall i | 0 <= i < |ts| && ts'[i].activated && !ts'[i].renderingOnly
      ensures s'.keyboard == Some(ts'[i].id)
    {
      assert i > 0 ==> ts'[i] == Dimmed(ts[Origin(k, i)], ts[k]);
    }
  }

  lemma FocusKeepsOrder(s: State, k: nat)
    requires k < |s.list| && DistinctIds(s.list) && MruOrder(s)
    ensures MruOrder(Focus(s, k)) && NewestInFront(Focus(s, k))
  {
    var ts, s' := s.list, Focus(s, k);
    var ts' := s'.list;
    FocusedAt(ts, k);
    forall i: nat | i < |ts|
      ensures ts'[i].id in s'.touched && s'.touched[ts'[i].id] == (if i == 0 then s.clock else s.touched[ts[Origin(k, i)].id]) < s'.clock
    {
      var p := Origin(k, i);
      assert ts'[i].id == ts[p].id;
      assert i > 0 ==> ts[if p < k then p else k].id != ts[if p < k then k else p].id;
    }
    forall i: nat, j: nat | i < j < |ts|
      ensures s'.touched[ts'[i].id] > s'.touched[ts'[j].id] && s'.lastFocus != Some(ts'[j].id)
    {
      var p, q := Origin(k, i), Origin(k, j);
      assert i > 0 ==> p < q;
      assert ts'[j].id == ts[q].id && ts[if q < k then q else k].id != ts[if q < k then k else q].id;
    }
  }

  function Marked(s: State, k: nat, appId: string): State
    requires k < |s.list|
  {
    s.(list := s.list[k := s.list[k].(renderingOnly := s.list[k].renderingOnly || appId == RENDERING_APP_ID)],
       mapped := s.mapped + {s.list[k].id})
  }

  lemma MarkKeepsOrder(s: State, k: nat, appId: string)
    requires k < |s.list| && Inv(s)
    ensures var s' := Marked(s, k, appId); DistinctIds(s'.list) && MruOrder(s') && ActiveHasKeyboard(s')
  {
    assert forall i :: 0 <= i < |s.list| ==> Marked(s, k, appId).list[i].id == s.list[i].id;
  }

  lemma StepKeepsInv(s: State, h: Handler)
    requires Inv(s) && Enabled(s, h)
    ensures Inv(Step(s, h))
  {
    match h
    case New(id) => NewKeepsInv(s, id);
    case Map(k, appId) =>
      MarkKeepsOrder(s, k, appId);
      FocusKeepsInv(Marked(s, k, appId), k);
    case Unmap(k) =>
      if k == 0 && |s.list| > 1 {
        FocusKeepsInv(Unmapped(s, k), 1);
      }
    case Destroy(k) => DestroyKeepsInv(s, k);
  }

  lemma NewKeepsInv(s: State, id: nat)
    requires Inv(s) && id !in s.touched
    ensures Inv(Step(s, New(id)))
  {
    var ts' := Step(s, New(id)).list;
    assert ts'[0] == Top(id, false, false) && forall i :: 0 < i < |ts'| ==> ts'[i] == s.list[i - 1];
  }

  lemma DestroyKeepsInv(s: State, k: nat)
    requires Inv(s) && k < |s.list|
    ensures Inv(Step(s, Destroy(k)))
  {
    var s' := Step(s, Destroy(k));
    assert forall i :: 0 <= i < |s'.list| ==> s'.list[i] == s.list[if i < k then i else i + 1];
    DestroyKeepsOrder(s, s', k);
    DestroyKeepsActive(s, s', k);
  }

  lemma DestroyKeepsOrder(s: State, s': State, k: nat)
    requires Inv(s) && k < |s.list| && s' == s.(list := s'.list, unfocused := s.unfocused - {s.list[k].id}, mapped := s'.mapped, textFocus := s'.textFocus)
    requires |s'.list| == |s.list| - 1
    requires forall i :: 0 <= i < |s'.list| ==> s'.list[i] == s.list[if i < k then i else i + 1]
    ensures DistinctIds(s'.list) && MruOrder(s') && NewestInFront(s')
  {
    forall i, j | 0 <= i < j < |s'.list| ensures s'.list[i].id != s'.list[j].id {
      assert s'.list[i] == s.list[if i < k then i else i + 1] && s'.list[j] == s.list[if j < k then j else j + 1];
    }
  }

  lemma DestroyKeepsActive(s: State, s': State, k: nat)
    requires Inv(s) && k < |s.list| && s' == s.(list := s'.list, unfocused := s'.unfocused, mapped := s'.mapped, textFocus := s'.textFocus)
    requires |s'.list| == |s.list| - 1
    requires forall i :: 0 <= i < |s'.list| ==> s'.list[i] == s.list[if i < k then i else i + 1]
    ensures AtMostOneActive(s'.list) && ActiveHasKeyboard(s')
  {
  }

  // ---------------------------------------------------------------------
  // Every run
  // ---------------------------------------------------------------------

  predicate Schedule(s: State, hs: seq<Handler>)
    decreases |hs|
  {
    hs == [] || (Enabled(s, hs[0]) && Schedule(Step(s, hs[0]), hs[1..]))
  }

  function Run(s: State, hs: seq<Handler>): State
    requires Schedule(s, hs)
    decreases |hs|
  {
    if hs == [] then s else Run(Step(s, hs[0]), hs[1..])
  }

  /** The toplevels alive after the handlers: created and not destroyed. */
  function Alive(s: State, hs: seq<Handler>, alive: set<nat>): set<nat>
    requires Schedule(s, hs)
    decreases |hs|
  {
    if hs == [] then alive
    else
      var now := match hs[0]
                 case New(id) => alive + {id}
                 case Destroy(k) => alive - {s.list[k].id}
                 case _ => alive;
      Alive(Step(s, hs[0]), hs[1..], now)
  }

  function IdSet(ts: seq<Top>): set<nat> {
    set i | 0 <= i < |ts| :: ts[i].id
  }

  lemma StepTracksAlive(s: State, h: Handler)
    requires Inv(s) && Enabled(s, h)
    ensures IdSet(Step(s, h).list) ==
            match h
            case New(id) => IdSet(s.list) + {id}
            case Destroy(k) => IdSet(s.list) - {s.list[k].id}
            case _ => IdSet(s.list)
  {
    match h
    case New(id) => NewIds(s.list, id);
    case Map(k, appId) =>
      SameIds(Marked(s, k, appId).list, s.list);
      FocusSameIds(Marked(s, k, appId).list, k);
    case Unmap(k) =>
      if k == 0 && |s.list| > 1 {
        FocusSameIds(s.list, 1);
      }
    case Destroy(k) => DestroyIds(s.list, k);
  }

  lemma SameIds(a: seq<Top>, b: seq<Top>)
    requires |a| == |b| && forall i :: 0 <= i < |a| ==> a[i].id == b[i].id
    ensures IdSet(a) == IdSet(b)
  {
    assert forall i :: 0 <= i < |a| ==> a[i].id in IdSet(b) && b[i].id in IdSet(a);
  }

  lemma NewIds(ts: seq<Top>, id: nat)
    ensures IdSet([Top(id, false, false)] + ts) == IdSet(ts) + {id}
  {
    var ts' := [Top(id, false, false)] + ts;
    assert ts'[0].id in IdSet(ts');
    forall i | 0 <= i < |ts| ensures ts[i].id in IdSet(ts') {
      assert ts'[i + 1] == ts[i];
    }
  }

  lemma DestroyIds(ts: seq<Top>, k: nat)
    requires DistinctIds(ts) && k < |ts|
    ensures IdSet(ts[..k] + ts[k + 1..]) == IdSet(ts) - {ts[k].id}
  {
    var ts' := ts[..k] + ts[k + 1..];
    forall i | 0 <= i < |ts| && i != k ensures ts[i].id in IdSet(ts') {
      assert ts[i] == ts'[if i < k then i else i - 1];
    }
    forall i | 0 <= i < |ts'| ensures ts'[i].id in IdSet(ts) && ts'[i].id != ts[k].id {
      assert ts'[i] == ts[if i < k then i else i + 1];
    }
  }

  lemma FocusSameIds(ts: seq<Top>, k: nat)
    requires k < |ts|
    ensures IdSet(FocusedList(ts, k)) == IdSet(ts)
  {
    FocusedAt(ts, k);
    var ts' := FocusedList(ts, k);
    forall i: nat | i < |ts| ensures ts[i].id in IdSet(ts') {
      var j := if i == k then 0 else if i < k then i + 1 else i;
      assert Origin(k, j) == i && ts'[j].id == ts[i].id;
    }
    forall i: nat | i < |ts| ensures ts'[i].id in IdSet(ts) {
      assert ts'[i].id == ts[Origin(k, i)].id;
    }
  }

  /** Over every run: the list holds each live toplevel once, in most recently used order,
      with at most one window and one rendering surface activated. */
  lemma {:induction false} RunKeepsInv(s: State, hs: seq<Handler>)
    requires Inv(s) && Schedule(s, hs)
    ensures Inv(Run(s, hs)) && IdSet(Run(s, hs).list) == Alive(s, hs, IdSet(s.list))
    decreases |hs|
  {
    if hs != [] {
      StepKeepsInv(s, hs[0]);
      StepTracksAlive(s, hs[0]);
      RunKeepsInv(Step(s, hs[0]), hs[1..]);
    }
  }

  // ---------------------------------------------------------------------
  // What the text-input handler is told
  // ---------------------------------------------------------------------

  /** Text goes to a live toplevel, and to none but the seat's focused one. */
  predicate TextOnLive(s: State) {
    s.textFocus.Some? ==> s.textFocus == s.keyboard && s.textFocus.value in IdSet(s.list)
  }

  lemma FocusKeepsText(s: State, k: nat)
    requires k < |s.list| && TextOnLive(s)
    ensures TextOnLive(Focus(s, k))
  {
    FocusSameIds(s.list, k);
    assert s.list[k].id in IdSet(s.list);
  }

  lemma StepKeepsText(s: State, h: Handler)
    requires Inv(s) && Enabled(s, h) && TextOnLive(s)
    ensures TextOnLive(Step(s, h))
  {
    match h
    case New(id) => NewIds(s.list, id);
    case Map(k, appId) =>
      SameIds(s.list, Marked(s, k, appId).list);
      FocusKeepsText(Marked(s, k, appId), k);
    case Unmap(k) =>
      if k == 0 && |s.list| > 1 {
        FocusKeepsText(Unmapped(s, k), 1);
      }
    case Destroy(k) => DestroyIds(s.list, k);
  }

  /** Over every run text is never left going to a toplevel that is gone. */
  lemma {:induction false} RunKeepsText(s: State, hs: seq<Handler>)
    requires Inv(s) && Schedule(s, hs) && TextOnLive(s)
    ensures TextOnLive(Run(s, hs))
    decreases |hs|
  {
    if hs != [] {
      StepKeepsInv(s, hs[0]);
      StepKeepsText(s, hs[0]);
      RunKeepsText(Step(s, hs[0]), hs[1..]);
    }
  }

  // ---------------------------------------------------------------------
  // Who is activated
  // ---------------------------------------------------------------------

  /** What the handlers so far come to: the toplevels mapped as the rendering surface, those
      that have ever been focused, the one focused last, the one given the keyboard last,
      and the one that text goes to. */
  datatype Story = Story(marks: set<nat>, focused: set<nat>, last: Option<nat>, keyboard: Option<nat>, text: Option<nat>)

  const NOTHING_YET: Story := Story({}, {}, None, None, None)

  /** A map focuses its toplevel, an unmap at the head the next one. */
  function Focuses(s: State, h: Handler): Option<nat>
    requires Enabled(s, h)
  {
    match h
    case Map(k, _) => Some(s.list[k].id)
    case Unmap(k) => if k == 0 && |s.list| > 1 then Some(s.list[1].id) else None
    case _ => None
  }

  function StoryAfter(s: State, h: Handler, y: Story): Story
    requires Enabled(s, h)
  {
    var marks := if h.Map? && h.appId == RENDERING_APP_ID then y.marks + {s.list[h.index].id} else y.marks;
    var text := if (h.Unmap? || h.Destroy?) && y.text == Some(s.list[h.index].id) then None else y.text;
    match Focuses(s, h)
    case None => y.(marks := marks, text := text)
    case Some(id) =>
      if id in marks then Story(marks, y.focused + {id}, Some(id), y.keyboard, text)
      else Story(marks, y.focused + {id}, Some(id), Some(id), Some(id))
  }

  function StoryOf(s: State, hs: seq<Handler>, y: Story): Story
    requires Schedule(s, hs)
    decreases |hs|
  {
    if hs == [] then y else StoryOf(Step(s, hs[0]), hs[1..], StoryAfter(s, hs[0], y))
  }

  /** A rendering surface is activated exactly if it was focused last, any other toplevel
      exactly if it was given the keyboard last. */
  predicate ActivatedAs(t: Top, y: Story) {
    && (t.renderingOnly <==> t.id in y.marks)
    && (t.activated <==> (if t.renderingOnly then y.last else y.keyboard) == Some(t.id))
  }

  predicate Follows(s: State, y: Story) {
    && s.lastFocus == y.last && s.keyboard == y.keyboard && s.textFocus == y.text
    && (forall i :: 0 <= i < |s.list| ==> ActivatedAs(s.list[i], y) && (s.list[i].id in s.unfocused <==> s.list[i].id !in y.focused))
    && (forall id :: id in y.marks + y.focused ==> id in s.touched)
    && (y.last.Some? ==> y.last.value in s.touched) && (y.keyboard.Some? ==> y.keyboard.value in s.touched)
  }

  lemma FocusFollows(s: State, k: nat, y: Story, y': Story)
    requires k < |s.list| && DistinctIds(s.list) && s.list[k].id in s.touched
    requires s.lastFocus == y.last && s.keyboard == y.keyboard && s.textFocus == y.text
    requires forall i :: 0 <= i < |s.list| ==>
               (i != k ==> ActivatedAs(s.list[i], y)) && (s.list[i].id in s.unfocused <==> s.list[i].id !in y.focused)
    requires s.list[k].renderingOnly <==> s.list[k].id in y.marks
    requires forall id :: id in y.marks + y.focused ==> id in s.touched
    requires y.last.Some? ==> y.last.value in s.touched
    requires y.keyboard.Some? ==> y.keyboard.value in s.touched
    requires var id := s.list[k].id;
             y' == if id in y.marks then Story(y.marks, y.focused + {id}, Some(id), y.keyboard, y.text)
                   else Story(y.marks, y.focused + {id}, Some(id), Some(id), Some(id))
    ensures Follows(Focus(s, k), y')
  {
    var s' := Focus(s, k);
    FocusedAt(s.list, k);
    forall i: nat | i < |s'.list|
      ensures ActivatedAs(s'.list[i], y') && (s'.list[i].id in s'.unfocused <==> s'.list[i].id !in y'.focused)
    {
      var p := Origin(k, i);
      assert i > 0 ==> s'.list[i] == Dimmed(s.list[p], s.list[k]);
      assert i > 0 ==> s.list[if p < k then p else k].id != s.list[if p < k then k else p].id;
    }
  }

  lemma NewFollows(s: State, id: nat, y: Story)
    requires Inv(s) && Enabled(s, New(id)) && Follows(s, y)
    ensures Follows(Step(s, New(id)), y)
  {
    var s' := Step(s, New(id));
    assert s'.list[0].id == id && forall i :: 0 < i < |s'.list| ==> s'.list[i] == s.list[i - 1];
  }

  lemma MapFollows(s: State, k: nat, appId: string, y: Story)
    requires Inv(s) && k < |s.list| && Follows(s, y)
    ensures Follows(Step(s, Map(k, appId)), StoryAfter(s, Map(k, appId), y))
  {
    var s', id := Marked(s, k, appId), s.list[k].id;
    var y' := y.(marks := if appId == RENDERING_APP_ID then y.marks + {id} else y.marks);
    MarkKeepsOrder(s, k, appId);
    assert ActivatedAs(s.list[k], y);
    FocusFollows(s', k, y', StoryAfter(s, Map(k, appId), y));
  }

  lemma UnmapFollows(s: State, k: nat, y: Story)
    requires Inv(s) && TextOnLive(s) && k < |s.list| && Follows(s, y)
    ensures Follows(Step(s, Unmap(k)), StoryAfter(s, Unmap(k), y))
  {
    if k == 0 && |s.list| > 1 {
      FocusFollows(Unmapped(s, k), 1, y.(text := Unmapped(s, k).textFocus), StoryAfter(s, Unmap(k), y));
    }
  }

  lemma DestroyFollows(s: State, k: nat, y: Story)
    requires Inv(s) && k < |s.list| && Follows(s, y)
    ensures Follows(Step(s, Destroy(k)), StoryAfter(s, Destroy(k), y))
  {
    var s' := Step(s, Destroy(k));
    assert forall i :: 0 <= i < |s'.list| ==> s'.list[i] == s.list[if i < k then i else i + 1];
    assert forall i :: 0 <= i < |s'.list| ==> s'.list[i].id != s.list[k].id;
  }

  lemma StepFollows(s: State, h: Handler, y: Story)
    requires Inv(s) && TextOnLive(s) && Enabled(s, h) && Follows(s, y)
    ensures Follows(Step(s, h), StoryAfter(s, h, y))
  {
    match h
    case New(id) => NewFollows(s, id, y);
    case Map(k, appId) => MapFollows(s, k, appId, y);
    case Unmap(k) => UnmapFollows(s, k, y);
    case Destroy(k) => DestroyFollows(s, k, y);
  }

  lemma {:induction false} RunFollows(s: State, hs: seq<Handler>, y: Story)
    requires Inv(s) && TextOnLive(s) && Schedule(s, hs) && Follows(s, y)
    ensures Follows(Run(s, hs), StoryOf(s, hs, y))
    decreases |hs|
  {
    if hs != [] {
      StepFollows(s, hs[0], y);
      StepKeepsInv(s, hs[0]);
      StepKeepsText(s, hs[0]);
      RunFollows(Step(s, hs[0]), hs[1..], StoryAfter(s, hs[0], y));
    }
  }

  /** Over every run: which windows are activated, which one has the keyboard, and which
      one text goes to, as the handlers called say. */
  lemma ActivatedIff(hs: seq<Handler>)
    requires Schedule(EMPTY, hs)
    ensures var s, y := Run(EMPTY, hs), StoryOf(EMPTY, hs, NOTHING_YET);
            && s.keyboard == y.keyboard && s.textFocus == y.text
            && forall i :: 0 <= i < |s.list| ==> ActivatedAs(s.list[i], y)
  {
    RunFollows(EMPTY, hs, NOTHING_YET);
  }

  /** So a window that is no rendering surface is activated exactly while it has the
      keyboard, and mapping the rendering surface takes neither from it. */
  lemma RenderingMapKeepsActive(hs: seq<Handler>, k: nat, i: nat)
    requires Schedule(EMPTY, hs) && k < |Run(EMPTY, hs).list| && i < |Run(EMPTY, hs).list| && i != k
    requires !Run(EMPTY, hs).list[i].renderingOnly
    ensures var s := Run(EMPTY, hs); var s' := Step(s, Map(k, RENDERING_APP_ID));
            && (s.list[i].activated <==> s.keyboard == Some(s.list[i].id))
            && s'.keyboard == s.keyboard && s'.textFocus == s.textFocus
            && s.list[i] in s'.list
  {
    var s := Run(EMPTY, hs);
    RunFollows(EMPTY, hs, NOTHING_YET);
    assert ActivatedAs(s.list[i], StoryOf(EMPTY, hs, NOTHING_YET));
    var ts := Marked(s, k, RENDERING_APP_ID).list;
    FocusedAt(ts, k);
    var j: nat := if i < k then i + 1 else i;
    assert FocusedList(ts, k)[j] == Dimmed(ts[Origin(k, j)], ts[k]) == s.list[i];
  }

  // ---------------------------------------------------------------------
  // Unmapping the focused toplevel
  // ---------------------------------------------------------------------

  /** Unmapping the toplevel focused last hands the focus on exactly when another exists
      and none that is still waiting for its first focus lies in front of it. */
  lemma UnmapHandsOverIff(s: State, k: nat)
    requires Inv(s) && k < |s.list| && s.lastFocus == Some(s.list[k].id)
    ensures Step(s, Unmap(k)).lastFocus != s.lastFocus
       <==> |s.list| > 1 && !exists i :: 0 <= i < k && s.list[i].id in s.unfocused
  {
    if k > 0 {
      assert s.list[0].id in s.unfocused;
    }
  }

  /** Window 1 in front, focused last, and window 2 behind it, both mapped. */
  lemma TwoMapped() returns (s: State)
    ensures s == Step(Step(Step(Step(EMPTY, New(2)), Map(0, "")), New(1)), Map(0, ""))
    ensures Inv(s) && s.list == [Top(1, false, true), Top(2, false, false)] && s.lastFocus == Some(1) && 3 !in s.touched
  {
    var s1 := Step(EMPTY, New(2));
    assert s1.list == [Top(2, false, false)];
    var s2 := Step(s1, Map(0, ""));
    assert s2.list == [Top(2, false, true)];
    var s3 := Step(s2, New(1));
    assert s3.list == [Top(1, false, false), Top(2, false, true)];
    StepKeepsInv(EMPTY, New(2));
    StepKeepsInv(s1, Map(0, ""));
    StepKeepsInv(s2, New(1));
    StepKeepsInv(s3, Map(0, ""));
    s := Step(s3, Map(0, ""));
    assert Marked(s3, 0, "").list == s3.list;
    FocusedAt(s3.list, 0);
  }

  /** So a toplevel that has been created but not mapped yet blocks it: window 1 is unmapped,
      window 2 is mapped, and yet 1 stays the activated one. */
  lemma NewToplevelBlocksHandOver()
    ensures var s := Step(Step(Step(Step(EMPTY, New(2)), Map(0, "")), New(1)), Map(0, ""));
            && Inv(s) && s.list == [Top(1, false, true), Top(2, false, false)] && s.lastFocus == Some(1)
            && var s' := Step(Step(s, New(3)), Unmap(1));
               s'.list == [Top(3, false, false), Top(1, false, true), Top(2, false, false)] && s'.lastFocus == Some(1)
  {
    var s := TwoMapped();
    assert Step(s, New(3)).list == [Top(3, false, false), Top(1, false, true), Top(2, false, false)];
  }

  /** When an unmap does hand the focus on, it goes to a mapped toplevel exactly if the
      second in the list is mapped. */
  lemma HandOverToMappedIff(s: State)
    requires Inv(s) && |s.list| > 1
    ensures var s' := Step(s, Unmap(0));
            s'.lastFocus == Some(s.list[1].id) && (s.list[1].id in s'.mapped <==> s.list[1].id in s.mapped)
  {
  }

  /** The toplevel focused last, if it is still there, is mapped. */
  predicate FocusMapped(s: State) {
    s.lastFocus.Some? && s.lastFocus.value in IdSet(s.list) ==> s.lastFocus.value in s.mapped
  }

  /** An unmap that hands the focus to a toplevel that is not mapped, or that hands nothing
      on although it is the toplevel focused last that goes. */
  predicate Misplaces(s: State, h: Handler)
    requires Enabled(s, h)
  {
    h.Unmap? &&
    if h.index == 0 && |s.list| > 1 then s.list[1].id !in s.mapped else s.lastFocus == Some(s.list[h.index].id)
  }

  predicate FocusWasTouched(s: State) {
    s.lastFocus.Some? ==> s.lastFocus.value in s.touched
  }

  lemma StepKeepsTouched(s: State, h: Handler)
    requires Inv(s) && Enabled(s, h) && FocusWasTouched(s)
    ensures FocusWasTouched(Step(s, h))
  {
  }

  lemma UnmapMappedIff(s: State, k: nat)
    requires Inv(s) && k < |s.list| && FocusMapped(s)
    ensures FocusMapped(Step(s, Unmap(k))) <==> !Misplaces(s, Unmap(k))
  {
    if k == 0 && |s.list| > 1 {
      FocusSameIds(s.list, 1);
      assert s.list[1].id in IdSet(s.list);
    } else {
      assert s.list[k].id in IdSet(s.list);
    }
  }

  lemma StepMappedIff(s: State, h: Handler)
    requires Inv(s) && Enabled(s, h) && FocusMapped(s) && FocusWasTouched(s)
    ensures FocusMapped(Step(s, h)) <==> !Misplaces(s, h)
  {
    match h
    case New(id) => NewIds(s.list, id);
    case Map(k, appId) =>
    case Unmap(k) => UnmapMappedIff(s, k);
    case Destroy(k) => DestroyIds(s.list, k);
  }

  predicate AlwaysFocusMapped(s: State, hs: seq<Handler>)
    requires Schedule(s, hs)
    decreases |hs|
  {
    FocusMapped(s) && (hs == [] || AlwaysFocusMapped(Step(s, hs[0]), hs[1..]))
  }

  predicate EverMisplaces(s: State, hs: seq<Handler>)
    requires Schedule(s, hs)
    decreases |hs|
  {
    hs != [] && (Misplaces(s, hs[0]) || EverMisplaces(Step(s, hs[0]), hs[1..]))
  }

  lemma NotMapped(s: State, hs: seq<Handler>)
    requires Schedule(s, hs) && !FocusMapped(s)
    ensures !AlwaysFocusMapped(s, hs)
  {
  }

  /** Over every run the toplevel focused last is mapped as long as it exists, if and only
      if no unmap hands the focus to one that is not mapped, and none takes the toplevel
      focused last without handing the focus on. */
  lemma {:induction false} RunMappedIff(s: State, hs: seq<Handler>)
    requires Inv(s) && FocusMapped(s) && FocusWasTouched(s) && Schedule(s, hs)
    ensures AlwaysFocusMapped(s, hs) <==> !EverMisplaces(s, hs)
    decreases |hs|
  {
    if hs != [] {
      StepMappedIff(s, hs[0]);
      if Misplaces(s, hs[0]) {
        NotMapped(Step(s, hs[0]), hs[1..]);
      } else {
        StepKeepsInv(s, hs[0]);
        StepKeepsTouched(s, hs[0]);
        RunMappedIff(Step(s, hs[0]), hs[1..]);
      }
    }
  }

  /** In particular from the start. */
  lemma FocusMappedIff(hs: seq<Handler>)
    requires Schedule(EMPTY, hs)
    ensures AlwaysFocusMapped(EMPTY, hs) <==> !EverMisplaces(EMPTY, hs)
  {
    RunMappedIff(EMPTY, hs);
  }

  /** Here window 2 gets the focus and the keyboard, although it has never been mapped. */
  lemma HandOverToUnmapped()
    ensures var s := Step(Step(Step(EMPTY, New(2)), New(1)), Map(0, ""));
            && Inv(s) && s.list == [Top(1, false, true), Top(2, false, false)]
            && var s' := Step(s, Unmap(0));
               s'.lastFocus == Some(2) && s'.keyboard == Some(2) && s'.mapped == {}
  {
    var s1 := Step(EMPTY, New(2));
    assert s1.list == [Top(2, false, false)];
    var s2 := Step(s1, New(1));
    assert s2.list == [Top(1, false, false), Top(2, false, false)];
    StepKeepsInv(EMPTY, New(2));
    StepKeepsInv(s1, New(1));
    StepKeepsInv(s2, Map(0, ""));
    assert Marked(s2, 0, "").list == s2.list;
    FocusedAt(s2.list, 0);
  }

  // ---------------------------------------------------------------------
  // The code
  // ---------------------------------------------------------------------

  class Toplevel {
    const id: nat
    var renderingOnly: bool
    var activated: bool

    constructor (id: nat)
      ensures this.id == id && !renderingOnly && !activated
    {
      this.id := id;
      renderingOnly, activated := false, false;
    }

    predicate Is(t: Top)
      reads this
    {
      t == Top(id, renderingOnly, activated)
    }
  }

  class Server {
    var toplevels: seq<Toplevel>
    var keyboard: Option<nat>
    var textFocus: Option<nat>
    ghost var st: State

    ghost predicate Valid()
      reads this, toplevels
    {
      && |toplevels| == |st.list| && Inv(st) && keyboard == st.keyboard && textFocus == st.textFocus
      && forall i :: 0 <= i < |toplevels| ==> toplevels[i].Is(st.list[i])
    }

    constructor ()
      ensures Valid() && st == EMPTY
    {
      toplevels, keyboard, textFocus, st := [], None, None, EMPTY;
    }

    /** The loop of focus_toplevel over all entries but the one that is focused. */
    method DeactivateOthers(ct: Toplevel, ghost k: nat, ghost was: seq<Top>)
      requires k < |toplevels| == |was| && toplevels[k] == ct
      requires forall i, j :: 0 <= i < j < |toplevels| ==> toplevels[i] != toplevels[j]
      requires forall i :: 0 <= i < |toplevels| ==> toplevels[i].Is(was[i])
      modifies toplevels
      ensures forall i :: 0 <= i < |toplevels| ==> toplevels[i].Is(if i == k then was[k] else Dimmed(was[i], was[k]))
    {
      for n := 0 to |toplevels|
        invariant forall i :: 0 <= i < |toplevels| ==>
                    toplevels[i].Is(if i < n && i != k then Dimmed(was[i], was[k]) else was[i])
      {
        var other := toplevels[n];
        if other != ct {
          if ct.renderingOnly && !other.renderingOnly {
            continue;
          }
          other.activated := false;
        }
      }
    }

    /** focus_toplevel. */
    method FocusToplevel(ct: Toplevel, ghost k: nat, ghost s: State)
      requires k < |toplevels| == |s.list| && toplevels[k] == ct
      requires DistinctIds(s.list) && MruOrder(s) && (s.list[k].renderingOnly ==> ActiveHasKeyboard(s))
      requires forall i :: 0 <= i < |toplevels| ==> toplevels[i].Is(s.list[i])
      requires keyboard == s.keyboard && textFocus == s.textFocus
      modifies this, toplevels
      ensures Valid() && st == Focus(s, k)
      ensures toplevels == [ct] + old(toplevels)[..k] + old(toplevels)[k + 1..]
    {
      Activate(ct, k, s.list);
      if !ct.renderingOnly {
        keyboard, textFocus := Some(ct.id), Some(ct.id);
      }
      MoveToHead(ct, k, s.list);
      FocusKeepsInv(s, k);
      st := Focus(s, k);
    }

    /** The others are deactivated, and the one focused is activated. */
    method Activate(ct: Toplevel, ghost k: nat, ghost was: seq<Top>)
      requires k < |toplevels| == |was| && toplevels[k] == ct && DistinctIds(was)
      requires forall i :: 0 <= i < |toplevels| ==> toplevels[i].Is(was[i])
      modifies toplevels
      ensures ct.Is(was[k].(activated := true))
      ensures forall i :: 0 <= i < |toplevels| && i != k ==> toplevels[i] != ct && toplevels[i].Is(Dimmed(was[i], was[k]))
    {
      assert forall i :: 0 <= i < |toplevels| ==> toplevels[i].id == was[i].id;
      DeactivateOthers(ct, k, was);
      ct.activated := true;
    }

    /** wl_list_remove and wl_list_insert at the head. */
    method MoveToHead(ct: Toplevel, ghost k: nat, ghost was: seq<Top>)
      requires k < |toplevels| == |was| && toplevels[k] == ct && ct.Is(was[k].(activated := true))
      requires forall i :: 0 <= i < |toplevels| && i != k ==> toplevels[i] != ct && toplevels[i].Is(Dimmed(was[i], was[k]))
      modifies this`toplevels
      ensures toplevels == [ct] + old(toplevels)[..k] + old(toplevels)[k + 1..]
      ensures |toplevels| == |FocusedList(was, k)|
      ensures forall i :: 0 <= i < |toplevels| ==> toplevels[i].Is(FocusedList(was, k)[i])
    {
      var i := 0;
      while toplevels[i] != ct
        invariant i <= k
        decreases k - i
      {
        i := i + 1;
      }
      toplevels := [ct] + toplevels[..i] + toplevels[i + 1..];
      FocusedAt(was, k);
      assert forall j: nat :: j < |toplevels| ==> toplevels[j] == old(toplevels)[Origin(k, j)];
    }

    /** on_new_xdg_toplevel. */
    method OnNewToplevel(id: nat) returns (ct: Toplevel)
      requires Valid() && Enabled(st, New(id))
      modifies this
      ensures Valid() && fresh(ct) && st == Step(old(st), New(id))
      ensures toplevels == [ct] + old(toplevels)
    {
      StepKeepsInv(st, New(id));
      ct := new Toplevel(id);
      toplevels := [ct] + toplevels;
      st := Step(st, New(id));
    }

    /** on_toplevel_map. */
    method OnMap(ct: Toplevel, appId: string, ghost k: nat)
      requires Valid() && k < |toplevels| && toplevels[k] == ct
      modifies this, toplevels
      ensures Valid() && st == Step(old(st), Map(k, appId))
      ensures toplevels == [ct] + old(toplevels)[..k] + old(toplevels)[k + 1..]
    {
      MarkKeepsOrder(st, k, appId);
      assert forall i :: 0 <= i < |toplevels| && i != k ==> toplevels[i].id != ct.id;
      if appId == RENDERING_APP_ID {
        ct.renderingOnly := true;
      }
      FocusToplevel(ct, k, Marked(st, k, appId));
    }

    /** What on_toplevel_unmap tells the text-input handler. */
    method LeaveText(ct: Toplevel, ghost k: nat)
      requires Valid() && k < |toplevels| && toplevels[k] == ct
      modifies this`textFocus
      ensures textFocus == Unmapped(st, k).textFocus
    {
      assert ct.Is(st.list[k]);
      if keyboard == Some(ct.id) {
        textFocus := TextLeft(textFocus, ct.id);
      }
    }

    /** on_toplevel_unmap: focus moves on only if the toplevel heads the list. */
    method OnUnmap(ct: Toplevel, ghost k: nat)
      requires Valid() && k < |toplevels| && toplevels[k] == ct
      modifies this, toplevels
      ensures Valid() && st == Step(old(st), Unmap(k))
    {
      assert k > 0 ==> toplevels[0].id != ct.id;
      StepKeepsInv(st, Unmap(k));
      LeaveText(ct, k);
      if toplevels[0] == ct && |toplevels| > 1 {
        FocusToplevel(toplevels[1], 1, Unmapped(st, k));
      } else {
        st := Unmapped(st, k);
      }
    }

    /** on_toplevel_destroy. */
    method OnDestroy(ct: Toplevel, ghost k: nat)
      requires Valid() && k < |toplevels| && toplevels[k] == ct
      modifies this
      ensures Valid() && st == Step(old(st), Destroy(k))
      ensures toplevels == old(toplevels)[..k] + old(toplevels)[k + 1..]
    {
      StepKeepsInv(st, Destroy(k));
      assert forall i :: 0 <= i < |toplevels| && i != k ==> toplevels[i].id != ct.id;
      assert ct.Is(st.list[k]);
      textFocus := TextLeft(textFocus, ct.id);
      var i := 0;
      while toplevels[i] != ct
        invariant i <= k
        decreases k - i
      {
        i := i + 1;
      }
      assert i == k;
      toplevels := toplevels[..i] + toplevels[i + 1..];
      st := Step(st, Destroy(k));
    }
  }
}

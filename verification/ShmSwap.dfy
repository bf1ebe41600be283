/**
 The software swap path of shims/native/egl-override/egl_override.c: frames are read back,
 flipped into one half of a shared region that holds two buffers, and committed; the half
 is busy until the compositor releases its buffer. One window is modelled.
 */
module ShmSwap {
  import opened Common

  // ---------------------------------------------------------------------
  // The vertical flip
  // ---------------------------------------------------------------------

  /** The bytes of n rows: n * stride. */
  function Rows(n: nat, stride: nat): nat {
    if n == 0 then 0 else Rows(n - 1, stride) + stride
  }

  lemma {:induction false} RowsIsProduct(n: nat, stride: nat)
    ensures Rows(n, stride) == n * stride
  {
    if n > 0 {
      RowsIsProduct(n - 1, stride);
    }
  }

  /** The rows in reverse order. */
  function Flip(src: seq<byte>, stride: nat): (dst: seq<byte>)
    decreases |src|
  {
    if stride == 0 || |src| < stride then []
    else src[|src| - stride..] + Flip(src[..|src| - stride], stride)
  }

  lemma {:induction false} FlipSize(src: seq<byte>, stride: nat, h: nat)
    requires |src| == Rows(h, stride)
    ensures |Flip(src, stride)| == |src|
    decreases h
  {
    if h > 0 && stride > 0 {
      FlipSize(src[..|src| - stride], stride, h - 1);
    } else {
      RowsIsProduct(h, stride);
    }
  }

  /** A row put in front of an image comes last in the flipped one. */
  lemma {:induction false} FlipPrepend(row: seq<byte>, src: seq<byte>, stride: nat, h: nat)
    requires |row| == stride > 0 && |src| == Rows(h, stride)
    ensures Flip(row + src, stride) == Flip(src, stride) + row
    decreases h
  {
    var all := row + src;
    if h == 0 {
      assert all == row && src == [];
      assert all[..0] == [];
    } else {
      var front, last := src[..|src| - stride], src[|src| - stride..];
      assert all[|all| - stride..] == last;
      assert all[..|all| - stride] == row + front;
      FlipPrepend(row, front, stride, h - 1);
      assert last + (Flip(front, stride) + row) == (last + Flip(front, stride)) + row;
    }
  }

  /** Flipping twice gives the image back. */
  lemma {:induction false} FlipTwice(src: seq<byte>, stride: nat, h: nat)
    requires |src| == Rows(h, stride)
    ensures Flip(Flip(src, stride), stride) == src
    decreases h
  {
    if h > 0 && stride > 0 {
      var front, last := src[..|src| - stride], src[|src| - stride..];
      FlipTwice(front, stride, h - 1);
      FlipSize(front, stride, h - 1);
      FlipPrepend(last, Flip(front, stride), stride, h - 1);
      assert front + last == src;
    } else {
      RowsIsProduct(h, stride);
    }
  }

  /** Row r of the flipped image is row h - 1 - r of the original. */
  lemma {:induction false} FlipRow(src: seq<byte>, stride: nat, h: nat, r: nat, c: nat)
    requires |src| == Rows(h, stride) && r < h && c < stride
    ensures Rows(r, stride) + c < |Flip(src, stride)| && Rows(h - 1 - r, stride) + c < |src|
    ensures Flip(src, stride)[Rows(r, stride) + c] == src[Rows(h - 1 - r, stride) + c]
    decreases h
  {
    FlipSize(src, stride, h);
    var front := src[..|src| - stride];
    if r > 0 {
      FlipRow(front, stride, h - 1, r - 1, c);
      assert h - 1 - 1 - (r - 1) == h - 1 - r;
    }
  }

  /** memcpy between two arrays. */
  method Memcpy(dst: array<byte>, d: nat, src: array<byte>, s: nat, n: nat)
    requires dst != src && d + n <= dst.Length && s + n <= src.Length
    modifies dst
    ensures dst[..] == old(dst[..])[..d] + src[..][s..s + n] + old(dst[..])[d + n..]
  {
    for i := 0 to n
      invariant forall j :: 0 <= j < dst.Length ==> dst[j] == if d <= j < d + i then src[s + j - d] else old(dst[j])
    {
      dst[d + i] := src[s + i];
    }
  }

  /** One turn of the copy loop, on values: copying the row in front of the tail that has
      been flipped already. */
  lemma CopyRow(src: seq<byte>, end: nat, to: nat, stride: nat, done: nat, dst: seq<byte>, before: seq<byte>, base: nat)
    requires 0 < stride <= end && to == Rows(done, stride) && end + to == |src| && base + |src| <= |before|
    requires |Flip(src[end..], stride)| == to
    requires dst == before[..base] + Flip(src[end..], stride) + before[base + to..]
    ensures |Flip(src[end - stride..], stride)| == to + stride
    ensures dst[..base + to] + src[end - stride..end] + dst[base + to + stride..]
         == before[..base] + Flip(src[end - stride..], stride) + before[base + to + stride..]
  {
    var row, tail := src[end - stride..end], src[end..];
    FlipPrepend(row, tail, stride, done);
    assert src[end - stride..] == row + tail;
    assert dst[..base + to] == before[..base] + Flip(tail, stride);
    assert dst[base + to + stride..] == before[base + to + stride..];
  }

  /** The copy loop of eglSwapBuffers: one half of the region becomes the flipped image,
      everything else stays. */
  method FlipInto(dst: array<byte>, base: nat, src: array<byte>, stride: nat, h: nat)
    requires dst != src && src.Length == Rows(h, stride) && base + src.Length <= dst.Length && stride > 0
    modifies dst
    ensures dst[..] == old(dst[..base]) + Flip(src[..], stride) + old(dst[base + src.Length..])
  {
    ghost var before, image := dst[..], src[..];
    var from, to: nat := src.Length, 0;
    for row := 0 to h
      invariant from == Rows(h - row, stride) && to == Rows(row, stride) && from + to == src.Length
      invariant src[..] == image && |Flip(image[from..], stride)| == to
      invariant dst[..] == before[..base] + Flip(image[from..], stride) + before[base + to..]
    {
      CopyOne(dst, base, src, from, to, stride, row, before, image);
      from, to := from - stride, to + stride;
    }
    assert image[0..] == image;
  }

  /** One turn of that loop: the row before end is copied. */
  method CopyOne(dst: array<byte>, base: nat, src: array<byte>, end: nat, to: nat, stride: nat,
                 ghost done: nat, ghost before: seq<byte>, ghost image: seq<byte>)
    requires dst != src && 0 < stride <= end && to == Rows(done, stride) && end + to == src.Length && src[..] == image
    requires base + src.Length <= dst.Length == |before| && |Flip(image[end..], stride)| == to
    requires dst[..] == before[..base] + Flip(image[end..], stride) + before[base + to..]
    modifies dst
    ensures |Flip(image[end - stride..], stride)| == to + stride
    ensures dst[..] == before[..base] + Flip(image[end - stride..], stride) + before[base + to + stride..]
  {
    ghost var d := dst[..];
    Memcpy(dst, base + to, src, end - stride, stride);
    assert end - stride + stride == end;
    CopyRow(image, end, to, stride, done, d, before, base);
    assert dst[..] == d[..base + to] + image[end - stride..end] + d[base + to + stride..];
  }

  // ---------------------------------------------------------------------
  // The window
  // ---------------------------------------------------------------------

  /** A wl_buffer: one half of the region created by the gen-th (re)size. */
  datatype Buffer = Buffer(gen: nat, half: nat)

  /** A commit that the compositor has not released yet. */
  datatype Frame = Frame(buffer: Buffer, pixels: seq<byte>)

  /** What wl_dispatch may deliver. */
  datatype Event = Released(buffer: Buffer) | Configure(width: int, height: int)

  /** The fields of struct shm_window, the memory behind every buffer there has been, and
      the frames in flight. mapped is false after a resize that failed. */
  datatype State = State(
    gen: nat, mapped: bool, width: nat, height: nat,
    pendingWidth: nat, pendingHeight: nat, needsResize: bool,
    current: nat, busy: seq<bool>,
    memory: map<Buffer, seq<byte>>, inFlight: seq<Frame>)

  function FrameSize(width: nat, height: nat): nat {
    Rows(height, 4 * width)
  }

  function Zeros(n: nat): (z: seq<byte>)
    ensures |z| == n
  {
    seq(n, _ => 0)
  }

  function WithoutBuffer(fs: seq<Frame>, b: Buffer): (r: seq<Frame>)
    ensures forall f :: f in r <==> f in fs && f.buffer != b
  {
    if fs == [] then []
    else (if fs[0].buffer == b then [] else [fs[0]]) + WithoutBuffer(fs[1..], b)
  }

  /** buffer_handle_release and xdg_toplevel_handle_configure. */
  function OnEvent(s: State, ev: Event): State
    requires |s.busy| == 2
  {
    match ev
    case Released(b) =>
      s.(inFlight := WithoutBuffer(s.inFlight, b),
         busy := if s.mapped && b.gen == s.gen && b.half < 2 then s.busy[b.half := false] else s.busy)
    case Configure(w, h) =>
      if w > 0 && h > 0 && (w != s.width || h != s.height)
      then s.(pendingWidth := w, pendingHeight := h, needsResize := true) else s
  }

  function OnEvents(s: State, evs: seq<Event>): (s': State)
    requires |s.busy| == 2
    ensures |s'.busy| == 2
    decreases |evs|
  {
    if evs == [] then s else OnEvents(OnEvent(s, evs[0]), evs[1..])
  }

  /** handle_shm_resize: the old buffers go, whether or not new ones can be made. */
  function Resized(s: State, ok: bool): (s': State)
    requires |s.busy| == 2
    ensures |s'.busy| == 2
  {
    var n := s.gen + 1;
    var blank := Zeros(FrameSize(s.pendingWidth, s.pendingHeight));
    if !ok then s.(gen := n, mapped := false)
    else s.(gen := n, mapped := true, width := s.pendingWidth, height := s.pendingHeight, needsResize := false,
            current := 0, busy := [false, false],
            memory := s.memory[Buffer(n, 0) := blank][Buffer(n, 1) := blank])
  }

  /** The choice of a half: the current one, the other one if that is busy, and if both are,
      the current one again after events have been dispatched. */
  function Picked(s: State, evs: seq<Event>): (r: (State, nat))
    requires |s.busy| == 2 && s.current < 2
    ensures |r.0.busy| == 2 && r.1 < 2
  {
    if !s.busy[s.current] then (s, s.current)
    else if !s.busy[1 - s.current] then (s, 1 - s.current)
    else
      var s' := OnEvents(s, evs);
      (s'.(busy := s'.busy[s.current := false]), s.current)
  }

  /** Writing, attaching and committing the frame. */
  function Submitted(s: State, half: nat, pixels: seq<byte>): State
    requires |s.busy| == 2 && half < 2
  {
    var b, image := Buffer(s.gen, half), Flip(pixels, 4 * s.width);
    s.(memory := s.memory[b := image], inFlight := s.inFlight + [Frame(b, image)],
       busy := s.busy[half := true], current := 1 - half)
  }

  datatype Action = Deliver(event: Event) | Swap(pixels: seq<byte>, resizeOk: bool, dispatched: seq<Event>)

  predicate Shape(s: State) {
    && |s.busy| == 2 && s.current < 2 && s.width > 0 && s.height > 0
    && (s.needsResize ==> s.pendingWidth > 0 && s.pendingHeight > 0)
    && (s.mapped || s.needsResize)
  }

  /** A swap reads back an image of the size the window has by then. */
  predicate Enabled(s: State, a: Action) {
    && Shape(s)
    && (a.Swap? ==> |a.pixels| == if s.needsResize then FrameSize(s.pendingWidth, s.pendingHeight)
                                                   else FrameSize(s.width, s.height))
  }

  /** Where a swap stands when it writes, unless its resize fails. */
  function Writing(s: State, a: Action): (r: (State, nat))
    requires Enabled(s, a) && a.Swap? && (s.needsResize ==> a.resizeOk)
    ensures |r.0.busy| == 2 && r.1 < 2
  {
    Picked(if s.needsResize then Resized(s, true) else s, a.dispatched)
  }

  function Step(s: State, a: Action): State
    requires Enabled(s, a)
  {
    match a
    case Deliver(ev) => OnEvent(s, ev)
    case Swap(pixels, ok, _) =>
      if s.needsResize && !ok then Resized(s, false)
      else var (s', half) := Writing(s, a); Submitted(s', half, pixels)
  }

  // ---------------------------------------------------------------------
  // Frames in flight stay as they were committed
  // ---------------------------------------------------------------------

  /** Every frame in flight is still in memory, and its half is marked busy. */
  predicate Intact(s: State)
    requires |s.busy| == 2
  {
    forall f :: f in s.inFlight ==>
      && f.buffer in s.memory && s.memory[f.buffer] == f.pixels
      && f.buffer.half < 2 && f.buffer.gen <= s.gen
      && (f.buffer.gen == s.gen ==> s.mapped && s.busy[f.buffer.half])
  }

  /** A half is marked busy only for a frame in flight. */
  predicate BusyForFrame(s: State)
    requires |s.busy| == 2
  {
    s.mapped ==> forall half :: 0 <= half < 2 && s.busy[half] ==> exists f :: f in s.inFlight && f.buffer == Buffer(s.gen, half)
  }

  ghost predicate Inv(s: State) {
    && Shape(s) && Intact(s) && BusyForFrame(s)
    && (s.needsResize ==> s.pendingWidth != s.width || s.pendingHeight != s.height)
    && (s.mapped ==> forall half: nat :: half < 2 ==>
          Buffer(s.gen, half) in s.memory && |s.memory[Buffer(s.gen, half)]| == FrameSize(s.width, s.height))
  }

  /** The swap overwrites a frame the compositor may still be reading. */
  ghost predicate Clobbers(s: State, a: Action)
    requires Enabled(s, a) && a.Swap?
  {
    && (s.needsResize ==> a.resizeOk)
    && var (s', half) := Writing(s, a);
       exists f :: f in s'.inFlight && f.buffer == Buffer(s'.gen, half)
  }

  lemma EventKeepsInv(s: State, ev: Event)
    requires Inv(s)
    ensures Inv(OnEvent(s, ev))
  {
    if ev.Released? && s.mapped {
      var s' := OnEvent(s, ev);
      forall half | 0 <= half < 2 && s'.busy[half] ensures exists f :: f in s'.inFlight && f.buffer == Buffer(s.gen, half) {
        var f :| f in s.inFlight && f.buffer == Buffer(s.gen, half);
        assert f in s'.inFlight;
      }
    }
  }

  lemma {:induction false} EventsKeepInv(s: State, evs: seq<Event>)
    requires Inv(s)
    ensures Inv(OnEvents(s, evs))
    ensures var s' := OnEvents(s, evs);
            s'.gen == s.gen && s'.mapped == s.mapped && s'.current == s.current
            && s'.width == s.width && s'.height == s.height && s'.memory == s.memory
    ensures forall f :: f in OnEvents(s, evs).inFlight <==> f in s.inFlight && Released(f.buffer) !in evs
    decreases |evs|
  {
    if evs != [] {
      EventKeepsInv(s, evs[0]);
      EventsKeepInv(OnEvent(s, evs[0]), evs[1..]);
    }
  }

  lemma ResizeKeepsInv(s: State, ok: bool)
    requires Inv(s) && s.needsResize
    ensures Inv(Resized(s, ok))
  {}

  /** A swap overwrites a frame in flight exactly when both halves are busy at its start
      and the events it then dispatches do not release the current one. */
  lemma ClobbersIff(s: State, a: Action)
    requires Inv(s) && Enabled(s, a) && a.Swap?
    ensures Clobbers(s, a) <==>
            !s.needsResize && s.busy[0] && s.busy[1] && Released(Buffer(s.gen, s.current)) !in a.dispatched
  {
    if s.needsResize {
      if a.resizeOk {
        ResizeKeepsInv(s, true);
      }
    } else if s.busy[s.current] && s.busy[1 - s.current] {
      EventsKeepInv(s, a.dispatched);
      var f :| f in s.inFlight && f.buffer == Buffer(s.gen, s.current);
    }
  }

  /** In particular, releasing only the other half does not help: the free half is ignored
      and the frame in the current one is overwritten. */
  lemma OtherReleaseIgnored(s: State, pixels: seq<byte>, ok: bool)
    requires Inv(s) && !s.needsResize && s.busy[0] && s.busy[1] && |pixels| == FrameSize(s.width, s.height)
    ensures var other := Buffer(s.gen, 1 - s.current);
            && !OnEvents(s, [Released(other)]).busy[1 - s.current]
            && Clobbers(s, Swap(pixels, ok, [Released(other)]))
  {
    var other := Buffer(s.gen, 1 - s.current);
    ClobbersIff(s, Swap(pixels, ok, [Released(other)]));
    assert OnEvents(s, [Released(other)]) == OnEvents(OnEvent(s, Released(other)), []);
  }

  lemma PickedKeepsInv(s: State, a: Action)
    requires Inv(s) && Enabled(s, a) && a.Swap? && (s.needsResize ==> a.resizeOk) && !Clobbers(s, a)
    ensures var (s', half) := Writing(s, a);
            Inv(s') && s'.mapped && !s'.busy[half] && |a.pixels| == FrameSize(s'.width, s'.height)
            && s'.memory == (if s.needsResize then Resized(s, true) else s).memory
  {
    var t := if s.needsResize then Resized(s, true) else s;
    if s.needsResize {
      ResizeKeepsInv(s, true);
    }
    if t.busy[t.current] && t.busy[1 - t.current] {
      EventsKeepInv(t, a.dispatched);
    }
  }

  /** Otherwise it writes the exact vertical flip of the image into one half that no frame
      in flight uses, and changes no other buffer. */
  lemma SwapWritesFlip(s: State, a: Action)
    requires Inv(s) && Enabled(s, a) && a.Swap? && (s.needsResize ==> a.resizeOk) && !Clobbers(s, a)
    ensures var (s', half) := Writing(s, a); var b := Buffer(s'.gen, half);
            && Step(s, a).memory == s'.memory[b := Flip(a.pixels, 4 * s'.width)]
            && b in s'.memory && |Flip(a.pixels, 4 * s'.width)| == |s'.memory[b]|
            && (forall f :: f in s'.inFlight ==> f.buffer != b)
            && Step(s, a).inFlight == s'.inFlight + [Frame(b, Flip(a.pixels, 4 * s'.width))]
    ensures Inv(Step(s, a))
  {
    PickedKeepsInv(s, a);
    var (s', half) := Writing(s, a);
    FlipSize(a.pixels, 4 * s'.width, s'.height);
    SubmitKeepsInv(s', half, a.pixels);
  }

  lemma SubmitKeepsInv(s: State, half: nat, pixels: seq<byte>)
    requires Inv(s) && s.mapped && half < 2 && !s.busy[half]
    requires |Flip(pixels, 4 * s.width)| == FrameSize(s.width, s.height)
    ensures Inv(Submitted(s, half, pixels))
  {
    var s', b := Submitted(s, half, pixels), Buffer(s.gen, half);
    var frame := Frame(b, Flip(pixels, 4 * s.width));
    assert s'.inFlight[|s.inFlight|] == frame;
    forall h | 0 <= h < 2 && s'.busy[h] ensures exists f :: f in s'.inFlight && f.buffer == Buffer(s.gen, h) {
      if h == half {
        assert frame in s'.inFlight;
      } else {
        var f :| f in s.inFlight && f.buffer == Buffer(s.gen, h);
        assert f in s'.inFlight;
      }
    }
  }

  /** The halves take turns: a swap writes into the half that the one before it did not
      use, if that is free by then, and after a resize into the first one. */
  lemma SwapsTakeTurns(s: State, a: Action, evs: seq<Event>, b: Action)
    requires Inv(s) && Enabled(s, a) && a.Swap? && (s.needsResize ==> a.resizeOk) && !Clobbers(s, a)
    ensures s.needsResize ==> Writing(s, a).1 == 0
    ensures var s1 := OnEvents(Step(s, a), evs);
            Enabled(s1, b) && b.Swap? && !s1.needsResize && !s1.busy[1 - Writing(s, a).1] ==>
              Writing(s1, b).1 == 1 - Writing(s, a).1
  {
    SwapWritesFlip(s, a);
    EventsKeepInv(Step(s, a), evs);
  }

  // ---------------------------------------------------------------------
  // The size a resize takes
  // ---------------------------------------------------------------------

  /** The size the window will have after the next swap, if its resize does not fail. */
  function Target(s: State): (nat, nat) {
    if s.needsResize then (s.pendingWidth, s.pendingHeight) else (s.width, s.height)
  }

  /** A configured size is the one the window takes exactly if it is not the current size
      coming while another is pending. */
  lemma ConfigureTakenIff(s: State, w: nat, h: nat)
    requires Inv(s) && w > 0 && h > 0
    ensures Target(OnEvent(s, Configure(w, h))) == (w, h) <==> !(s.needsResize && w == s.width && h == s.height)
  {
  }

  /** The last configured size that differs from the current one. */
  function LastOther(evs: seq<Event>, width: nat, height: nat, before: (nat, nat)): (nat, nat) {
    if evs == [] then before
    else
      match evs[|evs| - 1]
      case Configure(w, h) =>
        if w > 0 && h > 0 && (w != width || h != height) then (w, h)
        else LastOther(evs[..|evs| - 1], width, height, before)
      case Released(_) => LastOther(evs[..|evs| - 1], width, height, before)
  }

  lemma {:induction false} EventsAppend(s: State, evs: seq<Event>, ev: Event)
    requires |s.busy| == 2
    ensures OnEvents(s, evs + [ev]) == OnEvent(OnEvents(s, evs), ev)
    decreases |evs|
  {
    if evs == [] {
      assert [ev][1..] == [];
    } else {
      EventsAppend(OnEvent(s, evs[0]), evs[1..], ev);
      assert (evs + [ev])[1..] == evs[1..] + [ev];
    }
  }

  /** Whatever has been configured since the last swap, the window takes the last size that
      was not the current one, even if the current one was configured after it. */
  lemma {:induction false} TargetIsLastOther(s: State, evs: seq<Event>)
    requires |s.busy| == 2
    ensures var s' := OnEvents(s, evs);
            && s'.width == s.width && s'.height == s.height
            && Target(s') == LastOther(evs, s.width, s.height, Target(s))
    decreases |evs|
  {
    if evs != [] {
      var front, last := evs[..|evs| - 1], evs[|evs| - 1];
      TargetIsLastOther(s, front);
      EventsAppend(s, front, last);
      assert evs == front + [last];
    }
  }

  /** So a window that is asked for another size and then for the one it has is resized all
      the same. */
  lemma BackToCurrentIsIgnored(s: State, w: nat, h: nat)
    requires Inv(s) && w > 0 && h > 0 && (w != s.width || h != s.height)
    ensures var s' := OnEvents(s, [Configure(w, h), Configure(s.width, s.height)]);
            Target(s') == (w, h) && s'.needsResize && Resized(s', true).width == w && Resized(s', true).height == h
  {
    var there, back := Configure(w, h), Configure(s.width, s.height);
    assert [there, back][1..] == [back] && [back][1..] == [];
    var s1 := OnEvent(s, there);
    assert OnEvents(s1, [back]) == OnEvents(OnEvent(s1, back), []) == s1;
    assert OnEvents(s, [there, back]) == OnEvents(s1, [back]);
  }

  // ---------------------------------------------------------------------
  // Every run
  // ---------------------------------------------------------------------

  predicate Schedule(s: State, actions: seq<Action>)
    decreases |actions|
  {
    actions == [] || (Enabled(s, actions[0]) && Schedule(Step(s, actions[0]), actions[1..]))
  }

  function Run(s: State, actions: seq<Action>): State
    requires Schedule(s, actions)
    decreases |actions|
  {
    if actions == [] then s else Run(Step(s, actions[0]), actions[1..])
  }

  /** The swap finds a free buffer: one of the two halves, new ones, or, if both halves are
      busy, the current one once events have been dispatched. */
  predicate FindsFree(s: State, a: Action)
    requires Enabled(s, a)
  {
    a.Swap? && !s.needsResize && s.busy[0] && s.busy[1] ==> Released(Buffer(s.gen, s.current)) in a.dispatched
  }

  /** A buffer is free at each swap. */
  predicate FreeSchedule(s: State, actions: seq<Action>)
    requires Schedule(s, actions)
    decreases |actions|
  {
    actions == [] || (FindsFree(s, actions[0]) && FreeSchedule(Step(s, actions[0]), actions[1..]))
  }

  ghost predicate NeverClobbers(s: State, actions: seq<Action>)
    requires Schedule(s, actions)
    decreases |actions|
  {
    actions == [] ||
    (!(actions[0].Swap? && Clobbers(s, actions[0])) && NeverClobbers(Step(s, actions[0]), actions[1..]))
  }

  lemma StepKeepsInv(s: State, a: Action)
    requires Inv(s) && Enabled(s, a) && FindsFree(s, a)
    ensures Inv(Step(s, a))
  {
    if a.Deliver? {
      EventKeepsInv(s, a.event);
    } else if s.needsResize && !a.resizeOk {
      ResizeKeepsInv(s, false);
    } else {
      ClobbersIff(s, a);
      SwapWritesFlip(s, a);
    }
  }

  /** Over every run, resizes and failed resizes included, no swap overwrites a frame that
      the compositor may still be reading, if and only if a buffer is free at each swap. */
  lemma {:induction false} NeverClobbersIff(s: State, actions: seq<Action>)
    requires Inv(s) && Schedule(s, actions)
    ensures NeverClobbers(s, actions) <==> FreeSchedule(s, actions)
    decreases |actions|
  {
    if actions != [] {
      var a := actions[0];
      if a.Swap? {
        ClobbersIff(s, a);
      }
      if FindsFree(s, a) {
        StepKeepsInv(s, a);
        NeverClobbersIff(Step(s, a), actions[1..]);
      }
    }
  }

  /** Over any such run every frame in flight is as it was committed. */
  lemma {:induction false} FramesStayIntact(s: State, actions: seq<Action>)
    requires Inv(s) && Schedule(s, actions) && FreeSchedule(s, actions)
    ensures Inv(Run(s, actions))
    decreases |actions|
  {
    if actions != [] {
      StepKeepsInv(s, actions[0]);
      FramesStayIntact(Step(s, actions[0]), actions[1..]);
    }
  }

  /** The compositor gives the buffer back at this step. */
  predicate Releases(a: Action, b: Buffer) {
    match a
    case Deliver(ev) => ev == Released(b)
    case Swap(_, _, evs) => Released(b) in evs
  }

  /** A frame leaves only by the release of its buffer. */
  lemma StepKeepsFrame(s: State, a: Action, f: Frame)
    requires Inv(s) && Enabled(s, a) && FindsFree(s, a) && f in s.inFlight && !Releases(a, f.buffer)
    ensures f in Step(s, a).inFlight
  {
    if a.Swap? && (s.needsResize ==> a.resizeOk) {
      ClobbersIff(s, a);
      SwapWritesFlip(s, a);
      var t := if s.needsResize then Resized(s, true) else s;
      if s.needsResize {
        ResizeKeepsInv(s, true);
      }
      EventsKeepInv(t, a.dispatched);
      var (s', half) := Writing(s, a);
      assert f in s'.inFlight;
    }
  }

  /** From its commit on, until its buffer is released, a frame stays in flight and in memory
      with exactly its pixels, through any swaps and resizes in between. */
  lemma {:induction false} FrameStaysUntilReleased(s: State, actions: seq<Action>, f: Frame)
    requires Inv(s) && Schedule(s, actions) && FreeSchedule(s, actions) && f in s.inFlight
    requires forall i :: 0 <= i < |actions| ==> !Releases(actions[i], f.buffer)
    ensures var s' := Run(s, actions);
            f in s'.inFlight && f.buffer in s'.memory && s'.memory[f.buffer] == f.pixels
    decreases |actions|
  {
    if actions != [] {
      StepKeepsInv(s, actions[0]);
      StepKeepsFrame(s, actions[0], f);
      FrameStaysUntilReleased(Step(s, actions[0]), actions[1..], f);
    }
  }

  // ---------------------------------------------------------------------
  // A run in which a frame is overwritten
  // ---------------------------------------------------------------------

  /** A new window of one pixel. */
  const ONE_PIXEL: State :=
    State(0, true, 1, 1, 0, 0, false, 0, [false, false], map[Buffer(0, 0) := Zeros(4), Buffer(0, 1) := Zeros(4)], [])

  function Painted(pixel: seq<byte>): Action {
    Swap(pixel, true, [])
  }

  /** Two swaps make both halves busy, and a third one overwrites the first frame, if nothing
      is released meanwhile. */
  lemma ThirdSwapClobbers(p: seq<byte>, q: seq<byte>, r: seq<byte>)
    requires |p| == |q| == |r| == 4
    ensures Inv(ONE_PIXEL) && Enabled(ONE_PIXEL, Painted(p))
    ensures var s1 := Step(ONE_PIXEL, Painted(p));
            Enabled(s1, Painted(q)) && var s2 := Step(s1, Painted(q));
            && Inv(s2) && s2.busy == [true, true] && Enabled(s2, Painted(r)) && Clobbers(s2, Painted(r))
  {
    assert FrameSize(1, 1) == 4;
    var s1 := Step(ONE_PIXEL, Painted(p));
    StepKeepsInv(ONE_PIXEL, Painted(p));
    StepKeepsInv(s1, Painted(q));
    ClobbersIff(Step(s1, Painted(q)), Painted(r));
  }

  // ---------------------------------------------------------------------
  // The code
  // ---------------------------------------------------------------------

  class ShmWindow {
    var shm: array<byte>
    var readback: array<byte>
    var mapped: bool
    var width: nat
    var height: nat
    var pendingWidth: nat
    var pendingHeight: nat
    var needsResize: bool
    var current: nat
    var busy: seq<bool>
    /** Which pair of buffers this is; the wl_buffer pointers are compared through it. */
    var gen: nat
    ghost var st: State

    /** The fields are those of the state; the two halves of the region hold its memory. */
    ghost predicate Valid()
      reads this, shm
    {
      && Fields() && Shape(st)
      && (mapped ==> Halves(shm[..], FrameSize(width, height), st))
      && shm != readback && (mapped ==> readback.Length == FrameSize(width, height))
    }

    ghost predicate Fields()
      reads this
    {
      && st.mapped == mapped && st.width == width && st.height == height
      && st.pendingWidth == pendingWidth && st.pendingHeight == pendingHeight && st.needsResize == needsResize
      && st.current == current && st.busy == busy && st.gen == gen
    }

    /** create_shm_window. */
    constructor (w: nat, h: nat)
      requires w > 0 && h > 0
      ensures Valid() && Inv(st) && st.inFlight == [] && fresh(shm) && fresh(readback)
    {
      var n := FrameSize(w, h);
      shm := new byte[2 * n](_ => 0);
      readback := new byte[n](_ => 0);
      mapped, width, height, needsResize, current, gen := true, w, h, false, 0, 0;
      pendingWidth, pendingHeight, busy := 0, 0, [false, false];
      st := State(0, true, w, h, 0, 0, false, 0, [false, false],
                  map[Buffer(0, 0) := Zeros(n), Buffer(0, 1) := Zeros(n)], []);
    }

    /** buffer_handle_release. */
    method OnRelease(b: Buffer)
      requires Valid()
      modifies this`busy, this`st
      ensures Valid() && st == OnEvent(old(st), Released(b))
    {
      st := OnEvent(st, Released(b));
      for i := 0 to 2
        invariant st == OnEvent(old(st), Released(b)) && |busy| == 2
        invariant forall k :: 0 <= k < 2 ==> busy[k] == (old(busy)[k] && !(k < i && mapped && b == Buffer(gen, k)))
      {
        if mapped && b == Buffer(gen, i) {
          busy := busy[i := false];
        }
      }
    }

    /** xdg_toplevel_handle_configure. */
    method OnConfigure(w: int, h: int)
      requires Valid()
      modifies this`pendingWidth, this`pendingHeight, this`needsResize, this`st
      ensures Valid() && st == OnEvent(old(st), Configure(w, h))
    {
      if w > 0 && h > 0 {
        if w != width || h != height {
          pendingWidth := w;
          pendingHeight := h;
          needsResize := true;
        }
      }
      st := OnEvent(st, Configure(w, h));
    }

    /** wl_dispatch. */
    method Dispatch(evs: seq<Event>)
      requires Valid()
      modifies this
      ensures Valid() && st == OnEvents(old(st), evs)
      ensures shm == old(shm) && readback == old(readback) && Size() == old(Size())
      decreases |evs|
    {
      if evs != [] {
        match evs[0] {
          case Released(b) => OnRelease(b);
          case Configure(w, h) => OnConfigure(w, h);
        }
        Dispatch(evs[1..]);
      }
    }

    ghost function Size(): (nat, nat, bool, nat, nat)
      reads this
    {
      (width, height, mapped, current, gen)
    }

    /** create_shm_buffers, when it succeeds: the region is a new, zero-filled file. */
    method CreateShmBuffers(w: nat, h: nat)
      modifies this`shm, this`readback, this`current, this`busy
      ensures fresh(shm) && fresh(readback) && shm != readback
      ensures shm[..] == Zeros(2 * FrameSize(w, h)) && readback.Length == FrameSize(w, h)
      ensures current == 0 && busy == [false, false]
    {
      var n := FrameSize(w, h);
      shm := new byte[2 * n](_ => 0);
      readback := new byte[n](_ => 0);
      current, busy := 0, [false, false];
    }

    /** handle_shm_resize; ok says whether buffers of the new size could be made. */
    method HandleShmResize(ok: bool) returns (r: bool)
      requires Valid() && needsResize
      modifies this
      ensures Valid() && r == ok && st == Resized(old(st), ok)
      ensures fresh(shm) || shm == old(shm)
      ensures fresh(readback) || readback == old(readback)
    {
      gen := gen + 1;
      mapped := false;
      if ok {
        CreateShmBuffers(pendingWidth, pendingHeight);
        mapped := true;
        width, height, needsResize := pendingWidth, pendingHeight, false;
      }
      st := Resized(st, ok);
      if ok {
        BlankHalves(shm[..], FrameSize(width, height), st);
      }
      r := ok;
    }

    /** The choice of a half, with the events that arrive if it has to dispatch. */
    method PickBuffer(evs: seq<Event>) returns (idx: nat)
      requires Valid() && mapped
      modifies this
      ensures Valid() && mapped && (st, idx) == Picked(old(st), evs)
      ensures shm == old(shm) && readback == old(readback)
    {
      idx := current;
      if busy[idx] {
        idx := 1 - idx;
        if busy[idx] {
          Dispatch(evs);
          idx := current;
          busy := busy[idx := false];
          st := st.(busy := busy);
        }
      }
    }

    /** eglSwapBuffers for a managed window. */
    method SwapBuffers(pixels: seq<byte>, resizeOk: bool, evs: seq<Event>) returns (swapped: bool)
      requires Valid() && Enabled(st, Swap(pixels, resizeOk, evs))
      modifies this, shm, readback
      ensures Valid() && swapped == (old(st).needsResize ==> resizeOk)
      ensures st == Step(old(st), Swap(pixels, resizeOk, evs))
    {
      if needsResize {
        swapped := HandleShmResize(resizeOk);
        if !swapped {
          return;
        }
      }
      var idx := PickBuffer(evs);
      WriteFrame(idx, pixels);
      swapped := true;
    }

    method WriteFrame(idx: nat, pixels: seq<byte>)
      requires Valid() && mapped && idx < 2 && |pixels| == FrameSize(width, height)
      modifies this`busy, this`current, this`st, shm, readback
      ensures Valid() && st == Submitted(old(st), idx, pixels)
    {
      var n := FrameSize(width, height);
      forall i | 0 <= i < n {
        readback[i] := pixels[i];
      }
      assert readback[..] == pixels;
      FlipSize(pixels, 4 * width, height);
      HalvesWrite(shm[..], n, st, idx, pixels);
      FlipInto(shm, if idx == 0 then 0 else n, readback, 4 * width, height);
      busy := busy[idx := true];
      current := 1 - idx;
      st := Submitted(st, idx, pixels);
    }
  }

  ghost predicate Halves(region: seq<byte>, n: nat, s: State) {
    && |region| == 2 * n && Buffer(s.gen, 0) in s.memory && Buffer(s.gen, 1) in s.memory
    && region[..n] == s.memory[Buffer(s.gen, 0)] && region[n..] == s.memory[Buffer(s.gen, 1)]
  }

  lemma BlankHalves(region: seq<byte>, n: nat, s: State)
    requires region == Zeros(2 * n)
    requires Buffer(s.gen, 0) in s.memory && s.memory[Buffer(s.gen, 0)] == Zeros(n)
    requires Buffer(s.gen, 1) in s.memory && s.memory[Buffer(s.gen, 1)] == Zeros(n)
    ensures Halves(region, n, s)
  {
    assert region[..n] == Zeros(n) && region[n..] == Zeros(n);
  }

  /** Writing one half of the region is writing one buffer; the other half is untouched. */
  lemma HalvesWrite(region: seq<byte>, n: nat, s: State, half: nat, pixels: seq<byte>)
    requires Halves(region, n, s) && half < 2 && |s.busy| == 2 && |Flip(pixels, 4 * s.width)| == n
    ensures var base := if half == 0 then 0 else n;
            Halves(region[..base] + Flip(pixels, 4 * s.width) + region[base + n..], n, Submitted(s, half, pixels))
  {
    var base := if half == 0 then 0 else n;
    var image := Flip(pixels, 4 * s.width);
    var region' := region[..base] + image + region[base + n..];
    if half == 0 {
      assert region'[..n] == image && region'[n..] == region[n..];
    } else {
      assert region'[..n] == region[..n] && region'[n..] == image;
    }
  }
}

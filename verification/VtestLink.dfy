/**
 The connection of shims/native/drm-shim/src/drm_shim.c to the vtest server: the blocking
 socket calls, the server at the other end, and the handshake.
 */
module VtestLink {
  import opened Common
  import opened LittleEndian
  import opened VtestWire

  predicate AllSendable(cs: seq<Command>) {
    forall i :: 0 <= i < |cs| ==> Sendable(cs[i])
  }

  lemma Appended(a: seq<byte>, b: seq<byte>)
    ensures (a + b)[..|a|] == a && (a + b)[|a|..] == b && a[..|a|] == a
  {
  }

  lemma DataOfConcat(a: seq<byte>, b: seq<byte>)
    ensures DataOf(a + b) == DataOf(a) + DataOf(b)
  {
  }

  lemma WholeCommand(out: seq<byte>, served: nat, cs: seq<Command>, c: Command)
    requires served <= |out| && AllSendable(cs) && Sendable(c)
    requires out[..served] == FramedAll(cs) && out[served..] == Framed(c)
    ensures Next(out[served..]) == Some((c, [])) && out == FramedAll(cs + [c])
  {
    NextOfFramed(c, []);
    assert Framed(c) + [] == Framed(c);
    FramedAfter(cs, c);
    assert out[..served] + out[served..] == out;
  }

  /** A socket. out is what has been written to it, of which the server has worked off the
      first served bytes as the commands cmds; inbox is what it has sent that nobody has
      read; version is the protocol version it speaks; room is how many bytes more can be
      written before writing fails, None while the connection is sound. */
  class Link {
    var out: seq<byte>
    var inbox: seq<Token>
    var served: nat
    var version: Word
    var room: Option<nat>
    ghost var cmds: seq<Command>

    ghost predicate Valid()
      reads this
    {
      served <= |out| && AllSendable(cmds) && out[..served] == FramedAll(cmds)
    }

    /** In step: every command has been answered and every answer read to its end. */
    ghost predicate InStep()
      reads this
    {
      Valid() && served == |out| && inbox == [] && room == None
    }

    constructor ()
      ensures InStep() && cmds == [] && out == [] && version == 0
    {
      out, inbox, served, version, room, cmds := [], [], 0, 0, None, [];
    }

    /** In step, the bytes written parse back to exactly the commands issued. */
    lemma OutParses()
      requires InStep()
      ensures Parse(out) == Some(cmds)
    {
      assert out[..served] == out;
      ParseOfFramed(cmds);
    }

    predicate Fits(n: nat)
      reads this`room
    {
      room.None? || n <= room.value
    }

    /** write: at least one byte of a non-empty buffer, or failure. */
    method Write(data: seq<byte>) returns (n: int)
      requires data != []
      modifies this`out, this`room
      ensures n == -1 <==> old(room) == Some(0)
      ensures n == -1 ==> out == old(out) && room == old(room)
      ensures n != -1 ==> 1 <= n <= |data| && old(Fits(n)) && out == old(out) + data[..n]
      ensures n != -1 ==> room == if old(room).None? then None else Some(old(room).value - n)
    {
      if room == Some(0) {
        return -1;
      }
      n := if room.Some? && room.value < |data| then room.value else |data|;
      var part: int :| 1 <= part <= n;
      n := part;
      out := out + data[..n];
      if room.Some? {
        room := Some(room.value - n);
      }
    }

    /** vtest_block_write: all bytes are written, in order, or as many as there is room for. */
    method BlockWrite(data: seq<byte>) returns (ok: bool)
      modifies this`out, this`room
      ensures ok <==> old(Fits(|data|))
      ensures ok ==> out == old(out) + data && (old(room).None? ==> room == None)
      ensures !ok ==> out == old(out) + data[..old(room).value] && room == Some(0)
    {
      var p := 0;
      while p < |data|
        invariant p <= |data| && out == old(out) + data[..p]
        invariant room == if old(room).None? then None else Some(old(room).value - p)
        invariant old(Fits(p))
      {
        var n := Write(data[p..]);
        if n == -1 {
          return false;
        }
        assert data[..p] + data[p..][..n] == data[..p + n];
        p := p + n;
      }
      ok := true;
    }

    /** read: between one and max of the bytes that have come, none if there are none. */
    method Read(max: nat) returns (data: seq<byte>)
      requires max > 0
      modifies this`inbox
      ensures |data| <= max && |data| <= |old(inbox)|
      ensures data == BytesOf(old(inbox)[..|data|]) && inbox == old(inbox)[|data|..]
      ensures data == [] <==> old(inbox) == []
    {
      if inbox == [] {
        return [];
      }
      var n: nat :| 1 <= n <= max && n <= |inbox|;
      data, inbox := BytesOf(inbox[..n]), inbox[n..];
    }

    /** vtest_block_read: short reads are continued until count bytes have come. */
    method BlockRead(count: nat) returns (data: seq<byte>, ok: bool)
      modifies this`inbox
      ensures ok <==> |old(inbox)| >= count
      ensures ok ==> data == BytesOf(old(inbox)[..count]) && inbox == old(inbox)[count..]
      ensures !ok ==> inbox == []
    {
      data := [];
      while |data| < count
        invariant |data| <= count && |data| <= |old(inbox)|
        invariant data == BytesOf(old(inbox)[..|data|]) && inbox == old(inbox)[|data|..]
        decreases count - |data|
      {
        var more := Read(count - |data|);
        if more == [] {
          return data, false;
        }
        ReadOn(old(inbox), |data|, |more|);
        data := data + more;
      }
      ok := true;
    }

    /** vtest_recv_fd. */
    method RecvFd() returns (file: Option<File>)
      modifies this`inbox
      ensures old(inbox) != [] && old(inbox)[0].Passed? ==> file == Some(old(inbox)[0].file) && inbox == old(inbox)[1..]
      ensures old(inbox) == [] || old(inbox)[0].Data? ==> file == None
    {
      if inbox == [] {
        return None;
      }
      var t := inbox[0];
      inbox := inbox[1..];
      file := if t.Passed? then Some(t.file) else None;
    }

    /** The server serves the next command. */
    method Serve(a: Answer, ghost c: Command)
      requires Valid() && Sendable(c) && out[served..] == Framed(c)
      modifies this
      ensures Valid() && served == |out| && out == old(out) && cmds == old(cmds) + [c] && room == old(room)
      ensures inbox == old(inbox) + Answered(old(version), c, a)
      ensures version == if c.Command? && c.id == VCMD_PROTOCOL_VERSION then a.version else old(version)
    {
      var next := Take(c);
      Reply(next, a);
    }

    /** The server takes the next command off the stream. */
    method Take(ghost c: Command) returns (next: Command)
      requires Valid() && Sendable(c) && out[served..] == Framed(c)
      modifies this`served, this`cmds
      ensures Valid() && served == |out| && cmds == old(cmds) + [c] && next == c
    {
      WholeCommand(out, served, cmds, c);
      next := Next(out[served..]).value.0;
      served := |out|;
      cmds := cmds + [c];
      assert out[..served] == out;
    }

    /** It answers. */
    method Reply(c: Command, a: Answer)
      modifies this`inbox, this`version
      ensures inbox == old(inbox) + Answered(old(version), c, a)
      ensures version == if c.Command? && c.id == VCMD_PROTOCOL_VERSION then a.version else old(version)
    {
      inbox := inbox + Answered(version, c, a);
      if c.Command? && c.id == VCMD_PROTOCOL_VERSION {
        version := a.version;
      }
    }

    /** Header and body of a command are written, and the server answers. */
    method WriteCommand(header: seq<byte>, body: seq<byte>, a: Answer, ghost c: Command)
      requires InStep() && Sendable(c) && Framed(c) == header + body
      modifies this
      ensures Valid() && served == |out| && room == None
      ensures cmds == old(cmds) + [c] && inbox == Answered(old(version), c, a)
      ensures version == if c.Command? && c.id == VCMD_PROTOCOL_VERSION then a.version else old(version)
    {
      WriteBoth(header, body);
      Serve(a, c);
    }

    method WriteBoth(header: seq<byte>, body: seq<byte>)
      requires InStep()
      modifies this`out, this`room
      ensures Valid() && out[served..] == header + body && room == None
    {
      ghost var was := out;
      var sent := BlockWrite(header);
      sent := BlockWrite(body);
      Regroup(was, header, body);
      Appended(was, header + body);
    }

    /** A command of words is sent, and the server answers. */
    method Send(id: Word, payload: seq<Word>, a: Answer)
      requires InStep() && Sendable(Command(id, payload))
      modifies this
      ensures Valid() && served == |out| && room == None && cmds == old(cmds) + [Command(id, payload)]
      ensures inbox == Answered(old(version), Command(id, payload), a)
      ensures version == if id == VCMD_PROTOCOL_VERSION then a.version else old(version)
    {
      WriteCommand(WordsBytes([|payload|, id]), WordsBytes(payload), a, Command(id, payload));
    }

    /** A header of two words is read. */
    method ReadHeader(ghost len: Word, ghost id: Word, ghost rest: seq<Token>) returns (l: Word, i: Word)
      requires inbox == DataOf(WordsBytes([len, id])) + rest
      modifies this`inbox
      ensures l == len && i == id && inbox == rest
    {
      var data, ok := BlockRead(8);
      FrontData(WordsBytes([len, id]), rest);
      HeaderBytes(len, id, []);
      assert WordsBytes([len, id]) + [] == data;
      l, i := ReadWord(data[..4]), ReadWord(data[4..8]);
    }

    /** A word is read. */
    method ReadOne(ghost w: Word, ghost rest: seq<Token>) returns (r: Word)
      requires inbox == DataOf(WordBytes(w)) + rest
      modifies this`inbox
      ensures r == w && inbox == rest
    {
      var data, ok := BlockRead(4);
      FrontData(WordBytes(w), rest);
      WordRoundTrip(w);
      r := ReadWord(data);
    }

    /** A header and the one word it announces are read. */
    method ReadHeaderAndWord(ghost id: Word, ghost w: Word, ghost rest: seq<Token>) returns (r: Word)
      requires inbox == DataOf(WordsBytes([1, id]) + WordBytes(w)) + rest
      modifies this`inbox
      ensures r == w && inbox == rest
    {
      DataOfConcat(WordsBytes([1, id]), WordBytes(w));
      Regroup(DataOf(WordsBytes([1, id])), DataOf(WordBytes(w)), rest);
      var l, i := ReadHeader(1, id, DataOf(WordBytes(w)) + rest);
      r := ReadOne(w, rest);
    }

    /** VCMD_CREATE_RENDERER, whose length counts bytes. */
    method SendName(name: seq<byte>, a: Answer)
      requires InStep() && |name| < U32
      modifies this
      ensures InStep() && cmds == old(cmds) + [CreateRenderer(name)] && version == old(version)
    {
      WriteCommand(WordsBytes([|name|, VCMD_CREATE_RENDERER]), name, a, CreateRenderer(name));
    }

    /** VCMD_PING_PROTOCOL_VERSION. */
    method Ping(a: Answer)
      requires InStep()
      modifies this
      ensures InStep() && cmds == old(cmds) + [Command(VCMD_PING_PROTOCOL_VERSION, [])] && version == old(version)
    {
      Send(VCMD_PING_PROTOCOL_VERSION, [], a);
      assert inbox == DataOf(WordsBytes([0, VCMD_PING_PROTOCOL_VERSION])) + [];
      var l, i := ReadHeader(0, VCMD_PING_PROTOCOL_VERSION, []);
    }

    /** VCMD_PROTOCOL_VERSION: version 3 is asked for, and the server's choice taken. */
    method AgreeOnVersion(a: Answer) returns (agreed: Word)
      requires InStep()
      modifies this
      ensures InStep() && cmds == old(cmds) + [Command(VCMD_PROTOCOL_VERSION, [3])] && agreed == version == a.version
    {
      Send(VCMD_PROTOCOL_VERSION, [3], a);
      assert inbox == DataOf(WordsBytes([1, VCMD_PROTOCOL_VERSION]) + WordBytes(a.version)) + [];
      agreed := ReadHeaderAndWord(VCMD_PROTOCOL_VERSION, a.version, []);
    }

    /** vtest_handshake. */
    method Handshake(name: seq<byte>, a: Answer) returns (agreed: Word)
      requires InStep() && |name| < U32
      modifies this
      ensures InStep() && agreed == version == a.version
      ensures cmds == old(cmds) + Greeting(name)
    {
      SendName(name, a);
      Ping(a);
      agreed := AgreeOnVersion(a);
    }

    /** VCMD_GET_CAPS or VCMD_GET_CAPS2: at most size bytes of the capabilities are handed on,
        but all of them are read. */
    method GetCaps(id: Word, size: nat, a: Answer) returns (caps: seq<byte>)
      requires InStep() && (id == VCMD_GET_CAPS || id == VCMD_GET_CAPS2) && |a.caps| + 1 < U32
      modifies this
      ensures InStep() && cmds == old(cmds) + [Command(id, [])] && version == old(version)
      ensures caps == a.caps[..Min(size, |a.caps|)]
    {
      Send(id, [], a);
      DataOfConcat(WordsBytes([|a.caps| + 1, id]), a.caps);
      var l, i := ReadHeader(|a.caps| + 1, id, DataOf(a.caps));
      var bytes := if l > 0 then l - 1 else 0;
      if bytes > 0 {
        var data, ok := BlockRead(bytes);
        FrontData(a.caps, []);
        assert DataOf(a.caps) + [] == DataOf(a.caps);
        caps := data[..if size < bytes then size else bytes];
      } else {
        caps := [];
      }
    }

    /** VCMD_RESOURCE_BUSY_WAIT. */
    method BusyWait(res: Word, flags: Word, a: Answer) returns (busy: Word)
      requires InStep()
      modifies this
      ensures InStep() && cmds == old(cmds) + [Command(VCMD_RESOURCE_BUSY_WAIT, [res, flags])] && version == old(version)
      ensures busy == a.busy
    {
      Send(VCMD_RESOURCE_BUSY_WAIT, [res, flags], a);
      assert inbox == DataOf(WordsBytes([1, VCMD_RESOURCE_BUSY_WAIT]) + WordBytes(a.busy)) + [];
      busy := ReadHeaderAndWord(VCMD_RESOURCE_BUSY_WAIT, a.busy, []);
    }

    /** VCMD_RESOURCE_CREATE2 as shim_resource_create sends it: spoken is the agreed version,
        and a descriptor is expected if the caller's size is not zero. */
    method CreateResource(payload: seq<Word>, spoken: Word, size: nat, handle: Word, a: Answer) returns (res: Word, file: Option<File>)
      requires InStep() && |payload| == 11 && spoken == version && (payload[10] > 0 <==> size > 0)
      modifies this
      ensures InStep() && cmds == old(cmds) + [Command(VCMD_RESOURCE_CREATE2, payload)] && version == old(version)
      ensures res == (if spoken >= 3 then a.resId else handle) && file == (if size > 0 then Some(a.file) else None)
    {
      Send(VCMD_RESOURCE_CREATE2, payload, a);
      CreateAnswer(spoken, payload, a);
      res, file := ReadCreated(spoken, size, handle, a);
    }

    /** The answer to a creation: header and id from version 3 on, then the descriptor. */
    method ReadCreated(spoken: Word, size: nat, handle: Word, a: Answer) returns (res: Word, file: Option<File>)
      requires inbox == (if spoken >= 3 then DataOf(WordsBytes([1, VCMD_RESOURCE_CREATE2]) + WordBytes(a.resId)) else [])
                        + (if size > 0 then [Passed(0, a.file)] else [])
      modifies this`inbox
      ensures inbox == []
      ensures res == (if spoken >= 3 then a.resId else handle) && file == (if size > 0 then Some(a.file) else None)
    {
      res := handle;
      ghost var passed: seq<Token> := if size > 0 then [Passed(0, a.file)] else [];
      if spoken >= 3 {
        res := ReadHeaderAndWord(VCMD_RESOURCE_CREATE2, a.resId, passed);
      }
      file := None;
      if size > 0 {
        file := RecvFd();
      }
    }
  }

  lemma CreateAnswer(version: Word, payload: seq<Word>, a: Answer)
    requires |payload| == 11
    ensures Answered(version, Command(VCMD_RESOURCE_CREATE2, payload), a)
         == (if version >= 3 then DataOf(WordsBytes([1, VCMD_RESOURCE_CREATE2]) + WordBytes(a.resId)) else [])
            + (if payload[10] > 0 then [Passed(0, a.file)] else [])
  {
  }

  function Greeting(name: seq<byte>): seq<Command> {
    [CreateRenderer(name), Command(VCMD_PING_PROTOCOL_VERSION, []), Command(VCMD_PROTOCOL_VERSION, [3])]
  }

  /** What is read of an answer that begins with plain bytes. */
  lemma FrontData(bs: seq<byte>, rest: seq<Token>)
    ensures var ts := DataOf(bs) + rest;
            |ts| >= |bs| && BytesOf(ts[..|bs|]) == bs && ts[|bs|..] == rest
  {
    assert (DataOf(bs) + rest)[..|bs|] == DataOf(bs);
  }

  lemma ReadOn(ts: seq<Token>, n: nat, m: nat)
    requires n + m <= |ts|
    ensures BytesOf(ts[..n]) + BytesOf(ts[n..][..m]) == BytesOf(ts[..n + m]) && ts[n..][m..] == ts[n + m..]
  {
  }
}

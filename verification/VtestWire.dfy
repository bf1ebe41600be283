/**
 The vtest protocol as shims/native/drm-shim/src/drm_shim.c speaks it over a stream socket:
 how commands are framed, what a server answers, and the blocking socket calls.
 */
module VtestWire {
  import opened Common
  import opened LittleEndian
  import opened InodeCache

  const VCMD_GET_CAPS: Word := 1
  const VCMD_RESOURCE_UNREF: Word := 3
  const VCMD_SUBMIT_CMD: Word := 6
  const VCMD_RESOURCE_BUSY_WAIT: Word := 7
  const VCMD_CREATE_RENDERER: Word := 8
  const VCMD_GET_CAPS2: Word := 9
  const VCMD_PING_PROTOCOL_VERSION: Word := 10
  const VCMD_PROTOCOL_VERSION: Word := 11
  const VCMD_RESOURCE_CREATE2: Word := 12
  const VCMD_TRANSFER_GET2: Word := 13
  const VCMD_TRANSFER_PUT2: Word := 14

  const VCMD_BUSY_WAIT_FLAG_WAIT: Word := 1

  /** What a descriptor refers to: dup gives another descriptor of the same file. */
  datatype File = File(key: Key, memfd: bool)

  /** The first command carries a name, the others words. */
  datatype Command = CreateRenderer(name: seq<byte>) | Command(id: Word, payload: seq<Word>)

  predicate Sendable(c: Command) {
    match c
    case CreateRenderer(name) => |name| < U32
    case Command(id, payload) => id != VCMD_CREATE_RENDERER && |payload| < U32
  }

  // ---------------------------------------------------------------------
  // Framing
  // ---------------------------------------------------------------------

  function WordBytes(w: Word): (bs: seq<byte>)
    ensures |bs| == 4
  {
    ToBytes(w, 4)
  }

  function WordsBytes(ws: seq<Word>): (bs: seq<byte>)
    ensures |bs| == 4 * |ws|
  {
    if ws == [] then [] else WordBytes(ws[0]) + WordsBytes(ws[1..])
  }

  function ReadWord(bs: seq<byte>): Word
    requires |bs| == 4
  {
    FromBytesBelow(bs);
    LimitFour();
    FromBytes(bs)
  }

  function ReadWords(bs: seq<byte>): (ws: seq<Word>)
    requires |bs| % 4 == 0
    ensures |ws| == |bs| / 4
    decreases |bs|
  {
    if bs == [] then [] else [ReadWord(bs[..4])] + ReadWords(bs[4..])
  }

  lemma LimitFour()
    ensures Limit(4) == U32
  {
    assert Limit(2) == 0x1_0000;
  }

  lemma WordRoundTrip(w: Word)
    ensures ReadWord(WordBytes(w)) == w
  {
    LimitFour();
    BytesRoundTrip(w, 4);
  }

  lemma {:induction false} WordsRoundTrip(ws: seq<Word>)
    ensures ReadWords(WordsBytes(ws)) == ws
  {
    if ws != [] {
      WordRoundTrip(ws[0]);
      WordsRoundTrip(ws[1..]);
      assert WordsBytes(ws)[..4] == WordBytes(ws[0]);
      assert WordsBytes(ws)[4..] == WordsBytes(ws[1..]);
    }
  }

  /** A header of length and command, then the payload; the length of the first command
      counts bytes, that of the others words. */
  function Framed(c: Command): seq<byte> {
    match c
    case CreateRenderer(name) => WordsBytes([Wrap32(|name|), VCMD_CREATE_RENDERER]) + name
    case Command(id, payload) => WordsBytes([Wrap32(|payload|), id]) + WordsBytes(payload)
  }

  function FramedAll(cs: seq<Command>): seq<byte> {
    if cs == [] then [] else Framed(cs[0]) + FramedAll(cs[1..])
  }

  /** How a server takes the next command off the stream; None while it is incomplete. */
  function Next(bs: seq<byte>): (r: Option<(Command, seq<byte>)>)
    ensures r.Some? ==> |r.value.1| < |bs|
  {
    if |bs| < 8 then None
    else
      var len, id := ReadWord(bs[..4]), ReadWord(bs[4..8]);
      if id == VCMD_CREATE_RENDERER then
        if |bs| < 8 + len then None else Some((CreateRenderer(bs[8..8 + len]), bs[8 + len..]))
      else if |bs| < 8 + 4 * len then None
      else Some((Command(id, ReadWords(bs[8..8 + 4 * len])), bs[8 + 4 * len..]))
  }

  /** All commands of a stream, None if it does not end with a complete one. */
  function Parse(bs: seq<byte>): Option<seq<Command>>
    decreases |bs|
  {
    if bs == [] then Some([])
    else
      match Next(bs)
      case None => None
      case Some((c, rest)) =>
        match Parse(rest)
        case None => None
        case Some(cs) => Some([c] + cs)
  }

  lemma HeaderBytes(len: Word, id: Word, rest: seq<byte>)
    ensures var bs := WordsBytes([len, id]) + rest;
            ReadWord(bs[..4]) == len && ReadWord(bs[4..8]) == id && bs[8..] == rest
  {
    var bs := WordsBytes([len, id]) + rest;
    assert WordsBytes([len, id]) == WordBytes(len) + WordBytes(id) by {
      assert [len, id][1..] == [id] && [id][1..] == [];
      assert WordsBytes([id]) == WordBytes(id) + [];
    }
    assert bs[..4] == WordBytes(len) && bs[4..8] == WordBytes(id);
    WordRoundTrip(len);
    WordRoundTrip(id);
  }

  /** The server takes off exactly the command that was framed. */
  lemma NextOfFramed(c: Command, rest: seq<byte>)
    requires Sendable(c)
    ensures Next(Framed(c) + rest) == Some((c, rest))
  {
    match c
    case CreateRenderer(name) => NextIsName(name, rest);
    case Command(id, payload) => NextIsWords(id, payload, rest);
  }

  lemma NextIsName(name: seq<byte>, rest: seq<byte>)
    requires |name| < U32
    ensures Next(Framed(CreateRenderer(name)) + rest) == Some((CreateRenderer(name), rest))
  {
    var header := WordsBytes([|name|, VCMD_CREATE_RENDERER]);
    HeaderBytes(|name|, VCMD_CREATE_RENDERER, name + rest);
    BodyOf(header, name, rest);
    assert Framed(CreateRenderer(name)) + rest == header + (name + rest);
  }

  lemma NextIsWords(id: Word, payload: seq<Word>, rest: seq<byte>)
    requires Sendable(Command(id, payload))
    ensures Next(Framed(Command(id, payload)) + rest) == Some((Command(id, payload), rest))
  {
    var header, body := WordsBytes([|payload|, id]), WordsBytes(payload);
    HeaderBytes(|payload|, id, body + rest);
    BodyOf(header, body, rest);
    WordsRoundTrip(payload);
    assert Framed(Command(id, payload)) + rest == header + (body + rest);
  }

  lemma BodyOf(header: seq<byte>, body: seq<byte>, rest: seq<byte>)
    requires |header| == 8
    ensures var bs := header + (body + rest);
            |bs| >= 8 + |body| && bs[8..8 + |body|] == body && bs[8 + |body|..] == rest
  {
  }

  /** The bytes of any sequence of commands parse back to exactly these commands. */
  lemma {:induction false} ParseOfFramed(cs: seq<Command>)
    requires forall i :: 0 <= i < |cs| ==> Sendable(cs[i])
    ensures Parse(FramedAll(cs)) == Some(cs)
  {
    if cs != [] {
      var rest := FramedAll(cs[1..]);
      ParseOfFramed(cs[1..]);
      NextOfFramed(cs[0], rest);
      ParseStep(Framed(cs[0]) + rest, cs[0], rest, cs[1..]);
      assert [cs[0]] + cs[1..] == cs;
    }
  }

  lemma ParseStep(bs: seq<byte>, c: Command, rest: seq<byte>, cs: seq<Command>)
    requires Next(bs) == Some((c, rest)) && Parse(rest) == Some(cs)
    ensures Parse(bs) == Some([c] + cs)
  {
  }

  lemma {:induction false} FramedAfter(cs: seq<Command>, c: Command)
    requires Sendable(c) && forall i :: 0 <= i < |cs| ==> Sendable(cs[i])
    ensures FramedAll(cs + [c]) == FramedAll(cs) + Framed(c)
  {
    if cs == [] {
      assert cs + [c] == [c] && [c][1..] == [];
      assert FramedAll([c]) == Framed(c) + [];
    } else {
      FramedAfter(cs[1..], c);
      assert (cs + [c])[1..] == cs[1..] + [c];
    }
  }

  // ---------------------------------------------------------------------
  // The server
  // ---------------------------------------------------------------------

  /** One byte of the server's stream, which may carry a descriptor. */
  datatype Token = Data(b: byte) | Passed(b: byte, file: File)

  function DataOf(bs: seq<byte>): (ts: seq<Token>)
    ensures |ts| == |bs| && forall i :: 0 <= i < |bs| ==> ts[i] == Data(bs[i])
  {
    seq(|bs|, i requires 0 <= i < |bs| => Data(bs[i]))
  }

  /** What a plain read gets to see: a descriptor that comes with a byte is lost. */
  function BytesOf(ts: seq<Token>): (bs: seq<byte>)
    ensures |bs| == |ts| && forall i :: 0 <= i < |ts| ==> bs[i] == ts[i].b
  {
    seq(|ts|, i requires 0 <= i < |ts| => ts[i].b)
  }

  /** What is up to the server in an answer. */
  datatype Answer = Answer(version: Word, caps: seq<byte>, resId: Word, file: File, busy: Word, pixels: seq<byte>)

  function Answered(version: Word, c: Command, a: Answer): seq<Token> {
    match c
    case CreateRenderer(_) => []
    case Command(id, payload) =>
      if id == VCMD_PING_PROTOCOL_VERSION then DataOf(WordsBytes([0, id]))
      else if id == VCMD_PROTOCOL_VERSION then DataOf(WordsBytes([1, id]) + WordBytes(a.version))
      else if id == VCMD_GET_CAPS || id == VCMD_GET_CAPS2 then
        if |a.caps| + 1 < U32 then DataOf(WordsBytes([|a.caps| + 1, id]) + a.caps) else DataOf(WordsBytes([0, id]))
      else if id == VCMD_RESOURCE_CREATE2 then
        (if version >= 3 then DataOf(WordsBytes([1, id]) + WordBytes(a.resId)) else [])
        + (if |payload| == 11 && payload[10] > 0 then [Passed(0, a.file)] else [])
      else if id == VCMD_RESOURCE_BUSY_WAIT then DataOf(WordsBytes([1, id]) + WordBytes(a.busy))
      else if id == VCMD_TRANSFER_GET2 && |payload| == 10 && payload[8] > 0 then DataOf(a.pixels)
      else []
  }
}

/**
 The receiver thread of compositor/native/src/ahb_registry_receiver.c: it folds the
 messages of a client's byte stream into the registry.
 */
module AhbReceiver {
  import opened Common
  import opened LittleEndian
  import opened AhbRegistry

  const AHB_MSG_REGISTER: byte := 0x01
  const AHB_MSG_UNREGISTER: byte := 0x02

  datatype Message =
    | Register(inode: Inode, ahb: Ahb)
    | FailedRegister(inode: Inode)
    | Unregister(inode: Inode)

  // ---------------------------------------------------------------------
  // What a stream says
  // ---------------------------------------------------------------------

  /** One tag byte, eight inode bytes and, for a register message, a buffer handle that
      travels beside the bytes (None when receiving it fails). Reading stops at the first
      unknown tag or incomplete message. */
  function Parse(bytes: seq<byte>, handles: seq<Option<Ahb>>): seq<Message>
    decreases |bytes|
  {
    if |bytes| < 9 then []
    else
      var inode := FromBytes(bytes[1..9]);
      if bytes[0] == AHB_MSG_REGISTER then
        [Received(inode, handles)] + Parse(bytes[9..], Rest(handles))
      else if bytes[0] == AHB_MSG_UNREGISTER then
        [Unregister(inode)] + Parse(bytes[9..], handles)
      else []
  }

  function Received(inode: Inode, handles: seq<Option<Ahb>>): Message {
    if handles == [] || handles[0].None? then FailedRegister(inode) else Register(inode, handles[0].value)
  }

  function Rest(handles: seq<Option<Ahb>>): seq<Option<Ahb>> {
    if handles == [] then [] else handles[1..]
  }

  function Apply(m: map<Inode, Ahb>, msg: Message): map<Inode, Ahb> {
    match msg
    case Register(inode, ahb) => Registered(m, inode, ahb)
    case FailedRegister(_) => m
    case Unregister(inode) => Unregistered(m, inode)
  }

  function ApplyAll(m: map<Inode, Ahb>, msgs: seq<Message>): map<Inode, Ahb>
    decreases |msgs|
  {
    if msgs == [] then m else ApplyAll(Apply(m, msgs[0]), msgs[1..])
  }

  // ---------------------------------------------------------------------
  // The client's side of the wire format
  // ---------------------------------------------------------------------

  function Written(msg: Message): (bs: seq<byte>)
    ensures |bs| == 9
  {
    [if msg.Unregister? then AHB_MSG_UNREGISTER else AHB_MSG_REGISTER] + ToBytes(msg.inode, 8)
  }

  function WrittenAll(msgs: seq<Message>): seq<byte>
    decreases |msgs|
  {
    if msgs == [] then [] else Written(msgs[0]) + WrittenAll(msgs[1..])
  }

  function HandlesOf(msgs: seq<Message>): seq<Option<Ahb>>
    decreases |msgs|
  {
    if msgs == [] then []
    else
      match msgs[0]
      case Register(_, ahb) => [Some(ahb)] + HandlesOf(msgs[1..])
      case FailedRegister(_) => [None] + HandlesOf(msgs[1..])
      case Unregister(_) => HandlesOf(msgs[1..])
  }

  /** Whatever a client writes is what the receiver reads, for any 64-bit inodes. */
  lemma {:induction false} ParseWritten(msgs: seq<Message>)
    requires forall i :: 0 <= i < |msgs| ==> msgs[i].inode < Limit(8)
    ensures Parse(WrittenAll(msgs), HandlesOf(msgs)) == msgs
    decreases |msgs|
  {
    if msgs != [] {
      var bytes, rest := WrittenAll(msgs), WrittenAll(msgs[1..]);
      ParseWritten(msgs[1..]);
      BytesRoundTrip(msgs[0].inode, 8);
      assert bytes[1..9] == ToBytes(msgs[0].inode, 8);
      assert bytes[9..] == rest;
      assert Rest(HandlesOf(msgs)) == HandlesOf(msgs[1..]) || msgs[0].Unregister?;
    }
  }

  // ---------------------------------------------------------------------
  // The receiver
  // ---------------------------------------------------------------------

  class Socket {
    var input: seq<byte>
    var handles: seq<Option<Ahb>>

    constructor (input: seq<byte>, handles: seq<Option<Ahb>>)
      ensures this.input == input && this.handles == handles
    {
      this.input, this.handles := input, handles;
    }

    /** read: at least one byte and at most max, or none at the end of the stream. */
    method Read(max: nat) returns (data: seq<byte>)
      requires max > 0
      modifies this`input
      ensures |data| <= max && data + input == old(input)
      ensures data == [] <==> old(input) == []
    {
      if input == [] {
        return [];
      }
      var n :| 1 <= n <= max && n <= |input|;
      data, input := input[..n], input[n..];
    }

    /** read_exact: short reads are continued until len bytes have come. */
    method ReadExact(len: nat) returns (data: seq<byte>, ok: bool)
      modifies this`input
      ensures ok <==> |old(input)| >= len
      ensures ok ==> data == old(input)[..len] && input == old(input)[len..]
      ensures !ok ==> input == []
    {
      data := [];
      while |data| < len
        invariant |data| <= len && data + input == old(input)
        decreases len - |data|
      {
        var more := Read(len - |data|);
        if more == [] {
          return data, false;
        }
        data := data + more;
      }
      ok := true;
      assert old(input)[..len] == data && old(input)[len..] == input;
    }

    /** AHardwareBuffer_recvHandleFromUnixSocket. */
    method RecvHandle() returns (handle: Option<Ahb>)
      modifies this`handles
      ensures handles == Rest(old(handles))
      ensures handle == if old(handles) == [] then None else old(handles)[0]
    {
      if handles == [] {
        return None;
      }
      handle, handles := handles[0], handles[1..];
    }
  }

  /** The reads of one turn of handle_client: a tag, an inode and perhaps a handle. */
  method ReadMessage(socket: Socket) returns (msg: Option<Message>)
    modifies socket
    ensures var was, now := Parse(old(socket.input), old(socket.handles)), Parse(socket.input, socket.handles);
            match msg
            case None => was == []
            case Some(m) => was == [m] + now && |socket.input| < |old(socket.input)|
  {
    ghost var bytes := socket.input;
    var tag, inodeBytes, ok;
    tag, ok := socket.ReadExact(1);
    if !ok {
      return None;
    }
    inodeBytes, ok := socket.ReadExact(8);
    if !ok {
      return None;
    }
    assert inodeBytes == bytes[1..9] && socket.input == bytes[9..];
    var inode := FromBytes(inodeBytes);
    if tag[0] == AHB_MSG_REGISTER {
      var ahb := socket.RecvHandle();
      return Some(if ahb.Some? then Register(inode, ahb.value) else FailedRegister(inode));
    } else if tag[0] == AHB_MSG_UNREGISTER {
      return Some(Unregister(inode));
    }
    return None;
  }

  /** The receiver's own reference, which comes with a handle, is released once the registry
      has taken its own. */
  method HandleRegister(registry: Registry, inode: Inode, ahb: Ahb)
    requires registry.Valid()
    modifies registry, registry.entries
    ensures registry.Valid() && registry.entries == old(registry.entries)
    ensures registry.Map() == Registered(old(registry.Map()), inode, ahb) && registry.lookups == old(registry.lookups)
    ensures forall b: Ahb :: Count(registry.owners, b) == old(Count(registry.owners, b))
  {
    registry.Arrive(ahb);
    registry.Register(inode, ahb);
    registry.GiveBack(ahb);
  }

  /** What one message does to the registry. */
  method Handle(registry: Registry, msg: Message)
    requires registry.Valid()
    modifies registry, registry.entries
    ensures registry.Valid() && registry.entries == old(registry.entries)
    ensures registry.Map() == Apply(old(registry.Map()), msg)
    ensures registry.lookups == old(registry.lookups)
    ensures forall b: Ahb :: Count(registry.owners, b) == old(Count(registry.owners, b))
  {
    match msg
    case Register(inode, ahb) =>
      HandleRegister(registry, inode, ahb);
    case FailedRegister(_) =>
    case Unregister(inode) =>
      registry.Unregister(inode);
  }

  /** handle_client: the registry becomes the fold of the messages handled, all of them
      unless the receiver is told to stop, and nobody else's references change. */
  method HandleClient(socket: Socket, registry: Registry) returns (stopped: bool, ghost handled: nat)
    requires registry.Valid()
    modifies socket, registry, registry.entries
    ensures registry.Valid() && registry.entries == old(registry.entries)
    ensures var msgs := Parse(old(socket.input), old(socket.handles));
            && handled <= |msgs| && (!stopped ==> handled == |msgs|)
            && registry.Map() == ApplyAll(old(registry.Map()), msgs[..handled])
    ensures registry.lookups == old(registry.lookups)
    ensures forall b: Ahb :: Count(registry.owners, b) == old(Count(registry.owners, b))
  {
    handled := 0;
    ghost var msgs := Parse(socket.input, socket.handles);
    var running: bool := *;
    while running
      invariant registry.Valid() && registry.entries == old(registry.entries)
      invariant handled <= |msgs| && msgs[handled..] == Parse(socket.input, socket.handles)
      invariant registry.Map() == ApplyAll(old(registry.Map()), msgs[..handled])
      invariant registry.lookups == old(registry.lookups)
      invariant forall b: Ahb :: Count(registry.owners, b) == old(Count(registry.owners, b))
      decreases |socket.input|
    {
      var msg := ReadMessage(socket);
      if msg.None? {
        return false, handled;
      }
      assert msgs[handled..] == [msg.value] + msgs[handled..][1..];
      Handle(registry, msg.value);
      ApplySnoc(old(registry.Map()), msgs, handled);
      handled := handled + 1;
      running := *;
    }
    stopped := true;
  }

  lemma {:induction false} ApplySnoc(m: map<Inode, Ahb>, msgs: seq<Message>, k: nat)
    requires k < |msgs|
    ensures ApplyAll(m, msgs[..k + 1]) == Apply(ApplyAll(m, msgs[..k]), msgs[k])
    decreases k
  {
    if k > 0 {
      ApplySnoc(Apply(m, msgs[0]), msgs[1..], k - 1);
      assert msgs[..k + 1][1..] == msgs[1..][..k];
      assert msgs[..k][1..] == msgs[1..][..k - 1];
    }
  }
}

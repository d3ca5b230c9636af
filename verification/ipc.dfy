/**
 * Typed IPC channels over an opaque transport, and the per-thread
 * capability context that lets a message carry channel endpoints.
 *
 * The two thread-local sender vectors are the fields of one
 * `CapabilityContext` object (one thread). Every call into the transport
 * is a parameter: the caller supplies what the transport answers.
 */
module Ipc {
  import opened IpcTypes
  import opened Codec

  /** `IpcSender<T>`: a typed wrapper around a raw sender handle. */
  datatype IpcSender = IpcSender(os: Handle)

  /** `IpcReceiver<T>`: a typed wrapper around a raw receiver. */
  datatype IpcReceiver = IpcReceiver(os: RawReceiver)

  /** `IpcOneShotServer<T>`: a typed wrapper around a one-shot listening endpoint. */
  datatype IpcOneShotServer = IpcOneShotServer(os: RawServer)

  /** What the transport's `recv` answers. */
  datatype RecvOutcome = Received(data: Payload, senders: seq<Handle>) | RecvFailed

  /** What the transport's one-shot `accept` answers. */
  datatype AcceptOutcome = Accepted(receiver: RawReceiver, data: Payload, senders: seq<Handle>) | AcceptFailed

  /** Creates a connected pair from the pair the transport allocated; fails exactly when the transport does. */
  function Channel(os: Result<(Handle, RawReceiver), ()>): (r: Result<(IpcSender, IpcReceiver), ()>)
    ensures r.Ok? <==> os.Ok?
    ensures r.Ok? ==> r.value.0.os == os.value.0 && r.value.1.os == os.value.1
  {
    match os
    case Ok((s, rx)) => Ok((IpcSender(s), IpcReceiver(rx)))
    case Err(_) => Err(())
  }

  /** Connects to the bootstrap name `name`; fails exactly when the transport's connect does. */
  function Connect(name: string, osConnect: string -> Result<Handle, ()>): (r: Result<IpcSender, ()>)
    ensures r.Ok? <==> osConnect(name).Ok?
    ensures r.Ok? ==> r.value.os == osConnect(name).value
  {
    match osConnect(name)
    case Ok(s) => Ok(IpcSender(s))
    case Err(_) => Err(())
  }

  /** Creates a one-shot server and its name; fails exactly when the transport does. */
  function NewOneShotServer(os: Result<(RawServer, string), ()>): (r: Result<(IpcOneShotServer, string), ()>)
    ensures r.Ok? <==> os.Ok?
    ensures r.Ok? ==> r.value.0.os == os.value.0 && r.value.1 == os.value.1
  {
    match os
    case Ok((server, name)) => Ok((IpcOneShotServer(server), name))
    case Err(_) => Err(())
  }

  /** The two thread-local sender vectors of one thread. */
  class CapabilityContext {
    /** The senders collected while a value is being serialized. */
    var forSerialization: seq<Handle>
    /** The senders a received message brought, while it is being deserialized. */
    var forDeserialization: seq<Handle>

    constructor ()
      ensures forSerialization == [] && forDeserialization == []
    {
      forSerialization := [];
      forDeserialization := [];
    }

    /** Serializes an embedded sender: pushes its handle and returns its index. */
    method SerializeSender(h: Handle) returns (index: nat)
      modifies this
      ensures index == |old(forSerialization)|
      ensures forSerialization == old(forSerialization) + [h]
      ensures forDeserialization == old(forDeserialization)
    {
      index := |forSerialization|;
      forSerialization := forSerialization + [h];
    }

    /** Serializes `v`, pushing its embedded senders onto the serialization vector. */
    method Serialize(v: Value) returns (w: Wire)
      modifies this
      ensures Encoded(w, forSerialization) == Encode(v, old(forSerialization))
      ensures forDeserialization == old(forDeserialization)
      decreases v
    {
      match v
      case Int(i) => w := Num(i);
      case Str(s) => w := Text(s);
      case Sender(h) =>
        var index := SerializeSender(h);
        w := Num(index);
      case List(items) =>
        var wires := [];
        var k := 0;
        while k < |items|
          invariant 0 <= k <= |items|
          invariant EncodedItems(wires, forSerialization) == EncodeItems(items[..k], old(forSerialization))
          invariant forDeserialization == old(forDeserialization)
        {
          assert items[..k + 1][..k] == items[..k];
          var x := Serialize(items[k]);
          wires := wires + [x];
          k := k + 1;
        }
        assert items[..k] == items;
        w := Array(wires);
    }

    /**
     * `IpcSender::send`: encodes `data` with a fresh, empty serialization
     * vector, restores the caller's vector, and hands the bytes and the
     * collected senders to the transport, whose verdict is `osSend`.
     */
    method Send(sender: IpcSender, data: Value, osSend: (Handle, Message) -> bool)
      returns (handed: Message, r: Result<(), ()>)
      modifies this
      ensures handed == EncodeMessage(data)
      ensures r.Ok? <==> osSend(sender.os, handed)
      ensures forSerialization == old(forSerialization)
      ensures forDeserialization == old(forDeserialization)
    {
      var saved := forSerialization;
      forSerialization := [];
      var w := Serialize(data);
      var collected := forSerialization;
      forSerialization := saved;
      handed := Message(Document(w), collected);
      r := if osSend(sender.os, handed) then Ok(()) else Err(());
    }

    /** Deserializes an embedded sender from the number `n`: a copy of entry `n` of the vector. */
    method DeserializeSender(n: int) returns (r: Result<Handle, DecodeError>)
      ensures r == ResolveIndex(forDeserialization, n)
    {
      if n < 0 {
        r := Err(Mismatch);
      } else if n < |forDeserialization| {
        r := Ok(forDeserialization[n]);
      } else {
        r := Err(IndexOutOfRange(n));
      }
    }

    /** Deserializes `w` as a value of shape `t`, resolving senders against the installed vector. */
    method Deserialize(w: Wire, t: Shape) returns (r: Result<Value, DecodeError>)
      ensures r == Decode(w, t, forDeserialization)
      decreases w
    {
      match t
      case IntShape => r := if w.Num? then Ok(Int(w.n)) else Err(Mismatch);
      case StrShape => r := if w.Text? then Ok(Str(w.s)) else Err(Mismatch);
      case SenderShape =>
        if !w.Num? {
          return Err(Mismatch);
        }
        var h := DeserializeSender(w.n);
        r := if h.Ok? then Ok(Sender(h.value)) else Err(h.error);
      case _ =>
        if !w.Array? || ListShapes(t, |w.elems|).None? {
          return Err(Mismatch);
        }
        var ws, ts := w.elems, ListShapes(t, |w.elems|).value;
        var vs := [];
        var k := 0;
        while k < |ws|
          invariant 0 <= k <= |ws|
          invariant DecodeItems(ws[..k], ts[..k], forDeserialization) == Ok(vs)
        {
          assert ws[..k + 1][..k] == ws[..k] && ts[..k + 1][..k] == ts[..k];
          var x := Deserialize(ws[k], ts[k]);
          if x.Err? {
            DecodeItemsFailurePersists(ws, ts, k + 1, forDeserialization);
            return Err(x.error);
          }
          vs := vs + [x.value];
          k := k + 1;
        }
        assert ws[..k] == ws && ts[..k] == ts;
        r := Ok(List(vs));
    }

    /**
     * `deserialize_received_data` as written: swaps the received senders in,
     * decodes, and swaps the caller's vector back only on success. On a
     * failed decode the received senders stay installed.
     */
    method DeserializeReceivedData(data: Payload, t: Shape, senders: seq<Handle>)
      returns (r: Result<Value, ()>)
      modifies this
      ensures r == DropError(DecodePayload(data, t, senders))
      ensures r.Ok? ==> forDeserialization == old(forDeserialization)
      ensures r.Err? ==> forDeserialization == senders
      ensures forSerialization == old(forSerialization)
    {
      var received := senders;
      forDeserialization, received := received, forDeserialization;
      if data.Garbled? {
        return Err(());
      }
      var result := Deserialize(data.w, t);
      if result.Err? {
        return Err(());
      }
      forDeserialization, received := received, forDeserialization;
      r := Ok(result.value);
    }

    /**
     * `deserialize_received_data` with the caller's vector restored on every
     * path: the received senders are installed exactly for the duration of
     * the decode.
     */
    method DeserializeReceivedDataRestoring(data: Payload, t: Shape, senders: seq<Handle>)
      returns (r: Result<Value, ()>)
      modifies this
      ensures r == DropError(DecodePayload(data, t, senders))
      ensures forDeserialization == old(forDeserialization)
      ensures forSerialization == old(forSerialization)
    {
      var received := senders;
      forDeserialization, received := received, forDeserialization;
      if data.Garbled? {
        r := Err(());
      } else {
        var result := Deserialize(data.w, t);
        r := DropError(result);
      }
      forDeserialization, received := received, forDeserialization;
    }

    /** `IpcReceiver::recv`: what the transport delivered to `receiver`, decoded as shape `t`. */
    method Recv(receiver: IpcReceiver, osRecv: RawReceiver -> RecvOutcome, t: Shape)
      returns (r: Result<Value, ()>)
      modifies this
      ensures osRecv(receiver.os).RecvFailed? ==> r == Err(())
      ensures osRecv(receiver.os).Received? ==>
        r == DropError(DecodePayload(osRecv(receiver.os).data, t, osRecv(receiver.os).senders))
      ensures forSerialization == old(forSerialization)
      ensures forDeserialization == old(forDeserialization)
    {
      match osRecv(receiver.os)
      case RecvFailed => r := Err(());
      case Received(data, senders) => r := DeserializeReceivedDataRestoring(data, t, senders);
    }

    /**
     * `IpcOneShotServer::accept`: the accepted connection as a receiver,
     * and its first message decoded as shape `t`. Fails when the transport's
     * accept fails or the first message does not decode.
     */
    method Accept(server: IpcOneShotServer, osAccept: RawServer -> AcceptOutcome, t: Shape)
      returns (r: Result<(IpcReceiver, Value), ()>)
      modifies this
      ensures osAccept(server.os).AcceptFailed? ==> r == Err(())
      ensures osAccept(server.os).Accepted? ==>
        var a := osAccept(server.os);
        var d := DecodePayload(a.data, t, a.senders);
        (r.Ok? <==> d.Ok?) && (r.Ok? ==> r.value == (IpcReceiver(a.receiver), d.value))
      ensures forSerialization == old(forSerialization)
      ensures forDeserialization == old(forDeserialization)
    {
      match osAccept(server.os)
      case AcceptFailed => r := Err(());
      case Accepted(rx, data, senders) =>
        var value := DeserializeReceivedDataRestoring(data, t, senders);
        if value.Err? {
          return Err(());
        }
        r := Ok((IpcReceiver(rx), value.value));
    }
  }

  /**
   * A value sent on one thread and received, through a transport that
   * delivers the bytes and the handle list together, on another: the
   * receiver gets the value back, embedded senders included.
   */
  method Transfer(sender: IpcSender, receiver: IpcReceiver, v: Value, t: Shape)
    returns (r: Result<Value, ()>)
    requires Conforms(v, t)
    ensures r == Ok(v)
  {
    var sending := new CapabilityContext();
    var receiving := new CapabilityContext();
    var m, sent := sending.Send(sender, v, (_, _) => true);
    r := receiving.Recv(receiver, _ => Received(m.data, m.senders), t);
    MessageRoundTrip(v, t);
  }

  /**
   * After a failed decode, as written, the senders of the rejected message
   * remain installed in the thread's deserialization vector.
   */
  method LeakAfterFailedDecode(h: Handle) returns (installed: seq<Handle>)
    ensures installed == [h]
  {
    var context := new CapabilityContext();
    var r := context.DeserializeReceivedData(Garbled, IntShape, [h]);
    installed := context.forDeserialization;
  }
}

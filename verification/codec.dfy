/**
 * The encode/decode traversal of a payload value, as pure functions that
 * thread the capability vector through the traversal.
 *
 * Encoding a value appends every embedded sender to the serialization
 * vector and writes the sender's position in that vector in its place.
 * Decoding reads such a position back and resolves it against the
 * deserialization vector.
 */
module Codec {
  import opened IpcTypes

  /** The wire form of a value together with the serialization vector after encoding it. */
  datatype Encoded = Encoded(wire: Wire, senders: seq<Handle>)

  datatype EncodedItems = EncodedItems(wires: seq<Wire>, senders: seq<Handle>)

  /**
   * Encodes `v` while `ser` is the serialization vector. Each embedded
   * sender is pushed onto the vector and its index is the vector's length
   * just before the push.
   */
  function Encode(v: Value, ser: seq<Handle>): (r: Encoded)
    ensures r.senders == ser + Embedded(v)
    decreases v
  {
    match v
    case Int(i) => Encoded(Num(i), ser)
    case Str(s) => Encoded(Text(s), ser)
    case Sender(h) => Encoded(Num(|ser|), ser + [h])
    case List(items) =>
      var e := EncodeItems(items, ser);
      Encoded(Array(e.wires), e.senders)
  }

  /** Encodes the elements of a list left to right, threading the vector. */
  function EncodeItems(items: seq<Value>, ser: seq<Handle>): (r: EncodedItems)
    ensures |r.wires| == |items|
    ensures r.senders == ser + EmbeddedItems(items)
    decreases items
  {
    if items == [] then EncodedItems([], ser)
    else
      var p := EncodeItems(items[..|items| - 1], ser);
      var e := Encode(items[|items| - 1], p.senders);
      EncodedItems(p.wires + [e.wire], e.senders)
  }

  /** Why a decode failed. The public operations forget the reason. */
  datatype DecodeError =
    | Malformed               // the bytes are not a document
    | Mismatch                // the document does not have the expected shape
    | IndexOutOfRange(index: nat)

  /**
   * Resolves a decoded sender index against the deserialization vector `de`
   * (the hardened lookup): a negative number is not a `usize`, and an index
   * past the end of the vector is reported rather than panicking.
   */
  function ResolveIndex(de: seq<Handle>, n: int): (r: Result<Handle, DecodeError>)
    ensures r.Ok? <==> 0 <= n < |de|
    ensures r.Ok? ==> r.value == de[n]
    ensures n < 0 ==> r == Err(Mismatch)
    ensures n >= |de| ==> r == Err(IndexOutOfRange(n))
  {
    if n < 0 then Err(Mismatch)
    else if n < |de| then Ok(de[n])
    else Err(IndexOutOfRange(n))
  }

  /** The outcome of the index lookup as the source writes it. */
  datatype Lookup = Resolved(h: Handle) | Panicked

  /** The lookup as written: indexing the vector panics when the index is out of range. */
  function ResolveIndexAsWritten(de: seq<Handle>, index: nat): (r: Lookup)
    ensures r.Panicked? <==> index >= |de|
    ensures r.Resolved? ==> r.h == de[index]
  {
    if index < |de| then Resolved(de[index]) else Panicked
  }

  /**
   * Decodes `w` as a value of shape `t` while `de` is the deserialization
   * vector.
   */
  function Decode(w: Wire, t: Shape, de: seq<Handle>): (r: Result<Value, DecodeError>)
    ensures r.Ok? ==> Conforms(r.value, t)
    decreases w
  {
    match t
    case IntShape => if w.Num? then Ok(Int(w.n)) else Err(Mismatch)
    case StrShape => if w.Text? then Ok(Str(w.s)) else Err(Mismatch)
    case SenderShape =>
      if w.Num? then
        match ResolveIndex(de, w.n)
        case Ok(h) => Ok(Sender(h))
        case Err(e) => Err(e)
      else Err(Mismatch)
    case _ =>
      if w.Array? && ListShapes(t, |w.elems|).Some? then
        match DecodeItems(w.elems, ListShapes(t, |w.elems|).value, de)
        case Ok(vs) => Ok(List(vs))
        case Err(e) => Err(e)
      else Err(Mismatch)
  }

  /** Decodes the elements of a list left to right; the first failure is the result. */
  function DecodeItems(ws: seq<Wire>, ts: seq<Shape>, de: seq<Handle>): (r: Result<seq<Value>, DecodeError>)
    requires |ws| == |ts|
    ensures r.Ok? ==> |r.value| == |ws|
    ensures r.Ok? ==> forall i :: 0 <= i < |ws| ==> Conforms(r.value[i], ts[i])
    decreases ws
  {
    if ws == [] then Ok([])
    else
      var n := |ws| - 1;
      match DecodeItems(ws[..n], ts[..n], de)
      case Err(e) => Err(e)
      case Ok(vs) =>
        match Decode(ws[n], ts[n], de)
        case Err(e) => Err(e)
        case Ok(v) => Ok(vs + [v])
  }

  /** The numbers of `w` that stand in sender position for shape `t`, in traversal order. */
  function IndexSlots(w: Wire, t: Shape): seq<int>
    decreases w
  {
    match t
    case SenderShape => if w.Num? then [w.n] else []
    case IntShape => []
    case StrShape => []
    case _ =>
      if w.Array? && ListShapes(t, |w.elems|).Some? then
        SlotsItems(w.elems, ListShapes(t, |w.elems|).value)
      else []
  }

  function SlotsItems(ws: seq<Wire>, ts: seq<Shape>): seq<int>
    requires |ws| == |ts|
    decreases ws
  {
    if ws == [] then []
    else SlotsItems(ws[..|ws| - 1], ts[..|ws| - 1]) + IndexSlots(ws[|ws| - 1], ts[|ws| - 1])
  }

  /** The bytes handed to the transport: a document, or bytes the reader rejects. */
  datatype Payload = Document(w: Wire) | Garbled

  /** One transport message: the payload and the out-of-band list of sender handles. */
  datatype Message = Message(data: Payload, senders: seq<Handle>)

  /** What one send hands to the transport: the value encoded from an empty serialization vector. */
  function EncodeMessage(v: Value): (m: Message)
    ensures m.data.Document?
    ensures m.senders == Embedded(v)
  {
    var e := Encode(v, []);
    Message(Document(e.wire), e.senders)
  }

  /** Decodes received bytes with `de` installed as the deserialization vector. */
  function DecodePayload(data: Payload, t: Shape, de: seq<Handle>): (r: Result<Value, DecodeError>)
    ensures data.Garbled? ==> r == Err(Malformed)
    ensures data.Document? ==> r == Decode(data.w, t, de)
  {
    match data
    case Garbled => Err(Malformed)
    case Document(w) => Decode(w, t, de)
  }

  // ---------------------------------------------------------------------
  // Properties of the traversal

  lemma RangeSplit(lo: int, a: nat, b: nat)
    ensures Range(lo, a) + Range(lo + a, b) == Range(lo, a + b)
  {
  }

  /**
   * The senders embedded in `v` get consecutive indices starting at the
   * length of the serialization vector, in traversal order.
   */
  lemma {:induction false} EncodeIndices(v: Value, t: Shape, ser: seq<Handle>)
    requires Conforms(v, t)
    ensures IndexSlots(Encode(v, ser).wire, t) == Range(|ser|, |Embedded(v)|)
    decreases v
  {
    match v
    case Int(_) =>
    case Str(_) =>
    case Sender(h) =>
    case List(items) =>
      var ts := ListShapes(t, |items|).value;
      EncodeItemsIndices(items, ts, ser);
  }

  lemma {:induction false} EncodeItemsIndices(items: seq<Value>, ts: seq<Shape>, ser: seq<Handle>)
    requires |items| == |ts|
    requires forall i :: 0 <= i < |items| ==> Conforms(items[i], ts[i])
    ensures SlotsItems(EncodeItems(items, ser).wires, ts) == Range(|ser|, |EmbeddedItems(items)|)
    decreases items
  {
    if items != [] {
      var n := |items| - 1;
      var p := EncodeItems(items[..n], ser);
      var e := Encode(items[n], p.senders);
      var ws := EncodeItems(items, ser).wires;
      assert ws == p.wires + [e.wire];
      assert ws[..n] == p.wires;
      var a, b := |EmbeddedItems(items[..n])|, |Embedded(items[n])|;
      EncodeItemsIndices(items[..n], ts[..n], ser);
      EncodeIndices(items[n], ts[n], p.senders);
      assert SlotsItems(ws, ts) == SlotsItems(p.wires, ts[..n]) + IndexSlots(e.wire, ts[n]);
      assert |p.senders| == |ser| + a;
      RangeSplit(|ser|, a, b);
      assert a + b == |EmbeddedItems(items)|;
    }
  }

  /**
   * Round trip: decoding the wire form of `v` against the vector its
   * encoding produced (extended by anything) gives `v` back, every
   * embedded sender resolved to the handle it was encoded from.
   */
  lemma {:induction false} DecodeEncode(v: Value, t: Shape, ser: seq<Handle>, ext: seq<Handle>)
    requires Conforms(v, t)
    ensures Decode(Encode(v, ser).wire, t, Encode(v, ser).senders + ext) == Ok(v)
    decreases v
  {
    match v
    case Int(_) =>
    case Str(_) =>
    case Sender(h) =>
      assert (ser + [h] + ext)[|ser|] == h;
    case List(items) =>
      var ts := ListShapes(t, |items|).value;
      DecodeEncodeItems(items, ts, ser, ext);
  }

  lemma {:induction false} DecodeEncodeItems(items: seq<Value>, ts: seq<Shape>, ser: seq<Handle>, ext: seq<Handle>)
    requires |items| == |ts|
    requires forall i :: 0 <= i < |items| ==> Conforms(items[i], ts[i])
    ensures DecodeItems(EncodeItems(items, ser).wires, ts, EncodeItems(items, ser).senders + ext) == Ok(items)
    decreases items
  {
    if items != [] {
      var n := |items| - 1;
      var p := EncodeItems(items[..n], ser);
      var e := Encode(items[n], p.senders);
      var ws := EncodeItems(items, ser).wires;
      var de := e.senders + ext;
      assert ws == p.wires + [e.wire];
      assert ws[..n] == p.wires;
      assert de == p.senders + (Embedded(items[n]) + ext);
      DecodeEncodeItems(items[..n], ts[..n], ser, Embedded(items[n]) + ext);
      DecodeEncode(items[n], ts[n], p.senders, ext);
      assert items[..n] + [items[n]] == items;
    }
  }

  /**
   * Decoding resolves every sender slot against the installed vector: a
   * successful decode had every number in sender position in range, and
   * the sender decoded from a slot holding `n` is entry `n` of the vector.
   */
  lemma {:induction false} DecodedSendersResolved(w: Wire, t: Shape, de: seq<Handle>)
    requires Decode(w, t, de).Ok?
    ensures var slots, hs := IndexSlots(w, t), Embedded(Decode(w, t, de).value);
      |hs| == |slots| &&
      forall i :: 0 <= i < |slots| ==> 0 <= slots[i] < |de| && hs[i] == de[slots[i]]
    decreases w
  {
    match t
    case IntShape =>
    case StrShape =>
    case SenderShape =>
    case _ =>
      DecodedItemsSendersResolved(w.elems, ListShapes(t, |w.elems|).value, de);
  }

  lemma {:induction false} DecodedItemsSendersResolved(ws: seq<Wire>, ts: seq<Shape>, de: seq<Handle>)
    requires |ws| == |ts|
    requires DecodeItems(ws, ts, de).Ok?
    ensures var slots, hs := SlotsItems(ws, ts), EmbeddedItems(DecodeItems(ws, ts, de).value);
      |hs| == |slots| &&
      forall i :: 0 <= i < |slots| ==> 0 <= slots[i] < |de| && hs[i] == de[slots[i]]
    decreases ws
  {
    if ws != [] {
      var n := |ws| - 1;
      var vs := DecodeItems(ws[..n], ts[..n], de).value;
      var v := Decode(ws[n], ts[n], de).value;
      DecodedItemsSendersResolved(ws[..n], ts[..n], de);
      DecodedSendersResolved(ws[n], ts[n], de);
      assert (vs + [v])[..n] == vs;
      var a, b := SlotsItems(ws[..n], ts[..n]), IndexSlots(ws[n], ts[n]);
      var ha, hb := EmbeddedItems(vs), Embedded(v);
      assert SlotsItems(ws, ts) == a + b;
      assert EmbeddedItems(vs + [v]) == ha + hb;
      forall i | 0 <= i < |a + b|
        ensures 0 <= (a + b)[i] < |de| && (ha + hb)[i] == de[(a + b)[i]]
      {
        if i >= |a| {
          assert (a + b)[i] == b[i - |a|] && (ha + hb)[i] == hb[i - |a|];
        }
      }
    }
  }

  /**
   * An out-of-range index in sender position makes the whole decode fail,
   * whoever produced the document.
   */
  lemma DecodeRejectsOutOfRangeSlot(data: Payload, t: Shape, de: seq<Handle>, i: nat)
    requires data.Document? && i < |IndexSlots(data.w, t)|
    requires IndexSlots(data.w, t)[i] >= |de|
    ensures DecodePayload(data, t, de).Err?
  {
    if Decode(data.w, t, de).Ok? {
      DecodedSendersResolved(data.w, t, de);
    }
  }

  /** A sequence of one sender index 0, received with an empty handle list, is reported as out of range. */
  lemma LoneIndexWithoutHandles()
    ensures DecodePayload(Document(Array([Num(0)])), SeqShape(SenderShape), []) == Err(IndexOutOfRange(0))
  {
  }

  /** A failure while decoding a prefix of a list's elements is the failure of the whole list. */
  lemma {:induction false} DecodeItemsFailurePersists(ws: seq<Wire>, ts: seq<Shape>, k: nat, de: seq<Handle>)
    requires |ws| == |ts| && k <= |ws|
    requires DecodeItems(ws[..k], ts[..k], de).Err?
    ensures DecodeItems(ws, ts, de) == DecodeItems(ws[..k], ts[..k], de)
    decreases |ws| - k
  {
    if k < |ws| {
      var n := |ws| - 1;
      assert ws[..n][..k] == ws[..k] && ts[..n][..k] == ts[..k];
      DecodeItemsFailurePersists(ws[..n], ts[..n], k, de);
    } else {
      assert ws[..k] == ws && ts[..k] == ts;
    }
  }

  /**
   * Within one send, the embedded senders get the indices 0, 1, 2, ... in
   * traversal order, and the handle list handed over with the bytes has
   * exactly one entry per index, in the same order.
   */
  lemma SendIndicesConsecutive(v: Value, t: Shape)
    requires Conforms(v, t)
    ensures var m := EncodeMessage(v);
      IndexSlots(m.data.w, t) == Range(0, |m.senders|) && m.senders == Embedded(v)
  {
    EncodeIndices(v, t, []);
  }

  /** A received message that one send produced decodes to the value that was sent. */
  lemma MessageRoundTrip(v: Value, t: Shape)
    requires Conforms(v, t)
    ensures DecodePayload(EncodeMessage(v).data, t, EncodeMessage(v).senders) == Ok(v)
  {
    DecodeEncode(v, t, [], []);
    assert Encode(v, []).senders + [] == Encode(v, []).senders;
  }

  /** As written, an index past the end of the received vector panics; the hardened lookup reports it. */
  lemma OutOfRangeIndexPanicsAsWritten(de: seq<Handle>)
    ensures ResolveIndexAsWritten(de, |de|) == Panicked
    ensures ResolveIndex(de, |de|) == Err(IndexOutOfRange(|de|))
  {
  }
}

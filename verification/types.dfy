/**
 * The values that travel over a typed IPC channel, the shapes (payload
 * types) a receiver expects, and the wire form a value is encoded to.
 *
 * Raw transport handles are opaque: a sender handle is identified by a
 * number, and cloning one (`OsIpcSender::clone`) yields the same value.
 */
module IpcTypes {

  /** A raw transport send capability (an `OsIpcSender`). */
  datatype Handle = Handle(id: nat)

  /** A raw transport receive capability (an `OsIpcReceiver`). */
  datatype RawReceiver = RawReceiver(id: nat)

  /** A raw one-shot listening endpoint (an `OsIpcOneShotServer`). */
  datatype RawServer = RawServer(id: nat)

  datatype Option<+T> = None | Some(value: T)

  /** `Result<T, E>`; the public operations use `()` as their error, as the source does. */
  datatype Result<+T, +E> = Ok(value: T) | Err(error: E)

  /** Forgets the reason of a failure: the source's `Err(_) => Err(())` and `map_err(|_| ())`. */
  function DropError<T, E>(r: Result<T, E>): (u: Result<T, ()>)
    ensures u.Ok? <==> r.Ok?
    ensures u.Ok? ==> u.value == r.value
  {
    match r
    case Ok(v) => Ok(v)
    case Err(_) => Err(())
  }

  /**
   * A payload value. `Sender(h)` is an embedded `IpcSender<U>`, a channel
   * endpoint carried inside the message.
   */
  datatype Value =
    | Int(i: int)
    | Str(s: string)
    | List(items: seq<Value>)
    | Sender(h: Handle)

  /**
   * The payload type the decoder is asked for (the `T` of `IpcReceiver<T>`):
   * a homogeneous sequence (`Vec<U>`) or a fixed list of fields (a struct or
   * tuple).
   */
  datatype Shape =
    | IntShape
    | StrShape
    | SenderShape
    | SeqShape(elem: Shape)
    | TupleShape(fields: seq<Shape>)

  /**
   * The self-describing document a value is serialized to. A sender is
   * written as the plain number of its index, so only the expected shape
   * tells an index from an integer.
   */
  datatype Wire = Num(n: int) | Text(s: string) | Array(elems: seq<Wire>)

  /** The shapes of the `n` elements of a list of shape `t`, if `t` describes a list of length `n`. */
  function ListShapes(t: Shape, n: nat): (r: Option<seq<Shape>>)
    ensures r.Some? <==> t.SeqShape? || (t.TupleShape? && |t.fields| == n)
    ensures r.Some? ==> |r.value| == n
    ensures t.SeqShape? ==> forall i :: 0 <= i < n ==> r.value[i] == t.elem
  {
    match t
    case SeqShape(e) => Some(seq(n, _ => e))
    case TupleShape(fs) => if |fs| == n then Some(fs) else None
    case _ => None
  }

  /** Value `v` has shape `t`: it is a value of the receiver's payload type. */
  predicate Conforms(v: Value, t: Shape)
    decreases v
  {
    match v
    case Int(_) => t.IntShape?
    case Str(_) => t.StrShape?
    case Sender(_) => t.SenderShape?
    case List(items) =>
      var ts := ListShapes(t, |items|);
      ts.Some? && forall i :: 0 <= i < |items| ==> Conforms(items[i], ts.value[i])
  }

  /** The channel endpoints embedded in `v`, in traversal order (reference definition). */
  function Embedded(v: Value): seq<Handle>
    decreases v
  {
    match v
    case Sender(h) => [h]
    case List(items) => EmbeddedItems(items)
    case _ => []
  }

  function EmbeddedItems(items: seq<Value>): seq<Handle>
    decreases items
  {
    if items == [] then [] else EmbeddedItems(items[..|items| - 1]) + Embedded(items[|items| - 1])
  }

  /** The integers `lo, lo + 1, ..., lo + n - 1`. */
  function Range(lo: int, n: nat): (r: seq<int>)
    ensures |r| == n
    ensures forall i :: 0 <= i < n ==> r[i] == lo + i
  {
    if n == 0 then [] else Range(lo, n - 1) + [lo + n - 1]
  }
}

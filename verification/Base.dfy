/** Values shared by the modules of the broker model. A Go string is a sequence of bytes. */
module Base {

  newtype byte = x: int | 0 <= x < 256

  type Text = seq<byte>

  datatype Option<+T> = None | Some(value: T)

  datatype Result<+T> = Ok(value: T) | Err

  /** The broker's message record (broker/base/message.go). */
  datatype Message = Message(
    topic: Text,
    packetId: nat,
    direction: nat,
    state: nat,
    qos: nat,
    dup: bool,
    retain: bool,
    payload: seq<byte>,
    time: int)

  function Min(a: int, b: int): int { if a <= b then a else b }

  lemma Regroup<T>(a: seq<T>, b: seq<T>, c: seq<T>)
    ensures a + b + c == a + (b + c)
  {
  }
}

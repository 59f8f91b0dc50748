/** Datatypes and byte-string types shared by the whole project. */
module Common {

  datatype Option<+T> = None | Some(value: T)

  newtype byte = x: int | 0 <= x < 256

  type Bytes = seq<byte>

  /** Fixed-size arrays of the source. */
  type Array16 = b: Bytes | |b| == 16 witness seq(16, _ => 0)
  type Array32 = b: Bytes | |b| == 32 witness seq(32, _ => 0)
}

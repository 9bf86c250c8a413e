/** An optional value: a header or file that may be absent, a decoding that may fail. */
module Wrappers {
  datatype Option<T> = None | Some(value: T)
}

/** Bytes, as Go's `[]byte` holds them. */
module Octet {
  newtype byte = x: int | 0 <= x < 256
}

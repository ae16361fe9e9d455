/** Vocabulary shared by every component: optional values, the kinds of error the
    program reports, bytes, machine words and sixteen-byte identifiers. */
module Prelude {

  datatype Option<+T> = None | Some(value: T)

  /** The kinds of error the models tell apart. */
  datatype Error = Invalid | NotFound | Conflict | Corruption

  datatype Result<+T> = Ok(value: T) | Err(error: Error)

  type byte = x: int | 0 <= x < 256
  type Bytes = seq<byte>

  type U16 = n: int | 0 <= n < 0x1_0000
  type U32 = n: int | 0 <= n < 0x1_0000_0000
  type U64 = n: int | 0 <= n < 0x1_0000_0000_0000_0000

  const ID_LEN := 16

  /** An identifier is sixteen raw bytes; the zero one is never generated. */
  type Id = b: Bytes | |b| == ID_LEN witness seq(ID_LEN, _ => 0 as byte)

  const ZERO_ID: Id := [0, 0, 0, 0, 0, 0, 0, 0, 0, 0, 0, 0, 0, 0, 0, 0]

  const DEFAULT_NAMESPACE := "default"

  type Tenant = string
  type Namespace = string

  /** A subset is no larger, and a proper one smaller. */
  lemma SubsetSize<T>(a: set<T>, b: set<T>)
    requires a <= b
    ensures |a| <= |b| && (a < b ==> |a| < |b|)
  {
    assert b == a + (b - a);
  }
}

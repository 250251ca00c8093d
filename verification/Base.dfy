/** Types shared by every module: bytes, hashes, the content of a database, and outcomes. */
module Base {

  type u8 = x: int | 0 <= x < 256

  /** A `Vec<u8>` holds at most `isize::MAX` bytes. */
  const VEC_LIMIT: nat := 0x8000_0000_0000_0000
  type Bytes = s: seq<u8> | |s| < VEC_LIMIT

  /** A user key. The nibble buffer is allocated with twice its length, so it must be half as long. */
  type Key = s: seq<u8> | 2 * |s| < VEC_LIMIT

  /** A serialised node. */
  type Blob = seq<u8>

  const HASH_SIZE: nat := 32
  type HashValue = s: seq<u8> | |s| == HASH_SIZE witness seq(HASH_SIZE, _ => 0)

  /** The hash function is a parameter of the model; nothing is assumed about it globally. */
  type Hasher = Blob -> HashValue

  /** What a database holds. */
  type Db = map<HashValue, Blob>

  datatype Option<+T> = None | Some(value: T)

  /** How a call can go wrong. The first two are `TrieError` values, the third is a Rust panic,
      and the last is a recursion that never ends. */
  datatype Fault =
    | MissingNode(h: HashValue)
    | BadEncoding
    | IndexOutOfRange
    | EndlessRecursion

  datatype Outcome<+T> = Done(value: T) | Failed(fault: Fault)

  /** `d` holds a part of what `db` holds. */
  ghost predicate SubDb(d: Db, db: Db) {
    forall h :: h in d ==> h in db && d[h] == db[h]
  }
}

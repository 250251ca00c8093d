/** The fields of a trie and what each operation of src/trie/mod.rs does to them. */
module TrieState {
  import opened Base
  import opened Keys
  import opened Nodes
  import opened Schemes
  import opened NodeOps

  datatype State = State(root: Link, db: Db, dirty: bool)

  const NEW_TRIE: State := State(Empty, map[], false)

  /** The root is taken out before the insertion; if that fails it is not put back. */
  function InsertStep(sc: Scheme, arm: Arm, s: State, key: Key, value: Bytes): (State, Outcome<()>) {
    match LinkInsert(sc, arm, s.db, s.root, ToNibbles(key), value, {})
    case Failed(fault) => (s.(root := Empty), Failed(fault))
    case Done(root) => (State(root, s.db, true), Done(()))
  }

  function CommitStep(sc: Scheme, s: State): State {
    State(Shut(sc, s.root), PutAll(sc, s.db, Writes(sc, s.root)), false)
  }

  /** What `commit` returns when it leaves this root. */
  function CommitResult(root: Link): Option<HashValue>
    requires !root.Mem?
  {
    if root.Hashed? then Some(root.h) else None
  }

  function RevertStep(s: State, h: HashValue): State {
    State(Hashed(h), s.db, false)
  }

  /** `get_proof` commits a dirty trie first. */
  function ProveStep(sc: Scheme, s: State): State {
    if s.dirty then CommitStep(sc, s) else s
  }

  function GetValue(sc: Scheme, s: State, key: Key): Outcome<Option<Bytes>> {
    LinkGet(sc, s.db, s.root, ToNibbles(key), {})
  }
}

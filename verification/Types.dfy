/** The identities golintmu works with.  SSA values, functions, named types and
    source positions are opaque to every algorithm modelled here, so they are numbers. */
module Types {
  type Pos = nat
  type Fn = nat
  type Value = nat
  type StructType = nat
  type BlockId = nat

  datatype Option<+T> = None | Some(value: T)

  /** A lock instance inside one function: the canonical base value and the field index. */
  datatype LockRef = LockRef(base: Value, fieldIndex: nat)

  /** A mutex field of a struct type, the cross-function identity of a lock. */
  datatype Key = Key(structType: StructType, fieldIndex: nat)

  /** `mutexFieldKeyName`: the printable name of a mutex field. */
  type Naming = Key -> string

  /** The static type of a base value, as far as pointers and named structs go. */
  datatype GoType = NamedType(structType: StructType) | PointerTo(elem: GoType) | OtherType

  type Typing = map<Value, GoType>

  /** The named struct directly below one of the first `budget` pointer layers of a type. */
  function StructBelow(t: GoType, budget: nat): Option<StructType> {
    if budget == 0 || !t.PointerTo? then None
    else if t.elem.NamedType? then Some(t.elem.structType)
    else StructBelow(t.elem, budget - 1)
  }

  function KeyWithin(typing: Typing, ref: LockRef, budget: nat): Option<Key> {
    if ref.base !in typing then None else
    match StructBelow(typing[ref.base], budget)
    case None => None
    case Some(named) => Some(Key(named, ref.fieldIndex))
  }

  /** `lockRefToMutexFieldKey`: peels between one and four pointer layers. */
  function KeyOf(typing: Typing, ref: LockRef): Option<Key> {
    KeyWithin(typing, ref, 4)
  }

  /** The types of the values of each function. */
  type Typings = map<Fn, Typing>

  /** The key of a lock instance of function `f`. */
  function KeyIn(typings: Typings, f: Fn, ref: LockRef): Option<Key> {
    if f in typings then KeyOf(typings[f], ref) else None
  }

  /** The key under which `normalizeLockState` stores a held lock: exactly one pointer layer. */
  function NormalizedKeyOf(typing: Typing, ref: LockRef): Option<Key> {
    KeyWithin(typing, ref, 1)
  }

  /** A static call together with the normalized lock state at the call. */
  datatype CallSite = CallSite(caller: Fn, callee: Fn, pos: Pos, held: set<Key>)

  /** Lock `to` was acquired in `fn` while lock `from` was held. */
  datatype LockOrderEdge = LockOrderEdge(from: Key, to: Key, pos: Pos, fn: Fn)
}

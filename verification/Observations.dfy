/** Field accesses and the guards inferred for fields. */
module Observations {
  import opened Types

  datatype FieldKey = FieldKey(structType: StructType, fieldIndex: nat)

  datatype HeldField = HeldField(fieldIndex: nat, exclusive: bool)

  /** One field access with the mutex fields held on the same instance. */
  datatype Observation = Observation(held: seq<HeldField>, isRead: bool, fn: Fn, pos: Pos)

  datatype Guard = Guard(mutexFieldIndex: nat, needsExclusive: bool)

  /** `isConstructorLike`, a property of the function and the struct type. */
  type ConstructorLike = (Fn, StructType) -> bool

  predicate HoldsField(o: Observation, index: nat) {
    exists i :: 0 <= i < |o.held| && o.held[i].fieldIndex == index
  }
}

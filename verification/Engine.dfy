/** The memory engine's answers, as far as the managers look at them. */
module Engine {
  import opened StoreSpec

  datatype Stage = NotExist | Creating | Deleting | Exist | OnlyImport | WaitUnexport | End
  /** The answer to a stage query. */
  datatype Answer = Failed | NoSuchMemory | At(stage: Stage)
  /** The answer to a free request. */
  datatype Freed = FreedOk | FreedNotExist | FreeError

  predicate GoneForAdd(a: Answer) {
    a == NoSuchMemory || a == At(NotExist) || a == At(Deleting)
  }

  predicate GoneForDelete(a: Answer) {
    GoneForAdd(a) || a == At(WaitUnexport)
  }

  /** What recovery does with a record. */
  datatype Fate = Skip | Erase | Keep(state: RecordState)
}

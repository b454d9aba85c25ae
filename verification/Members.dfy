/** Members of a relation as libosmium hands them to the program. */
module Members {
  datatype ItemType = NODE | WAY | RELATION

  datatype Member = Member(kind: ItemType, ref: int, role: string)
}

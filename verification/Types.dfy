/** The types of function parameters, as far as partial application tells them apart. */
module Types {
  datatype Ty =
    | BoolTy
    | IntTy(width: nat)
    | FloatTy
    | PointerTy(pointee: nat)
    | ClassTy(id: nat)
}

/**
 The cells of the run-time stack.
 */
module StackCells {
  // Addresses in the stack as the machine shows them begin here.
  const STACK_BASE := 0x8000

  datatype Cell =
    | Word(w: int)
    | Real(r: int)
    | Address(a: nat)
    | RealAddress(a: nat)
    | Null
}

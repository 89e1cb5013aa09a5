module FiberStates {

  /** Fiber::State. */
  datatype FiberState = INIT | EXEC | HOLD | TERM
}

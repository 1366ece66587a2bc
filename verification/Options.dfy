module Options {
  /** A value that the source may leave undefined. */
  datatype Option<+T> = None | Some(value: T) {
    function GetOr(default: T): T {
      if Some? then value else default
    }
  }

  /** A field that should be boolean; other JavaScript values are only truthy or falsy. */
  datatype Flag = Yes | No | Truthy | Falsy {
    predicate IsBoolean() { Yes? || No? }
    predicate Holds() { Yes? || Truthy? }
  }
}

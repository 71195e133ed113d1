/** Rust's `i32`: the key and value type of the shared store and the
    argument/result type of every guest function. Dafny integers are
    unbounded, so the range is a subset type and every arithmetic step that
    could leave it carries a precondition at its use. */
module Int32 {

  const I32_MIN: int := -0x8000_0000
  const I32_MAX: int := 0x7FFF_FFFF

  type I32 = x: int | I32_MIN <= x <= I32_MAX
}

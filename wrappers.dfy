// The standard-library containers that the type-class instances of the
// library are written for. Rust's `Option`, `Result` and `Box` are plain
// values here; `PhantomData<T>` is a unit value that merely carries a type.

module Wrappers {

  /** Rust's `Option<T>`. */
  datatype Option<T> = None | Some(value: T)

  /** Rust's `Result<T, E>`. */
  datatype Result<T, E> = Ok(value: T) | Err(error: E)

  /** Rust's `Box<T>`: an owning pointer, observably the value it holds. */
  datatype Box<T> = Box(value: T)

  /** Rust's `PhantomData<T>`: one value, whatever `T` is. */
  datatype Phantom<T> = Phantom
}

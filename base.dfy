/** Values shared by every module of the model. */
module Base {

  /** A URL, as the text of `request.url`. */
  type Url = string

  /** A Python object as it appears in the override configuration or in the
      keyword arguments of a callback: a string (a URL pattern or any text),
      a class (a page object type such as `BookPage`), or an object of some
      class, as the injected and user-supplied callback arguments are.
      `name` stands for the class's identity, its fully qualified name, so
      two classes of the same short name in different modules are two
      values; `ident` tells an object apart from the others of its class. */
  datatype Value = Str(s: string) | Class(name: string) | Object(cls: string, ident: nat)

  datatype Option<+T> = None | Some(value: T)

  /** The outcome of an operation that can raise: `Failure` carries the exception. */
  datatype Result<+R, +E> = Success(value: R) | Failure(error: E)
}

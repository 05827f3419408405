/** Small value types shared by the modules of the model. */
module Common {

  /** Python's `None`-or-value. */
  datatype Option<+T> = None | Some(value: T)

  /** A value, or the exception the Python code would raise instead. */
  datatype Result<+T, +E> = Ok(value: T) | Err(error: E)

  /** A decoded JSON document, as `json.load` hands it to the code.
      Numbers, booleans and lists are kept opaque, apart from their Python
      truthiness: `0`, `0.0`, `false` and `[]` are falsy. */
  datatype Json =
    | Null
    | Text(s: string)
    | Object(fields: map<string, Json>)
    | Other(truthy: bool)

  /** Python's truthiness of a JSON value (`if not data`). */
  predicate Truthy(j: Json)
  {
    match j
    case Null => false
    case Text(s) => s != ""
    case Object(m) => m != map[]
    case Other(t) => t
  }

  /** What the code asks the operating system about paths:
      `os.path.expanduser('~')`, `os.path.normpath` and
      `os.path.basename`. They depend on the platform and are left
      uninterpreted. */
  datatype Host = Host(home: string, normpath: string -> string, basename: string -> string)

  /** One entry of an `os.scandir` listing. `is_dir()` and `is_file()` are
      both false for entries such as broken links. */
  datatype DirEntry = DirEntry(name: string, path: string, isDir: bool, isFile: bool)
}

/** The operation list every script format is converted to and from. */
module Operations {
  import opened Text
  import opened ValueFormat

  datatype Operation =
    | Key(path: wstring)
    | RemoveKey(path: wstring)
    | SetValue(path: wstring, value: RegistryValue)
    | RemoveValue(path: wstring, name: wstring)

  /** The name of the value an operation is about. */
  function NameOf(op: Operation): wstring {
    match op
    case SetValue(_, value) => value.name
    case RemoveValue(_, name) => name
    case _ => []
  }

  /** What the operation does besides opening its key. */
  function Own(op: Operation): seq<Operation> {
    if op.Key? then [] else [op]
  }
}

/** Ordered HTTP header lists and the meaning of the header transformer's operations.

    Names are compared by `strings.EqualFold`, an equivalence on names.  It is modelled as the
    kernel of a folding function: two names are the same when they fold to the same class.
    Every statement is made for all folding functions. */
module Headers {

  /** Maps a name to the class of names it is equal to under case folding. */
  type Folding = string -> string

  datatype Header = Header(name: string, value: string)

  /** The `operate` field of a rule: one of the five supported words, or any other text. */
  datatype Operation = Remove | Rename | Replace | Add | Append | Unsupported(text: string)

  datatype HeaderOperation = HeaderOperation(kind: Operation, key: string, value: string)

  /** Normalisation and validity of header names and values, which live in another package. */
  datatype Validation = Validation(normalizeName: string -> string, normalizeValue: string -> string,
                                   validName: string -> bool, validValue: string -> bool)

  predicate Same(f: Folding, a: string, b: string) {
    f(a) == f(b)
  }

  /** `hs` without the headers named `key`, the others in order. */
  function Without(f: Folding, hs: seq<Header>, key: string): seq<Header> {
    if hs == [] then [] else
    var rest := Without(f, hs[..|hs| - 1], key);
    if Same(f, hs[|hs| - 1].name, key) then rest else rest + [hs[|hs| - 1]]
  }

  /** `hs` with every header named `key` renamed to `name`; positions and values are kept. */
  function Renamed(f: Folding, hs: seq<Header>, key: string, name: string): seq<Header> {
    seq(|hs|, i requires 0 <= i < |hs| =>
      if Same(f, hs[i].name, key) then hs[i].(name := name) else hs[i])
  }

  predicate Has(f: Folding, hs: seq<Header>, key: string) {
    exists i :: 0 <= i < |hs| && Same(f, hs[i].name, key)
  }

  /** The meaning of one operation on a header list. */
  function Step(f: Folding, hs: seq<Header>, op: HeaderOperation): seq<Header> {
    match op.kind
    case Remove => Without(f, hs, op.key)
    case Rename => Renamed(f, hs, op.key, op.value)
    case Replace => Without(f, hs, op.key) + [Header(op.key, op.value)]
    case Add => if Has(f, hs, op.key) then hs else hs + [Header(op.key, op.value)]
    case Append => hs + [Header(op.key, op.value)]
    case Unsupported(_) => hs
  }

  /** The meaning of a program: its operations applied from left to right. */
  function Run(f: Folding, hs: seq<Header>, ops: seq<HeaderOperation>): seq<Header> {
    if ops == [] then hs
    else Step(f, Run(f, hs, ops[..|ops| - 1]), ops[|ops| - 1])
  }

  /** The headers of `hs` whose name class is in `classes`, in order. */
  ghost function Keep(f: Folding, hs: seq<Header>, classes: iset<string>): seq<Header> {
    if hs == [] then [] else
    var rest := Keep(f, hs[..|hs| - 1], classes);
    if f(hs[|hs| - 1].name) in classes then rest + [hs[|hs| - 1]] else rest
  }

  /** The operations of `ops` whose key class is in `classes`, in order. */
  ghost function KeepOps(f: Folding, ops: seq<HeaderOperation>, classes: iset<string>): seq<HeaderOperation> {
    if ops == [] then [] else
    var rest := KeepOps(f, ops[..|ops| - 1], classes);
    if f(ops[|ops| - 1].key) in classes then rest + [ops[|ops| - 1]] else rest
  }

  predicate IsOther(f: Folding, key: string, c: string) {
    c != f(key)
  }

  /** All name classes except that of `key`. */
  ghost function Others(f: Folding, key: string): iset<string> {
    iset c | IsOther(f, key, c)
  }

  /** A rename does not cross the boundary of `classes`. */
  ghost predicate Closed(f: Folding, op: HeaderOperation, classes: iset<string>) {
    op.kind.Rename? ==> (f(op.key) in classes <==> f(op.value) in classes)
  }

  /** The classes an operation reads or writes. */
  ghost function Touched(f: Folding, op: HeaderOperation): iset<string> {
    iset{f(op.key)} + if op.kind.Rename? then iset{f(op.value)} else iset{}
  }

  /** An operation keyed `key` that gives no header of that name another name. */
  predicate StaysOn(f: Folding, op: HeaderOperation, key: string) {
    Same(f, op.key, key) && !RenamesAway(f, op, key)
  }

  predicate RenamesAway(f: Folding, op: HeaderOperation, key: string) {
    op.kind.Rename? && Same(f, op.key, key) && !Same(f, op.value, key)
  }
}

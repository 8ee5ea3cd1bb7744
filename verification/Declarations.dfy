/** The checker of top-level declaration layout: its view of a Go file, the classification of
    declarations, and the owner of a constant block. */
module Declarations {
  import opened Wrappers
  import opened Headers

  /** Identifiers are never empty; the empty string stands for "no owner". */
  type Name = s: string | s != "" witness "_"

  datatype Expr =
    | Ident(name: Name)
    | Star(x: Expr)
    | Index(x: Expr)
    | IndexList(x: Expr)
    | Paren(x: Expr)
    | Call(fun: Expr, args: seq<Expr>)
    | StructType
    | OtherExpr

  datatype ValueSpec = ValueSpec(typ: Option<Expr>, values: seq<Expr>)

  datatype TypeSpec = TypeSpec(name: Name, typ: Expr)

  /** `results` are the types of the result fields, if there is a result list. */
  datatype Function = Function(name: Name, receiver: bool, results: Option<seq<Expr>>)

  datatype Decl =
    | Const(constants: seq<ValueSpec>)
    | Var
    | Types(specs: seq<TypeSpec>)
    | Import
    | Func(fn: Function)
    | Bad

  /** Whether a name is exported depends on the case of its first letter. */
  datatype Naming = Naming(exported: string -> bool, fold: Folding)

  type Table = map<Name, nat>

  // ---- The owner of a constant block -------------------------------------------------------

  /** The type a conversion `T(x)` names. */
  function ConversionOwner(e: Expr): string {
    if e.Call? && |e.args| == 1 && e.fun.Ident? then e.fun.name else ""
  }

  /** A specification that repeats the preceding one. */
  predicate Implicit(spec: ValueSpec) {
    spec.typ == None && spec.values == []
  }

  /** The block with every repetition written out; a leading one has nothing to repeat. */
  function Expand(specs: seq<ValueSpec>): seq<ValueSpec> {
    if specs == [] then [] else
    var n := |specs| - 1;
    var before := Expand(specs[..n]);
    before + [if Implicit(specs[n]) && before != [] then before[|before| - 1] else specs[n]]
  }

  /** The specification names `owner`: as its declared type, or by converting every value to it. */
  predicate Names(spec: ValueSpec, owner: string) {
    match spec.typ
    case Some(t) => t.Ident? && t.name == owner
    case None => spec.values != [] && owner != "" && forall v <- spec.values :: ConversionOwner(v) == owner
  }

  predicate Owns(specs: seq<ValueSpec>, owner: string) {
    owner != "" && specs != [] && forall s <- Expand(specs) :: Names(s, owner)
  }

  /** The name a first specification could give its block. */
  function Candidate(spec: ValueSpec): string {
    match spec.typ
    case Some(t) => if t.Ident? then t.name else ""
    case None => if spec.values == [] then "" else ConversionOwner(spec.values[0])
  }

  /** The owner of a constant block, or the empty string. */
  function OwnerOf(specs: seq<ValueSpec>): string {
    if specs != [] && Owns(specs, Candidate(specs[0])) then Candidate(specs[0]) else ""
  }

  /** The owner is the one name that all written-out specifications name. */
  lemma OwnerIsUnique(specs: seq<ValueSpec>, owner: string)
    ensures Owns(specs, owner) <==> OwnerOf(specs) == owner && owner != ""
  {
    if Owns(specs, owner) {
      ExpandFirst(specs);
      assert Names(Expand(specs)[0], owner);
      if specs[0].typ == None { assert specs[0].values[0] in specs[0].values; }
    }
  }

  lemma {:induction false} ExpandFirst(specs: seq<ValueSpec>)
    requires specs != []
    ensures |Expand(specs)| == |specs| && Expand(specs)[0] == specs[0]
  {
    var n := |specs| - 1;
    if n == 0 {
    } else {
      ExpandFirst(specs[..n]);
    }
  }

  /** The scan state after a prefix: all of it names `owner`, which is empty only at the start. */
  predicate ScanState(specs: seq<ValueSpec>, owner: string) {
    if specs == [] then owner == "" else Owns(specs, owner)
  }

  lemma ExpandSnoc(specs: seq<ValueSpec>, spec: ValueSpec)
    ensures var before := Expand(specs);
      Expand(specs + [spec]) == before + [if Implicit(spec) && before != [] then before[|before| - 1] else spec]
  {
    assert (specs + [spec])[..|specs|] == specs;
  }

  /** A block owned by a name has all its prefixes owned by that name. */
  lemma OwnsPrefix(specs: seq<ValueSpec>, n: nat, owner: string)
    requires Owns(specs, owner) && 0 < n <= |specs|
    ensures Owns(specs[..n], owner)
    decreases |specs|
  {
    if n < |specs| {
      var m := |specs| - 1;
      OwnsPrefix(specs[..m], n, owner);
      assert specs[..m][..n] == specs[..n];
    } else {
      assert specs[..n] == specs;
    }
  }

  /** One more specification keeps the owner iff it repeats or names it. */
  lemma OwnsSnoc(specs: seq<ValueSpec>, spec: ValueSpec, owner: string)
    ensures Owns(specs + [spec], owner) <==>
      if specs == [] then Names(spec, owner) && owner != ""
      else Owns(specs, owner) && (Implicit(spec) || Names(spec, owner))
  {
    ExpandSnoc(specs, spec);
    var before, all := Expand(specs), Expand(specs + [spec]);
    if specs != [] {
      ExpandFirst(specs);
      assert all[..|before|] == before;
      assert forall s <- before :: s in all;
      assert before[|before| - 1] in before;
      assert all[|before|] in all;
    } else {
      assert all == [spec];
    }
  }

  /** The specification repeats the one before it, declares the type, or converts every value to it. */
  ghost predicate Carries(spec: ValueSpec, owner: Name) {
    || spec == ValueSpec(None, [])
    || spec.typ == Some(Ident(owner))
    || (spec.typ == None && spec.values != [] && forall v <- spec.values :: ConvertsTo(v, owner))
  }

  ghost predicate ConvertsTo(e: Expr, owner: Name) {
    exists x :: e == Call(Ident(owner), [x])
  }

  lemma NamesIs(spec: ValueSpec, owner: Name)
    ensures Carries(spec, owner) <==> Implicit(spec) || Names(spec, owner)
  {
    forall v: Expr ensures ConvertsTo(v, owner) <==> ConversionOwner(v) == owner {
      if ConversionOwner(v) == owner { assert v == Call(Ident(owner), [v.args[0]]); }
    }
  }

  lemma {:induction false} OwnsIs(specs: seq<ValueSpec>, owner: Name)
    requires specs != []
    ensures Owns(specs, owner) <==> specs[0] != ValueSpec(None, []) && forall s <- specs :: Carries(s, owner)
  {
    var n := |specs| - 1;
    assert specs == specs[..n] + [specs[n]];
    OwnsSnoc(specs[..n], specs[n], owner);
    NamesIs(specs[n], owner);
    if n == 0 {
    } else {
      OwnsIs(specs[..n], owner);
    }
  }

  /** A constant block belongs to a type if and only if it starts with a specification that is no
      repetition, and every specification repeats, declares the type or converts every value to it. */
  lemma OwnerIs(specs: seq<ValueSpec>, owner: Name)
    ensures OwnerOf(specs) == owner <==>
      specs != [] && specs[0] != ValueSpec(None, []) && forall s <- specs :: Carries(s, owner)
  {
    OwnerIsUnique(specs, owner);
    if specs != [] { OwnsIs(specs, owner); }
  }

  /** Scans a constant block for its owner. */
  method ConstantOwner(specs: seq<ValueSpec>) returns (owner: string)
    ensures owner == OwnerOf(specs)
  {
    owner := "";
    for i := 0 to |specs|
      invariant ScanState(specs[..i], owner)
    {
      var value := specs[i];
      assert specs[..i + 1] == specs[..i] + [value];
      forall o: string { OwnsSnoc(specs[..i], value, o); }
      ghost var before := owner;
      match value.typ {
        case Some(t) =>
          if !t.Ident? || (owner != "" && owner != t.name) {
            NoOwner(specs, i, before);
            return "";
          }
          owner := t.name;
        case None =>
          if value.values == [] {
            if owner == "" {
              NoOwner(specs, i, before);
              return "";
            }
          } else {
            for j := 0 to |value.values|
              invariant j > 0 ==> owner != "" && (before == "" || before == owner)
              invariant j == 0 ==> owner == before
              invariant forall k :: 0 <= k < j ==> ConversionOwner(value.values[k]) == owner
            {
              var converted := ConversionOwner(value.values[j]);
              if converted == "" || (owner != "" && owner != converted) {
                forall o: string ensures !Names(value, o) || (before != "" && o != before) {
                  assert value.values[j] in value.values && value.values[0] in value.values;
                }
                NoOwner(specs, i, before);
                return "";
              }
              owner := converted;
            }
          }
      }
    }
    assert specs[..|specs|] == specs;
    OwnerIsUnique(specs, owner);
  }

  /** A specification that cannot continue the block leaves it without an owner. */
  lemma NoOwner(specs: seq<ValueSpec>, i: nat, before: string)
    requires i < |specs| && ScanState(specs[..i], before)
    requires forall o: string :: !Names(specs[i], o) || (before != "" && o != before) || o == ""
    requires Implicit(specs[i]) ==> before == ""
    ensures OwnerOf(specs) == ""
  {
    var o := OwnerOf(specs);
    if o != "" {
      OwnerIsUnique(specs, o);
      OwnsPrefix(specs, i + 1, o);
      assert specs[..i + 1] == specs[..i] + [specs[i]];
      OwnsSnoc(specs[..i], specs[i], o);
      if i > 0 {
        OwnerIsUnique(specs[..i], o);
        OwnerIsUnique(specs[..i], before);
      }
    }
  }
}

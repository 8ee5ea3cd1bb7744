/** The layout rules for the top-level declarations of a Go file: the order of kinds, and what must
    stand right behind a type declaration. */
module Layout {
  import opened Wrappers
  import opened Headers
  import opened Declarations

  type File = seq<Decl>

  // ---- Types and constructors of a file ----------------------------------------------------

  /** One of the first `count` specifications declares this name. */
  predicate SpecNames(specs: seq<TypeSpec>, count: nat, name: string)
    requires count <= |specs|
  {
    exists k :: 0 <= k < count && specs[k].name == name
  }

  predicate SpecNamesStruct(specs: seq<TypeSpec>, count: nat, name: string)
    requires count <= |specs|
  {
    exists k :: 0 <= k < count && specs[k].name == name && specs[k].typ.StructType?
  }

  /** Declaration `i` declares a type with this name. */
  predicate Declares(file: File, i: nat, name: string) {
    i < |file| && file[i].Types? && SpecNames(file[i].specs, |file[i].specs|, name)
  }

  predicate DeclaresStruct(file: File, i: nat, name: string) {
    i < |file| && file[i].Types? && SpecNamesStruct(file[i].specs, |file[i].specs|, name)
  }

  /** The table records, for each name declared before `count`, the last declaration of it. */
  ghost predicate IsTable(file: File, count: nat, types: Table)
    requires count <= |file|
  {
    && (forall n <- types :: types[n] < count && Declares(file, types[n], n))
    && forall i, n: Name :: 0 <= i < count && Declares(file, i, n) ==> n in types && i <= types[n]
  }

  predicate HasStruct(file: File, count: nat, name: string) {
    exists i: nat :: i < count && DeclaresStruct(file, i, name)
  }

  /** The table holds the names that some declaration before `count` declares as a struct. */
  ghost predicate IsStructTable(file: File, count: nat, structs: Table) {
    forall n: Name :: n in structs <==> HasStruct(file, count, n)
  }

  lemma HasStructNext(file: File, i: nat, name: string)
    requires i < |file|
    ensures HasStruct(file, i + 1, name) <==> HasStruct(file, i, name) || DeclaresStruct(file, i, name)
  {
  }

  method CollectTypeDeclarations(file: File) returns (types: Table, structs: Table)
    ensures IsTable(file, |file|, types) && IsStructTable(file, |file|, structs)
  {
    types, structs := map[], map[];
    for index := 0 to |file|
      invariant IsTable(file, index, types) && IsStructTable(file, index, structs)
    {
      forall n: Name { HasStructNext(file, index, n); }
      if file[index].Types? {
        types, structs := CollectSpecs(file[index].specs, index, types, structs);
      }
    }
  }

  /** Records the specifications of one declaration. */
  method CollectSpecs(specs: seq<TypeSpec>, index: nat, types0: Table, structs0: Table)
    returns (types: Table, structs: Table)
    ensures forall n: Name :: n in types <==> n in types0 || SpecNames(specs, |specs|, n)
    ensures forall n <- types :: types[n] == if SpecNames(specs, |specs|, n) then index else types0[n]
    ensures forall n: Name :: n in structs <==> n in structs0 || SpecNamesStruct(specs, |specs|, n)
  {
    types, structs := types0, structs0;
    for k := 0 to |specs|
      invariant forall n: Name :: n in types <==> n in types0 || SpecNames(specs, k, n)
      invariant forall n <- types :: types[n] == if SpecNames(specs, k, n) then index else types0[n]
      invariant forall n: Name :: n in structs <==> n in structs0 || SpecNamesStruct(specs, k, n)
    {
      types := types[specs[k].name := index];
      if specs[k].typ.StructType? {
        structs := structs[specs[k].name := index];
      }
    }
  }

  // ---- Constructors ------------------------------------------------------------------------

  /** The name of the result type behind pointers, type arguments and parentheses. */
  function ResultTypeName(e: Expr): string {
    match e
    case Ident(name) => name
    case Star(x) => ResultTypeName(x)
    case Index(x) => ResultTypeName(x)
    case IndexList(x) => ResultTypeName(x)
    case Paren(x) => ResultTypeName(x)
    case _ => ""
  }

  /** `e` is the name `n` behind any number of pointers, type arguments and parentheses. */
  predicate Wraps(e: Expr, n: Name) {
    e == Ident(n) || ((e.Star? || e.Index? || e.IndexList? || e.Paren?) && Wraps(e.x, n))
  }

  lemma {:induction false} ResultTypeNameIs(e: Expr, n: Name)
    ensures ResultTypeName(e) == n <==> Wraps(e, n)
  {
    match e
    case Star(x) => ResultTypeNameIs(x, n);
    case Index(x) => ResultTypeNameIs(x, n);
    case IndexList(x) => ResultTypeNameIs(x, n);
    case Paren(x) => ResultTypeNameIs(x, n);
    case _ =>
  }

  /** What follows the prefix, if it is there. */
  function CutPrefix(s: string, prefix: string): Option<string> {
    if prefix <= s then Some(s[|prefix|..]) else None
  }

  /** The function makes values of the declared type `owner`, by its name and one of its results. */
  predicate Constructs(naming: Naming, name: string, suffix: string, owner: string) {
    name == "New" || Same(naming.fold, suffix, owner)
  }

  /** The declared type of the first result that the function's name matches. */
  function FirstOwner(naming: Naming, types: Table, name: string, suffix: string, results: seq<Expr>): string {
    if results == [] then "" else
    var owner := ResultTypeName(results[0]);
    if owner in types && Constructs(naming, name, suffix, owner) then owner
    else FirstOwner(naming, types, name, suffix, results[1..])
  }

  function ConstructorOwner(naming: Naming, types: Table, f: Function): string {
    if f.receiver || f.results == None then "" else
    var suffix := if CutPrefix(f.name, "New").Some? then CutPrefix(f.name, "New") else CutPrefix(f.name, "new");
    if suffix == None || (suffix.value == "" && f.name != "New") then ""
    else FirstOwner(naming, types, f.name, suffix.value, f.results.value)
  }

  /** The name and the results make the function a constructor of the declared type `owner`: it is
      `New`, or `New` or `new` followed by the type's name up to case, and it returns that type. */
  predicate NamedFor(naming: Naming, f: Function, owner: string) {
    || f.name == "New"
    || ("New" <= f.name && |f.name| > 3 && Same(naming.fold, f.name[3..], owner))
    || ("new" <= f.name && |f.name| > 3 && Same(naming.fold, f.name[3..], owner))
  }

  /** The first result that is a declared type and matches the function's name. */
  predicate FirstMatch(naming: Naming, types: Table, name: string, suffix: string, results: seq<Expr>, i: nat) {
    && i < |results|
    && Matches(naming, types, name, suffix, results[i])
    && forall j :: 0 <= j < i ==> !Matches(naming, types, name, suffix, results[j])
  }

  predicate Matches(naming: Naming, types: Table, name: string, suffix: string, result: Expr) {
    ResultTypeName(result) in types && Constructs(naming, name, suffix, ResultTypeName(result))
  }

  /** The scan of the results finds the first match, and no name exactly when there is none. */
  lemma {:induction false} FirstOwnerIs(naming: Naming, types: Table, name: string, suffix: string, results: seq<Expr>)
    ensures var owner := FirstOwner(naming, types, name, suffix, results);
      if owner == "" then forall i :: 0 <= i < |results| ==> !Matches(naming, types, name, suffix, results[i])
      else exists i: nat :: FirstMatch(naming, types, name, suffix, results, i) && ResultTypeName(results[i]) == owner
  {
    if results == [] {
    } else {
      if Matches(naming, types, name, suffix, results[0]) {
        assert FirstMatch(naming, types, name, suffix, results, 0);
      } else {
        var rest := results[1..];
        FirstOwnerIs(naming, types, name, suffix, rest);
        var owner := FirstOwner(naming, types, name, suffix, rest);
        if i: nat :| FirstMatch(naming, types, name, suffix, rest, i) && ResultTypeName(rest[i]) == owner {
          assert FirstMatch(naming, types, name, suffix, results, i + 1);
        }
      }
    }
  }

  /** Result `i` is the declared type `owner`, bare or wrapped, and the function is named for it. */
  predicate Makes(naming: Naming, types: Table, f: Function, i: nat, owner: Name) {
    && f.results.Some? && i < |f.results.value| && Wraps(f.results.value[i], owner)
    && owner in types && NamedFor(naming, f, owner)
  }

  predicate MakesByName(naming: Naming, types: Table, f: Function, i: nat) {
    && f.results.Some? && i < |f.results.value|
    && ResultTypeName(f.results.value[i]) in types
    && NamedFor(naming, f, ResultTypeName(f.results.value[i]))
  }

  lemma MakesIs(naming: Naming, types: Table, f: Function, i: nat, n: Name)
    ensures Makes(naming, types, f, i, n) <==>
      MakesByName(naming, types, f, i) && ResultTypeName(f.results.value[i]) == n
  {
    if f.results.Some? && i < |f.results.value| { ResultTypeNameIs(f.results.value[i], n); }
  }

  lemma OwnerByName(naming: Naming, types: Table, f: Function)
    ensures var owner := ConstructorOwner(naming, types, f);
      if owner == "" then f.receiver || forall i: nat :: !MakesByName(naming, types, f, i)
      else !f.receiver && exists i: nat ::
        && MakesByName(naming, types, f, i) && ResultTypeName(f.results.value[i]) == owner
        && forall j: nat :: j < i ==> !MakesByName(naming, types, f, j)
  {
    if !f.receiver && f.results.Some? {
      assert "New"[0] != "new"[0];
      var suffix := if CutPrefix(f.name, "New").Some? then CutPrefix(f.name, "New") else CutPrefix(f.name, "new");
      if suffix.Some? && (suffix.value != "" || f.name == "New") {
        FirstOwnerIs(naming, types, f.name, suffix.value, f.results.value);
        forall o: string ensures Constructs(naming, f.name, suffix.value, o) <==> NamedFor(naming, f, o) {}
        var owner := ConstructorOwner(naming, types, f);
        var results := f.results.value;
        var name := f.name;
        if i: nat :| FirstMatch(naming, types, name, suffix.value, results, i) && ResultTypeName(results[i]) == owner {
          assert MakesByName(naming, types, f, i);
          forall j: nat | j < i ensures !MakesByName(naming, types, f, j) {
            assert !Matches(naming, types, f.name, suffix.value, f.results.value[j]);
          }
        }
        forall i: nat ensures MakesByName(naming, types, f, i) <==>
          i < |f.results.value| && Matches(naming, types, f.name, suffix.value, f.results.value[i]) {}
      } else {
        forall o: string ensures !NamedFor(naming, f, o) {}
      }
    }
  }

  /** A function is a constructor of the first declared result type it is named for, and of no type
      exactly when it is a method or named for none of its declared result types. */
  lemma ConstructorOwnerIs(naming: Naming, types: Table, f: Function)
    ensures var owner := ConstructorOwner(naming, types, f);
      if owner == "" then f.receiver || forall i: nat, n: Name :: !Makes(naming, types, f, i, n)
      else !f.receiver && exists i: nat ::
        && Makes(naming, types, f, i, owner)
        && forall j: nat, n: Name :: j < i ==> !Makes(naming, types, f, j, n)
  {
    var owner := ConstructorOwner(naming, types, f);
    OwnerByName(naming, types, f);
    forall i: nat, n: Name { MakesIs(naming, types, f, i, n); }
    if owner != "" {
      var i: nat :| MakesByName(naming, types, f, i) && ResultTypeName(f.results.value[i]) == owner
        && forall j: nat :: j < i ==> !MakesByName(naming, types, f, j);
      assert Makes(naming, types, f, i, owner);
    }
  }

  /** The type whose constructor the declaration is, or the empty string. */
  function Constructed(naming: Naming, types: Table, d: Decl): string {
    if d.Func? then ConstructorOwner(naming, types, d.fn) else ""
  }

  function Constructors(naming: Naming, types: Table, file: File): (owners: seq<string>)
    ensures |owners| == |file|
  {
    seq(|file|, i requires 0 <= i < |file| => Constructed(naming, types, file[i]))
  }

  /** The table records, for each type, the last constructor of it before `count`. */
  predicate IsConstructorTable(owners: seq<string>, count: nat, cs: map<string, nat>)
    requires count <= |owners|
  {
    && (forall o <- cs :: o != "" && cs[o] < count && owners[cs[o]] == o)
    && forall i :: 0 <= i < count && owners[i] != "" ==> owners[i] in cs && i <= cs[owners[i]]
  }

  /** One more declaration is recorded under the type it constructs, if any. */
  lemma ConstructorTableNext(owners: seq<string>, count: nat, cs: map<string, nat>)
    requires count < |owners| && IsConstructorTable(owners, count, cs)
    ensures var o := owners[count];
      IsConstructorTable(owners, count + 1, if o != "" then cs[o := count] else cs)
  {
  }

  method CollectConstructors(naming: Naming, file: File, types: Table) returns (cs: map<string, nat>)
    ensures IsConstructorTable(Constructors(naming, types, file), |file|, cs)
  {
    cs := map[];
    ghost var owners := Constructors(naming, types, file);
    for index := 0 to |file|
      invariant IsConstructorTable(owners, index, cs)
    {
      ConstructorTableNext(owners, index, cs);
      if file[index].Func? {
        var owner := ConstructorOwner(naming, types, file[index].fn);
        if owner != "" {
          cs := cs[owner := index];
        }
      }
    }
  }

  // ---- Order of kinds ----------------------------------------------------------------------

  const CONST: nat := 0
  const VAR: nat := 1
  const TYPE: nat := 2
  const EXPORTED_FUNC: nat := 3
  const PRIVATE_FUNC: nat := 4

  /** The category of a declaration; imports have none. */
  function Classify(naming: Naming, types: Table, d: Decl): Option<nat> {
    match d
    case Const(specs) => Some(if OwnerOf(specs) in types then TYPE else CONST)
    case Var => Some(VAR)
    case Types(_) => Some(TYPE)
    case Func(f) =>
      Some(if ConstructorOwner(naming, types, f) != "" then TYPE
           else if naming.exported(f.name) then EXPORTED_FUNC else PRIVATE_FUNC)
    case Import | Bad => None
  }

  function Categories(naming: Naming, types: Table, file: File): (cs: seq<Option<nat>>)
    ensures |cs| == |file|
    ensures forall i :: 0 <= i < |cs| && cs[i].Some? ==> cs[i].value <= PRIVATE_FUNC
  {
    seq(|file|, i requires 0 <= i < |file| => Classify(naming, types, file[i]))
  }

  /** Declaration `i` stands behind one of a greater category. */
  predicate OutOfOrder(cs: seq<Option<nat>>, i: nat) {
    i < |cs| && cs[i].Some? && exists j :: 0 <= j < i && cs[j].Some? && cs[j].value > cs[i].value
  }

  /** Scans the categories once, keeping the highest so far.  What it does not report is in
      nondecreasing order. */
  method ReportOutOfOrder(cs: seq<Option<nat>>) returns (reported: seq<nat>)
    ensures forall i: nat :: i in reported <==> OutOfOrder(cs, i)
    ensures forall a, b :: 0 <= a < b < |reported| ==> reported[a] < reported[b]
    ensures forall i, j :: 0 <= i < j < |cs| && cs[i].Some? && cs[j].Some? && j !in reported ==>
      cs[i].value <= cs[j].value
  {
    reported := [];
    var highest := 0;
    var hasDeclaration := false;
    for i := 0 to |cs|
      invariant forall k: nat :: k in reported <==> k < i && OutOfOrder(cs, k)
      invariant forall a, b :: 0 <= a < b < |reported| ==> reported[a] < reported[b]
      invariant forall a :: 0 <= a < |reported| ==> reported[a] < i
      invariant hasDeclaration <==> exists j :: 0 <= j < i && cs[j].Some?
      invariant hasDeclaration ==> exists j :: 0 <= j < i && cs[j] == Some(highest)
      invariant forall j :: 0 <= j < i && cs[j].Some? ==> cs[j].value <= highest
    {
      if cs[i].None? {
        continue;
      }
      var category := cs[i].value;
      if hasDeclaration && category < highest {
        reported := reported + [i];
        continue;
      }
      if !hasDeclaration || category > highest {
        highest := category;
        hasDeclaration := true;
      }
    }
  }

  /** The declarations from `from` to `to` are all of one category, imports aside. */
  predicate Uniform(cs: seq<Option<nat>>, from: nat, to: nat, category: nat) {
    from <= to <= |cs| && forall i :: from <= i < to && cs[i].Some? ==> cs[i].value == category
  }

  predicate Segmented(cs: seq<Option<nat>>, a: nat, b: nat, c: nat, d: nat) {
    && Uniform(cs, 0, a, CONST) && Uniform(cs, a, b, VAR) && Uniform(cs, b, c, TYPE)
    && Uniform(cs, c, d, EXPORTED_FUNC) && Uniform(cs, d, |cs|, PRIVATE_FUNC)
  }

  /** Nothing is out of order iff the file is constants, then variables, then types with what belongs
      to them, then exported functions, then private functions. */
  lemma InOrderIsSegmented(cs: seq<Option<nat>>)
    requires forall i :: 0 <= i < |cs| && cs[i].Some? ==> cs[i].value <= PRIVATE_FUNC
    ensures (forall i: nat :: !OutOfOrder(cs, i)) <==>
      exists a: nat, b: nat, c: nat, d: nat :: Segmented(cs, a, b, c, d)
  {
    if forall i: nat :: !OutOfOrder(cs, i) {
      var a := Cut(cs, CONST);
      var b := Cut(cs, VAR);
      var c := Cut(cs, TYPE);
      var d := Cut(cs, EXPORTED_FUNC);
      assert Segmented(cs, a, b, c, d);
    }
    if exists a, b, c, d :: Segmented(cs, a, b, c, d) {
      var a, b, c, d :| Segmented(cs, a, b, c, d);
      forall i: nat, j: nat | j < i < |cs| && cs[i].Some? && cs[j].Some? ensures cs[j].value <= cs[i].value {
      }
    }
  }

  /** In an ordered list, where the categories above `category` begin. */
  lemma Cut(cs: seq<Option<nat>>, category: nat) returns (cut: nat)
    requires forall i: nat :: !OutOfOrder(cs, i)
    ensures cut <= |cs|
    ensures forall i :: 0 <= i < |cs| && cs[i].Some? ==> (i < cut <==> cs[i].value <= category)
    ensures forall i :: 0 <= i < cut ==> cs[i].None? || cs[i].value <= category
    ensures cut == |cs| || (cs[cut].Some? && cs[cut].value > category)
  {
    cut := 0;
    while cut < |cs| && (cs[cut].None? || cs[cut].value <= category)
      invariant cut <= |cs|
      invariant forall i :: 0 <= i < cut ==> cs[i].None? || cs[i].value <= category
    {
      cut := cut + 1;
    }
    forall i | cut <= i < |cs| && cs[i].Some? ensures cs[i].value > category {
      assert !OutOfOrder(cs, i);
    }
  }

  // ---- What must follow a type declaration -------------------------------------------------

  datatype Violation =
    | ConstAway(decl: nat)                    // a type's constants do not follow it
    | StructLate(decl: nat, spec: nat)        // a struct without constructor behind one with
    | ConstructorAway(decl: nat, spec: nat)   // a type's constructor does not follow it
    | OutOfPlace(decl: nat)                   // a declaration of the wrong kind for its place

  /** The tables the checks use, with what they record about the file. */
  datatype Tables = Tables(types: Table, structs: Table, constructors: map<string, nat>)

  ghost predicate Describes(naming: Naming, file: File, t: Tables) {
    && IsTable(file, |file|, t.types) && IsStructTable(file, |file|, t.structs)
    && IsConstructorTable(Constructors(naming, t.types, file), |file|, t.constructors)
  }

  /** Declaration `i` has a specification with this name, whatever it declares the name as. */
  predicate HasSpec(file: File, i: nat, name: string) {
    i < |file| && file[i].Types? && exists spec <- file[i].specs :: spec.name == name
  }

  /** The tables know a type by the last declaration that has its name, and a struct by one that
      declares the name as a struct, be it the last or an earlier one. */
  lemma TablesKnow(naming: Naming, file: File, t: Tables, n: Name)
    requires Describes(naming, file, t)
    ensures n in t.types <==> exists i: nat :: HasSpec(file, i, n)
    ensures n in t.types ==> HasSpec(file, t.types[n], n) && forall i: nat :: HasSpec(file, i, n) ==> i <= t.types[n]
    ensures n in t.structs <==> exists d <- file :: d.Types? && TypeSpec(n, StructType) in d.specs
  {
    forall i: nat ensures HasSpec(file, i, n) <==> Declares(file, i, n) {
      if HasSpec(file, i, n) {
        var spec :| spec in file[i].specs && spec.name == n;
        var k :| 0 <= k < |file[i].specs| && file[i].specs[k] == spec;
      }
    }
    if d :| d in file && d.Types? && TypeSpec(n, StructType) in d.specs {
      var i :| 0 <= i < |file| && file[i] == d;
      var k :| 0 <= k < |d.specs| && d.specs[k] == TypeSpec(n, StructType);
      assert DeclaresStruct(file, i, n);
    }
    if n in t.structs {
      assert HasStruct(file, |file|, n);
      var i: nat :| i < |file| && DeclaresStruct(file, i, n);
      var k :| 0 <= k < |file[i].specs| && file[i].specs[k].name == n && file[i].specs[k].typ.StructType?;
      assert file[i].specs[k] == TypeSpec(n, StructType) && file[i] in file;
    }
  }

  predicate ConstMisplaced(t: Tables, file: File, i: nat) {
    && i < |file| && file[i].Const?
    && OwnerOf(file[i].constants) in t.types && i != t.types[OwnerOf(file[i].constants)] + 1
  }

  /** Specification `k` of declaration `i` declares the type that the tables record. */
  predicate Current(t: Tables, file: File, i: nat, k: nat) {
    && i < |file| && file[i].Types? && k < |file[i].specs|
    && file[i].specs[k].name in t.types && t.types[file[i].specs[k].name] == i
  }

  predicate ConstructedStruct(t: Tables, file: File, i: nat, k: nat) {
    Current(t, file, i, k) && file[i].specs[k].name in t.constructors && file[i].specs[k].name in t.structs
  }

  predicate PlainStruct(t: Tables, file: File, i: nat, k: nat) {
    Current(t, file, i, k) && file[i].specs[k].name !in t.constructors && file[i].specs[k].name in t.structs
  }

  /** A struct with a constructor stands before specification `k` of declaration `i`. */
  predicate StructSeen(t: Tables, file: File, i: nat, k: nat)
    requires i <= |file|
  {
    || (exists i' :: 0 <= i' < i && StructIn(t, file, i', |if file[i'].Types? then file[i'].specs else []|))
    || StructIn(t, file, i, k)
  }

  predicate StructIn(t: Tables, file: File, i: nat, count: nat) {
    exists k :: 0 <= k < count && ConstructedStruct(t, file, i, k)
  }

  predicate StructMisplaced(t: Tables, file: File, i: nat, k: nat) {
    PlainStruct(t, file, i, k) && StructSeen(t, file, i, k)
  }

  predicate ConstructorMisplaced(t: Tables, file: File, i: nat, k: nat) {
    Current(t, file, i, k) && file[i].specs[k].name in t.constructors && t.constructors[file[i].specs[k].name] != i + 1
  }

  /** Each violation is reported once. */
  predicate NoneTwice(vs: seq<Violation>) {
    forall i, j :: 0 <= i < j < |vs| ==> vs[i] != vs[j]
  }

  lemma AddedOnce(vs: seq<Violation>, v: Violation)
    requires NoneTwice(vs) && v !in vs
    ensures NoneTwice(vs + [v])
  {
  }

  lemma JoinedOnce(a: seq<Violation>, b: seq<Violation>)
    requires NoneTwice(a) && NoneTwice(b) && forall v <- a :: v !in b
    ensures NoneTwice(a + b)
  {
    forall i, j | 0 <= i < j < |a + b| ensures (a + b)[i] != (a + b)[j] {
      if i < |a| <= j { assert a[i] in a && b[j - |a|] in b; }
    }
  }

  method VerifyConstants(t: Tables, file: File) returns (vs: seq<Violation>)
    ensures forall v :: v in vs <==> v.ConstAway? && ConstMisplaced(t, file, v.decl)
    ensures NoneTwice(vs)
  {
    vs := [];
    for index := 0 to |file|
      invariant NoneTwice(vs)
      invariant forall v :: v in vs <==> v.ConstAway? && v.decl < index && ConstMisplaced(t, file, v.decl)
    {
      if !file[index].Const? {
        continue;
      }
      var owner := ConstantOwner(file[index].constants);
      if owner == "" || owner !in t.types || index == t.types[owner] + 1 {
        continue;
      }
      AddedOnce(vs, ConstAway(index));
      vs := vs + [ConstAway(index)];
    }
  }

  /** The violation, if any, at specification `k` of declaration `i`. */
  predicate SpecViolation(t: Tables, file: File, v: Violation) {
    match v
    case StructLate(i, k) => StructMisplaced(t, file, i, k)
    case ConstructorAway(i, k) => ConstructorMisplaced(t, file, i, k)
    case _ => false
  }

  predicate Upto(v: Violation, i: nat, k: nat) {
    (v.StructLate? || v.ConstructorAway?) && (v.decl < i || (v.decl == i && v.spec < k))
  }

  method VerifyTypes(t: Tables, file: File) returns (vs: seq<Violation>)
    ensures forall v :: v in vs <==> SpecViolation(t, file, v)
    ensures NoneTwice(vs)
  {
    vs := [];
    var constructedStructSeen := false;
    for index := 0 to |file|
      invariant NoneTwice(vs)
      invariant forall v :: v in vs <==> Upto(v, index, 0) && SpecViolation(t, file, v)
      invariant constructedStructSeen <==> StructSeen(t, file, index, 0)
    {
      if !file[index].Types? {
        SeenNextDecl(t, file, index);
        continue;
      }
      var specs := file[index].specs;
      for k := 0 to |specs|
        invariant NoneTwice(vs)
        invariant forall v :: v in vs <==> Upto(v, index, k) && SpecViolation(t, file, v)
        invariant constructedStructSeen <==> StructSeen(t, file, index, k)
      {
        var name := specs[k].name;
        SeenNextSpec(t, file, index, k);
        if name !in t.types || t.types[name] != index {
          continue;
        }
        if name !in t.constructors {
          if name in t.structs && constructedStructSeen {
            AddedOnce(vs, StructLate(index, k));
            vs := vs + [StructLate(index, k)];
          }
          continue;
        }
        if name in t.structs {
          constructedStructSeen := true;
        }
        if t.constructors[name] != index + 1 {
          AddedOnce(vs, ConstructorAway(index, k));
          vs := vs + [ConstructorAway(index, k)];
        }
      }
      SeenNextDecl(t, file, index);
    }
  }

  lemma SeenNextSpec(t: Tables, file: File, i: nat, k: nat)
    requires i < |file|
    ensures StructSeen(t, file, i, k + 1) <==> StructSeen(t, file, i, k) || ConstructedStruct(t, file, i, k)
  {
  }

  lemma SeenNextDecl(t: Tables, file: File, i: nat)
    requires i < |file|
    ensures StructSeen(t, file, i + 1, 0) <==> StructSeen(t, file, i, |if file[i].Types? then file[i].specs else []|)
  {
  }

  /** The declaration belongs in segment `k` of a file: plain constants, variables, types with their
      constants and constructors, exported functions, private functions.  Imports belong in none. */
  predicate BelongsIn(naming: Naming, types: Table, d: Decl, k: nat) {
    match k
    case 0 => d.Const? && OwnerOf(d.constants) !in types
    case 1 => d.Var?
    case 2 => d.Types? || (d.Const? && OwnerOf(d.constants) in types) || Constructed(naming, types, d) != ""
    case 3 => d.Func? && Constructed(naming, types, d) == "" && naming.exported(d.fn.name)
    case 4 => d.Func? && Constructed(naming, types, d) == "" && !naming.exported(d.fn.name)
    case _ => false
  }

  /** Declaration `i` stands behind one that belongs in a later segment. */
  ghost predicate Late(naming: Naming, types: Table, file: File, i: nat) {
    i < |file| && exists j: nat, k: nat, m: nat ::
      && j < i && m < k && BelongsIn(naming, types, file[j], k) && BelongsIn(naming, types, file[i], m)
  }

  lemma ClassifyIs(naming: Naming, types: Table, d: Decl, k: nat)
    ensures Classify(naming, types, d) == Some(k) <==> BelongsIn(naming, types, d, k)
  {
  }

  lemma LateIs(naming: Naming, types: Table, file: File, i: nat)
    ensures Late(naming, types, file, i) <==> OutOfOrder(Categories(naming, types, file), i)
  {
    var cs := Categories(naming, types, file);
    forall j: nat, k: nat | j < |file| ensures cs[j] == Some(k) <==> BelongsIn(naming, types, file[j], k) {
      ClassifyIs(naming, types, file[j], k);
    }
    if OutOfOrder(cs, i) {
      var j :| 0 <= j < i && cs[j].Some? && cs[j].value > cs[i].value;
      assert BelongsIn(naming, types, file[j], cs[j].value) && BelongsIn(naming, types, file[i], cs[i].value);
    }
  }

  /** The rule that a violation names is broken where it says. */
  ghost predicate Broken(naming: Naming, file: File, t: Tables, v: Violation) {
    || (v.ConstAway? && ConstMisplaced(t, file, v.decl))
    || SpecViolation(t, file, v)
    || (v.OutOfPlace? && Late(naming, t.types, file, v.decl))
  }

  /** Checks a whole file: the violations are exactly where a rule is broken. */
  method VerifyFile(naming: Naming, file: File) returns (vs: seq<Violation>)
    ensures exists t :: Describes(naming, file, t) && forall v :: v in vs <==> Broken(naming, file, t, v)
    ensures NoneTwice(vs)
  {
    var types, structs := CollectTypeDeclarations(file);
    var constructors := CollectConstructors(naming, file, types);
    var t := Tables(types, structs, constructors);
    assert Describes(naming, file, t);
    var misplacedConstants := VerifyConstants(t, file);
    var misplacedTypes := VerifyTypes(t, file);
    var reported := ReportOutOfOrder(Categories(naming, types, file));
    var misplacedKinds := seq(|reported|, i requires 0 <= i < |reported| => OutOfPlace(reported[i]));
    forall i: nat { LateIs(naming, types, file, i); }
    forall v ensures v in misplacedKinds <==> v.OutOfPlace? && v.decl in reported {
      if v.OutOfPlace? && v.decl in reported {
        var i :| 0 <= i < |reported| && reported[i] == v.decl;
        assert misplacedKinds[i] == v;
      }
    }
    JoinedOnce(misplacedConstants, misplacedTypes);
    JoinedOnce(misplacedConstants + misplacedTypes, misplacedKinds);
    vs := misplacedConstants + misplacedTypes + misplacedKinds;
  }

  // ---- What every accepted file looks like -------------------------------------------------

  /** A file without violations. */
  ghost predicate Accepted(naming: Naming, file: File, t: Tables) {
    Describes(naming, file, t) && forall v :: !Broken(naming, file, t, v)
  }

  /** `d` is a constant block of the type, or its recorded constructor. */
  predicate Attached(t: Tables, file: File, name: string, d: nat) {
    && d < |file| && name in t.types
    && ((file[d].Const? && OwnerOf(file[d].constants) == name) ||
        (name in t.constructors && t.constructors[name] == d))
  }

  /** In an accepted file whatever is attached to a type stands right behind its declaration. */
  lemma AttachedFollows(naming: Naming, file: File, t: Tables, name: string, d: nat)
    requires Accepted(naming, file, t) && Attached(t, file, name, d)
    ensures d == t.types[name] + 1
  {
    if file[d].Const? && OwnerOf(file[d].constants) == name {
      assert !Broken(naming, file, t, ConstAway(d));
    } else {
      var i := t.types[name];
      assert Declares(file, i, name);
      var k :| 0 <= k < |file[i].specs| && file[i].specs[k].name == name;
      assert !Broken(naming, file, t, ConstructorAway(i, k));
    }
  }

  /** Of a type's constructors only the last is held to the rule: in an accepted file a constructor
      stands right behind its type iff no later function constructs the same type. */
  lemma LastConstructorFollows(naming: Naming, file: File, t: Tables, d: nat)
    requires Accepted(naming, file, t) && d < |file| && Constructed(naming, t.types, file[d]) != ""
    ensures var owner := Constructed(naming, t.types, file[d]);
      && owner in t.types
      && (d == t.types[owner] + 1 <==> forall e :: d < e < |file| ==> Constructed(naming, t.types, file[e]) != owner)
  {
    var owner, owners := Constructed(naming, t.types, file[d]), Constructors(naming, t.types, file);
    ConstructorOwnerIs(naming, t.types, file[d].fn);
    assert owners[d] == owner && owner in t.constructors;
    var last := t.constructors[owner];
    AttachedFollows(naming, file, t, owner, last);
    assert owners[last] == Constructed(naming, t.types, file[last]);
    forall e | d < e < |file| && Constructed(naming, t.types, file[e]) == owner ensures e <= last {
      assert owners[e] == owner;
    }
  }

  lemma MakesItsType(naming: Naming, types: Table, f: Function, n: Name)
    requires n in types && f.name in {"New" + n, "new" + n} && !f.receiver && f.results == Some([Ident(n)])
    ensures ConstructorOwner(naming, types, f) == n
  {
    assert "New" <= "New" + n && "new" <= "new" + n && f.name[3..] == n;
    assert "New"[0] != "new"[0];
    assert CutPrefix(f.name, "New") == if "New" <= f.name then Some(n) else None;
  }

  /** `newT`, then the type, then `NewT`. */
  function TypeBetween(n: Name): File {
    [Func(Function("new" + n, false, Some([Ident(n)]))),
     Types([TypeSpec(n, StructType)]),
     Func(Function("New" + n, false, Some([Ident(n)])))]
  }

  function TablesBetween(n: Name): Tables {
    Tables(map[n := 1], map[n := 1], map[n := 2])
  }

  lemma BetweenIsDescribed(naming: Naming, n: Name)
    ensures Describes(naming, TypeBetween(n), TablesBetween(n))
    ensures Constructors(naming, TablesBetween(n).types, TypeBetween(n)) == [n, "", n]
  {
    var file, t := TypeBetween(n), TablesBetween(n);
    MakesItsType(naming, t.types, file[0].fn, n);
    MakesItsType(naming, t.types, file[2].fn, n);
    assert file[1].specs[0].name == n && file[1].specs[0].typ.StructType?;
    assert DeclaresStruct(file, 1, n) && HasStruct(file, 3, n);
    assert Constructors(naming, t.types, file) == [n, "", n];
  }

  /** The rule does leave earlier constructors free: a file in which one stands before its type is
      accepted. */
  lemma EarlierConstructorIsFree(naming: Naming, n: Name)
    ensures var file, t := TypeBetween(n), TablesBetween(n);
      Constructed(naming, t.types, file[0]) == n && t.types[n] == 1 && Accepted(naming, file, t)
  {
    var file, t := TypeBetween(n), TablesBetween(n);
    BetweenIsDescribed(naming, n);
    assert Constructors(naming, t.types, file)[0] == n && Constructors(naming, t.types, file)[2] == n;
    assert Categories(naming, t.types, file) == [Some(TYPE), Some(TYPE), Some(TYPE)];
    forall v ensures !Broken(naming, file, t, v) {
      assert !SpecViolation(t, file, v);
    }
  }

  /** Exclusivity: all types of one declaration, grouped or not, have together at most one attached
      declaration, and it is attached to only one of them. */
  lemma AttachmentIsExclusive(naming: Naming, file: File, t: Tables, a: string, d: nat, b: string, e: nat)
    requires Accepted(naming, file, t)
    requires Attached(t, file, a, d) && Attached(t, file, b, e) && t.types[a] == t.types[b]
    ensures d == e && a == b
  {
    AttachedFollows(naming, file, t, a, d);
    AttachedFollows(naming, file, t, b, e);
  }

  /** In an accepted file structs without constructors stand before structs with one. */
  lemma PlainStructsComeFirst(naming: Naming, file: File, t: Tables, i: nat, k: nat, i': nat, k': nat)
    requires Accepted(naming, file, t)
    requires PlainStruct(t, file, i, k) && ConstructedStruct(t, file, i', k')
    ensures i < i' || (i == i' && k < k')
  {
    assert !Broken(naming, file, t, StructLate(i, k));
  }

  /** Everything attached to a type is among the declarations from `from` to `to`. */
  ghost predicate AttachedIn(t: Tables, file: File, from: nat, to: nat) {
    forall name, e: nat :: Attached(t, file, name, e) ==> from <= e < to
  }

  /** The kinds of declarations in the five segments of a file; imports may stand anywhere. */
  predicate SegmentKinds(naming: Naming, t: Tables, file: File, a: nat, b: nat, c: nat, d: nat) {
    a <= b <= c <= d <= |file| && forall i :: 0 <= i < |file| ==> KindAt(naming, t, file, a, b, c, d, i)
  }

  predicate KindAt(naming: Naming, t: Tables, file: File, a: nat, b: nat, c: nat, d: nat, i: nat)
    requires i < |file|
  {
    match file[i]
    case Const(specs) => if OwnerOf(specs) in t.types then b <= i < c else i < a
    case Var => a <= i < b
    case Types(_) => b <= i < c
    case Func(f) =>
      if Constructed(naming, t.types, file[i]) != "" then b <= i < c
      else if naming.exported(f.name) then c <= i < d else d <= i
    case _ => true
  }

  lemma SegmentsByKind(naming: Naming, file: File, t: Tables, a: nat, b: nat, c: nat, d: nat)
    ensures Segmented(Categories(naming, t.types, file), a, b, c, d) <==> SegmentKinds(naming, t, file, a, b, c, d)
  {
    var cs := Categories(naming, t.types, file);
    forall i | 0 <= i < |file| ensures cs[i] == Classify(naming, t.types, file[i]) {}
    if Segmented(cs, a, b, c, d) {
      forall i | 0 <= i < |file| ensures KindAt(naming, t, file, a, b, c, d, i) {
        assert cs[i] == Classify(naming, t.types, file[i]);
      }
    }
    if SegmentKinds(naming, t, file, a, b, c, d) {
      forall i | 0 <= i < |cs| && cs[i].Some?
        ensures cs[i].value == if i < a then CONST else if i < b then VAR else if i < c then TYPE
                               else if i < d then EXPORTED_FUNC else PRIVATE_FUNC
      {
        assert KindAt(naming, t, file, a, b, c, d, i);
      }
    }
  }

  /** No declaration is late iff the file is plain constants, then variables, then types with their
      constants and constructors, then exported functions, then private ones, wherever imports are. */
  lemma NoneLateIsSegmented(naming: Naming, file: File, t: Tables)
    ensures (forall i: nat :: !Late(naming, t.types, file, i)) <==>
      exists a: nat, b: nat, c: nat, d: nat :: SegmentKinds(naming, t, file, a, b, c, d)
  {
    var cs := Categories(naming, t.types, file);
    forall i: nat { LateIs(naming, t.types, file, i); }
    InOrderIsSegmented(cs);
    forall a: nat, b: nat, c: nat, d: nat { SegmentsByKind(naming, file, t, a, b, c, d); }
  }

  /** An accepted file consists of these segments, and everything attached to a type is in the third. */
  lemma AcceptedIsSegmented(naming: Naming, file: File, t: Tables)
    requires Accepted(naming, file, t)
    ensures exists a: nat, b: nat, c: nat, d: nat ::
      SegmentKinds(naming, t, file, a, b, c, d) && AttachedIn(t, file, b, c)
  {
    forall i: nat ensures !Late(naming, t.types, file, i) { assert !Broken(naming, file, t, OutOfPlace(i)); }
    NoneLateIsSegmented(naming, file, t);
    var a: nat, b: nat, c: nat, d: nat :| SegmentKinds(naming, t, file, a, b, c, d);
    forall name, e: nat | Attached(t, file, name, e) ensures b <= e < c {
      assert KindAt(naming, t, file, a, b, c, d, e);
      assert file[e].Const? || Constructors(naming, t.types, file)[e] == name;
    }
  }

  /** Whatever is attached to a type stands right behind its declaration. */
  ghost predicate AllAttachedFollow(t: Tables, file: File) {
    forall name, d: nat :: Attached(t, file, name, d) ==> d == t.types[name] + 1
  }

  /** Structs without constructors stand before structs with one. */
  ghost predicate PlainBeforeConstructed(t: Tables, file: File) {
    forall i: nat, k: nat, i': nat, k': nat :: PlainStruct(t, file, i, k) && ConstructedStruct(t, file, i', k') ==>
      i < i' || (i == i' && k < k')
  }

  /** Then no rule on attachment or structs is broken. */
  lemma OnlyLateIsLeft(naming: Naming, file: File, t: Tables, v: Violation)
    requires Describes(naming, file, t)
    requires AllAttachedFollow(t, file) && PlainBeforeConstructed(t, file)
    ensures Broken(naming, file, t, v) ==> v.OutOfPlace?
  {
    match v
    case ConstAway(i) =>
      if i < |file| && file[i].Const? && OwnerOf(file[i].constants) in t.types {
        assert Attached(t, file, OwnerOf(file[i].constants), i);
      }
    case ConstructorAway(i, k) =>
      if Current(t, file, i, k) && file[i].specs[k].name in t.constructors {
        assert Attached(t, file, file[i].specs[k].name, t.constructors[file[i].specs[k].name]);
      }
    case StructLate(i, k) =>
    case OutOfPlace(_) =>
  }

  /** What the checker accepts: a file has no violation if and only if it consists of the five
      segments, everything attached to a type stands right behind it, and structs without
      constructors come before structs with one. */
  lemma AcceptedExactly(naming: Naming, file: File, t: Tables)
    requires Describes(naming, file, t)
    ensures Accepted(naming, file, t) <==>
      && (exists a: nat, b: nat, c: nat, d: nat :: SegmentKinds(naming, t, file, a, b, c, d))
      && AllAttachedFollow(t, file)
      && PlainBeforeConstructed(t, file)
  {
    NoneLateIsSegmented(naming, file, t);
    if Accepted(naming, file, t) {
      AcceptedIsSegmented(naming, file, t);
      forall name, d: nat | Attached(t, file, name, d) ensures d == t.types[name] + 1 {
        AttachedFollows(naming, file, t, name, d);
      }
      forall i: nat, k: nat, i': nat, k': nat | PlainStruct(t, file, i, k) && ConstructedStruct(t, file, i', k')
        ensures i < i' || (i == i' && k < k')
      {
        PlainStructsComeFirst(naming, file, t, i, k, i', k');
      }
    } else {
      var v :| Broken(naming, file, t, v);
      if AllAttachedFollow(t, file) && PlainBeforeConstructed(t, file) { OnlyLateIsLeft(naming, file, t, v); }
    }
  }
}

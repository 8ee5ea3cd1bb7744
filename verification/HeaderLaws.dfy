/** Laws of header programs that hold for every folding, header list and program. */
module HeaderLaws {
  import opened Headers

  // ---- Structure of Run, Keep and Without --------------------------------------------------

  lemma {:induction false} RunConcat(f: Folding, hs: seq<Header>, a: seq<HeaderOperation>, b: seq<HeaderOperation>)
    ensures Run(f, hs, a + b) == Run(f, Run(f, hs, a), b)
  {
    if b == [] {
      assert a + b == a;
    } else {
      var n := |b| - 1;
      assert (a + b)[..|a + b| - 1] == a + b[..n];
      RunConcat(f, hs, a, b[..n]);
    }
  }

  lemma KeepSnoc(f: Folding, a: seq<Header>, h: Header, s: iset<string>)
    ensures Keep(f, a + [h], s) == if f(h.name) in s then Keep(f, a, s) + [h] else Keep(f, a, s)
  {
    assert (a + [h])[..|a|] == a;
  }

  lemma WithoutSnoc(f: Folding, a: seq<Header>, h: Header, key: string)
    ensures Without(f, a + [h], key) == if Same(f, h.name, key) then Without(f, a, key) else Without(f, a, key) + [h]
  {
    assert (a + [h])[..|a|] == a;
  }

  /** Removing a name is keeping the names of the other classes. */
  lemma {:induction false} WithoutIsKeep(f: Folding, hs: seq<Header>, key: string)
    ensures Without(f, hs, key) == Keep(f, hs, Others(f, key))
  {
    if hs == [] {
    } else {
      WithoutIsKeep(f, hs[..|hs| - 1], key);
    }
  }

  lemma {:induction false} KeepKeep(f: Folding, hs: seq<Header>, s: iset<string>, t: iset<string>)
    ensures Keep(f, Keep(f, hs, s), t) == Keep(f, hs, s * t)
  {
    if hs == [] {
    } else {
      var n := |hs| - 1;
      KeepKeep(f, hs[..n], s, t);
      KeepSnoc(f, Keep(f, hs[..n], s), hs[n], t);
    }
  }

  lemma {:induction false} KeepWithout(f: Folding, hs: seq<Header>, key: string, s: iset<string>)
    ensures Keep(f, Without(f, hs, key), s) == Keep(f, hs, s * Others(f, key))
    ensures Keep(f, Without(f, hs, key), s) == Without(f, Keep(f, hs, s), key)
  {
    var other := Others(f, key);
    WithoutIsKeep(f, hs, key);
    WithoutIsKeep(f, Keep(f, hs, s), key);
    KeepKeep(f, hs, other, s);
    KeepKeep(f, hs, s, other);
    assert other * s == s * other;
  }

  lemma {:induction false} KeepHas(f: Folding, hs: seq<Header>, key: string, s: iset<string>)
    requires f(key) in s
    ensures Has(f, Keep(f, hs, s), key) == Has(f, hs, key)
  {
    if hs == [] {
    } else {
      var n := |hs| - 1;
      KeepHas(f, hs[..n], key, s);
      HasSnoc(f, hs[..n], hs[n], key);
      HasSnoc(f, Keep(f, hs[..n], s), hs[n], key);
      assert hs[..n] + [hs[n]] == hs;
    }
  }

  lemma HasSnoc(f: Folding, hs: seq<Header>, h: Header, key: string)
    ensures Has(f, hs + [h], key) == (Has(f, hs, key) || Same(f, h.name, key))
  {
    var all := hs + [h];
    if Has(f, hs, key) {
      var i :| 0 <= i < |hs| && Same(f, hs[i].name, key);
      assert Same(f, all[i].name, key);
    }
    assert all[|hs|] == h;
  }

  lemma RenamedSnoc(f: Folding, hs: seq<Header>, h: Header, key: string, name: string)
    ensures Renamed(f, hs + [h], key, name) ==
      Renamed(f, hs, key, name) + [if Same(f, h.name, key) then h.(name := name) else h]
  {
  }

  lemma {:induction false} KeepRenamed(f: Folding, hs: seq<Header>, key: string, name: string, s: iset<string>)
    requires f(key) in s <==> f(name) in s
    ensures Keep(f, Renamed(f, hs, key, name), s) ==
      if f(key) in s then Renamed(f, Keep(f, hs, s), key, name) else Keep(f, hs, s)
  {
    if hs == [] {
    } else {
      var n := |hs| - 1;
      var init, last := hs[..n], hs[n];
      assert init + [last] == hs;
      KeepRenamed(f, init, key, name, s);
      RenamedSnoc(f, init, last, key, name);
      RenamedSnoc(f, Keep(f, init, s), last, key, name);
      KeepSnoc(f, Renamed(f, init, key, name), if Same(f, last.name, key) then last.(name := name) else last, s);
    }
  }

  // ---- Factorisation by name ---------------------------------------------------------------

  lemma KeepStep(f: Folding, hs: seq<Header>, op: HeaderOperation, s: iset<string>)
    requires Closed(f, op, s)
    ensures Keep(f, Step(f, hs, op), s) ==
      if f(op.key) in s then Step(f, Keep(f, hs, s), op) else Keep(f, hs, s)
  {
    var h := Header(op.key, op.value);
    match op.kind
    case Remove | Replace =>
      KeepWithout(f, hs, op.key, s);
      KeepSnoc(f, Without(f, hs, op.key), h, s);
      if f(op.key) !in s {
        assert s == s * Others(f, op.key);
      }
    case Rename => KeepRenamed(f, hs, op.key, op.value, s);
    case Add =>
      KeepSnoc(f, hs, h, s);
      if f(op.key) in s { KeepHas(f, hs, op.key, s); }
    case Append => KeepSnoc(f, hs, h, s);
    case Unsupported(_) =>
  }

  /** What each operation does to the headers of the name it is keyed by, in order: nothing is left
      of a removed name, a replaced one is left with one header, an addition counts only when the
      name is absent, an append comes last, and a rename merges two names in list order, keeping all
      positions and values.  A header that is put in comes last of all. */
  lemma EffectOnName(f: Folding, hs: seq<Header>, op: HeaderOperation)
    ensures var own, added := Keep(f, hs, iset{f(op.key)}), [Header(op.key, op.value)];
      match op.kind
      case Remove => Keep(f, Step(f, hs, op), iset{f(op.key)}) == []
      case Replace => Keep(f, Step(f, hs, op), iset{f(op.key)}) == added
      case Add => Keep(f, Step(f, hs, op), iset{f(op.key)}) == if own == [] then added else own
      case Append => Keep(f, Step(f, hs, op), iset{f(op.key)}) == own + added
      case Rename =>
        var both := Keep(f, hs, iset{f(op.key), f(op.value)});
        && |Step(f, hs, op)| == |hs| && (forall i :: 0 <= i < |hs| ==> Step(f, hs, op)[i].value == hs[i].value)
        && Keep(f, Step(f, hs, op), iset{f(op.key), f(op.value)}) == Renamed(f, both, op.key, op.value)
        && (f(op.key) != f(op.value) ==> Keep(f, Step(f, hs, op), iset{f(op.key)}) == [])
      case Unsupported(_) => Step(f, hs, op) == hs
    ensures var added, after := Header(op.key, op.value), Step(f, hs, op);
      op.kind.Replace? || op.kind.Append? || (op.kind.Add? && !Has(f, hs, op.key)) ==>
        after != [] && after[|after| - 1] == added
  {
    var s := iset{f(op.key)};
    if op.kind.Rename? {
      KeepStep(f, hs, op, iset{f(op.key), f(op.value)});
      RenameEmpties(f, hs, op, s);
    } else {
      KeepStep(f, hs, op, s);
      KeptHeaders(f, hs, f(op.key));
      WithoutClass(f, Keep(f, hs, s), op.key);
      var own := Keep(f, hs, s);
      if own != [] { assert own[0] in own && Same(f, own[0].name, op.key); }
    }
  }

  lemma RenameEmpties(f: Folding, hs: seq<Header>, op: HeaderOperation, s: iset<string>)
    requires op.kind.Rename? && s == iset{f(op.key)}
    ensures f(op.key) != f(op.value) ==> Keep(f, Step(f, hs, op), s) == []
  {
    if f(op.key) != f(op.value) {
      RenamedInto(f, hs, op.key, op.value, s);
      KeepWithout(f, hs, op.key, s);
      KeptHeaders(f, hs, f(op.key));
      WithoutClass(f, Keep(f, hs, s), op.key);
    }
  }

  /** Factorisation: a program acts on any union of name classes that no rename leaves or enters
      exactly as its operations keyed in those classes act on the headers of those classes. */
  lemma {:induction false} Factorisation(f: Folding, hs: seq<Header>, ops: seq<HeaderOperation>, s: iset<string>)
    requires forall op <- ops :: Closed(f, op, s)
    ensures Keep(f, Run(f, hs, ops), s) == Run(f, Keep(f, hs, s), KeepOps(f, ops, s))
  {
    if ops == [] {
    } else {
      var n := |ops| - 1;
      Factorisation(f, hs, ops[..n], s);
      KeepStep(f, Run(f, hs, ops[..n]), ops[n], s);
      var kept := KeepOps(f, ops[..n], s);
      assert (kept + [ops[n]])[..|kept|] == kept;
    }
  }

  /** Headers whose names no operation mentions keep their order, spelling and values. */
  lemma {:induction false} UntouchedHeaders(f: Folding, hs: seq<Header>, ops: seq<HeaderOperation>, s: iset<string>)
    requires forall op <- ops :: f(op.key) !in s && (op.kind.Rename? ==> f(op.value) !in s)
    ensures Keep(f, Run(f, hs, ops), s) == Keep(f, hs, s)
  {
    Factorisation(f, hs, ops, s);
    NoOpsKept(f, ops, s);
  }

  lemma {:induction false} NoOpsKept(f: Folding, ops: seq<HeaderOperation>, s: iset<string>)
    requires forall op <- ops :: f(op.key) !in s
    ensures KeepOps(f, ops, s) == []
  {
    if ops == [] {
    } else {
      NoOpsKept(f, ops[..|ops| - 1], s);
    }
  }

  // ---- Dead operations ---------------------------------------------------------------------

  /** What an operation leaves beside `key` depends only on what was there beside `key`,
      unless it renames headers away from `key`. */
  lemma StepBeside(f: Folding, hs: seq<Header>, hs': seq<Header>, op: HeaderOperation, key: string)
    requires Without(f, hs, key) == Without(f, hs', key)
    requires !RenamesAway(f, op, key)
    ensures Without(f, Step(f, hs, op), key) == Without(f, Step(f, hs', op), key)
  {
    StepBesideIs(f, hs, op, key);
    StepBesideIs(f, hs', op, key);
  }

  lemma StepBesideIs(f: Folding, hs: seq<Header>, op: HeaderOperation, key: string)
    requires !RenamesAway(f, op, key)
    ensures Without(f, Step(f, hs, op), key) ==
      if StaysOn(f, op, key) then Without(f, hs, key)
      else if op.kind.Rename? && Same(f, op.value, key) then Without(f, Without(f, hs, key), op.key)
      else Step(f, Without(f, hs, key), op)
  {
    var s := Others(f, key);
    WithoutIsKeep(f, hs, key);
    WithoutIsKeep(f, Step(f, hs, op), key);
    if op.kind.Rename? && !Same(f, op.key, key) && Same(f, op.value, key) {
      RenamedInto(f, hs, op.key, op.value, s);
      KeepWithout(f, hs, op.key, s);
    } else {
      KeepStep(f, hs, op, s);
    }
  }

  /** Renaming headers out of the kept classes removes them from what is kept. */
  lemma {:induction false} RenamedInto(f: Folding, hs: seq<Header>, key: string, name: string, s: iset<string>)
    requires f(name) !in s
    ensures Keep(f, Renamed(f, hs, key, name), s) == Keep(f, Without(f, hs, key), s)
  {
    if hs == [] {
    } else {
      var n := |hs| - 1;
      var init, last := hs[..n], hs[n];
      assert init + [last] == hs;
      RenamedInto(f, init, key, name, s);
      RenamedSnoc(f, init, last, key, name);
      KeepSnoc(f, Renamed(f, init, key, name), if Same(f, last.name, key) then last.(name := name) else last, s);
      KeepSnoc(f, Without(f, init, key), last, s);
    }
  }

  lemma {:induction false} RunBeside(f: Folding, hs: seq<Header>, hs': seq<Header>,
      ops: seq<HeaderOperation>, key: string)
    requires Without(f, hs, key) == Without(f, hs', key)
    requires forall op <- ops :: !RenamesAway(f, op, key)
    ensures Without(f, Run(f, hs, ops), key) == Without(f, Run(f, hs', ops), key)
  {
    if ops == [] {
    } else {
      var n := |ops| - 1;
      RunBeside(f, hs, hs', ops[..n], key);
      StepBeside(f, Run(f, hs, ops[..n]), Run(f, hs', ops[..n]), ops[n], key);
    }
  }

  /** Dead-operation elimination: an operation on a name that a later remove or replace of that
      name overwrites, with no rename away from it in between, can be deleted from the program
      without changing the whole resulting header list. */
  lemma DeadOperation(f: Folding, hs: seq<Header>, pre: seq<HeaderOperation>, dead: HeaderOperation,
      mid: seq<HeaderOperation>, kill: HeaderOperation, post: seq<HeaderOperation>)
    requires StaysOn(f, dead, kill.key)
    requires kill.kind.Remove? || kill.kind.Replace?
    requires forall op <- mid :: !RenamesAway(f, op, kill.key)
    ensures Run(f, hs, pre + [dead] + mid + [kill] + post) == Run(f, hs, pre + mid + [kill] + post)
  {
    DeadBeforeKill(f, Run(f, hs, pre), dead, mid, kill);
    RunFive(f, hs, pre, [dead] + mid, kill, post);
    RunFive(f, hs, pre, mid, kill, post);
    assert pre + [dead] + mid == pre + ([dead] + mid);
  }

  lemma DeadBeforeKill(f: Folding, hs: seq<Header>, dead: HeaderOperation,
      mid: seq<HeaderOperation>, kill: HeaderOperation)
    requires StaysOn(f, dead, kill.key)
    requires kill.kind.Remove? || kill.kind.Replace?
    requires forall op <- mid :: !RenamesAway(f, op, kill.key)
    ensures Step(f, Run(f, hs, [dead] + mid), kill) == Step(f, Run(f, hs, mid), kill)
  {
    RunConcat(f, hs, [dead], mid);
    assert Run(f, hs, [dead]) == Step(f, hs, dead) by { assert [dead][..0] == []; }
    StepBesideIs(f, hs, dead, kill.key);
    RunBeside(f, Step(f, hs, dead), hs, mid, kill.key);
  }

  lemma RunFive(f: Folding, hs: seq<Header>, pre: seq<HeaderOperation>, mid: seq<HeaderOperation>,
      op: HeaderOperation, post: seq<HeaderOperation>)
    ensures Run(f, hs, pre + mid + [op] + post) == Run(f, Step(f, Run(f, Run(f, hs, pre), mid), op), post)
  {
    RunConcat(f, hs, pre, mid);
    RunConcat(f, hs, pre + mid + [op], post);
    assert (pre + mid + [op])[..|pre + mid|] == pre + mid;
  }

  /** The folding under which only identical names are the same. */
  const EXACT: Folding := n => n

  /** The rename condition is needed: an append whose header a rename saves is not dead. */
  lemma RenameSavesAppend(dead: HeaderOperation, mid: HeaderOperation, kill: HeaderOperation)
    requires dead == HeaderOperation(Append, "a", "1")
    requires mid == HeaderOperation(Rename, "a", "b")
    requires kill == HeaderOperation(Remove, "a", "")
    ensures StaysOn(EXACT, dead, kill.key) && RenamesAway(EXACT, mid, kill.key)
    ensures Run(EXACT, [], [dead, mid, kill]) != Run(EXACT, [], [mid, kill])
  {
    RunThree(EXACT, [], dead, mid, kill);
    RunTwo(EXACT, [], mid, kill);
    var two := [Header("b", "1")];
    assert Step(EXACT, Step(EXACT, [], dead), mid) == two;
    assert two[..0] == [] && Without(EXACT, two, "a") == two;
  }

  lemma RunTwo(f: Folding, hs: seq<Header>, a: HeaderOperation, b: HeaderOperation)
    ensures Run(f, hs, [a, b]) == Step(f, Step(f, hs, a), b)
  {
    assert [a, b][..1] == [a] && [a][..0] == [];
    assert Run(f, hs, [a]) == Step(f, hs, a);
  }

  lemma RunThree(f: Folding, hs: seq<Header>, a: HeaderOperation, b: HeaderOperation, c: HeaderOperation)
    ensures Run(f, hs, [a, b, c]) == Step(f, Step(f, Step(f, hs, a), b), c)
  {
    RunTwo(f, hs, a, b);
    assert [a, b, c][..2] == [a, b];
  }

  // ---- Commutation -------------------------------------------------------------------------

  /** Two header lists are equal name by name: they differ at most in how the headers of
      different names interleave. */
  ghost predicate SamePerName(f: Folding, a: seq<Header>, b: seq<Header>) {
    forall c: string :: Keep(f, a, iset{c}) == Keep(f, b, iset{c})
  }

  predicate IsBeyond(s: iset<string>, c: string) {
    c !in s
  }

  /** The name classes outside `s`. */
  ghost function Beyond(s: iset<string>): iset<string> {
    iset c | IsBeyond(s, c)
  }

  /** Two adjacent operations that touch different names can be swapped.  Take any classes `s` that
      hold all that `a` touches and nothing that `b` touches: if no later rename enters or leaves
      them, the headers of these classes come out in the same order, and so do the others; only how
      the two kinds interleave may change. */
  lemma Commutation(f: Folding, hs: seq<Header>, pre: seq<HeaderOperation>, a: HeaderOperation, b: HeaderOperation,
      post: seq<HeaderOperation>, s: iset<string>)
    requires Touched(f, a) <= s && s !! Touched(f, b)
    requires forall op <- post :: Closed(f, op, s)
    ensures var ab, ba := Run(f, hs, pre + [a, b] + post), Run(f, hs, pre + [b, a] + post);
      && Keep(f, ab, s) == Keep(f, ba, s) && Keep(f, ab, Beyond(s)) == Keep(f, ba, Beyond(s))
      && SamePerName(f, ab, ba)
  {
    var start := Run(f, hs, pre);
    RunConcat(f, hs, pre, [a, b]);
    RunConcat(f, hs, pre + [a, b], post);
    RunConcat(f, hs, pre, [b, a]);
    RunConcat(f, hs, pre + [b, a], post);
    assert f(a.key) in Touched(f, a) && f(b.key) in Touched(f, b);
    SwapKept(f, start, a, b, s);
    SwapKept(f, start, b, a, Beyond(s));
    var ab, ba := Run(f, start, [a, b]), Run(f, start, [b, a]);
    SameAfter(f, ab, ba, post, s);
    SameAfter(f, ab, ba, post, Beyond(s));
    BothSidesPerName(f, Run(f, ab, post), Run(f, ba, post), s);
  }

  /** Where only `a` acts, the order of `a` and `b` does not matter. */
  lemma SwapKept(f: Folding, hs: seq<Header>, a: HeaderOperation, b: HeaderOperation, s: iset<string>)
    requires Closed(f, a, s) && Closed(f, b, s)
    requires f(a.key) in s && f(b.key) !in s
    ensures Keep(f, Run(f, hs, [a, b]), s) == Keep(f, Run(f, hs, [b, a]), s)
  {
    RunTwo(f, hs, a, b);
    RunTwo(f, hs, b, a);
    KeepStep(f, Step(f, hs, a), b, s);
    KeepStep(f, hs, a, s);
    KeepStep(f, Step(f, hs, b), a, s);
    KeepStep(f, hs, b, s);
  }

  /** A program that does not cross the boundary of `s` keeps an agreement there. */
  lemma SameAfter(f: Folding, a: seq<Header>, b: seq<Header>, ops: seq<HeaderOperation>, s: iset<string>)
    requires Keep(f, a, s) == Keep(f, b, s)
    requires forall op <- ops :: Closed(f, op, s)
    ensures Keep(f, Run(f, a, ops), s) == Keep(f, Run(f, b, ops), s)
  {
    Factorisation(f, a, ops, s);
    Factorisation(f, b, ops, s);
  }

  lemma BothSidesPerName(f: Folding, a: seq<Header>, b: seq<Header>, s: iset<string>)
    requires Keep(f, a, s) == Keep(f, b, s) && Keep(f, a, Beyond(s)) == Keep(f, b, Beyond(s))
    ensures SamePerName(f, a, b)
  {
    forall c: string ensures Keep(f, a, iset{c}) == Keep(f, b, iset{c}) {
      var side := if c in s then s else Beyond(s);
      assert IsBeyond(s, c) || c in s;
      assert side * iset{c} == iset{c};
      KeepKeep(f, a, side, iset{c});
      KeepKeep(f, b, side, iset{c});
    }
  }

  /** A later rename that merges two names can tell the two orders apart. */
  lemma RenameTellsOrder(a: HeaderOperation, b: HeaderOperation, merge: HeaderOperation)
    requires a == HeaderOperation(Append, "a", "1") && b == HeaderOperation(Append, "b", "2")
    requires merge == HeaderOperation(Rename, "b", "a")
    ensures Touched(EXACT, a) !! Touched(EXACT, b)
    ensures !SamePerName(EXACT, Run(EXACT, [], [a, b, merge]), Run(EXACT, [], [b, a, merge]))
  {
    var one, two := Header("a", "1"), Header("b", "2");
    var merged := Header("a", "2");
    assert a.key[0] != b.key[0];
    RunThree(EXACT, [], a, b, merge);
    assert Step(EXACT, Step(EXACT, [], a), b) == [one, two];
    assert Step(EXACT, [one, two], merge) == [one, merged];
    RunThree(EXACT, [], b, a, merge);
    assert Step(EXACT, Step(EXACT, [], b), a) == [two, one];
    assert Step(EXACT, [two, one], merge) == [merged, one];
    assert one != merged by { assert one.value[0] != merged.value[0]; }
    assert [one, merged][0] != [merged, one][0];
    SameNameDiffers([one, merged], [merged, one], "a");
  }

  /** Two different lists of headers of one name differ name by name. */
  lemma SameNameDiffers(a: seq<Header>, b: seq<Header>, name: string)
    requires forall h <- a + b :: h.name == name
    requires a != b
    ensures !SamePerName(EXACT, a, b)
  {
    assert forall h <- a :: h in a + b;
    assert forall h <- b :: h in a + b;
    KeepAll(EXACT, a, iset{name});
    KeepAll(EXACT, b, iset{name});
  }

  lemma {:induction false} KeepAll(f: Folding, hs: seq<Header>, s: iset<string>)
    requires forall h <- hs :: f(h.name) in s
    ensures Keep(f, hs, s) == hs
  {
    if hs == [] {
    } else {
      KeepAll(f, hs[..|hs| - 1], s);
    }
  }

  // ---- Idempotence -------------------------------------------------------------------------

  /** Operations that state what a name should be, rather than change what it is. */
  predicate Declarative(op: HeaderOperation) {
    op.kind.Remove? || op.kind.Replace? || op.kind.Add?
  }

  /** A program of removes, replaces and adds run twice leaves, name by name, what it leaves when
      run once. */
  lemma Idempotence(f: Folding, hs: seq<Header>, ops: seq<HeaderOperation>)
    requires forall op <- ops :: Declarative(op)
    ensures SamePerName(f, Run(f, Run(f, hs, ops), ops), Run(f, hs, ops))
  {
    forall c: string
      ensures Keep(f, Run(f, Run(f, hs, ops), ops), iset{c}) == Keep(f, Run(f, hs, ops), iset{c})
    {
      var once := Run(f, hs, ops);
      var mine := KeepOps(f, ops, iset{c});
      Factorisation(f, once, ops, iset{c});
      Factorisation(f, hs, ops, iset{c});
      KeptOps(f, ops, c);
      KeptHeaders(f, hs, c);
      IdempotentOnClass(f, Keep(f, hs, iset{c}), mine, c);
    }
  }

  lemma {:induction false} KeptOps(f: Folding, ops: seq<HeaderOperation>, c: string)
    ensures forall op <- KeepOps(f, ops, iset{c}) :: op in ops && f(op.key) == c
  {
    if ops == [] {
    } else {
      KeptOps(f, ops[..|ops| - 1], c);
    }
  }

  lemma {:induction false} KeptHeaders(f: Folding, hs: seq<Header>, c: string)
    ensures forall h <- Keep(f, hs, iset{c}) :: h in hs && f(h.name) == c
  {
    if hs == [] {
    } else {
      KeptHeaders(f, hs[..|hs| - 1], c);
    }
  }

  lemma {:induction false} IdempotentOnClass(f: Folding, hs: seq<Header>, ops: seq<HeaderOperation>, c: string)
    requires forall op <- ops :: Declarative(op) && f(op.key) == c
    requires forall h <- hs :: f(h.name) == c
    ensures Run(f, Run(f, hs, ops), ops) == Run(f, hs, ops)
    ensures forall h <- Run(f, hs, ops) :: f(h.name) == c
  {
    RunOnClass(f, hs, ops, c);
    if exists op <- ops :: !op.kind.Add? {
      RunForgets(f, hs, Run(f, hs, ops), ops, c);
    } else if ops != [] {
      AddsKeep(f, Run(f, hs, ops), ops, c);
    }
  }

  lemma {:induction false} RunOnClass(f: Folding, hs: seq<Header>, ops: seq<HeaderOperation>, c: string)
    requires forall op <- ops :: Declarative(op) && f(op.key) == c
    requires forall h <- hs :: f(h.name) == c
    ensures forall h <- Run(f, hs, ops) :: f(h.name) == c
    ensures ops != [] && ops[|ops| - 1].kind.Add? ==> Run(f, hs, ops) != []
  {
    if ops == [] {
    } else {
      var n := |ops| - 1;
      RunOnClass(f, hs, ops[..n], c);
      WithoutClass(f, Run(f, hs, ops[..n]), ops[n].key);
    }
  }

  lemma {:induction false} WithoutClass(f: Folding, hs: seq<Header>, key: string)
    requires forall h <- hs :: f(h.name) == f(key)
    ensures Without(f, hs, key) == []
  {
    if hs == [] {
    } else {
      WithoutClass(f, hs[..|hs| - 1], key);
    }
  }

  /** After a remove or a replace, the headers of the class no longer depend on the input. */
  lemma {:induction false} RunForgets(f: Folding, hs: seq<Header>, hs': seq<Header>,
      ops: seq<HeaderOperation>, c: string)
    requires forall op <- ops :: Declarative(op) && f(op.key) == c
    requires forall h <- hs + hs' :: f(h.name) == c
    requires exists op <- ops :: !op.kind.Add?
    ensures Run(f, hs, ops) == Run(f, hs', ops)
  {
    var n := |ops| - 1;
    var init := ops[..n];
    assert forall h <- hs :: h in hs + hs';
    assert forall h <- hs' :: h in hs + hs';
    RunOnClass(f, hs, init, c);
    RunOnClass(f, hs', init, c);
    if ops[n].kind.Add? {
      RunForgets(f, hs, hs', init, c);
    } else {
      WithoutClass(f, Run(f, hs, init), ops[n].key);
      WithoutClass(f, Run(f, hs', init), ops[n].key);
    }
  }

  lemma {:induction false} AddsKeep(f: Folding, hs: seq<Header>, ops: seq<HeaderOperation>, c: string)
    requires hs != [] && forall h <- hs :: f(h.name) == c
    requires forall op <- ops :: op.kind.Add? && f(op.key) == c
    ensures Run(f, hs, ops) == hs
  {
    if ops == [] {
    } else {
      AddsKeep(f, hs, ops[..|ops| - 1], c);
      assert Same(f, hs[0].name, ops[|ops| - 1].key);
    }
  }

  /** The whole list need not be the same: running twice can reorder different names. */
  lemma IdempotenceIsPerName(replace: HeaderOperation, add: HeaderOperation)
    requires replace == HeaderOperation(Replace, "a", "1") && add == HeaderOperation(Add, "b", "2")
    ensures Declarative(replace) && Declarative(add)
    ensures Run(EXACT, Run(EXACT, [], [replace, add]), [replace, add]) != Run(EXACT, [], [replace, add])
  {
    var a, b := Header("a", "1"), Header("b", "2");
    var once, twice := [a, b], [b, a];
    assert a.name[0] != b.name[0];
    RunTwo(EXACT, [], replace, add);
    assert Step(EXACT, [], replace) == [a];
    assert Step(EXACT, [a], add) == once by { assert !Has(EXACT, [a], "b"); }
    RunTwo(EXACT, once, replace, add);
    assert Step(EXACT, once, replace) == twice by {
      WithoutSnoc(EXACT, [], a, "a");
      WithoutSnoc(EXACT, [a], b, "a");
      assert once == [a] + [b] && [a] == [] + [a];
    }
    assert Step(EXACT, twice, add) == twice by { assert Same(EXACT, twice[0].name, "b"); }
    assert twice[0] != once[0];
  }
}

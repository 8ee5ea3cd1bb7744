/** The header transformer plugin: its interpreter, which edits one backing array in place, and
    its compiler from configured rules to a flat program. */
module Transformer {
  import opened Wrappers
  import opened Headers
  import opened HeaderLaws

  // ---- The interpreter ---------------------------------------------------------------------

  /** A slice that starts at the first entry of its backing array; its capacity is the array's length. */
  datatype Slice = Slice(backing: array<Header>, len: nat) {
    predicate Valid() {
      len <= backing.Length
    }

    ghost function View(): seq<Header>
      requires Valid()
      reads backing
    {
      backing[..len]
    }
  }

  /** The built-in append: it writes into spare capacity, or copies to a larger array whose size
      is left to the runtime. */
  method AppendHeader(s: Slice, h: Header) returns (r: Slice)
    requires s.Valid()
    modifies s.backing
    ensures r.Valid() && r.View() == old(s.View()) + [h]
    ensures s.len < s.backing.Length ==>
      r.backing == s.backing && s.backing[..] == old(s.backing[..])[s.len := h]
    ensures s.len == s.backing.Length ==> fresh(r.backing) && s.backing[..] == old(s.backing[..])
  {
    if s.len < s.backing.Length {
      s.backing[s.len] := h;
      return Slice(s.backing, s.len + 1);
    }
    var capacity: nat :| s.len < capacity;
    var grown := new Header[capacity];
    forall i | 0 <= i < s.len {
      grown[i] := s.backing[i];
    }
    grown[s.len] := h;
    r := Slice(grown, s.len + 1);
  }

  /** Writing one entry past a compacted prefix of `all` extends the prefix. */
  lemma Overwrite(kept: seq<Header>, all: seq<Header>, h: Header)
    requires |kept| < |all|
    ensures (kept + all[|kept|..])[|kept| := h] == (kept + [h]) + all[|kept + [h]|..]
  {
  }

  /** Compacts the headers not named `name` to the front of the same array.  Beyond the returned
      slice the array is as before, so no entry is overwritten before it is read. */
  method RemoveHeader(f: Folding, s: Slice, name: string) returns (r: Slice)
    requires s.Valid()
    modifies s.backing
    ensures r.Valid() && r.backing == s.backing && r.len <= s.len
    ensures r.View() == Without(f, old(s.View()), name)
    ensures s.backing[r.len..] == old(s.backing[..])[r.len..]
  {
    r := Slice(s.backing, 0);
    ghost var all := s.backing[..];
    ghost var kept := [];
    for i := 0 to s.len
      invariant r == Slice(s.backing, |kept|) && |kept| <= i
      invariant kept == Without(f, all[..i], name)
      invariant s.backing[..] == kept + all[|kept|..]
    {
      var header := s.backing[i];
      assert header == s.backing[..][i] == all[i];
      assert all[..i + 1] == all[..i] + [header];
      WithoutSnoc(f, all[..i], header, name);
      if !Same(f, header.name, name) {
        r := AppendHeader(r, header);
        Overwrite(kept, all, header);
        kept := kept + [header];
      }
    }
  }

  method RenameHeader(f: Folding, s: Slice, key: string, name: string)
    requires s.Valid()
    modifies s.backing
    ensures s.View() == Renamed(f, old(s.View()), key, name)
    ensures s.backing[s.len..] == old(s.backing[..])[s.len..]
  {
    for index := 0 to s.len
      invariant forall j :: 0 <= j < index ==> s.backing[j] == Renamed(f, old(s.View()), key, name)[j]
      invariant forall j :: index <= j < s.backing.Length ==> s.backing[j] == old(s.backing[j])
    {
      if Same(f, s.backing[index].name, key) {
        s.backing[index] := s.backing[index].(name := name);
      }
    }
  }

  /** Running a program in place on a slice yields the list the program means, whether the array
      had spare capacity or not. */
  method ApplyOperations(f: Folding, headers: Slice, operations: seq<HeaderOperation>) returns (r: Slice)
    requires headers.Valid()
    modifies headers.backing
    ensures r.Valid() && (r.backing == headers.backing || fresh(r.backing))
    ensures r.View() == Run(f, old(headers.View()), operations)
  {
    r := headers;
    for i := 0 to |operations|
      invariant r.Valid() && (r.backing == headers.backing || fresh(r.backing))
      invariant r.View() == Run(f, old(headers.View()), operations[..i])
    {
      var operation := operations[i];
      assert operations[..i + 1][..i] == operations[..i];
      match operation.kind
      case Remove =>
        r := RemoveHeader(f, r, operation.key);
      case Rename =>
        RenameHeader(f, r, operation.key, operation.value);
      case Replace =>
        r := RemoveHeader(f, r, operation.key);
        r := AppendHeader(r, Header(operation.key, operation.value));
      case Add =>
        if !Has(f, r.backing[..r.len], operation.key) {
          r := AppendHeader(r, Header(operation.key, operation.value));
        }
      case Append =>
        r := AppendHeader(r, Header(operation.key, operation.value));
      case Unsupported(_) =>
    }
    assert operations[..|operations|] == operations;
  }

  // ---- The compiler ------------------------------------------------------------------------

  const MAX_RULES: nat := 64

  datatype HeaderRule = HeaderRule(key: string, oldKey: string, newKey: string,
                                   value: string, newValue: string, appendValue: string)

  datatype Rule = Rule(operation: Operation, headers: seq<HeaderRule>)

  datatype HeaderError = InvalidName | InvalidNewName | InvalidValue

  datatype RuleError =
    | UnsupportedOperation(rule: nat)
    | NoHeaders(rule: nat)
    | TooManyOperations
    | BadHeader(rule: nat, header: nat, reason: HeaderError)

  function Compile(v: Validation, o: Operation, rule: HeaderRule): Result<HeaderOperation, HeaderError> {
    var (key, value) := match o
      case Rename => (v.normalizeName(rule.oldKey), v.normalizeName(rule.newKey))
      case Replace => (v.normalizeName(rule.key), v.normalizeValue(rule.newValue))
      case Add => (v.normalizeName(rule.key), v.normalizeValue(rule.value))
      case Append => (v.normalizeName(rule.key), v.normalizeValue(rule.appendValue))
      case _ => (v.normalizeName(rule.key), "");
    if !v.validName(key) then Failure(InvalidName)
    else if o.Rename? && !v.validName(value) then Failure(InvalidNewName)
    else if !o.Rename? && !o.Remove? && !v.validValue(value) then Failure(InvalidValue)
    else Success(HeaderOperation(o, key, value))
  }

  /** The text of a header entry that an operation takes beside the name: another name, or a value. */
  function SecondText(o: Operation, rule: HeaderRule): string {
    match o
    case Rename => rule.newKey
    case Replace => rule.newValue
    case Add => rule.value
    case Append => rule.appendValue
    case _ => ""
  }

  /** A header entry of a supported rule: what it compiles to, and which of its texts is to blame when it
      does not, the name before the other. */
  lemma CompileIs(v: Validation, o: Operation, rule: HeaderRule)
    requires !o.Unsupported?
    ensures var r, key := Compile(v, o, rule), v.normalizeName(if o == Rename then rule.oldKey else rule.key);
      var name, value := v.normalizeName(SecondText(o, rule)), v.normalizeValue(SecondText(o, rule));
      && (r == Failure(InvalidName) <==> !v.validName(key))
      && (r == Failure(InvalidNewName) <==> v.validName(key) && o == Rename && !v.validName(name))
      && (r == Failure(InvalidValue) <==> v.validName(key) && o !in {Remove, Rename} && !v.validValue(value))
      && (r.Success? ==> WellFormed(v, r.value))
      && (r.Success? ==>
            r.value == HeaderOperation(o, key, if o == Remove then "" else if o == Rename then name else value))
  {
  }

  /** The number of headers the rules list, hence of operations they compile to. */
  function Total(rules: seq<Rule>): nat {
    if rules == [] then 0 else Total(rules[..|rules| - 1]) + |rules[|rules| - 1].headers|
  }

  predicate HeadersCompile(v: Validation, rule: Rule, count: nat)
    requires count <= |rule.headers|
  {
    forall j :: 0 <= j < count ==> Compile(v, rule.operation, rule.headers[j]).Success?
  }

  predicate RuleCompiles(v: Validation, rule: Rule) {
    !rule.operation.Unsupported? && rule.headers != [] && HeadersCompile(v, rule, |rule.headers|)
  }

  /** What a rule list must satisfy to be accepted. */
  predicate Acceptable(v: Validation, rules: seq<Rule>) {
    (forall i :: 0 <= i < |rules| ==> RuleCompiles(v, rules[i])) && Total(rules) <= MAX_RULES
  }

  /** The operations of the first `count` headers of a rule. */
  function CompiledHeaders(v: Validation, rule: Rule, count: nat): seq<HeaderOperation>
    requires count <= |rule.headers| && HeadersCompile(v, rule, count)
  {
    seq(count, j requires 0 <= j < count => Compile(v, rule.operation, rule.headers[j]).value)
  }

  /** The rules flattened, in order, into operations. */
  function Compiled(v: Validation, rules: seq<Rule>): seq<HeaderOperation>
    requires forall i :: 0 <= i < |rules| ==> RuleCompiles(v, rules[i])
  {
    if rules == [] then [] else
    var last := rules[|rules| - 1];
    assert RuleCompiles(v, last);
    Compiled(v, rules[..|rules| - 1]) + CompiledHeaders(v, last, |last.headers|)
  }

  /** Everything before header `j` of rule `i` is acceptable, and `e` says what is wrong there. */
  predicate StopsAt(v: Validation, rules: seq<Rule>, i: nat, j: nat, e: RuleError) {
    && i < |rules| && j <= |rules[i].headers|
    && Acceptable(v, rules[..i])
    && HeadersCompile(v, rules[i], j)
    && match e
       case UnsupportedOperation(rule) => rule == i && j == 0 && rules[i].operation.Unsupported?
       case NoHeaders(rule) => rule == i && !rules[i].operation.Unsupported? && rules[i].headers == []
       case TooManyOperations =>
         !rules[i].operation.Unsupported? && j < |rules[i].headers| && Total(rules[..i]) + j == MAX_RULES
       case BadHeader(rule, header, reason) =>
         && rule == i && header == j && !rules[i].operation.Unsupported? && j < |rules[i].headers|
         && Total(rules[..i]) + j < MAX_RULES
         && Compile(v, rules[i].operation, rules[i].headers[j]) == Failure(reason)
  }

  /** Compiles rule by rule and header by header, stopping at the first problem. */
  method CompileRules(v: Validation, rules: seq<Rule>) returns (r: Result<seq<HeaderOperation>, RuleError>)
    ensures r.Success? <==> Acceptable(v, rules)
    ensures r.Success? ==> r.value == Compiled(v, rules)
    ensures r.Failure? ==> exists i, j :: StopsAt(v, rules, i, j, r.error)
  {
    var operations := [];
    for ruleIndex := 0 to |rules|
      invariant Acceptable(v, rules[..ruleIndex])
      invariant operations == Compiled(v, rules[..ruleIndex])
      invariant |operations| == Total(rules[..ruleIndex])
    {
      var rule := rules[ruleIndex];
      if rule.operation.Unsupported? {
        assert StopsAt(v, rules, ruleIndex, 0, UnsupportedOperation(ruleIndex));
        return Failure(UnsupportedOperation(ruleIndex));
      }
      if rule.headers == [] {
        assert StopsAt(v, rules, ruleIndex, 0, NoHeaders(ruleIndex));
        return Failure(NoHeaders(ruleIndex));
      }
      ghost var before := operations;
      for headerIndex := 0 to |rule.headers|
        invariant HeadersCompile(v, rule, headerIndex)
        invariant operations == before + CompiledHeaders(v, rule, headerIndex)
        invariant |operations| <= MAX_RULES
      {
        if |operations| >= MAX_RULES {
          TotalGrows(rules, ruleIndex);
          assert StopsAt(v, rules, ruleIndex, headerIndex, TooManyOperations);
          return Failure(TooManyOperations);
        }
        var compiled := Compile(v, rule.operation, rule.headers[headerIndex]);
        if compiled.Failure? {
          assert StopsAt(v, rules, ruleIndex, headerIndex, BadHeader(ruleIndex, headerIndex, compiled.error));
          return Failure(BadHeader(ruleIndex, headerIndex, compiled.error));
        }
        operations := operations + [compiled.value];
      }
      assert rules[..ruleIndex + 1][..ruleIndex] == rules[..ruleIndex];
    }
    assert rules[..|rules|] == rules;
    r := Success(operations);
  }

  lemma {:induction false} TotalGrows(rules: seq<Rule>, i: nat)
    requires i < |rules|
    ensures Total(rules) >= Total(rules[..i]) + |rules[i].headers|
  {
    var n := |rules| - 1;
    if i == n {
    } else {
      TotalGrows(rules[..n], i);
      assert rules[..n][..i] == rules[..i];
    }
  }

  /** An operation whose texts the validators accept. */
  predicate WellFormed(v: Validation, op: HeaderOperation) {
    && !op.kind.Unsupported?
    && v.validName(op.key)
    && (op.kind.Rename? ==> v.validName(op.value))
    && (op.kind.Replace? || op.kind.Add? || op.kind.Append? ==> v.validValue(op.value))
  }

  /** A compiled program has one well-formed operation per configured header. */
  lemma {:induction false} CompiledIsWellFormed(v: Validation, rules: seq<Rule>)
    requires forall i :: 0 <= i < |rules| ==> RuleCompiles(v, rules[i])
    ensures |Compiled(v, rules)| == Total(rules)
    ensures forall op <- Compiled(v, rules) :: WellFormed(v, op)
  {
    if rules == [] {
    } else {
      var n := |rules| - 1;
      CompiledIsWellFormed(v, rules[..n]);
      assert RuleCompiles(v, rules[n]);
    }
  }

  /** The program is the configured headers, rule after rule and header after header. */
  lemma {:induction false} CompiledAt(v: Validation, rules: seq<Rule>, i: nat, j: nat)
    requires forall k :: 0 <= k < |rules| ==> RuleCompiles(v, rules[k])
    requires i < |rules| && j < |rules[i].headers|
    ensures Total(rules[..i]) + j < |Compiled(v, rules)|
    ensures Success(Compiled(v, rules)[Total(rules[..i]) + j]) == Compile(v, rules[i].operation, rules[i].headers[j])
  {
    var n := |rules| - 1;
    CompiledIsWellFormed(v, rules[..n]);
    assert RuleCompiles(v, rules[n]);
    if i == n {
    } else {
      CompiledAt(v, rules[..n], i, j);
      assert rules[..n][..i] == rules[..i];
    }
  }

  predicate ValidHeaders(v: Validation, hs: seq<Header>) {
    forall h <- hs :: v.validName(h.name) && v.validValue(h.value)
  }

  /** An accepted configuration adds at most `MAX_RULES` headers to any list, and never makes a
      list of valid headers invalid. */
  lemma AcceptedProgram(f: Folding, v: Validation, rules: seq<Rule>, hs: seq<Header>)
    requires Acceptable(v, rules)
    ensures |Run(f, hs, Compiled(v, rules))| <= |hs| + MAX_RULES
    ensures ValidHeaders(v, hs) ==> ValidHeaders(v, Run(f, hs, Compiled(v, rules)))
  {
    CompiledIsWellFormed(v, rules);
    RunGrowth(f, hs, Compiled(v, rules));
    if ValidHeaders(v, hs) { RunKeepsValid(f, v, hs, Compiled(v, rules)); }
  }

  lemma {:induction false} WithoutIsShorter(f: Folding, hs: seq<Header>, key: string)
    ensures |Without(f, hs, key)| <= |hs|
    ensures forall h <- Without(f, hs, key) :: h in hs && !Same(f, h.name, key)
  {
    if hs == [] {
    } else {
      WithoutIsShorter(f, hs[..|hs| - 1], key);
    }
  }

  lemma {:induction false} RunGrowth(f: Folding, hs: seq<Header>, ops: seq<HeaderOperation>)
    ensures |Run(f, hs, ops)| <= |hs| + |ops|
  {
    if ops == [] {
    } else {
      var n := |ops| - 1;
      RunGrowth(f, hs, ops[..n]);
      WithoutIsShorter(f, Run(f, hs, ops[..n]), ops[n].key);
    }
  }

  lemma {:induction false} RunKeepsValid(f: Folding, v: Validation, hs: seq<Header>, ops: seq<HeaderOperation>)
    requires ValidHeaders(v, hs)
    requires forall op <- ops :: WellFormed(v, op)
    ensures ValidHeaders(v, Run(f, hs, ops))
  {
    if ops == [] {
    } else {
      var n := |ops| - 1;
      RunKeepsValid(f, v, hs, ops[..n]);
      StepKeepsValid(f, v, Run(f, hs, ops[..n]), ops[n]);
    }
  }

  lemma StepKeepsValid(f: Folding, v: Validation, hs: seq<Header>, op: HeaderOperation)
    requires ValidHeaders(v, hs) && WellFormed(v, op)
    ensures ValidHeaders(v, Step(f, hs, op))
  {
    WithoutIsShorter(f, hs, op.key);
    forall h <- Step(f, hs, op) ensures v.validName(h.name) && v.validValue(h.value) {
      if op.kind.Rename? {
        var i :| 0 <= i < |hs| && h == Renamed(f, hs, op.key, op.value)[i];
        assert hs[i] in hs;
      }
    }
  }

  // ---- Plugin start ------------------------------------------------------------------------

  datatype PluginConfig = PluginConfig(requestRules: seq<Rule>, responseRules: seq<Rule>)

  /** The plugin starts iff both rule lists are acceptable and at least one is not empty. */
  predicate Startable(v: Validation, config: PluginConfig) {
    && Acceptable(v, config.requestRules)
    && Acceptable(v, config.responseRules)
    && (config.requestRules != [] || config.responseRules != [])
  }

  class PluginContext {
    var requestOperations: seq<HeaderOperation>
    var responseOperations: seq<HeaderOperation>

    constructor ()
      ensures requestOperations == [] && responseOperations == []
    {
      requestOperations, responseOperations := [], [];
    }

    /** Starts the plugin on a decoded configuration. */
    method OnPluginStart(v: Validation, config: PluginConfig) returns (ok: bool)
      modifies this
      ensures ok <==> Startable(v, config)
      ensures ok ==> requestOperations == Compiled(v, config.requestRules)
      ensures ok ==> responseOperations == Compiled(v, config.responseRules)
    {
      var request := CompileRules(v, config.requestRules);
      requestOperations := if request.Success? then request.value else [];
      if request.Failure? { return false; }
      var response := CompileRules(v, config.responseRules);
      responseOperations := if response.Success? then response.value else [];
      if response.Failure? { return false; }
      CompiledIsWellFormed(v, config.requestRules);
      CompiledIsWellFormed(v, config.responseRules);
      TotalIsPositive(v, config.requestRules);
      TotalIsPositive(v, config.responseRules);
      ok := |requestOperations| + |responseOperations| != 0;
    }
  }

  lemma TotalIsPositive(v: Validation, rules: seq<Rule>)
    requires forall i :: 0 <= i < |rules| ==> RuleCompiles(v, rules[i])
    ensures Total(rules) == 0 <==> rules == []
  {
    if rules != [] {
      assert RuleCompiles(v, rules[|rules| - 1]);
    }
  }

  /** When the documented bound holds: a configuration that starts the plugin keeps the operations
      of both directions together within `MAX_RULES` if and only if it lists no more than that many
      headers in all. */
  lemma CombinedBound(v: Validation, config: PluginConfig)
    requires Startable(v, config)
    ensures |Compiled(v, config.requestRules)| + |Compiled(v, config.responseRules)| <= MAX_RULES <==>
      Total(config.requestRules) + Total(config.responseRules) <= MAX_RULES
    ensures |Compiled(v, config.requestRules)| + |Compiled(v, config.responseRules)| <= 2 * MAX_RULES
  {
    CompiledIsWellFormed(v, config.requestRules);
    CompiledIsWellFormed(v, config.responseRules);
  }

  /** The bound holds for each list by itself: together they may hold twice as many operations. */
  lemma BoundIsPerDirection(v: Validation, h: HeaderRule)
    requires Compile(v, Remove, h).Success?
    ensures exists config ::
      && Startable(v, config)
      && |Compiled(v, config.requestRules)| + |Compiled(v, config.responseRules)| == 2 * MAX_RULES
  {
    var full := [Rule(Remove, seq(MAX_RULES, _ => h))];
    assert Total(full) == MAX_RULES by { assert full[..0] == []; }
    assert RuleCompiles(v, full[0]);
    assert Acceptable(v, full);
    CompiledIsWellFormed(v, full);
    assert Startable(v, PluginConfig(full, full));
  }
}

/** The controller's side of header transformation: compiling a policy into the plugin's JSON
    configuration.  The two compilers are written independently; together they must carry every
    rule of an accepted policy, unchanged, into the plugin's program. */
module PolicyCompiler {
  import opened Wrappers
  import opened ConfigJson
  import opened Headers
  import opened Transformer

  /** The operation is one of the words `Remove`, `Rename`, `Replace`, `Add` and `Append`, or any
      other text. */
  datatype PolicyRule = PolicyRule(operation: string, name: string, value: string)

  datatype Policy = Policy(requestRules: seq<PolicyRule>, responseRules: seq<PolicyRule>)

  datatype TransformerHeader = TransformerHeader(key: string, oldKey: string, newKey: string,
                                                 value: string, newValue: string, appendValue: string)

  datatype TransformerRule = TransformerRule(operation: string, headers: seq<TransformerHeader>)

  datatype TransformerConfig = TransformerConfig(requestRules: seq<TransformerRule>,
                                                 responseRules: seq<TransformerRule>)

  datatype PolicyError =
    | NoRules
    | TooManyRules
    | BadRequestRule(rule: nat)
    | BadResponseRule(rule: nat)

  /** Lower-cases the letters of ASCII, in which all supported operations are written. */
  function ToLower(word: string): string {
    seq(|word|, i requires 0 <= i < |word| =>
      if 'A' <= word[i] <= 'Z' then ((word[i] as int) + 32) as char else word[i])
  }

  /** The operation that a word of a policy asks for. */
  function OperationOf(word: string): Operation {
    if word == "Remove" then Remove
    else if word == "Rename" then Rename
    else if word == "Replace" then Replace
    else if word == "Add" then Add
    else if word == "Append" then Append
    else Unsupported(word)
  }

  /** What a policy rule asks for, as the operation it should become. */
  function Intended(v: Validation, rule: PolicyRule): HeaderOperation {
    HeaderOperation(OperationOf(rule.operation), v.normalizeName(rule.name),
      match OperationOf(rule.operation)
      case Remove => ""
      case Rename => v.normalizeName(v.normalizeValue(rule.value))
      case _ => v.normalizeValue(rule.value))
  }

  /** What makes a rule acceptable: a supported word, a well-formed operation, and no value beside a
      removal. */
  predicate Compilable(v: Validation, rule: PolicyRule) {
    && !OperationOf(rule.operation).Unsupported?
    && WellFormed(v, Intended(v, rule))
    && (rule.operation == "Remove" ==> v.normalizeValue(rule.value) == "")
  }

  /** The header entry for a policy rule. */
  function CompileTransformerHeader(v: Validation, rule: PolicyRule): (r: Option<TransformerHeader>)
    ensures r.Some? <==> Compilable(v, rule)
  {
    var name := v.normalizeName(rule.name);
    var value := v.normalizeValue(rule.value);
    var blank := TransformerHeader("", "", "", "", "", "");
    if !v.validName(name) then None
    else if rule.operation == "Remove" then
      if value != "" then None else Some(blank.(key := name))
    else if rule.operation == "Rename" then
      var target := v.normalizeName(value);
      if !v.validName(target) then None else Some(blank.(oldKey := name, newKey := target))
    else if rule.operation == "Replace" then
      if !v.validValue(value) then None else Some(blank.(key := name, newValue := value))
    else if rule.operation == "Add" then
      if !v.validValue(value) then None else Some(blank.(key := name, value := value))
    else if rule.operation == "Append" then
      if !v.validValue(value) then None else Some(blank.(key := name, appendValue := value))
    else None
  }

  predicate RulesCompile(v: Validation, rules: seq<PolicyRule>) {
    forall i :: 0 <= i < |rules| ==> Compilable(v, rules[i])
  }

  /** The first rule that does not compile. */
  predicate FirstBad(v: Validation, rules: seq<PolicyRule>, i: nat) {
    i < |rules| && RulesCompile(v, rules[..i]) && !Compilable(v, rules[i])
  }

  /** One rule with one header entry for each policy rule. */
  function TransformerRules(v: Validation, rules: seq<PolicyRule>): seq<TransformerRule>
    requires RulesCompile(v, rules)
  {
    seq(|rules|, i requires 0 <= i < |rules| =>
      TransformerRule(ToLower(rules[i].operation), [CompileTransformerHeader(v, rules[i]).value]))
  }

  method CompileTransformerRules(v: Validation, rules: seq<PolicyRule>) returns (r: Result<seq<TransformerRule>, nat>)
    ensures r.Success? <==> RulesCompile(v, rules)
    ensures r.Success? ==> r.value == TransformerRules(v, rules)
    ensures r.Failure? ==> FirstBad(v, rules, r.error)
  {
    var compiled := new TransformerRule[|rules|](i => TransformerRule("", []));
    for i := 0 to |rules|
      invariant RulesCompile(v, rules[..i])
      invariant forall j :: 0 <= j < i ==> compiled[j] == TransformerRules(v, rules[..i])[j]
    {
      var header := CompileTransformerHeader(v, rules[i]);
      if header == None {
        return Failure(i);
      }
      compiled[i] := TransformerRule(ToLower(rules[i].operation), [header.value]);
      assert rules[..i + 1] == rules[..i] + [rules[i]];
    }
    assert rules[..|rules|] == rules;
    r := Success(compiled[..]);
  }

  // ---- Encoding ----------------------------------------------------------------------------

  /** The controller's keys for the fields, in their order. */
  datatype Keys = Keys(header: seq<string>, rule: seq<string>, config: seq<string>) {
    predicate Valid() {
      && |header| == 6 && |rule| == 2 && |config| == 2
      && Distinct(header) && Distinct(rule) && Distinct(config)
    }
  }

  predicate Distinct(keys: seq<string>) {
    forall a, b :: 0 <= a < b < |keys| ==> keys[a] != keys[b]
  }

  const CONTROLLER_KEYS := Keys(
    ["key", "oldKey", "newKey", "value", "newValue", "appendValue"],
    ["operate", "headers"],
    ["reqRules", "respRules"])

  /** A text field that is left out when it is empty. */
  function Optional(key: string, text: string): seq<Member> {
    if text == "" then [] else [Member(key, Text(text))]
  }

  function EncodeHeader(k: Keys, h: TransformerHeader): seq<Member>
    requires k.Valid()
  {
    Optional(k.header[0], h.key) + Optional(k.header[1], h.oldKey) + Optional(k.header[2], h.newKey) +
    Optional(k.header[3], h.value) + Optional(k.header[4], h.newValue) + Optional(k.header[5], h.appendValue)
  }

  function EncodeHeaders(k: Keys, headers: seq<TransformerHeader>): seq<Json>
    requires k.Valid()
  {
    if headers == [] then []
    else EncodeHeaders(k, headers[..|headers| - 1]) + [Object(EncodeHeader(k, headers[|headers| - 1]))]
  }

  function EncodeRule(k: Keys, rule: TransformerRule): seq<Member>
    requires k.Valid()
  {
    [Member(k.rule[0], Text(rule.operation)), Member(k.rule[1], List(EncodeHeaders(k, rule.headers)))]
  }

  function EncodeRules(k: Keys, rules: seq<TransformerRule>): seq<Json>
    requires k.Valid()
  {
    if rules == [] then []
    else EncodeRules(k, rules[..|rules| - 1]) + [Object(EncodeRule(k, rules[|rules| - 1]))]
  }

  function EncodeConfig(k: Keys, config: TransformerConfig): Json
    requires k.Valid()
  {
    Object([Member(k.config[0], List(EncodeRules(k, config.requestRules))),
            Member(k.config[1], List(EncodeRules(k, config.responseRules)))])
  }

  /** A policy the controller accepts. */
  predicate PolicyCompiles(v: Validation, policy: Policy) {
    && 0 < |policy.requestRules| + |policy.responseRules| <= MAX_RULES
    && RulesCompile(v, policy.requestRules) && RulesCompile(v, policy.responseRules)
  }

  function ConfigOf(v: Validation, policy: Policy): TransformerConfig
    requires PolicyCompiles(v, policy)
  {
    TransformerConfig(TransformerRules(v, policy.requestRules), TransformerRules(v, policy.responseRules))
  }

  method CompilePolicy(v: Validation, policy: Policy) returns (r: Result<Json, PolicyError>)
    ensures r.Success? <==> PolicyCompiles(v, policy)
    ensures r.Success? ==> CONTROLLER_KEYS.Valid() && r.value == EncodeConfig(CONTROLLER_KEYS, ConfigOf(v, policy))
    ensures r == Failure(NoRules) <==> policy.requestRules == [] && policy.responseRules == []
    ensures r == Failure(TooManyRules) <==> |policy.requestRules| + |policy.responseRules| > MAX_RULES
    ensures r.Failure? && r.error.BadRequestRule? ==> FirstBad(v, policy.requestRules, r.error.rule)
    ensures r.Failure? && r.error.BadResponseRule? ==>
      RulesCompile(v, policy.requestRules) && FirstBad(v, policy.responseRules, r.error.rule)
  {
    var ruleCount := |policy.requestRules| + |policy.responseRules|;
    if ruleCount == 0 {
      return Failure(NoRules);
    }
    if ruleCount > MAX_RULES {
      return Failure(TooManyRules);
    }
    var request := CompileTransformerRules(v, policy.requestRules);
    if request.Failure? {
      return Failure(BadRequestRule(request.error));
    }
    var response := CompileTransformerRules(v, policy.responseRules);
    if response.Failure? {
      return Failure(BadResponseRule(response.error));
    }
    KeysAgree();
    r := Success(EncodeConfig(CONTROLLER_KEYS, TransformerConfig(request.value, response.value)));
  }

  // ---- What the plugin decodes -------------------------------------------------------------

  function HeaderRead(h: TransformerHeader): HeaderRule {
    HeaderRule(h.key, h.oldKey, h.newKey, h.value, h.newValue, h.appendValue)
  }

  function HeadersRead(headers: seq<TransformerHeader>): (r: seq<HeaderRule>)
    ensures |r| == |headers| && forall i :: 0 <= i < |r| ==> r[i] == HeaderRead(headers[i])
  {
    if headers == [] then []
    else HeadersRead(headers[..|headers| - 1]) + [HeaderRead(headers[|headers| - 1])]
  }

  /** The controller's rule as the plugin reads it. */
  function RuleRead(parse: string -> Operation, rule: TransformerRule): Rule {
    Rule(parse(rule.operation), HeadersRead(rule.headers))
  }

  function RulesRead(parse: string -> Operation, rules: seq<TransformerRule>): (r: seq<Rule>)
    ensures |r| == |rules| && forall i :: 0 <= i < |r| ==> r[i] == RuleRead(parse, rules[i])
  {
    if rules == [] then []
    else RulesRead(parse, rules[..|rules| - 1]) + [RuleRead(parse, rules[|rules| - 1])]
  }

  /** The plugin knows the fields under the controller's keys. */
  predicate Agree(k: Keys, format: Format) {
    k.Valid() && format.header == k.header && format.rule == k.rule && format.config == k.config
  }

  lemma KeysAgree()
    ensures Agree(CONTROLLER_KEYS, PLUGIN_FORMAT)
  {
    var header := CONTROLLER_KEYS.header;
    assert |header[2]| == 6 && header[1][0] == 'o' && header[2][0] == 'n';
  }

  function GetHeader(h: HeaderRule, field: nat): string {
    match field
    case 0 => h.key
    case 1 => h.oldKey
    case 2 => h.newKey
    case 3 => h.value
    case 4 => h.newValue
    case _ => h.appendValue
  }

  /** A field that is left out reads as empty. */
  lemma OptionalReads(f: Folding, format: Format, members: seq<Member>, h: HeaderRule, field: nat, text: string)
    requires DecodeHeader(f, format, members) == Some(h) && field < |format.header| && Distinct(format.header)
    requires GetHeader(h, field) == ""
    ensures DecodeHeader(f, format, members + Optional(format.header[field], text)) == Some(SetHeader(h, field, text))
  {
    if text == "" {
      assert members + [] == members;
    } else {
      ExactField(f, format.header, field);
      TextReads(f, format, members, h, format.header[field], field, text);
    }
  }

  lemma HeaderReads(f: Folding, k: Keys, format: Format, h: TransformerHeader)
    requires Agree(k, format)
    ensures DecodeHeader(f, format, EncodeHeader(k, h)) == Some(HeaderRead(h))
  {
    var m0: seq<Member>, r0 := [], BLANK;
    OptionalReads(f, format, m0, r0, 0, h.key);
    var m1, r1 := m0 + Optional(k.header[0], h.key), r0.(key := h.key);
    OptionalReads(f, format, m1, r1, 1, h.oldKey);
    var m2, r2 := m1 + Optional(k.header[1], h.oldKey), r1.(oldKey := h.oldKey);
    OptionalReads(f, format, m2, r2, 2, h.newKey);
    var m3, r3 := m2 + Optional(k.header[2], h.newKey), r2.(newKey := h.newKey);
    OptionalReads(f, format, m3, r3, 3, h.value);
    var m4, r4 := m3 + Optional(k.header[3], h.value), r3.(value := h.value);
    OptionalReads(f, format, m4, r4, 4, h.newValue);
    var m5, r5 := m4 + Optional(k.header[4], h.newValue), r4.(newValue := h.newValue);
    OptionalReads(f, format, m5, r5, 5, h.appendValue);
    assert m0 + Optional(k.header[0], h.key) == Optional(k.header[0], h.key);
  }

  lemma {:induction false} HeadersReadBack(f: Folding, k: Keys, format: Format, headers: seq<TransformerHeader>)
    requires Agree(k, format)
    ensures DecodeHeaders(f, format, EncodeHeaders(k, headers)) == Some(HeadersRead(headers))
  {
    if headers == [] {
    } else {
      var n := |headers| - 1;
      HeadersReadBack(f, k, format, headers[..n]);
      HeaderReads(f, k, format, headers[n]);
      HeadersSnoc(f, format, EncodeHeaders(k, headers[..n]), HeadersRead(headers[..n]),
                  EncodeHeader(k, headers[n]), HeaderRead(headers[n]));
    }
  }

  lemma RuleReads(f: Folding, k: Keys, format: Format, rule: TransformerRule)
    requires Agree(k, format)
    ensures DecodeRule(f, format, EncodeRule(k, rule)) == Some(RuleRead(format.parse, rule))
  {
    var operate := [Member(k.rule[0], Text(rule.operation))];
    ExactField(f, format.rule, 0);
    ExactField(f, format.rule, 1);
    HeadersReadBack(f, k, format, rule.headers);
    OperationReads(f, format, [], Rule(format.parse(""), []), k.rule[0], rule.operation);
    assert [] + operate == operate;
    HeaderListReads(f, format, operate, Rule(format.parse(rule.operation), []), k.rule[1],
                    EncodeHeaders(k, rule.headers), HeadersRead(rule.headers));
    assert operate + [Member(k.rule[1], List(EncodeHeaders(k, rule.headers)))] == EncodeRule(k, rule);
  }

  lemma {:induction false} RulesReadBack(f: Folding, k: Keys, format: Format, rules: seq<TransformerRule>)
    requires Agree(k, format)
    ensures DecodeRules(f, format, EncodeRules(k, rules)) == Some(RulesRead(format.parse, rules))
  {
    if rules == [] {
    } else {
      var n := |rules| - 1;
      RulesReadBack(f, k, format, rules[..n]);
      RuleReads(f, k, format, rules[n]);
      RulesSnoc(f, format, EncodeRules(k, rules[..n]), RulesRead(format.parse, rules[..n]),
                EncodeRule(k, rules[n]), RuleRead(format.parse, rules[n]));
    }
  }

  lemma MemberReads(f: Folding, format: Format, members: seq<Member>, config: PluginConfig, field: nat,
                    items: seq<Json>, rules: seq<Rule>)
    requires DecodeMembers(f, format, members) == Some(config) && DecodeRules(f, format, items) == Some(rules)
    requires field < |format.config| && Distinct(format.config)
    ensures DecodeMembers(f, format, members + [Member(format.config[field], List(items))]) ==
      Some(SetRules(config, field, rules))
  {
    ExactField(f, format.config, field);
    assert (members + [Member(format.config[field], List(items))])[..|members|] == members;
  }

  /** Round trip: a plugin that agrees on the keys reads back, field by field, every configuration
      the controller can encode, whatever its words and texts are; only the operation becomes the
      plugin's own. */
  lemma ConfigReadsBack(f: Folding, k: Keys, format: Format, config: TransformerConfig)
    requires Agree(k, format)
    ensures DecodeConfig(f, format, EncodeConfig(k, config)) ==
      Some(PluginConfig(RulesRead(format.parse, config.requestRules), RulesRead(format.parse, config.responseRules)))
  {
    var request, response := EncodeRules(k, config.requestRules), EncodeRules(k, config.responseRules);
    var requestRules := RulesRead(format.parse, config.requestRules);
    var responseRules := RulesRead(format.parse, config.responseRules);
    RulesReadBack(f, k, format, config.requestRules);
    RulesReadBack(f, k, format, config.responseRules);
    MemberReads(f, format, [], PluginConfig([], []), 0, request, requestRules);
    var first := [Member(k.config[0], List(request))];
    assert [] + first == first;
    MemberReads(f, format, first, PluginConfig(requestRules, []), 1, response, responseRules);
    assert first + [Member(k.config[1], List(response))] == [first[0], Member(k.config[1], List(response))];
  }

  // ---- From policy to program --------------------------------------------------------------

  function IntendedProgram(v: Validation, rules: seq<PolicyRule>): seq<HeaderOperation> {
    seq(|rules|, i requires 0 <= i < |rules| => Intended(v, rules[i]))
  }

  /** Normalising twice is normalising once. */
  ghost predicate Idempotent(v: Validation) {
    && (forall n :: v.normalizeName(v.normalizeName(n)) == v.normalizeName(n))
    && (forall x :: v.normalizeValue(v.normalizeValue(x)) == v.normalizeValue(x))
  }

  /** Five words are supported, and the plugin's words are these in lower case. */
  lemma WordsAgree(word: string)
    ensures !OperationOf(word).Unsupported? <==> word in {"Remove", "Rename", "Replace", "Add", "Append"}
    ensures !OperationOf(word).Unsupported? ==> ParseOperation(ToLower(word)) == OperationOf(word)
  {
    assert ToLower("Remove") == "remove" && ToLower("Rename") == "rename" && ToLower("Replace") == "replace";
    assert ToLower("Add") == "add" && ToLower("Append") == "append";
  }

  /** One rule, compiled by the controller and again by the plugin, is the operation it asks for. */
  lemma RuleCarriesThrough(v: Validation, rule: PolicyRule)
    requires Idempotent(v) && Compilable(v, rule)
    ensures Compile(v, ParseOperation(ToLower(rule.operation)), HeaderRead(CompileTransformerHeader(v, rule).value)) ==
      Success(Intended(v, rule))
  {
    WordsAgree(rule.operation);
  }

  /** The rule compiles to the one operation. */
  predicate CompilesTo(v: Validation, rule: Rule, op: HeaderOperation) {
    RuleCompiles(v, rule) && |rule.headers| == 1 && CompiledHeaders(v, rule, 1) == [op]
  }

  lemma {:induction false} OneByOne(v: Validation, rules: seq<Rule>, program: seq<HeaderOperation>)
    requires |rules| == |program| && forall i :: 0 <= i < |rules| ==> CompilesTo(v, rules[i], program[i])
    ensures forall i :: 0 <= i < |rules| ==> RuleCompiles(v, rules[i])
    ensures Compiled(v, rules) == program && Total(rules) == |program|
  {
    if rules == [] {
    } else {
      var n := |rules| - 1;
      OneByOne(v, rules[..n], program[..n]);
      assert CompilesTo(v, rules[n], program[n]);
      assert program == program[..n] + [program[n]];
    }
  }

  lemma ProgramCarriesThrough(v: Validation, rules: seq<PolicyRule>)
    requires Idempotent(v) && RulesCompile(v, rules)
    ensures var read := RulesRead(ParseOperation, TransformerRules(v, rules));
      && (forall i :: 0 <= i < |read| ==> RuleCompiles(v, read[i]))
      && Compiled(v, read) == IntendedProgram(v, rules)
      && Total(read) == |rules|
  {
    var read := RulesRead(ParseOperation, TransformerRules(v, rules));
    forall i | 0 <= i < |rules| ensures CompilesTo(v, read[i], IntendedProgram(v, rules)[i]) {
      RuleCarriesThrough(v, rules[i]);
    }
    OneByOne(v, read, IntendedProgram(v, rules));
  }

  /** Policy to plugin: the plugin decodes and starts on the configuration of every policy the
      controller accepts, runs exactly the operations the policy asks for in the policy's order, and
      the bound that the plugin checks for each direction then holds for both together. */
  lemma PolicyReachesPlugin(f: Folding, v: Validation, policy: Policy)
    requires Idempotent(v) && PolicyCompiles(v, policy)
    ensures CONTROLLER_KEYS.Valid()
    ensures var decoded := DecodeConfig(f, PLUGIN_FORMAT, EncodeConfig(CONTROLLER_KEYS, ConfigOf(v, policy)));
      && decoded.Some?
      && var config := decoded.value;
         && Startable(v, config)
         && Compiled(v, config.requestRules) == IntendedProgram(v, policy.requestRules)
         && Compiled(v, config.responseRules) == IntendedProgram(v, policy.responseRules)
         && |Compiled(v, config.requestRules)| + |Compiled(v, config.responseRules)| <= MAX_RULES
  {
    KeysAgree();
    ConfigReadsBack(f, CONTROLLER_KEYS, PLUGIN_FORMAT, ConfigOf(v, policy));
    ProgramCarriesThrough(v, policy.requestRules);
    ProgramCarriesThrough(v, policy.responseRules);
  }
}

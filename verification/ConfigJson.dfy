/** The plugin's strict decoding of its JSON configuration.  Documents are trees; their text syntax
    is not part of this model.  A key names the field spelled exactly so, or else the field equal
    to it under case folding; a key that names no field is an error, and `null` sets nothing. */
module ConfigJson {
  import opened Wrappers
  import opened Headers
  import opened Transformer

  datatype Member = Member(key: string, value: Json)

  /** `Other` stands for numbers and truth values, which the configuration has no place for. */
  datatype Json = Null | Text(text: string) | List(items: seq<Json>) | Object(members: seq<Member>) | Other

  /** The operation a word of the configuration stands for. */
  function ParseOperation(word: string): Operation {
    if word == "remove" then Remove
    else if word == "rename" then Rename
    else if word == "replace" then Replace
    else if word == "add" then Add
    else if word == "append" then Append
    else Unsupported(word)
  }

  lemma FiveWords(word: string)
    ensures !ParseOperation(word).Unsupported? <==> word in {"remove", "rename", "replace", "add", "append"}
  {
  }

  /** The keys of the fields of a header entry, a rule and a configuration, in the order of the
      fields, and the meaning of the operation words. */
  datatype Format = Format(header: seq<string>, rule: seq<string>, config: seq<string>, parse: string -> Operation)

  const PLUGIN_FORMAT := Format(
    ["key", "oldKey", "newKey", "value", "newValue", "appendValue"],
    ["operate", "headers"],
    ["reqRules", "respRules"],
    ParseOperation)

  const BLANK := HeaderRule("", "", "", "", "", "")

  /** The first key that `f` cannot tell from `key`. */
  function IndexOf(f: Folding, keys: seq<string>, key: string): (r: Option<nat>)
    ensures r.Some? ==> r.value < |keys| && Same(f, keys[r.value], key)
    ensures r.Some? ==> forall i :: 0 <= i < r.value ==> !Same(f, keys[i], key)
    ensures r.None? ==> forall k <- keys :: !Same(f, k, key)
  {
    if keys == [] then None else
    var earlier := IndexOf(f, keys[..|keys| - 1], key);
    if earlier.Some? then earlier else if Same(f, keys[|keys| - 1], key) then Some(|keys| - 1) else None
  }

  /** The field a key names. */
  function FieldOf(f: Folding, keys: seq<string>, key: string): (r: Option<nat>)
    ensures r.Some? ==> r.value < |keys| && (keys[r.value] == key || Same(f, keys[r.value], key))
    ensures r.None? ==> key !in keys && forall k <- keys :: !Same(f, k, key)
  {
    var exact := IndexOf(n => n, keys, key);
    if exact.Some? then exact else IndexOf(f, keys, key)
  }

  function SetHeader(h: HeaderRule, field: nat, text: string): HeaderRule {
    match field
    case 0 => h.(key := text)
    case 1 => h.(oldKey := text)
    case 2 => h.(newKey := text)
    case 3 => h.(value := text)
    case 4 => h.(newValue := text)
    case _ => h.(appendValue := text)
  }

  function DecodeHeader(f: Folding, format: Format, members: seq<Member>): Option<HeaderRule> {
    if members == [] then Some(BLANK) else
    var before, m := DecodeHeader(f, format, members[..|members| - 1]), members[|members| - 1];
    var field := FieldOf(f, format.header, m.key);
    if before.None? || field.None? then None else
    match m.value
    case Null => before
    case Text(text) => Some(SetHeader(before.value, field.value, text))
    case _ => None
  }

  function DecodeHeaders(f: Folding, format: Format, items: seq<Json>): Option<seq<HeaderRule>> {
    if items == [] then Some([]) else
    var before, last := DecodeHeaders(f, format, items[..|items| - 1]), items[|items| - 1];
    if before.None? then None else
    match last
    case Null => Some(before.value + [BLANK])
    case Object(members) =>
      var header := DecodeHeader(f, format, members);
      if header.None? then None else Some(before.value + [header.value])
    case _ => None
  }

  function DecodeRule(f: Folding, format: Format, members: seq<Member>): Option<Rule> {
    if members == [] then Some(Rule(format.parse(""), [])) else
    var before, m := DecodeRule(f, format, members[..|members| - 1]), members[|members| - 1];
    var field := FieldOf(f, format.rule, m.key);
    if before.None? || field.None? then None else
    match (field.value, m.value)
    case (0, Null) => before
    case (0, Text(text)) => Some(before.value.(operation := format.parse(text)))
    case (1, Null) => Some(before.value.(headers := []))
    case (1, List(items)) =>
      var headers := DecodeHeaders(f, format, items);
      if headers.None? then None else Some(before.value.(headers := headers.value))
    case _ => None
  }

  function DecodeRules(f: Folding, format: Format, items: seq<Json>): Option<seq<Rule>> {
    if items == [] then Some([]) else
    var before, last := DecodeRules(f, format, items[..|items| - 1]), items[|items| - 1];
    if before.None? then None else
    match last
    case Null => Some(before.value + [Rule(format.parse(""), [])])
    case Object(members) =>
      var rule := DecodeRule(f, format, members);
      if rule.None? then None else Some(before.value + [rule.value])
    case _ => None
  }

  function SetRules(config: PluginConfig, field: nat, rules: seq<Rule>): PluginConfig {
    if field == 0 then config.(requestRules := rules) else config.(responseRules := rules)
  }

  function DecodeMembers(f: Folding, format: Format, members: seq<Member>): Option<PluginConfig> {
    if members == [] then Some(PluginConfig([], [])) else
    var before, m := DecodeMembers(f, format, members[..|members| - 1]), members[|members| - 1];
    var field := FieldOf(f, format.config, m.key);
    if before.None? || field.None? then None else
    match m.value
    case Null => Some(SetRules(before.value, field.value, []))
    case List(items) =>
      var rules := DecodeRules(f, format, items);
      if rules.None? then None
      else Some(SetRules(before.value, field.value, rules.value))
    case _ => None
  }

  /** The configuration a document stands for, if it is one. */
  function DecodeConfig(f: Folding, format: Format, json: Json): Option<PluginConfig> {
    match json
    case Null => Some(PluginConfig([], []))
    case Object(members) => DecodeMembers(f, format, members)
    case _ => None
  }

  /** An exact key names its own field, whatever else it folds to. */
  lemma ExactField(f: Folding, keys: seq<string>, i: nat)
    requires i < |keys| && forall a, b :: 0 <= a < b < |keys| ==> keys[a] != keys[b]
    ensures FieldOf(f, keys, keys[i]) == Some(i)
  {
    var exact := IndexOf(n => n, keys, keys[i]);
    assert keys[i] in keys;
  }

  lemma TextReads(f: Folding, format: Format, members: seq<Member>, h: HeaderRule,
                  key: string, field: nat, text: string)
    requires DecodeHeader(f, format, members) == Some(h) && FieldOf(f, format.header, key) == Some(field)
    ensures DecodeHeader(f, format, members + [Member(key, Text(text))]) == Some(SetHeader(h, field, text))
  {
    assert (members + [Member(key, Text(text))])[..|members|] == members;
  }

  lemma OperationReads(f: Folding, format: Format, members: seq<Member>, rule: Rule, key: string, text: string)
    requires DecodeRule(f, format, members) == Some(rule) && FieldOf(f, format.rule, key) == Some(0)
    ensures DecodeRule(f, format, members + [Member(key, Text(text))]) == Some(rule.(operation := format.parse(text)))
  {
    assert (members + [Member(key, Text(text))])[..|members|] == members;
  }

  lemma HeaderListReads(f: Folding, format: Format, members: seq<Member>, rule: Rule,
                        key: string, items: seq<Json>, headers: seq<HeaderRule>)
    requires DecodeRule(f, format, members) == Some(rule) && FieldOf(f, format.rule, key) == Some(1)
    requires DecodeHeaders(f, format, items) == Some(headers)
    ensures DecodeRule(f, format, members + [Member(key, List(items))]) == Some(rule.(headers := headers))
  {
    assert (members + [Member(key, List(items))])[..|members|] == members;
  }

  lemma HeadersSnoc(f: Folding, format: Format, items: seq<Json>, headers: seq<HeaderRule>,
                    members: seq<Member>, h: HeaderRule)
    requires DecodeHeaders(f, format, items) == Some(headers) && DecodeHeader(f, format, members) == Some(h)
    ensures DecodeHeaders(f, format, items + [Object(members)]) == Some(headers + [h])
  {
    assert (items + [Object(members)])[..|items|] == items;
  }

  lemma RulesSnoc(f: Folding, format: Format, items: seq<Json>, rules: seq<Rule>, members: seq<Member>, rule: Rule)
    requires DecodeRules(f, format, items) == Some(rules) && DecodeRule(f, format, members) == Some(rule)
    ensures DecodeRules(f, format, items + [Object(members)]) == Some(rules + [rule])
  {
    assert (items + [Object(members)])[..|items|] == items;
  }

  /** A null sets nothing in a header entry and leaves an operation as it is; it empties a list, and
      inside a list it stands for a blank item. */
  lemma NullReads(f: Folding, format: Format, members: seq<Member>, items: seq<Json>, m: Member)
    requires m.value == Null
    ensures FieldOf(f, format.header, m.key).Some? ==>
      DecodeHeader(f, format, members + [m]) == DecodeHeader(f, format, members)
    ensures FieldOf(f, format.rule, m.key) == Some(0) ==>
      DecodeRule(f, format, members + [m]) == DecodeRule(f, format, members)
    ensures var rule := DecodeRule(f, format, members);
      FieldOf(f, format.rule, m.key) == Some(1) && rule.Some? ==>
      DecodeRule(f, format, members + [m]) == Some(rule.value.(headers := []))
    ensures var config, field := DecodeMembers(f, format, members), FieldOf(f, format.config, m.key);
      config.Some? && field.Some? ==>
      DecodeMembers(f, format, members + [m]) == Some(SetRules(config.value, field.value, []))
    ensures var headers := DecodeHeaders(f, format, items);
      headers.Some? ==> DecodeHeaders(f, format, items + [Null]) == Some(headers.value + [BLANK])
    ensures var rules := DecodeRules(f, format, items);
      rules.Some? ==> DecodeRules(f, format, items + [Null]) == Some(rules.value + [Rule(format.parse(""), [])])
  {
    assert (members + [m])[..|members|] == members && (items + [Null])[..|items|] == items;
  }

  // ---- Strictness --------------------------------------------------------------------------

  predicate Known(f: Folding, keys: seq<string>, key: string) {
    exists k <- keys :: k == key || Same(f, k, key)
  }

  predicate ProperHeader(f: Folding, format: Format, members: seq<Member>) {
    forall m <- members :: Known(f, format.header, m.key) && (m.value.Null? || m.value.Text?)
  }

  predicate ProperHeaders(f: Folding, format: Format, items: seq<Json>) {
    forall item <- items :: item.Null? || (item.Object? && ProperHeader(f, format, item.members))
  }

  /** The member names a field of a rule and has a value for it: a word, or a list of header entries. */
  predicate ProperRuleMember(f: Folding, format: Format, m: Member) {
    && Known(f, format.rule, m.key)
    && match m.value
       case Null => true
       case Text(_) => FieldOf(f, format.rule, m.key) == Some(0)
       case List(items) => FieldOf(f, format.rule, m.key) == Some(1) && ProperHeaders(f, format, items)
       case _ => false
  }

  predicate ProperRule(f: Folding, format: Format, members: seq<Member>) {
    forall m <- members :: ProperRuleMember(f, format, m)
  }

  predicate ProperRules(f: Folding, format: Format, items: seq<Json>) {
    forall item <- items :: item.Null? || (item.Object? && ProperRule(f, format, item.members))
  }

  predicate ProperMember(f: Folding, format: Format, m: Member) {
    && Known(f, format.config, m.key)
    && (m.value.Null? || (m.value.List? && ProperRules(f, format, m.value.items)))
  }

  /** Every key at every depth names a field, and every value is null or of that field's kind. */
  predicate Proper(f: Folding, format: Format, json: Json) {
    json.Null? || (json.Object? && forall m <- json.members :: ProperMember(f, format, m))
  }

  lemma FieldIsKnown(f: Folding, keys: seq<string>, key: string)
    ensures FieldOf(f, keys, key).Some? <==> Known(f, keys, key)
  {
    var field := FieldOf(f, keys, key);
    if field.Some? { assert keys[field.value] in keys; }
  }

  lemma {:induction false} HeaderIsProper(f: Folding, format: Format, members: seq<Member>)
    ensures DecodeHeader(f, format, members).Some? <==> ProperHeader(f, format, members)
  {
    if members == [] {
    } else {
      var init, last := members[..|members| - 1], members[|members| - 1];
      assert members == init + [last];
      HeaderIsProper(f, format, init);
      FieldIsKnown(f, format.header, last.key);
    }
  }

  lemma {:induction false} HeadersAreProper(f: Folding, format: Format, items: seq<Json>)
    ensures DecodeHeaders(f, format, items).Some? <==> ProperHeaders(f, format, items)
  {
    if items == [] {
    } else {
      var init, last := items[..|items| - 1], items[|items| - 1];
      assert items == init + [last];
      HeadersAreProper(f, format, init);
      if last.Object? { HeaderIsProper(f, format, last.members); }
    }
  }

  lemma ProperSnoc(f: Folding, format: Format, init: seq<Member>, last: Member)
    ensures ProperRule(f, format, init + [last]) <==> ProperRule(f, format, init) && ProperRuleMember(f, format, last)
    ensures Proper(f, format, Object(init + [last])) <==>
      Proper(f, format, Object(init)) && ProperMember(f, format, last)
  {
    assert forall m :: m in init + [last] <==> m in init || m == last;
  }

  lemma {:induction false} RuleIsProper(f: Folding, format: Format, members: seq<Member>)
    requires |format.rule| == 2
    ensures DecodeRule(f, format, members).Some? <==> ProperRule(f, format, members)
  {
    if members == [] {
    } else {
      var init, last := members[..|members| - 1], members[|members| - 1];
      assert members == init + [last];
      RuleIsProper(f, format, init);
      ProperSnoc(f, format, init, last);
      FieldIsKnown(f, format.rule, last.key);
      if last.value.List? { HeadersAreProper(f, format, last.value.items); }
    }
  }

  lemma {:induction false} RulesAreProper(f: Folding, format: Format, items: seq<Json>)
    requires |format.rule| == 2
    ensures DecodeRules(f, format, items).Some? <==> ProperRules(f, format, items)
  {
    if items == [] {
    } else {
      var init, last := items[..|items| - 1], items[|items| - 1];
      assert items == init + [last];
      RulesAreProper(f, format, init);
      if last.Object? { RuleIsProper(f, format, last.members); }
    }
  }

  lemma {:induction false} MembersAreProper(f: Folding, format: Format, members: seq<Member>)
    requires |format.rule| == 2
    ensures DecodeMembers(f, format, members).Some? <==> Proper(f, format, Object(members))
  {
    if members == [] {
    } else {
      var init, last := members[..|members| - 1], members[|members| - 1];
      assert members == init + [last];
      MembersAreProper(f, format, init);
      ProperSnoc(f, format, init, last);
      FieldIsKnown(f, format.config, last.key);
      if last.value.List? { RulesAreProper(f, format, last.value.items); }
    }
  }

  /** Strictness: a document is decoded if and only if every key at every depth names a field and
      every value is null or of the kind the field takes; one that does not refuses all of it. */
  lemma DecodesIffProper(f: Folding, format: Format, json: Json)
    requires |format.rule| == 2
    ensures DecodeConfig(f, format, json).Some? <==> Proper(f, format, json)
  {
    if json.Object? { MembersAreProper(f, format, json.members); }
  }
}

/** The mock-response plugin's validation of its configuration, which normalises the headers in
    place while it looks for duplicates. */
module MockResponse {
  import opened Wrappers
  import opened Headers

  const MIN_STATUS: nat := 200
  const MAX_STATUS: nat := 599
  const MAX_HEADERS: nat := 64
  const MAX_BODY_BYTES: nat := 0x10_0000

  datatype ConfigError =
    | StatusOutOfRange
    | TooManyHeaders
    | BodyTooLong
    | InvalidName(index: nat)
    | DuplicateName(index: nat)
    | InvalidValue(index: nat)

  function Normalized(v: Validation, h: Header): Header {
    Header(v.normalizeName(h.name), v.normalizeValue(h.value))
  }

  /** The header is valid once normalised, and no earlier one has the same normalised name. */
  predicate HeaderOK(v: Validation, hs: seq<Header>, i: nat)
    requires i < |hs|
  {
    && v.validName(v.normalizeName(hs[i].name))
    && v.validValue(v.normalizeValue(hs[i].value))
    && forall j :: 0 <= j < i ==> v.normalizeName(hs[j].name) != v.normalizeName(hs[i].name)
  }

  predicate ConfigOK(v: Validation, status: nat, hs: seq<Header>, bodyBytes: nat) {
    && MIN_STATUS <= status <= MAX_STATUS && |hs| <= MAX_HEADERS + 1 && bodyBytes <= MAX_BODY_BYTES
    && forall i :: 0 <= i < |hs| ==> HeaderOK(v, hs, i)
  }

  /** What is wrong with a header, in the order of the checks. */
  predicate HeaderFails(v: Validation, hs: seq<Header>, i: nat, e: ConfigError)
    requires i < |hs|
  {
    var name := v.normalizeName(hs[i].name);
    var repeated := exists j :: 0 <= j < i && v.normalizeName(hs[j].name) == name;
    match e
    case InvalidName(index) => index == i && !v.validName(name)
    case DuplicateName(index) => index == i && v.validName(name) && repeated
    case InvalidValue(index) =>
      index == i && v.validName(name) && !repeated && !v.validValue(v.normalizeValue(hs[i].value))
    case _ => false
  }

  /** The error of a configuration: the first check that fails. */
  predicate Fails(v: Validation, status: nat, hs: seq<Header>, bodyBytes: nat, e: ConfigError) {
    if !(MIN_STATUS <= status <= MAX_STATUS) then e == StatusOutOfRange
    else if |hs| > MAX_HEADERS + 1 then e == TooManyHeaders
    else if bodyBytes > MAX_BODY_BYTES then e == BodyTooLong
    else exists i :: 0 <= i < |hs| && HeaderFails(v, hs, i, e) && forall j :: 0 <= j < i ==> HeaderOK(v, hs, j)
  }

  /** The configuration is right up to header `i`, and not with it. */
  predicate FirstBad(v: Validation, status: nat, hs: seq<Header>, bodyBytes: nat, i: nat) {
    i < |hs| <= 65 && ConfigOK(v, status, hs[..i], bodyBytes) && !ConfigOK(v, status, hs[..i + 1], bodyBytes)
  }

  /** An earlier header has the same name in normal form. */
  predicate Repeated(v: Validation, hs: seq<Header>, i: nat)
    requires i < |hs|
  {
    exists j :: 0 <= j < i && v.normalizeName(hs[j].name) == v.normalizeName(hs[i].name)
  }

  /** What an error says: a bound that is broken, or the first bad header and what is wrong with it, its
      name before a repetition before its value. */
  lemma FailsMeans(v: Validation, status: nat, hs: seq<Header>, bodyBytes: nat, e: ConfigError)
    requires Fails(v, status, hs, bodyBytes, e)
    ensures !ConfigOK(v, status, hs, bodyBytes)
    ensures match e
      case StatusOutOfRange => status < 200 || status > 599
      case TooManyHeaders => 200 <= status <= 599 && |hs| > 65
      case BodyTooLong => 200 <= status <= 599 && |hs| <= 65 && bodyBytes > 1024 * 1024
      case InvalidName(i) =>
        FirstBad(v, status, hs, bodyBytes, i) && !v.validName(v.normalizeName(hs[i].name))
      case DuplicateName(i) =>
        && FirstBad(v, status, hs, bodyBytes, i) && v.validName(v.normalizeName(hs[i].name))
        && Repeated(v, hs, i)
      case InvalidValue(i) =>
        && FirstBad(v, status, hs, bodyBytes, i) && v.validName(v.normalizeName(hs[i].name))
        && !Repeated(v, hs, i) && !v.validValue(v.normalizeValue(hs[i].value))
  {
    if e.InvalidName? || e.DuplicateName? || e.InvalidValue? {
      var i :| 0 <= i < |hs| && HeaderFails(v, hs, i, e) && forall j :: 0 <= j < i ==> HeaderOK(v, hs, j);
      forall j | 0 <= j < i ensures HeaderOK(v, hs[..i], j) { assert HeaderOK(v, hs, j); }
      assert !HeaderOK(v, hs, i) && !HeaderOK(v, hs[..i + 1], i);
    }
  }

  /** Validates a configuration and rewrites its headers in normal form. */
  method DecodeConfig(v: Validation, status: nat, headers: array<Header>, bodyBytes: nat)
    returns (r: Option<ConfigError>)
    modifies headers
    ensures r == None <==> ConfigOK(v, status, old(headers[..]), bodyBytes)
    ensures r == None ==> forall i :: 0 <= i < headers.Length ==>
      headers[i] == Header(v.normalizeName(old(headers[i].name)), v.normalizeValue(old(headers[i].value)))
    ensures r.Some? ==> Fails(v, status, old(headers[..]), bodyBytes, r.value)
  {
    if status < MIN_STATUS || status > MAX_STATUS {
      return Some(StatusOutOfRange);
    }
    if headers.Length > MAX_HEADERS + 1 {
      return Some(TooManyHeaders);
    }
    if bodyBytes > MAX_BODY_BYTES {
      return Some(BodyTooLong);
    }
    ghost var hs := headers[..];
    var seen: set<string> := {};
    for index := 0 to headers.Length
      invariant forall j :: 0 <= j < index ==> headers[j] == Normalized(v, hs[j])
      invariant forall j :: index <= j < headers.Length ==> headers[j] == hs[j]
      invariant forall n :: n in seen <==> exists j :: 0 <= j < index && v.normalizeName(hs[j].name) == n
      invariant forall j :: 0 <= j < index ==> HeaderOK(v, hs, j)
    {
      var name := v.normalizeName(headers[index].name);
      assert headers[index] == hs[index];
      if !v.validName(name) {
        assert HeaderFails(v, hs, index, InvalidName(index)) && !HeaderOK(v, hs, index);
        return Some(InvalidName(index));
      }
      if name in seen {
        assert HeaderFails(v, hs, index, DuplicateName(index)) && !HeaderOK(v, hs, index);
        return Some(DuplicateName(index));
      }
      var value := v.normalizeValue(headers[index].value);
      if !v.validValue(value) {
        assert HeaderFails(v, hs, index, InvalidValue(index)) && !HeaderOK(v, hs, index);
        return Some(InvalidValue(index));
      }
      seen := seen + {name};
      headers[index] := Header(name, value);
    }
    r := None;
  }

  /** Where normalising is idempotent, a decoded configuration decodes again to itself. */
  lemma DecodedIsStable(v: Validation, status: nat, hs: seq<Header>, bodyBytes: nat)
    requires forall n :: v.normalizeName(v.normalizeName(n)) == v.normalizeName(n)
    requires forall x :: v.normalizeValue(v.normalizeValue(x)) == v.normalizeValue(x)
    requires ConfigOK(v, status, hs, bodyBytes)
    ensures var out := seq(|hs|, i requires 0 <= i < |hs| => Normalized(v, hs[i]));
      ConfigOK(v, status, out, bodyBytes) && forall i :: 0 <= i < |out| ==> Normalized(v, out[i]) == out[i]
  {
    var out := seq(|hs|, i requires 0 <= i < |hs| => Normalized(v, hs[i]));
    forall i | 0 <= i < |out| ensures HeaderOK(v, out, i) {
      assert HeaderOK(v, hs, i);
    }
  }
}

/** The configuration file: a JSON value, the checks `Configuration`
    makes of it when it is loaded, and the typed views the rest of the
    program reads (credit account, mapping rules in file order, ignore rules,
    columns split into core and optional ones). */
module Config {
  import opened Wrappers
  import opened Text
  import opened Patterns

  // ------------------------------------------------------------ JSON values

  /** A value as `json.load` returns it. Objects keep their keys in file
      order. Numbers are integers here. */
  datatype Json =
    | JNull
    | JBool(b: bool)
    | JNum(n: int)
    | JStr(s: string)
    | JArr(items: seq<Json>)
    | JObj(fields: seq<(string, Json)>)

  /** `obj[key]` / `obj.get(key)`: the value under `key`, if any. */
  function Get(fields: seq<(string, Json)>, key: string): (r: Option<Json>)
    ensures r.Some? <==> exists i :: 0 <= i < |fields| && fields[i].0 == key
  {
    if |fields| == 0 then None
    else if fields[0].0 == key then Some(fields[0].1)
    else Get(fields[1..], key)
  }

  /** Python's `key in value`: a key of an object, an element of a list, a
      substring of a string; `None` where `in` raises `TypeError`. */
  function In(key: string, j: Json): Option<bool> {
    match j
    case JObj(fs) => Some(Get(fs, key).Some?)
    case JArr(items) => Some(JStr(key) in items)
    case JStr(s) => Some(IsSubstring(key, s))
    case _ => None
  }

  /** `for x in value`: the keys of an object, the elements of a list, the
      one-character strings of a string; `None` where iteration raises. */
  function Elements(j: Json): (r: Option<seq<Json>>)
    ensures j.JArr? ==> r == Some(j.items)
    ensures r.Some? <==> j.JArr? || j.JStr? || j.JObj?
  {
    match j
    case JArr(items) => Some(items)
    case JStr(s) => Some(seq(|s|, i requires 0 <= i < |s| => JStr([s[i]])))
    case JObj(fs) => Some(seq(|fs|, i requires 0 <= i < |fs| => JStr(fs[i].0)))
    case _ => None
  }

  // ------------------------------------------------------------ validation

  /** What `__validateConfiguration` raises. `TypeFault` stands for the
      `TypeError` that Python itself raises on a value of the wrong kind,
      which the program does not catch. */
  datatype ConfigError =
    | MissingField(field: string)
    | CreditAccountNotString
    | MappingNotObject
    | RuleNotObject(category: string)
    | RuleIncomplete(category: string)
    | InvalidPattern(pattern: string)
    | ColumnsNotArray
    | TypeFault

  const RequiredFields: seq<string> := ["creditAccount", "mapping", "columns"]

  /** The position of the first field that is not `in` the value, or the
      number of fields when all of them are. */
  function FirstAbsent(j: Json, fields: seq<string>): (k: nat)
    ensures k <= |fields|
    ensures forall i :: 0 <= i < k ==> In(fields[i], j) == Some(true)
    ensures k < |fields| ==> In(fields[k], j) != Some(true)
  {
    if |fields| == 0 || In(fields[0], j) != Some(true) then 0
    else 1 + FirstAbsent(j, fields[1..])
  }

  /** The loop over the required fields: the first one that is not `in` the
      value is reported. */
  function CheckRequired(j: Json, fields: seq<string>): (r: Result<(), ConfigError>)
    ensures r.Ok? <==> FirstAbsent(j, fields) == |fields|
    ensures r.Err? ==>
              var k := FirstAbsent(j, fields);
              k < |fields| && r.error == (if In(fields[k], j).None? then TypeFault else MissingField(fields[k]))
  {
    if |fields| == 0 then Ok(())
    else match In(fields[0], j)
      case None => Err(TypeFault)
      case Some(false) => Err(MissingField(fields[0]))
      case Some(true) =>
        CheckRequired(j, fields[1..])
  }

  /** `__validatePattern`: `re.compile` on a string; on anything else
      `re.compile` raises `TypeError`. */
  function CheckPattern(p: Json, re: Regex): Result<(), ConfigError> {
    if !p.JStr? then Err(TypeFault)
    else if re.compiles(p.s) then Ok(())
    else Err(InvalidPattern(p.s))
  }

  predicate PatternOk(p: Json, re: Regex) {
    p.JStr? && re.compiles(p.s)
  }

  /** One pass of the loop over the mapping rules. */
  function CheckRule(category: string, rule: Json, re: Regex): (r: Result<(), ConfigError>)
    ensures r.Ok? <==> RuleOk(rule, re)
    ensures r.Err? && !rule.JObj? ==> r.error == RuleNotObject(category)
  {
    if !rule.JObj? then Err(RuleNotObject(category))
    else if Get(rule.fields, "description").None? || Get(rule.fields, "debitAccount").None? then
      Err(RuleIncomplete(category))
    else match Get(rule.fields, "pattern")
      case Some(p) => CheckPattern(p, re)
      case None => Ok(())
  }

  /** A rule the validation lets through: an object with a description and
      a debit account, whose pattern, if it has one, is a compiling string. */
  predicate RuleOk(rule: Json, re: Regex) {
    && rule.JObj?
    && Get(rule.fields, "description").Some?
    && Get(rule.fields, "debitAccount").Some?
    && (Get(rule.fields, "pattern").Some? ==> PatternOk(Get(rule.fields, "pattern").value, re))
  }

  /** The position of the first rule that fails its check, or the number
      of rules when none does. */
  function FirstFailingRule(rules: seq<(string, Json)>, re: Regex): (k: nat)
    ensures k <= |rules|
    ensures forall i :: 0 <= i < k ==> CheckRule(rules[i].0, rules[i].1, re).Ok?
    ensures k < |rules| ==> CheckRule(rules[k].0, rules[k].1, re).Err?
  {
    if |rules| == 0 || CheckRule(rules[0].0, rules[0].1, re).Err? then 0
    else 1 + FirstFailingRule(rules[1..], re)
  }

  /** The loop over the mapping rules, in file order: the first failing
      rule is the one reported. */
  function CheckRules(rules: seq<(string, Json)>, re: Regex): (r: Result<(), ConfigError>)
    ensures r.Ok? <==> FirstFailingRule(rules, re) == |rules|
    ensures r.Err? ==>
              var k := FirstFailingRule(rules, re);
              k < |rules| && r == CheckRule(rules[k].0, rules[k].1, re)
  {
    if |rules| == 0 then Ok(())
    else
      var first := CheckRule(rules[0].0, rules[0].1, re);
      if first.Err? then first
      else CheckRules(rules[1..], re)
  }

  /** The loop over the ignore patterns. */
  function CheckPatterns(ps: seq<Json>, re: Regex): (r: Result<(), ConfigError>)
    ensures r.Ok? <==> forall i :: 0 <= i < |ps| ==> PatternOk(ps[i], re)
  {
    if |ps| == 0 then Ok(())
    else match CheckPattern(ps[0], re)
      case Err(e) => Err(e)
      case Ok(_) =>
        assert forall i :: 1 <= i < |ps| ==> ps[i] == ps[1..][i - 1];
        CheckPatterns(ps[1..], re)
  }

  /** `self._config.get('ignore', {})` */
  function IgnoreSection(fields: seq<(string, Json)>): Json {
    Get(fields, "ignore").GetOr(JObj([]))
  }

  /** The closing check of the ignore section: every pattern listed under
      `transactions` must compile. */
  function CheckIgnore(ig: Json, re: Regex): (r: Result<(), ConfigError>)
    ensures r.Ok? <==> IgnoreOk(ig, re)
  {
    match In("transactions", ig)
    case None => Err(TypeFault)
    case Some(false) => Ok(())
    case Some(true) =>
      if !ig.JObj? then Err(TypeFault)
      else match Elements(Get(ig.fields, "transactions").value)
        case None => Err(TypeFault)
        case Some(ps) => CheckPatterns(ps, re)
  }

  /** `__validateConfiguration`, check by check in the order of the source. */
  function Validate(j: Json, re: Regex): Result<(), ConfigError> {
    match CheckRequired(j, RequiredFields)
    case Err(e) => Err(e)
    case Ok(_) =>
      if !j.JObj? then Err(TypeFault)
      else
        assert In(RequiredFields[0], j) == Some(true) && In(RequiredFields[1], j) == Some(true)
               && In(RequiredFields[2], j) == Some(true);
        var fs := j.fields;
        if !Get(fs, "creditAccount").value.JStr? then Err(CreditAccountNotString)
        else if !Get(fs, "mapping").value.JObj? then Err(MappingNotObject)
        else match CheckRules(Get(fs, "mapping").value.fields, re)
          case Err(e) => Err(e)
          case Ok(_) =>
            if !Get(fs, "columns").value.JArr? then Err(ColumnsNotArray)
            else CheckIgnore(IgnoreSection(fs), re)
  }

  // ------------------------------------------------------------ the declarative reading

  predicate HasField(j: Json, key: string) {
    j.JObj? && Get(j.fields, key).Some?
  }

  function Field(j: Json, key: string): Json
    requires HasField(j, key)
  {
    Get(j.fields, key).value
  }

  /** An ignore section the validation accepts: either it has no
      `transactions`, or it is an object whose `transactions` iterate to
      compiling strings. */
  predicate IgnoreOk(ig: Json, re: Regex) {
    && In("transactions", ig).Some?
    && (In("transactions", ig) == Some(true) ==>
          && ig.JObj?
          && Elements(Field(ig, "transactions")).Some?
          && forall i :: 0 <= i < |Elements(Field(ig, "transactions")).value| ==>
               PatternOk(Elements(Field(ig, "transactions")).value[i], re))
  }

  /** The configurations the program accepts, stated field by field. */
  predicate Accepted(j: Json, re: Regex) {
    && HasField(j, "creditAccount") && HasField(j, "mapping") && HasField(j, "columns")
    && Field(j, "creditAccount").JStr?
    && Field(j, "mapping").JObj?
    && (forall i :: 0 <= i < |Field(j, "mapping").fields| ==> RuleOk(Field(j, "mapping").fields[i].1, re))
    && Field(j, "columns").JArr?
    && IgnoreOk(IgnoreSection(j.fields), re)
  }

  lemma CheckRulesOk(rules: seq<(string, Json)>, re: Regex)
    ensures CheckRules(rules, re).Ok? <==> forall i :: 0 <= i < |rules| ==> RuleOk(rules[i].1, re)
  {
    assert forall i :: 0 <= i < |rules| ==>
             (CheckRule(rules[i].0, rules[i].1, re).Ok? <==> RuleOk(rules[i].1, re));
  }

  /** The validation passes exactly on the configurations described by
      `Accepted`. */
  lemma ValidateAccepts(j: Json, re: Regex)
    ensures Validate(j, re).Ok? <==> Accepted(j, re)
  {
    if j.JObj? {
      assert CheckRequired(j, RequiredFields).Ok? <==>
               HasField(j, "creditAccount") && HasField(j, "mapping") && HasField(j, "columns") by {
        RequiredPresent(j);
      }
      if HasField(j, "mapping") && Field(j, "mapping").JObj? {
        CheckRulesOk(Field(j, "mapping").fields, re);
      }
    }
  }

  lemma RequiredPresent(j: Json)
    requires j.JObj?
    ensures CheckRequired(j, RequiredFields).Ok? <==>
              HasField(j, "creditAccount") && HasField(j, "mapping") && HasField(j, "columns")
  {
    assert RequiredFields == ["creditAccount", "mapping", "columns"];
    if HasField(j, "creditAccount") && HasField(j, "mapping") && HasField(j, "columns") {
      assert forall i :: 0 <= i < |RequiredFields| ==> In(RequiredFields[i], j) == Some(true);
    } else {
      assert !(In(RequiredFields[0], j) == Some(true) && In(RequiredFields[1], j) == Some(true)
               && In(RequiredFields[2], j) == Some(true));
    }
  }

  /** The required fields are checked in the order `creditAccount`,
      `mapping`, `columns`, and the first missing one is reported. */
  lemma MissingFieldOrder(j: Json, re: Regex)
    requires j.JObj?
    ensures !HasField(j, "creditAccount") ==> Validate(j, re) == Err(MissingField("creditAccount"))
    ensures HasField(j, "creditAccount") && !HasField(j, "mapping") ==>
              Validate(j, re) == Err(MissingField("mapping"))
    ensures HasField(j, "creditAccount") && HasField(j, "mapping") && !HasField(j, "columns") ==>
              Validate(j, re) == Err(MissingField("columns"))
  {
    var rest := RequiredFields[1..];
    assert rest == ["mapping", "columns"] && rest[1..] == ["columns"];
    if HasField(j, "creditAccount") && !HasField(j, "mapping") {
      assert CheckRequired(j, rest) == Err(MissingField("mapping"));
      assert CheckRequired(j, RequiredFields) == Err(MissingField("mapping"));
    }
    if HasField(j, "creditAccount") && HasField(j, "mapping") && !HasField(j, "columns") {
      assert CheckRequired(j, rest[1..]) == Err(MissingField("columns"));
      assert CheckRequired(j, rest) == Err(MissingField("columns"));
      assert CheckRequired(j, RequiredFields) == Err(MissingField("columns"));
    }
  }

  /** Once the fields are present, the kinds are checked in the order
      credit account, mapping, rules, columns. */
  lemma KindCheckOrder(j: Json, re: Regex)
    requires HasField(j, "creditAccount") && HasField(j, "mapping") && HasField(j, "columns")
    ensures !Field(j, "creditAccount").JStr? ==> Validate(j, re) == Err(CreditAccountNotString)
    ensures Field(j, "creditAccount").JStr? && !Field(j, "mapping").JObj? ==>
              Validate(j, re) == Err(MappingNotObject)
    ensures Field(j, "creditAccount").JStr? && Field(j, "mapping").JObj?
            && CheckRules(Field(j, "mapping").fields, re).Ok? && !Field(j, "columns").JArr? ==>
              Validate(j, re) == Err(ColumnsNotArray)
  {
    assert In(RequiredFields[0], j) == Some(true) && In(RequiredFields[1], j) == Some(true)
           && In(RequiredFields[2], j) == Some(true);
  }

  // ------------------------------------------------------------ typed views

  datatype ColumnConfig = ColumnConfig(name: string, columnType: Option<string>, format: Option<string>)

  datatype MappingRule = MappingRule(description: string, debitAccount: string, pattern: Option<string>)

  datatype IgnoreRules = IgnoreRules(categories: seq<string>, transactions: seq<string>)

  /** The loaded configuration; `rules` pairs each category key with its
      rule, in file order. */
  datatype Configuration = Configuration(
    creditAccount: string,
    rules: seq<(string, MappingRule)>,
    ignore: IgnoreRules,
    columns: seq<ColumnConfig>)

  /** Python truthiness of `rule.pattern`: present and not empty. */
  predicate HasPattern(rule: MappingRule) {
    rule.pattern.Some? && rule.pattern.value != ""
  }

  /** `category in mappingRules` and `mappingRules[category]`: the rule
      stored under a category key. */
  function RuleFor(rules: seq<(string, MappingRule)>, category: string): (r: Option<MappingRule>)
    ensures r.Some? <==> exists i :: 0 <= i < |rules| && rules[i].0 == category
    ensures r.Some? ==> (category, r.value) in rules
  {
    if |rules| == 0 then None
    else if rules[0].0 == category then Some(rules[0].1)
    else RuleFor(rules[1..], category)
  }

  /** `value.get(key)` where a string or nothing is expected (JSON `null`
      reads as `None` too). */
  predicate StrOrAbsent(o: Option<Json>) {
    o.None? || o.value.JStr? || o.value.JNull?
  }

  function OptStr(o: Option<Json>): Option<string>
    requires StrOrAbsent(o)
  {
    if o.Some? && o.value.JStr? then Some(o.value.s) else None
  }

  predicate StrList(j: Json) {
    j.JArr? && forall i :: 0 <= i < |j.items| ==> j.items[i].JStr?
  }

  predicate StrListOrAbsent(o: Option<Json>) {
    o.None? || StrList(o.value)
  }

  predicate RuleShaped(rule: Json) {
    && rule.JObj?
    && Get(rule.fields, "description").Some? && Get(rule.fields, "description").value.JStr?
    && Get(rule.fields, "debitAccount").Some? && Get(rule.fields, "debitAccount").value.JStr?
    && StrOrAbsent(Get(rule.fields, "pattern"))
  }

  predicate ColumnShaped(c: Json) {
    && c.JObj?
    && Get(c.fields, "name").Some? && Get(c.fields, "name").value.JStr?
    && StrOrAbsent(Get(c.fields, "type")) && StrOrAbsent(Get(c.fields, "format"))
  }

  predicate IgnoreShaped(o: Option<Json>) {
    o.None?
    || (o.value.JObj? && StrListOrAbsent(Get(o.value.fields, "categories"))
        && StrListOrAbsent(Get(o.value.fields, "transactions")))
  }

  /** The value kinds the typed views rely on: strings where the program
      reads strings, lists of strings where it iterates strings. */
  predicate Shaped(j: Json) {
    && HasField(j, "creditAccount") && Field(j, "creditAccount").JStr?
    && HasField(j, "mapping") && Field(j, "mapping").JObj?
    && (forall i :: 0 <= i < |Field(j, "mapping").fields| ==> RuleShaped(Field(j, "mapping").fields[i].1))
    && HasField(j, "columns") && Field(j, "columns").JArr?
    && (forall i :: 0 <= i < |Field(j, "columns").items| ==> ColumnShaped(Field(j, "columns").items[i]))
    && IgnoreShaped(Get(j.fields, "ignore"))
  }

  function RuleOf(rule: Json): (r: MappingRule)
    requires RuleShaped(rule)
    ensures Get(rule.fields, "pattern").None? ==> r.pattern.None?
  {
    MappingRule(Get(rule.fields, "description").value.s, Get(rule.fields, "debitAccount").value.s,
                OptStr(Get(rule.fields, "pattern")))
  }

  /** `mappingRules`: one rule per key of `mapping`, in file order. */
  function MappingRules(fields: seq<(string, Json)>): (r: seq<(string, MappingRule)>)
    requires forall i :: 0 <= i < |fields| ==> RuleShaped(fields[i].1)
    ensures |r| == |fields|
  {
    if |fields| == 0 then []
    else [(fields[0].0, RuleOf(fields[0].1))] + MappingRules(fields[1..])
  }

  function ColumnOf(c: Json): ColumnConfig
    requires ColumnShaped(c)
  {
    ColumnConfig(Get(c.fields, "name").value.s, OptStr(Get(c.fields, "type")), OptStr(Get(c.fields, "format")))
  }

  /** `columns`: one column per element of `columns`, in file order. */
  function Columns(items: seq<Json>): (r: seq<ColumnConfig>)
    requires forall i :: 0 <= i < |items| ==> ColumnShaped(items[i])
    ensures |r| == |items|
  {
    if |items| == 0 then [] else [ColumnOf(items[0])] + Columns(items[1..])
  }

  function Strings(o: Option<Json>): seq<string>
    requires StrListOrAbsent(o)
  {
    if o.None? then [] else seq(|o.value.items|, i requires 0 <= i < |o.value.items| => o.value.items[i].s)
  }

  /** `ignoreRules`: both lists default to empty. */
  function IgnoreRulesOf(o: Option<Json>): IgnoreRules
    requires IgnoreShaped(o)
  {
    if o.None? then IgnoreRules([], [])
    else IgnoreRules(Strings(Get(o.value.fields, "categories")), Strings(Get(o.value.fields, "transactions")))
  }

  /** The properties of a loaded configuration. */
  function Load(j: Json): Configuration
    requires Shaped(j)
  {
    Configuration(
      Field(j, "creditAccount").s,
      MappingRules(Field(j, "mapping").fields),
      IgnoreRulesOf(Get(j.fields, "ignore")),
      Columns(Field(j, "columns").items))
  }

  // ------------------------------------------------------------ view properties

  /** `mappingRules` keeps the keys of `mapping` in file order; a rule
      without a `pattern` has none. */
  lemma {:induction false} MappingRulesInOrder(fields: seq<(string, Json)>)
    requires forall i :: 0 <= i < |fields| ==> RuleShaped(fields[i].1)
    ensures forall i :: 0 <= i < |fields| ==> MappingRules(fields)[i] == (fields[i].0, RuleOf(fields[i].1))
  {
    if |fields| > 0 {
      var rest := fields[1..];
      assert forall i :: 0 <= i < |rest| ==> RuleShaped(rest[i].1) by {
        assert forall i :: 0 <= i < |rest| ==> rest[i] == fields[i + 1];
      }
      MappingRulesInOrder(rest);
      var r := MappingRules(fields);
      var head := (fields[0].0, RuleOf(fields[0].1));
      assert r == [head] + MappingRules(rest);
      forall i | 0 <= i < |fields|
        ensures r[i] == (fields[i].0, RuleOf(fields[i].1))
      {
        if i > 0 {
          assert r[i] == MappingRules(rest)[i - 1] && fields[i] == rest[i - 1];
        } else {
          assert r[0] == head;
        }
      }
    }
  }

  /** `columns` keeps the configured columns in file order. */
  lemma {:induction false} ColumnsInOrder(items: seq<Json>)
    requires forall i :: 0 <= i < |items| ==> ColumnShaped(items[i])
    ensures forall i :: 0 <= i < |items| ==> Columns(items)[i] == ColumnOf(items[i])
  {
    if |items| > 0 {
      var rest := items[1..];
      assert forall i :: 0 <= i < |rest| ==> ColumnShaped(rest[i]) by {
        assert forall i :: 0 <= i < |rest| ==> rest[i] == items[i + 1];
      }
      ColumnsInOrder(rest);
      var r := Columns(items);
      assert r == [ColumnOf(items[0])] + Columns(rest);
      forall i | 0 <= i < |items|
        ensures r[i] == ColumnOf(items[i])
      {
        if i > 0 {
          assert items[i] == rest[i - 1];
        }
      }
    }
  }

  /** Without an `ignore` section nothing is ignored. */
  lemma NoIgnoreSection(j: Json)
    requires Shaped(j) && Get(j.fields, "ignore").None?
    ensures Load(j).ignore.categories == [] && Load(j).ignore.transactions == []
  {
  }

  /** Every pattern the loaded configuration holds was accepted by
      `re.compile`: the rules' patterns and the ignore patterns. */
  predicate PatternsCompile(cfg: Configuration, re: Regex) {
    && (forall i :: 0 <= i < |cfg.rules| ==> HasPattern(cfg.rules[i].1) ==> re.compiles(cfg.rules[i].1.pattern.value))
    && (forall i :: 0 <= i < |cfg.ignore.transactions| ==> re.compiles(cfg.ignore.transactions[i]))
  }

  /** A configuration that passed validation only holds compiling patterns. */
  lemma ValidatedPatternsCompile(j: Json, re: Regex)
    requires Shaped(j) && Validate(j, re).Ok?
    ensures PatternsCompile(Load(j), re)
  {
    ValidateAccepts(j, re);
    RulePatternsCompile(Field(j, "mapping").fields, re);
    IgnorePatternsCompile(Get(j.fields, "ignore"), re);
  }

  lemma RulePatternsCompile(fields: seq<(string, Json)>, re: Regex)
    requires forall i :: 0 <= i < |fields| ==> RuleShaped(fields[i].1) && RuleOk(fields[i].1, re)
    ensures forall i :: 0 <= i < |fields| ==> HasPattern(MappingRules(fields)[i].1) ==>
              re.compiles(MappingRules(fields)[i].1.pattern.value)
  {
    MappingRulesInOrder(fields);
  }

  lemma IgnorePatternsCompile(ig: Option<Json>, re: Regex)
    requires IgnoreShaped(ig) && IgnoreOk(ig.GetOr(JObj([])), re)
    ensures forall i :: 0 <= i < |IgnoreRulesOf(ig).transactions| ==> re.compiles(IgnoreRulesOf(ig).transactions[i])
  {
    if ig.Some? && Get(ig.value.fields, "transactions").Some? {
      var ps := Get(ig.value.fields, "transactions").value.items;
      assert forall i :: 0 <= i < |ps| ==> PatternOk(ps[i], re);
    }
  }

  // ------------------------------------------------------------ core and optional columns

  /** `getCoreColumns`: the columns with a `type`, in order. */
  function CoreColumns(cs: seq<ColumnConfig>): (r: seq<ColumnConfig>)
    ensures forall i :: 0 <= i < |r| ==> r[i].columnType.Some?
  {
    if |cs| == 0 then []
    else if cs[0].columnType.Some? then [cs[0]] + CoreColumns(cs[1..])
    else CoreColumns(cs[1..])
  }

  /** `getOptionalColumns`: the columns without a `type`, in order. */
  function OptionalColumns(cs: seq<ColumnConfig>): (r: seq<ColumnConfig>)
    ensures forall i :: 0 <= i < |r| ==> r[i].columnType.None?
  {
    if |cs| == 0 then []
    else if cs[0].columnType.None? then [cs[0]] + OptionalColumns(cs[1..])
    else OptionalColumns(cs[1..])
  }

  /** `s` is an order-preserving merge of `a` and `b`: each element of `s`
      is taken from the front of one of them. */
  predicate Interleaving(s: seq<ColumnConfig>, a: seq<ColumnConfig>, b: seq<ColumnConfig>)
    decreases |s|
  {
    if |s| == 0 then a == [] && b == []
    else
      (|a| > 0 && a[0] == s[0] && Interleaving(s[1..], a[1..], b))
      || (|b| > 0 && b[0] == s[0] && Interleaving(s[1..], a, b[1..]))
  }

  /** The two views split the columns: every column lands in exactly one,
      and each keeps the relative order of the configuration. */
  lemma {:induction false} ColumnsPartition(cs: seq<ColumnConfig>)
    ensures Interleaving(cs, CoreColumns(cs), OptionalColumns(cs))
    ensures |CoreColumns(cs)| + |OptionalColumns(cs)| == |cs|
    ensures multiset(CoreColumns(cs)) + multiset(OptionalColumns(cs)) == multiset(cs)
  {
    if |cs| > 0 {
      ColumnsPartition(cs[1..]);
      assert cs == [cs[0]] + cs[1..];
    }
  }

  /** A column with a type is a core column, one without is optional. */
  lemma {:induction false} ColumnsMembership(cs: seq<ColumnConfig>, c: ColumnConfig)
    requires c in cs
    ensures c.columnType.Some? ==> c in CoreColumns(cs)
    ensures c.columnType.None? ==> c in OptionalColumns(cs)
  {
    if cs[0] != c {
      ColumnsMembership(cs[1..], c);
    }
  }
}

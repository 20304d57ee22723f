/**
 * The skill registry: skill specifications read from a JSON document,
 * keyed by skill name in the order the names were first registered, and
 * looked up by name or by task kind. Reading the file is left to the
 * caller: `Load` receives the parsed document, or `None` when the file is
 * missing or is not valid JSON.
 */
module SkillRegistry {
  import opened Wrappers
  import opened Json
  import Dicts = Json
  import Text
  import OrderedMap

  /** The exception a Python call would raise. */
  datatype LoadError =
    | UnexpectedKeyword(cls: string, keyword: string)  // TypeError from `Cls(**d)`
    | NotIterable(what: string)                         // TypeError from `list(x)` or `for x in ...`
    | NotAnObject(what: string)                         // AttributeError: no `.get` on a non-dict
    | NonStringName(name: Json)                         // a truthy skill name that is not a string

  datatype Result<T> = Ok(value: T) | Err(error: LoadError)

  /** What a skill promises to hand in; the fields keep whatever JSON the document gave. */
  datatype EvidenceContract = EvidenceContract(
    requiresPatch: Json,
    requiresCommands: Json,
    requiresValidationScript: Json,
    extra: Json)

  datatype RiskPolicy = RiskPolicy(
    tier: Json,
    allowedOps: Json,
    denyPaths: Json,
    allowNetwork: Json,
    extra: Json)

  datatype SkillSpec = SkillSpec(
    skillName: string,
    supportedKinds: seq<Json>,
    invocationHints: Json,
    inputSchema: Json,
    evidenceContract: Option<EvidenceContract>,
    riskPolicy: Option<RiskPolicy>)

  /** The registry: skill specifications by name, in registration order. */
  datatype Registry = Registry(skills: OrderedMap.OMap<SkillSpec>)

  const ContractFields: seq<string> := ["requiresPatch", "requiresCommands", "requiresValidationScript", "extra"]
  const PolicyFields: seq<string> := ["tier", "allowedOps", "denyPaths", "allowNetwork", "extra"]

  /** The keys of `d` that are not among `known`, in order. */
  function UnknownKeys(d: Dict, known: seq<string>): (r: seq<string>)
    ensures forall k :: k in r <==> Has(d, k) && k !in known
    decreases |d|
  {
    if d == [] then []
    else
      assert Keys(d) == [d[0].0] + Keys(d[1..]);
      (if d[0].0 in known then [] else [d[0].0]) + UnknownKeys(d[1..], known)
  }

  /** An evidence contract built from a dict: each field from `d` or its default, refusing unknown keys. */
  function BuildContract(d: Dict): Result<EvidenceContract> {
    var unknown := UnknownKeys(d, ContractFields);
    if unknown != [] then Err(UnexpectedKeyword("EvidenceContract", unknown[0]))
    else Ok(EvidenceContract(
      GetOr(d, "requiresPatch", JBool(true)),
      GetOr(d, "requiresCommands", JBool(true)),
      GetOr(d, "requiresValidationScript", JBool(false)),
      GetOr(d, "extra", JObj([]))))
  }

  /** A risk policy built from a dict, refusing unknown keys. */
  function BuildPolicy(d: Dict): Result<RiskPolicy> {
    var unknown := UnknownKeys(d, PolicyFields);
    if unknown != [] then Err(UnexpectedKeyword("RiskPolicy", unknown[0]))
    else Ok(RiskPolicy(
      GetOr(d, "tier", JStr("safe")),
      GetOr(d, "allowedOps", JList([])),
      GetOr(d, "denyPaths", JList([])),
      GetOr(d, "allowNetwork", JBool(false)),
      GetOr(d, "extra", JObj([]))))
  }

  /** The supported kinds as a list: a list as is, a string's characters, a dict's keys; a number is not iterable. */
  function ListOf(v: Json, what: string): Result<seq<Json>> {
    if !Truthy(v) then Ok([])
    else match v
      case JList(items) => Ok(items)
      case JStr(s) => Ok(seq(|s|, i requires 0 <= i < |s| => JStr([s[i]])))
      case JObj(d) => Ok(seq(|d|, i requires 0 <= i < |d| => JStr(d[i].0)))
      case _ => Err(NotIterable(what))
  }

  /** The skill name: a string, or "" for a missing or falsy name. */
  function NameOf(v: Json): Result<string> {
    if v.JStr? then Ok(v.s)
    else if !Truthy(v) then Ok("")
    else Err(NonStringName(v))
  }

  /**
   * `SkillSpec.from_dict`: a missing name is "", missing kinds are [], and
   * a nested contract or policy is built only from a dict.
   */
  function FromDict(raw: Dict): Result<SkillSpec> {
    var name := NameOf(GetOr(raw, "skillName", JStr("")));
    var kinds := ListOf(Dicts.Get(raw, "supportedKinds"), "supportedKinds");
    var contract := ContractOf(Dicts.Get(raw, "evidenceContract"));
    var policy := PolicyOf(Dicts.Get(raw, "riskPolicy"));
    if name.Err? then Err(name.error)
    else if kinds.Err? then Err(kinds.error)
    else if contract.Err? then Err(contract.error)
    else if policy.Err? then Err(policy.error)
    else Ok(SkillSpec(
      name.value,
      kinds.value,
      Dicts.Get(raw, "invocationHints"),
      Dicts.Get(raw, "inputSchema"),
      contract.value,
      policy.value))
  }

  /** A contract when `v` is a dict, otherwise none. */
  function ContractOf(v: Json): (r: Result<Option<EvidenceContract>>)
    ensures r.Ok? ==> (r.value.Some? <==> v.JObj?)
  {
    if !v.JObj? then Ok(None)
    else
      var c := BuildContract(v.fields);
      if c.Err? then Err(c.error) else Ok(Some(c.value))
  }

  /** A policy when `v` is a dict, otherwise none. */
  function PolicyOf(v: Json): (r: Result<Option<RiskPolicy>>)
    ensures r.Ok? ==> (r.value.Some? <==> v.JObj?)
  {
    if !v.JObj? then Ok(None)
    else
      var p := BuildPolicy(v.fields);
      if p.Err? then Err(p.error) else Ok(Some(p.value))
  }

  /** One entry of the `skills` list; an entry that is not a dict has no `.get`. */
  function ParseItem(item: Json): Result<SkillSpec> {
    if item.JObj? then FromDict(item.fields) else Err(NotAnObject("skill"))
  }

  /** All entries parsed, or the error of the first entry that fails. */
  function ParseAll(items: seq<Json>): Result<seq<SkillSpec>>
    decreases |items|
  {
    if items == [] then Ok([])
    else
      var prev := ParseAll(items[..|items| - 1]);
      if prev.Err? then prev
      else
        var spec := ParseItem(items[|items| - 1]);
        if spec.Err? then Err(spec.error) else Ok(prev.value + [spec.value])
  }

  /** The name-keyed build: unnamed specs are skipped, a later spec replaces an earlier one. */
  function Register(specs: seq<SkillSpec>): OrderedMap.OMap<SkillSpec>
    decreases |specs|
  {
    if specs == [] then OrderedMap.Empty()
    else
      var m := Register(specs[..|specs| - 1]);
      var spec := specs[|specs| - 1];
      if spec.skillName != "" then OrderedMap.Put(m, spec.skillName, spec) else m
  }

  /** `SkillRegistry.load` on the parsed document. */
  function Loaded(parsed: Option<Json>): Result<Registry> {
    if parsed.None? then Ok(Registry(OrderedMap.Empty()))
    else if !parsed.value.JObj? then Err(NotAnObject("payload"))
    else
      var items := ListOf(GetOr(parsed.value.fields, "skills", JList([])), "skills");
      if items.Err? then Err(items.error)
      else
        var specs := ParseAll(items.value);
        if specs.Err? then Err(specs.error) else Ok(Registry(Register(specs.value)))
  }

  /** Once a prefix of the entries fails, the whole list fails with the same error. */
  lemma {:induction false} ParseAllFailureSticks(items: seq<Json>, i: nat)
    requires i <= |items| && ParseAll(items[..i]).Err?
    ensures ParseAll(items) == ParseAll(items[..i])
    decreases |items| - i
  {
    if i < |items| {
      assert items[..i + 1][..i] == items[..i];
      ParseAllFailureSticks(items, i + 1);
    } else {
      assert items[..i] == items;
    }
  }

  method Load(parsed: Option<Json>) returns (r: Result<Registry>)
    ensures r == Loaded(parsed)
  {
    if parsed.None? {
      return Ok(Registry(OrderedMap.Empty()));
    }
    if !parsed.value.JObj? {
      return Err(NotAnObject("payload"));
    }
    var listed := ListOf(GetOr(parsed.value.fields, "skills", JList([])), "skills");
    if listed.Err? {
      return Err(listed.error);
    }
    var items := listed.value;
    var skills := OrderedMap.Empty();
    ghost var specs: seq<SkillSpec> := [];
    var i := 0;
    while i < |items|
      invariant 0 <= i <= |items|
      invariant ParseAll(items[..i]) == Ok(specs)
      invariant skills == Register(specs)
    {
      assert items[..i + 1][..i] == items[..i];
      var spec := ParseItem(items[i]);
      if spec.Err? {
        ParseAllFailureSticks(items, i + 1);
        return Err(spec.error);
      }
      if spec.value.skillName != "" {
        skills := OrderedMap.Put(skills, spec.value.skillName, spec.value);
      }
      assert (specs + [spec.value])[..|specs|] == specs;
      specs := specs + [spec.value];
      i := i + 1;
    }
    assert items[..i] == items;
    return Ok(Registry(skills));
  }

  /** `get`: the spec stored under the name, or `None`. */
  function Get(reg: Registry, name: string): Option<SkillSpec> {
    if name in reg.skills.values then Some(reg.skills.values[name]) else None
  }

  /** Whether a spec lists `kind` among its supported kinds. */
  predicate Supports(spec: SkillSpec, kind: string) {
    JStr(kind) in spec.supportedKinds
  }

  /** The specs stored under `order` that support `kind`, in that order. */
  function Supporting(order: seq<string>, values: map<string, SkillSpec>, kind: string): seq<SkillSpec>
    decreases |order|
  {
    if order == [] then []
    else
      var prev := Supporting(order[..|order| - 1], values, kind);
      var name := order[|order| - 1];
      if name in values && Supports(values[name], kind) then prev + [values[name]] else prev
  }

  /** `by_kind`: nothing for a missing or empty kind. */
  function KindSpecs(reg: Registry, kind: Option<string>): seq<SkillSpec> {
    if !Text.Truthy(kind) then [] else Supporting(reg.skills.order, reg.skills.values, kind.value)
  }

  method ByKind(reg: Registry, kind: Option<string>) returns (out: seq<SkillSpec>)
    ensures out == KindSpecs(reg, kind)
    ensures !Text.Truthy(kind) ==> out == []
  {
    if !Text.Truthy(kind) {
      return [];
    }
    var order := reg.skills.order;
    out := [];
    var i := 0;
    while i < |order|
      invariant 0 <= i <= |order|
      invariant out == Supporting(order[..i], reg.skills.values, kind.value)
    {
      assert order[..i + 1][..i] == order[..i];
      var name := order[i];
      if name in reg.skills.values && Supports(reg.skills.values[name], kind.value) {
        out := out + [reg.skills.values[name]];
      }
      i := i + 1;
    }
    assert order[..i] == order;
  }

  // ---------------------------------------------------------------------
  // Properties

  /** The names that are registered, in the order of the specs. */
  function NamedOnly(specs: seq<SkillSpec>): seq<string>
    decreases |specs|
  {
    if specs == [] then []
    else
      var name := specs[|specs| - 1].skillName;
      NamedOnly(specs[..|specs| - 1]) + (if name != "" then [name] else [])
  }

  /** Every registered spec is stored under its own name. */
  ghost predicate KeyedByName(m: OrderedMap.OMap<SkillSpec>) {
    forall k :: k in m.values ==> m.values[k].skillName == k
  }

  /**
   * The build yields a well-formed map whose keys, in order, are the
   * non-empty names at their first occurrence, each stored under its own name.
   */
  lemma {:induction false} RegisterShape(specs: seq<SkillSpec>)
    ensures OrderedMap.Valid(Register(specs))
    ensures KeyedByName(Register(specs))
    ensures Register(specs).order == OrderedMap.AppendNew([], NamedOnly(specs))
    decreases |specs|
  {
    if specs != [] {
      var init := specs[..|specs| - 1];
      RegisterShape(init);
      var m := Register(init);
      var spec := specs[|specs| - 1];
      if spec.skillName != "" {
        OrderedMap.PutValid(m, spec.skillName, spec);
        assert NamedOnly(specs) == NamedOnly(init) + [spec.skillName];
        assert NamedOnly(specs)[..|NamedOnly(specs)| - 1] == NamedOnly(init);
      } else {
        assert NamedOnly(specs) == NamedOnly(init);
      }
    }
  }

  /** A name is registered exactly when it is non-empty and some spec carries it. */
  lemma {:induction false} RegisterKeys(specs: seq<SkillSpec>, name: string)
    ensures name in Register(specs).values <==> name != "" && exists i :: 0 <= i < |specs| && specs[i].skillName == name
    decreases |specs|
  {
    if specs != [] {
      var init := specs[..|specs| - 1];
      RegisterKeys(init, name);
      if name != "" && specs[|specs| - 1].skillName != name {
        if exists i :: 0 <= i < |specs| && specs[i].skillName == name {
          var i :| 0 <= i < |specs| && specs[i].skillName == name;
          assert init[i] == specs[i];
        }
      }
      forall i | 0 <= i < |init| ensures init[i] == specs[i] { }
    }
  }

  /** The spec stored under a name is the last one carrying that name. */
  lemma {:induction false} RegisterLast(specs: seq<SkillSpec>, i: nat)
    requires i < |specs| && specs[i].skillName != ""
    requires forall j :: i < j < |specs| ==> specs[j].skillName != specs[i].skillName
    ensures specs[i].skillName in Register(specs).values
    ensures Register(specs).values[specs[i].skillName] == specs[i]
    decreases |specs|
  {
    if i < |specs| - 1 {
      var init := specs[..|specs| - 1];
      assert init[i] == specs[i];
      forall j | i < j < |init| ensures init[j].skillName != init[i].skillName {
        assert init[j] == specs[j];
      }
      RegisterLast(init, i);
    }
  }

  /** Looking a name up after the build gives the last spec of that name. */
  lemma GetAfterRegister(specs: seq<SkillSpec>, i: nat)
    requires i < |specs| && specs[i].skillName != ""
    requires forall j :: i < j < |specs| ==> specs[j].skillName != specs[i].skillName
    ensures Get(Registry(Register(specs)), specs[i].skillName) == Some(specs[i])
  {
    RegisterLast(specs, i);
  }

  /** A name no spec carries, or the empty name, is not found. */
  lemma GetAbsent(specs: seq<SkillSpec>, name: string)
    requires name == "" || forall i :: 0 <= i < |specs| ==> specs[i].skillName != name
    ensures Get(Registry(Register(specs)), name) == None
  {
    RegisterKeys(specs, name);
  }

  /** A missing file or unreadable document gives an empty registry. */
  lemma LoadMissing()
    ensures Loaded(None) == Ok(Registry(OrderedMap.Empty()))
    ensures forall name :: Get(Loaded(None).value, name) == None
  {
  }

  /** A successful load produces a registry keyed by name with no empty name. */
  lemma LoadedShape(parsed: Option<Json>)
    requires Loaded(parsed).Ok?
    ensures OrderedMap.Valid(Loaded(parsed).value.skills)
    ensures KeyedByName(Loaded(parsed).value.skills)
    ensures "" !in Loaded(parsed).value.skills.values
  {
    if parsed.Some? {
      var items := ListOf(GetOr(parsed.value.fields, "skills", JList([])), "skills");
      var specs := ParseAll(items.value).value;
      RegisterShape(specs);
      RegisterKeys(specs, "");
    }
  }

  /**
   * `from_dict` defaults: a missing name is "", missing kinds are [], a
   * missing or non-dict contract or policy is `None`.
   */
  lemma FromDictDefaults(raw: Dict)
    requires FromDict(raw).Ok?
    ensures !Has(raw, "skillName") ==> FromDict(raw).value.skillName == ""
    ensures !Truthy(Dicts.Get(raw, "supportedKinds")) ==> FromDict(raw).value.supportedKinds == []
    ensures FromDict(raw).value.evidenceContract.Some? <==> Dicts.Get(raw, "evidenceContract").JObj?
    ensures FromDict(raw).value.riskPolicy.Some? <==> Dicts.Get(raw, "riskPolicy").JObj?
  {
    var name := NameOf(GetOr(raw, "skillName", JStr("")));
    var kinds := ListOf(Dicts.Get(raw, "supportedKinds"), "supportedKinds");
    var contract := ContractOf(Dicts.Get(raw, "evidenceContract"));
    var policy := PolicyOf(Dicts.Get(raw, "riskPolicy"));
    assert name.Ok? && kinds.Ok? && contract.Ok? && policy.Ok?;
    var r := FromDict(raw).value;
    assert r.skillName == name.value && r.supportedKinds == kinds.value;
    assert r.evidenceContract == contract.value && r.riskPolicy == policy.value;
  }

  /**
   * A nested contract is built exactly when every key of its dict is a
   * field of `EvidenceContract`; each field then takes the dict's value or
   * its default.
   */
  lemma ContractKeywords(d: Dict)
    ensures BuildContract(d).Ok? <==> forall k :: Has(d, k) ==> k in ContractFields
    ensures BuildContract(d).Ok? && !Has(d, "requiresPatch") ==> BuildContract(d).value.requiresPatch == JBool(true)
    ensures BuildContract(d).Ok? && Has(d, "requiresPatch") ==> BuildContract(d).value.requiresPatch == Dicts.Get(d, "requiresPatch")
  {
    var unknown := UnknownKeys(d, ContractFields);
    if unknown != [] {
      assert unknown[0] in unknown;
    }
  }

  /** Likewise for the risk policy, whose tier defaults to "safe". */
  lemma PolicyKeywords(d: Dict)
    ensures BuildPolicy(d).Ok? <==> forall k :: Has(d, k) ==> k in PolicyFields
    ensures BuildPolicy(d).Ok? && !Has(d, "tier") ==> BuildPolicy(d).value.tier == JStr("safe")
  {
    var unknown := UnknownKeys(d, PolicyFields);
    if unknown != [] {
      assert unknown[0] in unknown;
    }
  }

  /** Every spec `by_kind` returns is stored in the registry and supports the kind. */
  lemma {:induction false} SupportingSpec(order: seq<string>, values: map<string, SkillSpec>, kind: string, spec: SkillSpec)
    ensures spec in Supporting(order, values, kind) <==>
      Supports(spec, kind) && exists i :: 0 <= i < |order| && order[i] in values && values[order[i]] == spec
    decreases |order|
  {
    if order != [] {
      var init := order[..|order| - 1];
      SupportingSpec(init, values, kind, spec);
      forall i | 0 <= i < |init| ensures init[i] == order[i] { }
    }
  }

  /** The names of a list of specs. */
  function NamesOf(specs: seq<SkillSpec>): (r: seq<string>)
    ensures |r| == |specs|
    ensures forall i :: 0 <= i < |specs| ==> r[i] == specs[i].skillName
  {
    seq(|specs|, i requires 0 <= i < |specs| => specs[i].skillName)
  }

  /** `a` can be obtained from `b` by deleting elements. */
  predicate Subsequence(a: seq<string>, b: seq<string>)
    decreases |b|
  {
    a == [] || (b != [] &&
      if a[|a| - 1] == b[|b| - 1] then Subsequence(a[..|a| - 1], b[..|b| - 1])
      else Subsequence(a, b[..|b| - 1]))
  }

  /** Dropping the last element of a subsequence leaves a subsequence. */
  lemma {:induction false} SubsequenceDrop(a: seq<string>, b: seq<string>)
    requires a != [] && Subsequence(a, b)
    ensures Subsequence(a[..|a| - 1], b)
    decreases |b|
  {
    var a' := a[..|a| - 1];
    if a' != [] {
      var b' := b[..|b| - 1];
      if a[|a| - 1] == b[|b| - 1] {
        assert Subsequence(a', b');
      } else {
        SubsequenceDrop(a, b');
      }
      if a'[|a'| - 1] == b[|b| - 1] {
        SubsequenceDrop(a', b');
      }
    }
  }

  /** A subsequence of `b` is a subsequence of `b` extended. */
  lemma SubsequenceExtend(a: seq<string>, b: seq<string>, x: string)
    requires Subsequence(a, b)
    ensures Subsequence(a, b + [x])
  {
    assert (b + [x])[..|b|] == b;
    if a != [] && a[|a| - 1] == x {
      SubsequenceDrop(a, b);
    }
  }

  /** In a registry keyed by name, `by_kind` lists its specs in registry order. */
  lemma {:induction false} SupportingInOrder(order: seq<string>, values: map<string, SkillSpec>, kind: string)
    requires forall k :: k in values ==> values[k].skillName == k
    ensures Subsequence(NamesOf(Supporting(order, values, kind)), order)
    decreases |order|
  {
    if order != [] {
      var init := order[..|order| - 1];
      var name := order[|order| - 1];
      var prev := Supporting(init, values, kind);
      SupportingInOrder(init, values, kind);
      if name in values && Supports(values[name], kind) {
        var names := NamesOf(prev + [values[name]]);
        assert names[..|names| - 1] == NamesOf(prev);
      } else {
        if NamesOf(prev) != [] {
          SubsequenceExtend(NamesOf(prev), init, name);
          assert init + [name] == order;
        }
      }
    }
  }
}

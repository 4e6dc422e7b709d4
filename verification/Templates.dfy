/** yogi-supervisor's template strings. A value may refer to a constant as
    `${NAME}`; Supervisor::extract_constants eliminates such references by a
    nested reverse loop of textual replacements. */
module Templates {
  import opened Replace

  // ------------------------------------------------------------------- model

  function Reference(name: string): string { "${" + name + "}" }

  class TemplateString {
    const name: string
    var value: string

    constructor (name: string, value: string)
      ensures this.name == name && this.value == value
    {
      this.name, this.value := name, value;
    }

    /** Textually replaces every reference to `other` by the value it has now. */
    method Resolve(other: TemplateString)
      modifies this
      ensures value == ReplaceAll(old(value), ['$', '{'] + other.name + ['}'], old(other.value))
    {
      var reference := "${" + other.name + "}";
      value := ReplaceInPlace(value, reference, other.value);
    }

    /** Resolves against a vector, front to back. */
    method ResolveAll(others: seq<TemplateString>)
      requires this !in others
      modifies this
      ensures value == ResolveEach(old(value), Constants(others))
    {
      ghost var cs := Constants(others);
      for i := 0 to |others|
        invariant value == ResolveEach(old(value), cs[..i])
      {
        assert others[i].Snapshot() == cs[i];
        Resolve(others[i]);
        assert cs[..i + 1] == cs[..i] + [cs[i]];
        ResolveEachAppend(old(value), cs[..i], cs[i]);
      }
      assert cs[..|others|] == cs;
    }

    function Snapshot(): Constant
      reads this
    {
      Constant(name, value)
    }
  }

  /** The name and value of a template string at one moment. */
  datatype Constant = Constant(name: string, value: string)

  function Constants(ts: seq<TemplateString>): (cs: seq<Constant>)
    reads ts
    ensures |cs| == |ts|
    ensures forall i :: 0 <= i < |ts| ==> cs[i] == ts[i].Snapshot()
  {
    if ts == [] then [] else Constants(ts[..|ts| - 1]) + [ts[|ts| - 1].Snapshot()]
  }

  /** Sequential replacement, first constant first. */
  function ResolveEach(value: string, cs: seq<Constant>): string
    decreases |cs|
  {
    if cs == [] then value
    else ResolveEach(ReplaceAll(value, Reference(cs[0].name), cs[0].value), cs[1..])
  }

  lemma {:induction false} ResolveEachAppend(value: string, cs: seq<Constant>, c: Constant)
    ensures ResolveEach(value, cs + [c]) == ReplaceAll(ResolveEach(value, cs), Reference(c.name), c.value)
    decreases |cs|
  {
    if cs == [] {
      assert (cs + [c])[1..] == [];
      assert ResolveEach(ReplaceAll(value, Reference(c.name), c.value), []) ==
             ReplaceAll(value, Reference(c.name), c.value);
    } else {
      assert (cs + [c])[1..] == cs[1..] + [c];
      ResolveEachAppend(ReplaceAll(value, Reference(cs[0].name), cs[0].value), cs[1..], c);
    }
  }

  // ----------------------------------------------------------- configuration

  datatype Extracted = Loaded(constants: seq<Constant>) | ReservedName(name: string)

  predicate Reserved(name: string) { name in ["DEVICE", "DEVICE_NAME", "HOSTNAME"] }

  /** Reading the `constants` section: the first reserved name ends it. */
  method ExtractRawConstants(config: seq<Constant>) returns (r: Extracted, raw: seq<TemplateString>)
    ensures r.Loaded? <==> forall i :: 0 <= i < |config| ==> !Reserved(config[i].name)
    ensures r.Loaded? ==> r.constants == config && Constants(raw) == config
    ensures r.ReservedName? ==> exists i :: 0 <= i < |config| && config[i].name == r.name && Reserved(r.name)
                                            && forall j :: 0 <= j < i ==> !Reserved(config[j].name)
    ensures fresh(set t <- raw) && Distinct(raw)
  {
    raw := [];
    for i := 0 to |config|
      invariant forall j :: 0 <= j < i ==> !Reserved(config[j].name)
      invariant fresh(set t <- raw) && Distinct(raw)
      invariant |raw| == i && forall j :: 0 <= j < i ==> raw[j].Snapshot() == config[j]
    {
      if Reserved(config[i].name) {
        return ReservedName(config[i].name), raw;
      }
      var t := new TemplateString(config[i].name, config[i].value);
      assert t !in raw;
      raw := raw + [t];
    }
    r := Loaded(config);
  }

  ghost predicate Distinct(ts: seq<TemplateString>)
  {
    forall i, j :: 0 <= i < j < |ts| ==> ts[i] != ts[j]
  }

  /** What the inner loop makes of a value: replace the constants before
      position i, nearest first, each by its raw value. */
  function ResolveDown(value: string, raw: seq<Constant>, i: nat): string
    requires i <= |raw|
    decreases i
  {
    if i == 0 then value
    else ResolveDown(ReplaceAll(value, Reference(raw[i - 1].name), raw[i - 1].value), raw, i - 1)
  }

  /** The nested reverse loops of extract_constants. */
  method ResolveConstants(ts: seq<TemplateString>)
    requires Distinct(ts)
    modifies ts
    ensures forall i :: 0 <= i < |ts| ==>
              ts[i].value == ResolveDown(old(Constants(ts))[i].value, old(Constants(ts)), i)
  {
    hide ResolveDown, Constants;
    ghost var raw := Constants(ts);
    var a := |ts|;
    while a > 0
      invariant 0 <= a <= |ts|
      invariant forall i :: 0 <= i < a ==> ts[i].value == raw[i].value
      invariant forall i :: a <= i < |ts| ==> ts[i].value == ResolveDown(raw[i].value, raw, i)
    {
      a := a - 1;
      ResolveOne(ts, a, raw);
    }
  }

  /** The inner loop: everything before position a is still raw. */
  method ResolveOne(ts: seq<TemplateString>, a: nat, ghost raw: seq<Constant>)
    requires Distinct(ts) && a < |ts| == |raw|
    requires forall i :: 0 <= i <= a ==> ts[i].Snapshot() == raw[i]
    modifies ts[a]
    ensures ts[a].value == ResolveDown(raw[a].value, raw, a)
  {
    hide ReplaceAll;
    var b := a;
    while b > 0
      invariant 0 <= b <= a
      invariant ResolveDown(ts[a].value, raw, b) == ResolveDown(raw[a].value, raw, a)
    {
      b := b - 1;
      assert ts[b].Snapshot() == raw[b];
      ts[a].Resolve(ts[b]);
    }
  }

  /** Supervisor::extract_constants. */
  method ExtractConstants(config: seq<Constant>) returns (r: Extracted)
    ensures r.Loaded? <==> forall i :: 0 <= i < |config| ==>
              config[i].name != "DEVICE" && config[i].name != "DEVICE_NAME" && config[i].name != "HOSTNAME"
    ensures r.ReservedName? ==> r.name in ["DEVICE", "DEVICE_NAME", "HOSTNAME"]
    ensures r.Loaded? ==> |r.constants| == |config|
                          && forall i :: 0 <= i < |config| ==>
                               r.constants[i] == Constant(config[i].name, ResolveDown(config[i].value, config, i))
  {
    var raw;
    r, raw := ExtractRawConstants(config);
    if r.Loaded? {
      ResolveConstants(raw);
      r := Loaded(Constants(raw));
    }
  }
}

/** `AIConfigurationService`: an ordered list of language-model
    configurations, read from and written back to a JSON file. The file is
    an in-memory list here; `saves` counts the writes. Its mutators keep at
    most one configuration active. */
module AIConfigurationService {
  import opened Text

  /** An `AIConfiguration`; `temperature` is a `Double` in the source. */
  datatype AIConfiguration = AIConfiguration(
    id: Option<string>,
    model: Option<string>,
    systemPrompt: Option<string>,
    analysisPrompt: Option<string>,
    temperature: Option<real>,
    maxTokens: Option<int>,
    active: bool)

  /** No two configurations are active. */
  predicate AtMostOneActive(cs: seq<AIConfiguration>)
  {
    forall i, j :: 0 <= i < |cs| && 0 <= j < |cs| && cs[i].active && cs[j].active ==> i == j
  }

  /** The position of the first active configuration, or -1. */
  function ActiveIndex(cs: seq<AIConfiguration>): (k: int)
    ensures -1 <= k < |cs|
    ensures k >= 0 ==> cs[k].active
    ensures forall j :: 0 <= j < |cs| && (k == -1 || j < k) ==> !cs[j].active
  {
    if cs == [] then -1
    else if cs[0].active then 0
    else var k := ActiveIndex(cs[1..]); if k == -1 then -1 else k + 1
  }

  /** The position of the first configuration with the given id, or -1. */
  function IndexOfId(cs: seq<AIConfiguration>, id: string): (k: int)
    ensures -1 <= k < |cs|
    ensures k >= 0 ==> cs[k].id == Some(id)
    ensures forall j :: 0 <= j < |cs| && (k == -1 || j < k) ==> cs[j].id != Some(id)
  {
    if cs == [] then -1
    else if cs[0].id == Some(id) then 0
    else var k := IndexOfId(cs[1..], id); if k == -1 then -1 else k + 1
  }

  /** Every configuration with its flag cleared (`forEach(c ->
      c.setActive(false))`). */
  function Deactivated(cs: seq<AIConfiguration>): (r: seq<AIConfiguration>)
    ensures |r| == |cs|
    ensures forall k :: 0 <= k < |cs| ==> r[k] == cs[k].(active := false)
  {
    if cs == [] then [] else [cs[0].(active := false)] + Deactivated(cs[1..])
  }

  /** `removeIf(c -> c.getId().equals(id))`: the configurations with another
      id, in their order. */
  function WithoutId(cs: seq<AIConfiguration>, id: string): (r: seq<AIConfiguration>)
    ensures |r| <= |cs|
    ensures forall c :: c in r <==> c in cs && c.id != Some(id)
    ensures |r| == |cs| <==> IndexOfId(cs, id) == -1
  {
    if cs == [] then []
    else if cs[0].id == Some(id) then WithoutId(cs[1..], id)
    else [cs[0]] + WithoutId(cs[1..], id)
  }

  /** One step of the removal pass over the suffix from `i`. */
  lemma WithoutIdStep(cs: seq<AIConfiguration>, i: int, id: string)
    requires 0 <= i < |cs|
    ensures WithoutId(cs[i..], id)
         == (if cs[i].id == Some(id) then [] else [cs[i]]) + WithoutId(cs[i + 1..], id)
  {
    assert cs[i..][0] == cs[i] && cs[i..][1..] == cs[i + 1..];
  }

  /** When the pass has reached the end, the kept list is the result. */
  lemma WithoutIdDone(cs: seq<AIConfiguration>, kept: seq<AIConfiguration>, id: string, i: int)
    requires i == |cs| && WithoutId(cs, id) == kept + WithoutId(cs[i..], id)
    ensures kept == WithoutId(cs, id)
  {
    assert cs[i..] == [];
    assert kept + [] == kept;
  }

  /** Removing configurations keeps every remaining one's id. */
  lemma WithoutIdKeepsIds(cs: seq<AIConfiguration>, id: string)
    requires forall k :: 0 <= k < |cs| ==> cs[k].id.Some?
    ensures forall k :: 0 <= k < |WithoutId(cs, id)| ==> WithoutId(cs, id)[k].id.Some?
  {
    var r := WithoutId(cs, id);
    forall k | 0 <= k < |r| ensures r[k].id.Some? {
      assert r[k] in cs;
    }
  }

  /** Removing configurations never makes two of them active. */
  lemma {:induction false} WithoutIdKeepsAtMostOne(cs: seq<AIConfiguration>, id: string)
    requires AtMostOneActive(cs)
    ensures AtMostOneActive(WithoutId(cs, id))
    decreases |cs|
  {
    if cs != [] {
      var rest := cs[1..];
      assert AtMostOneActive(rest) by {
        forall i, j | 0 <= i < |rest| && 0 <= j < |rest| && rest[i].active && rest[j].active
          ensures i == j
        {
          assert cs[i + 1] == rest[i] && cs[j + 1] == rest[j];
        }
      }
      WithoutIdKeepsAtMostOne(rest, id);
      var r := WithoutId(cs, id);
      if cs[0].id != Some(id) && cs[0].active {
        forall c | c in WithoutId(rest, id)
          ensures !c.active
        {
          var j :| 0 <= j < |rest| && rest[j] == c;
          assert cs[j + 1] == c;
        }
        assert r == [cs[0]] + WithoutId(rest, id);
        forall i | 0 < i < |r|
          ensures !r[i].active
        {
          assert r[i] in WithoutId(rest, id);
        }
      }
    }
  }

  /** A position holding an active configuration with none before it is
      the first active position. */
  lemma ActiveIndexIs(cs: seq<AIConfiguration>, k: int)
    requires -1 <= k < |cs|
    requires k >= 0 ==> cs[k].active
    requires forall j :: 0 <= j < |cs| && (k == -1 || j < k) ==> !cs[j].active
    ensures ActiveIndex(cs) == k
  {
    var a := ActiveIndex(cs);
    if a >= 0 && k >= 0 {
      assert !(a < k) && !(k < a);
    }
  }

  /** Clearing every flag and then setting one leaves that configuration
      as the only active one. */
  lemma ActivateOnly(cs: seq<AIConfiguration>, k: int, c: AIConfiguration)
    requires 0 <= k < |cs| && c.active
    ensures var r := Deactivated(cs)[k := c];
      AtMostOneActive(r) && ActiveIndex(r) == k
  {
    var r := Deactivated(cs)[k := c];
    OnlyActiveAt(r, k);
  }

  /** A list whose only active configuration is at `k` keeps the invariant
      and has its first active one there. */
  lemma OnlyActiveAt(r: seq<AIConfiguration>, k: int)
    requires 0 <= k < |r| && r[k].active
    requires forall j :: 0 <= j < |r| && j != k ==> !r[j].active
    ensures AtMostOneActive(r) && ActiveIndex(r) == k
  {
    ActiveIndexIs(r, k);
  }

  /** Appending an active configuration after clearing the rest leaves the
      new one as the only active one; appending an inactive one keeps the
      invariant and the first active position. */
  lemma AppendKeepsAtMostOne(cs: seq<AIConfiguration>, c: AIConfiguration)
    ensures c.active ==> AtMostOneActive(Deactivated(cs) + [c]) && ActiveIndex(Deactivated(cs) + [c]) == |cs|
    ensures !c.active && AtMostOneActive(cs) ==> AtMostOneActive(cs + [c]) && ActiveIndex(cs + [c]) == ActiveIndex(cs)
  {
    if c.active {
      var r := Deactivated(cs) + [c];
      forall j | 0 <= j < |r| && j != |cs| ensures !r[j].active {
        assert r[j] == Deactivated(cs)[j];
      }
      OnlyActiveAt(r, |cs|);
    } else {
      var r := cs + [c];
      forall j | 0 <= j < |cs| ensures r[j] == cs[j] { }
      ActiveIndexIs(r, ActiveIndex(cs));
    }
  }

  class Store {
    var configs: seq<AIConfiguration>
    /** How many times the list has been written back. */
    var saves: nat

    /** Every stored configuration has an id (`createConfiguration` gives one
        to each configuration it adds). */
    ghost predicate Valid()
      reads this
    {
      forall k :: 0 <= k < |configs| ==> configs[k].id.Some?
    }

    constructor (initial: seq<AIConfiguration>)
      requires forall k :: 0 <= k < |initial| ==> initial[k].id.Some?
      ensures Valid() && configs == initial && saves == 0
    {
      configs := initial;
      saves := 0;
    }

    /** `getActiveConfiguration`: the first active configuration in list
        order, if any. */
    method GetActiveConfiguration() returns (r: Option<AIConfiguration>)
      ensures r.Some? <==> exists k :: 0 <= k < |configs| && configs[k].active
      ensures r.Some? ==> r.value.active && r == Some(configs[ActiveIndex(configs)])
    {
      var i := 0;
      while i < |configs|
        invariant 0 <= i <= |configs|
        invariant forall j :: 0 <= j < i ==> !configs[j].active
      {
        if configs[i].active {
          return Some(configs[i]);
        }
        i := i + 1;
      }
      return None;
    }

    /** `forEach(c -> c.setActive(false))` on the stored list. */
    method DeactivateAll()
      modifies this
      ensures configs == Deactivated(old(configs)) && saves == old(saves)
    {
      var i := 0;
      while i < |configs|
        invariant 0 <= i <= |configs| && |configs| == |old(configs)|
        invariant forall j :: 0 <= j < i ==> configs[j] == old(configs[j]).(active := false)
        invariant forall j :: i <= j < |configs| ==> configs[j] == old(configs[j])
        invariant saves == old(saves)
      {
        configs := configs[i := configs[i].(active := false)];
        i := i + 1;
      }
    }

    /** `createConfiguration`: give the configuration an id when it has none
        (`freshId` stands for the random UUID), clear every other flag when
        it is active, append it and write the list. */
    method CreateConfiguration(config: AIConfiguration, freshId: string) returns (r: AIConfiguration)
      requires Valid()
      modifies this
      ensures Valid()
      ensures r == if config.id.None? then config.(id := Some(freshId)) else config
      ensures configs == (if config.active then Deactivated(old(configs)) else old(configs)) + [r]
      ensures config.active ==> AtMostOneActive(configs) && ActiveIndex(configs) == |old(configs)|
      ensures !config.active && AtMostOneActive(old(configs)) ==> AtMostOneActive(configs)
      ensures saves == old(saves) + 1
    {
      r := config;
      if r.id.None? {
        r := r.(id := Some(freshId));
      }
      if r.active {
        DeactivateAll();
      }
      AppendKeepsAtMostOne(old(configs), r);
      configs := configs + [r];
      saves := saves + 1;
    }

    /** `updateConfiguration`: on the first configuration with the id, copy
        model, prompts, temperature and token limit from `updated`, then set
        its flag from `updated` (clearing every other flag first when it is
        set). An unknown id changes and writes nothing. */
    method UpdateConfiguration(id: string, updated: AIConfiguration) returns (r: Option<AIConfiguration>)
      requires Valid()
      modifies this
      ensures Valid()
      ensures var k := IndexOfId(old(configs), id);
        && (r.None? <==> k == -1)
        && (k == -1 ==> configs == old(configs) && saves == old(saves))
        && (k >= 0 ==>
            && saves == old(saves) + 1
            && configs == (if updated.active then Deactivated(old(configs)) else old(configs))[k :=
                 old(configs[k]).(model := updated.model, systemPrompt := updated.systemPrompt,
                                  analysisPrompt := updated.analysisPrompt, temperature := updated.temperature,
                                  maxTokens := updated.maxTokens, active := updated.active)]
            && r == Some(configs[k]))
      ensures updated.active && r.Some? ==> AtMostOneActive(configs) && ActiveIndex(configs) == IndexOfId(old(configs), id)
      ensures AtMostOneActive(old(configs)) ==> AtMostOneActive(configs)
    {
      var k := FindId(id);
      if k < 0 {
        return None;
      }
      var edited := configs[k].(model := updated.model, systemPrompt := updated.systemPrompt,
                                analysisPrompt := updated.analysisPrompt, temperature := updated.temperature,
                                maxTokens := updated.maxTokens);
      if updated.active {
        DeactivateAll();
        edited := edited.(active := true);
        ActivateOnly(old(configs), k, edited);
      } else {
        edited := edited.(active := false);
      }
      configs := configs[k := edited];
      saves := saves + 1;
      r := Some(configs[k]);
    }

    /** `deleteConfiguration`: remove every configuration with the id, keep
        the order of the rest, and write the list only if something was
        removed. */
    method DeleteConfiguration(id: string) returns (removed: bool)
      requires Valid()
      modifies this
      ensures Valid()
      ensures removed <==> IndexOfId(old(configs), id) >= 0
      ensures configs == WithoutId(old(configs), id)
      ensures saves == if removed then old(saves) + 1 else old(saves)
      ensures AtMostOneActive(old(configs)) ==> AtMostOneActive(configs)
    {
      var cs := configs;
      var kept: seq<AIConfiguration> := [];
      var i := 0;
      while i < |cs|
        invariant 0 <= i <= |cs|
        invariant WithoutId(cs, id) == kept + WithoutId(cs[i..], id)
        invariant unchanged(this)
      {
        WithoutIdStep(cs, i, id);
        if cs[i].id != Some(id) {
          Regroup(kept, [cs[i]], WithoutId(cs[i + 1..], id));
          kept := kept + [cs[i]];
        }
        i := i + 1;
      }
      WithoutIdDone(cs, kept, id, i);
      removed := |kept| < |cs|;
      if AtMostOneActive(cs) {
        WithoutIdKeepsAtMostOne(cs, id);
      }
      WithoutIdKeepsIds(cs, id);
      configs := kept;
      if removed {
        saves := saves + 1;
      }
    }

    /** `setActiveConfiguration`: on a known id, clear every flag, set the
        first match's and write the list; on an unknown id change nothing. */
    method SetActiveConfiguration(id: string) returns (ok: bool)
      requires Valid()
      modifies this
      ensures Valid()
      ensures var k := IndexOfId(old(configs), id);
        && (ok <==> k >= 0)
        && (!ok ==> configs == old(configs) && saves == old(saves))
        && (ok ==> configs == Deactivated(old(configs))[k := old(configs[k]).(active := true)]
                   && saves == old(saves) + 1)
      ensures ok ==> AtMostOneActive(configs) && ActiveIndex(configs) == IndexOfId(old(configs), id)
    {
      var k := FindId(id);
      if k < 0 {
        return false;
      }
      DeactivateAll();
      ActivateOnly(old(configs), k, old(configs[k]).(active := true));
      configs := configs[k := configs[k].(active := true)];
      saves := saves + 1;
      return true;
    }

    /** `stream().filter(c -> c.getId().equals(id)).findFirst()`. */
    method FindId(id: string) returns (k: int)
      ensures k == IndexOfId(configs, id)
    {
      k := 0;
      while k < |configs|
        invariant 0 <= k <= |configs|
        invariant forall j :: 0 <= j < k ==> configs[j].id != Some(id)
      {
        if configs[k].id == Some(id) {
          return;
        }
        k := k + 1;
      }
      k := -1;
    }
  }
}

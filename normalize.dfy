/** The schema normalizer: copies of the caller's command and flag schemas
    whose keys, `commands` entries and `alias` targets are lower-cased, so
    that every later lookup with a lower-cased token is case-insensitive.
    Patterns are passed through untouched. */
module Normalize {
  import opened Config
  import opened Strings

  /** No two keys lower-case to the same string. The source defines each
      lower-cased key as a non-configurable property, so a second key with
      the same lower-cased form would make it throw a `TypeError`; that case
      is excluded rather than modelled. */
  predicate LowerInjective(keys: set<string>)
  {
    forall a, b :: a in keys && b in keys && Lower(a) == Lower(b) ==> a == b
  }

  /** The command schema with lower-cased keys and the same slot lists. */
  function LowerCommands(data: CommandSchema): (r: CommandSchema)
    requires LowerInjective(data.Keys)
    ensures forall k :: k in data ==> Lower(k) in r && r[Lower(k)] == data[k]
    ensures forall k' :: k' in r ==> exists k :: k in data && Lower(k) == k'
  {
    map k | k in data :: Lower(k) := data[k]
  }

  /** One flag entry with its `commands` and a non-empty `alias` lower-cased. */
  function LowerFlagSpec(spec: FlagSpec): FlagSpec
  {
    FlagSpec(
      if spec.commands.Some? then Some(LowerAll(spec.commands.value)) else None,
      spec.arg,
      if HasAlias(spec) then Some(Lower(spec.alias.value)) else spec.alias)
  }

  /** The flag schema with lower-cased keys and lower-cased entries. */
  function LowerFlags(data: FlagSchema): (r: FlagSchema)
    requires LowerInjective(data.Keys)
    ensures forall k :: k in data ==> Lower(k) in r && r[Lower(k)] == LowerFlagSpec(data[k])
    ensures forall k' :: k' in r ==> exists k :: k in data && Lower(k) == k'
  {
    map k | k in data :: Lower(k) := LowerFlagSpec(data[k])
  }

  /** `lowerCaseCommandData`: defines one lower-cased key per source key. */
  method LowerCaseCommandData(data: CommandSchema) returns (commandData: CommandSchema)
    requires LowerInjective(data.Keys)
    ensures commandData == LowerCommands(data)
  {
    commandData := map[];
    var keys := data.Keys;
    assert LowerCommands(data - keys) == map[];
    while keys != {}
      invariant keys <= data.Keys
      invariant commandData == LowerCommands(data - keys)
      decreases keys
    {
      var key :| key in keys;
      LowerCommandsAdd(data, keys, key);
      commandData := commandData[Lower(key) := data[key]];
      keys := keys - {key};
    }
    assert data - keys == data;
  }

  /** `lowerCaseFlagData`: copies each entry, lower-cases its `commands` and
      `alias`, and defines it under the lower-cased key. */
  method LowerCaseFlagData(data: FlagSchema) returns (flagData: FlagSchema)
    requires LowerInjective(data.Keys)
    ensures flagData == LowerFlags(data)
  {
    flagData := map[];
    var keys := data.Keys;
    assert LowerFlags(data - keys) == map[];
    while keys != {}
      invariant keys <= data.Keys
      invariant flagData == LowerFlags(data - keys)
      decreases keys
    {
      var key :| key in keys;
      var valueObject := data[key];
      if valueObject.commands.Some? {
        valueObject := valueObject.(commands := Some(LowerAll(valueObject.commands.value)));
      }
      if HasAlias(valueObject) {
        valueObject := valueObject.(alias := Some(Lower(valueObject.alias.value)));
      }
      assert valueObject == LowerFlagSpec(data[key]);
      LowerFlagsAdd(data, keys, key);
      flagData := flagData[Lower(key) := valueObject];
      keys := keys - {key};
    }
    assert data - keys == data;
  }

  /** Normalizing one more key adds exactly its lower-cased entry. */
  lemma LowerCommandsAdd(data: CommandSchema, keys: set<string>, key: string)
    requires LowerInjective(data.Keys) && keys <= data.Keys && key in keys
    ensures LowerCommands(data - (keys - {key})) == LowerCommands(data - keys)[Lower(key) := data[key]]
  {
    var d := data - (keys - {key});
    var n := LowerCommands(data - keys)[Lower(key) := data[key]];
    LowerCommandsAddEntries(data, keys, key);
    LowerCommandsAddKeys(data, keys, key);
    MapsAgree(LowerCommands(d), n, d);
  }

  lemma LowerCommandsAddEntries(data: CommandSchema, keys: set<string>, key: string)
    requires LowerInjective(data.Keys) && keys <= data.Keys && key in keys
    ensures var n := LowerCommands(data - keys)[Lower(key) := data[key]];
      forall k :: k in data - (keys - {key}) ==> Lower(k) in n && n[Lower(k)] == data[k]
  {
    var n := LowerCommands(data - keys)[Lower(key) := data[key]];
    forall k | k in data - (keys - {key})
      ensures Lower(k) in n && n[Lower(k)] == data[k]
    {
      if k != key {
        assert k in data - keys && Lower(k) != Lower(key);
      }
    }
  }

  lemma LowerCommandsAddKeys(data: CommandSchema, keys: set<string>, key: string)
    requires LowerInjective(data.Keys) && keys <= data.Keys && key in keys
    ensures var n := LowerCommands(data - keys)[Lower(key) := data[key]];
      forall k' :: k' in n ==> exists k :: k in data - (keys - {key}) && Lower(k) == k'
  {
    var n := LowerCommands(data - keys)[Lower(key) := data[key]];
    forall k' | k' in n
      ensures exists k :: k in data - (keys - {key}) && Lower(k) == k'
    {
      if k' != Lower(key) {
        var k :| k in data - keys && Lower(k) == k';
        assert k in data - (keys - {key});
      }
    }
  }

  lemma LowerFlagsAdd(data: FlagSchema, keys: set<string>, key: string)
    requires LowerInjective(data.Keys) && keys <= data.Keys && key in keys
    ensures LowerFlags(data - (keys - {key})) == LowerFlags(data - keys)[Lower(key) := LowerFlagSpec(data[key])]
  {
    var d := data - (keys - {key});
    var n := LowerFlags(data - keys)[Lower(key) := LowerFlagSpec(data[key])];
    LowerFlagsAddEntries(data, keys, key);
    LowerFlagsAddKeys(data, keys, key);
    MapsAgree(LowerFlags(d), n, d);
  }

  lemma LowerFlagsAddEntries(data: FlagSchema, keys: set<string>, key: string)
    requires LowerInjective(data.Keys) && keys <= data.Keys && key in keys
    ensures var n := LowerFlags(data - keys)[Lower(key) := LowerFlagSpec(data[key])];
      forall k :: k in data - (keys - {key}) ==> Lower(k) in n && n[Lower(k)] == LowerFlagSpec(data[k])
  {
    var n := LowerFlags(data - keys)[Lower(key) := LowerFlagSpec(data[key])];
    forall k | k in data - (keys - {key})
      ensures Lower(k) in n && n[Lower(k)] == LowerFlagSpec(data[k])
    {
      if k != key {
        assert k in data - keys && Lower(k) != Lower(key);
      }
    }
  }

  lemma LowerFlagsAddKeys(data: FlagSchema, keys: set<string>, key: string)
    requires LowerInjective(data.Keys) && keys <= data.Keys && key in keys
    ensures var n := LowerFlags(data - keys)[Lower(key) := LowerFlagSpec(data[key])];
      forall k' :: k' in n ==> exists k :: k in data - (keys - {key}) && Lower(k) == k'
  {
    var n := LowerFlags(data - keys)[Lower(key) := LowerFlagSpec(data[key])];
    forall k' | k' in n
      ensures exists k :: k in data - (keys - {key}) && Lower(k) == k'
    {
      if k' != Lower(key) {
        var k :| k in data - keys && Lower(k) == k';
        assert k in data - (keys - {key});
      }
    }
  }

  /** Two maps that both hold exactly the lower-cased keys of `data`, and
      agree on every one of them, are equal. */
  lemma MapsAgree<V, W>(m: map<string, W>, n: map<string, W>, data: map<string, V>)
    requires forall k :: k in data ==> Lower(k) in m && Lower(k) in n && m[Lower(k)] == n[Lower(k)]
    requires forall k' :: k' in m ==> exists k :: k in data && Lower(k) == k'
    requires forall k' :: k' in n ==> exists k :: k in data && Lower(k) == k'
    ensures m == n
  {
    assert m.Keys == n.Keys;
  }

  /** Normalizing an already normalized command schema changes nothing:
      its keys are distinct when lower-cased and keep their slot lists. */
  lemma {:induction false} LowerCommandsIdempotent(data: CommandSchema)
    requires LowerInjective(data.Keys)
    ensures LowerInjective(LowerCommands(data).Keys)
    ensures LowerCommands(LowerCommands(data)) == LowerCommands(data)
  {
    var once := LowerCommands(data);
    forall k' | k' in once
      ensures Lower(k') == k'
    {
      var k :| k in data && Lower(k) == k';
      LowerIdempotent(k);
    }
    MapsAgree(LowerCommands(once), once, once);
  }

  lemma LowerFlagSpecIdempotent(spec: FlagSpec)
    ensures LowerFlagSpec(LowerFlagSpec(spec)) == LowerFlagSpec(spec)
  {
    if spec.commands.Some? {
      var c := spec.commands.value;
      forall i | 0 <= i < |c|
        ensures LowerAll(LowerAll(c))[i] == LowerAll(c)[i]
      {
        LowerIdempotent(c[i]);
      }
      assert LowerAll(LowerAll(c)) == LowerAll(c);
    }
    if HasAlias(spec) {
      LowerIdempotent(spec.alias.value);
      assert HasAlias(LowerFlagSpec(spec));
    } else {
      assert !HasAlias(LowerFlagSpec(spec));
    }
  }

  /** Normalizing an already normalized flag schema changes nothing. */
  lemma {:induction false} LowerFlagsIdempotent(data: FlagSchema)
    requires LowerInjective(data.Keys)
    ensures LowerInjective(LowerFlags(data).Keys)
    ensures LowerFlags(LowerFlags(data)) == LowerFlags(data)
  {
    var once := LowerFlags(data);
    forall k' | k' in once
      ensures Lower(k') == k' && LowerFlagSpec(once[k']) == once[k']
    {
      var k :| k in data && Lower(k) == k';
      LowerIdempotent(k);
      LowerFlagSpecIdempotent(data[k]);
    }
    MapsAgree(LowerFlags(once), once, once);
  }
}

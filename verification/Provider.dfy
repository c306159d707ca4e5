/** Apache's provider registry (apache/src/server/provider.c): two nested hash tables, one from group,
    name and version to providers, one from group, version and name to names. */
module Provider {
  import opened Basics

  type Hash<V> = map<string, V>
  type Nested<V> = Hash<Hash<Hash<V>>>

  /** `apr_hash_get`; NULL is None. */
  function Get<V>(h: Hash<V>, key: string): Option<V> {
    if key in h then Some(h[key]) else None
  }

  /** `apr_hash_set`; setting NULL removes the key. */
  function Set<V>(h: Hash<V>, key: string, value: Option<V>): Hash<V> {
    match value
    case Some(v) => h[key := v]
    case None => h - {key}
  }

  function Sub<V>(h: Hash<Hash<V>>, key: string): Hash<V> {
    match Get(h, key) case Some(sub) => sub case None => map[]
  }

  function Lookup3<V>(t: Nested<V>, a: string, b: string, c: string): Option<V> {
    match Get(t, a)
    case None => None
    case Some(h) => match Get(h, b)
      case None => None
      case Some(k) => Get(k, c)
  }

  // ---------------------------------------------------------------- registrations and what they mean

  /** A NULL provider is None. */
  datatype Registration<P> = Registration(group: string, name: string, version: string, provider: Option<P>)

  /** The last registration of a triple: None if never registered. */
  function Last<P>(log: seq<Registration<P>>, group: string, name: string, version: string): Option<Option<P>> {
    if log == [] then None
    else
      var r := log[|log| - 1];
      if r.group == group && r.name == name && r.version == version then Some(r.provider)
      else Last(log[..|log| - 1], group, name, version)
  }

  ghost predicate ProvidersAgree<P(!new)>(providers: Nested<P>, log: seq<Registration<P>>) {
    forall g, n, v :: Lookup3(providers, g, n, v)
                      == match Last(log, g, n, v) case None => None case Some(p) => p
  }

  ghost predicate NamesAgree<P(!new)>(names: Nested<string>, log: seq<Registration<P>>) {
    forall g, v, n :: Lookup3(names, g, v, n) == if Last(log, g, n, v).Some? then Some(n) else None
  }

  lemma LastMore<P>(log: seq<Registration<P>>, r: Registration<P>, g: string, n: string, v: string)
    ensures Last(log + [r], g, n, v)
            == if r.group == g && r.name == n && r.version == v then Some(r.provider) else Last(log, g, n, v)
  {
    assert (log + [r])[..|log|] == log;
  }

  /** Storing a value under three keys, creating the inner tables on the way. */
  function Store3<V>(t: Nested<V>, a: string, b: string, c: string, value: Option<V>): Nested<V> {
    t[a := Sub(t, a)[b := Set(Sub(Sub(t, a), b), c, value)]]
  }

  /** A store changes what is found under its own keys and nothing else. */
  lemma StoreThenLookup<V>(t: Nested<V>, a: string, b: string, c: string, value: Option<V>,
                           x: string, y: string, z: string)
    ensures Lookup3(Store3(t, a, b, c, value), x, y, z)
            == if x == a && y == b && z == c then value else Lookup3(t, x, y, z)
  {
  }

  /** A registry with NULL-free last registrations lists exactly what it can look up; a triple whose last
      registration was NULL is listed but not found, and that is the only disagreement. */
  lemma ListedIffFound<P(!new)>(providers: Nested<P>, names: Nested<string>, log: seq<Registration<P>>)
    requires ProvidersAgree(providers, log) && NamesAgree(names, log)
    ensures ListsWhatItFinds(providers, names) <==> NeverLastNull(log)
  {
    forall g, n, v
      ensures Consistent(providers, names, g, n, v) <==> Last(log, g, n, v) != Some(None)
    {
      assert Lookup3(providers, g, n, v) == match Last(log, g, n, v) case None => None case Some(p) => p;
      assert Lookup3(names, g, v, n) == if Last(log, g, n, v).Some? then Some(n) else None;
    }
  }

  predicate Consistent<P>(providers: Nested<P>, names: Nested<string>, g: string, n: string, v: string) {
    Lookup3(names, g, v, n).Some? <==> Lookup3(providers, g, n, v).Some?
  }

  ghost predicate ListsWhatItFinds<P(!new)>(providers: Nested<P>, names: Nested<string>) {
    forall g, n, v :: Consistent(providers, names, g, n, v)
  }

  ghost predicate NeverLastNull<P(!new)>(log: seq<Registration<P>>) {
    forall g, n, v :: Last(log, g, n, v) != Some(None)
  }

  // ---------------------------------------------------------------- the registry

  class Registry<P(!new)> {
    var globalProviders: Option<Nested<P>>
    var globalProvidersNames: Option<Nested<string>>
    ghost var log: seq<Registration<P>>  // since the tables were last made

    ghost predicate Valid()
      reads this
    {
      && (globalProviders.None? <==> globalProvidersNames.None?)
      && (globalProviders.None? ==> log == [])
      && (globalProviders.Some? ==>
            ProvidersAgree(globalProviders.value, log) && NamesAgree(globalProvidersNames.value, log))
    }

    constructor ()
      ensures Valid() && log == []
    {
      globalProviders, globalProvidersNames, log := None, None, [];
    }

    /** The pool cleanup forgets both tables. */
    method Cleanup()
      modifies this
      ensures Valid() && log == []
    {
      globalProviders, globalProvidersNames, log := None, None, [];
    }

    method Register(group: string, name: string, version: string, provider: Option<P>)
      requires Valid()
      modifies this
      ensures Valid() && log == old(log) + [Registration(group, name, version, provider)]
    {
      if globalProviders.None? {
        globalProviders, globalProvidersNames := Some(map[]), Some(map[]);
      }
      ghost var providers, names := globalProviders.value, globalProvidersNames.value;

      var groupHash := Sub(globalProviders.value, group);
      var versionHash := Set(Sub(groupHash, name), version, provider);
      groupHash := groupHash[name := versionHash];
      globalProviders := Some(globalProviders.value[group := groupHash]);

      var namesGroupHash := Sub(globalProvidersNames.value, group);
      var namesVersionHash := Set(Sub(namesGroupHash, version), name, Some(name));
      namesGroupHash := namesGroupHash[version := namesVersionHash];
      globalProvidersNames := Some(globalProvidersNames.value[group := namesGroupHash]);

      ghost var r := Registration(group, name, version, provider);
      assert ProvidersAgree(providers, log) && NamesAgree(names, log);
      RegisterAgrees(providers, names, log, r);
      log := log + [r];
    }

    /** The last provider registered for the triple; NULL if that was NULL or there is none. */
    method LookupProvider(group: string, name: string, version: string) returns (provider: Option<P>)
      requires Valid()
      ensures provider == match Last(log, group, name, version) case None => None case Some(p) => p
    {
      if globalProviders.None? {
        return None;
      }
      var groupHash := Get(globalProviders.value, group);
      if groupHash.None? {
        return None;
      }
      var nameHash := Get(groupHash.value, name);
      if nameHash.None? {
        return None;
      }
      provider := Get(nameHash.value, version);
      assert provider == Lookup3(globalProviders.value, group, name, version);
    }

    /** Every name ever registered for the group and version, each once. */
    method ListProviderNames(group: string, version: string) returns (names: seq<string>)
      requires Valid()
      ensures forall n :: n in names <==> Last(log, group, n, version).Some?
      ensures forall i, j :: 0 <= i < j < |names| ==> names[i] != names[j]
    {
      names := [];
      if globalProvidersNames.None? {
        return;
      }
      ghost var table := globalProvidersNames.value;
      assert forall n :: Lookup3(table, group, version, n).Some? <==> Last(log, group, n, version).Some?;
      var groupHash := Get(globalProvidersNames.value, group);
      if groupHash.None? {
        return;
      }
      var h := Get(groupHash.value, version);
      if h.None? {
        return;
      }
      assert forall n :: n in h.value ==> Lookup3(table, group, version, n) == Some(h.value[n]) == Some(n);
      var left := h.value.Keys;
      while left != {}
        invariant left <= h.value.Keys
        invariant forall n :: n in names <==> n in h.value.Keys - left
        invariant forall i, j :: 0 <= i < j < |names| ==> names[i] != names[j]
        decreases left
      {
        var key :| key in left;
        var val := h.value[key];
        assert val == key && key !in names;
        names := names + [val];
        left := left - {key};
      }
    }
  }

  /** Both tables agree with the longer log after one registration. */
  lemma RegisterAgrees<P(!new)>(providers: Nested<P>, names: Nested<string>, log: seq<Registration<P>>,
                                r: Registration<P>)
    requires ProvidersAgree(providers, log) && NamesAgree(names, log)
    ensures ProvidersAgree(Store3(providers, r.group, r.name, r.version, r.provider), log + [r])
    ensures NamesAgree(Store3(names, r.group, r.version, r.name, Some(r.name)), log + [r])
  {
    forall g, n, v
      ensures Lookup3(Store3(providers, r.group, r.name, r.version, r.provider), g, n, v)
              == match Last(log + [r], g, n, v) case None => None case Some(p) => p
      ensures Lookup3(Store3(names, r.group, r.version, r.name, Some(r.name)), g, v, n)
              == if Last(log + [r], g, n, v).Some? then Some(n) else None
    {
      LastMore(log, r, g, n, v);
      StoreThenLookup(providers, r.group, r.name, r.version, r.provider, g, n, v);
      StoreThenLookup(names, r.group, r.version, r.name, Some(r.name), g, v, n);
    }
  }

  /** A registry in which one NULL was registered: the name is listed and the lookup finds nothing. */
  method NullIsListed() returns (names: seq<string>, provider: Option<int>)
    ensures names == ["name"] && provider == None
  {
    var registry := new Registry<int>();
    registry.Register("group", "name", "0", None);
    assert registry.log == [Registration("group", "name", "0", None)];
    assert forall g, n, v :: Last(registry.log, g, n, v).Some? <==> g == "group" && n == "name" && v == "0";
    names := registry.ListProviderNames("group", "0");
    provider := registry.LookupProvider("group", "name", "0");
    OnlyName(names, "name");
  }

  lemma OnlyName(names: seq<string>, name: string)
    requires forall n :: n in names <==> n == name
    requires forall i, j :: 0 <= i < j < |names| ==> names[i] != names[j]
    ensures names == [name]
  {
    assert name in names;
    forall j | 0 <= j < |names| ensures j == 0 && names[j] == name {
      assert names[j] in names && names[0] in names;
    }
    var last := |names| - 1;
    assert names[last] == name;
  }
}

/** Loading all configured zones (`load_zones` in `src/main.rs`). */
module ZoneLoading {
  import opened Wrappers
  import opened Names
  import Records
  import opened FlatZones
  import opened ZoneIndex
  import opened NameText
  import opened ZoneParser
  import ZoneFiles
  import opened Text
  import opened ZonePreprocessor

  /** A configured zone and what reading its file yields; unreadable files yield nothing. */
  datatype ZoneConfig = ZoneConfig(name: string, content: Option<string>)

  function Denotes(c: ZoneConfig, arms: Arms): Result<FlatZone> {
    FileDenotes(c.content, c.name, arms)
  }

  /** The store that a configuration denotes. */
  function LoadedStore(configs: seq<ZoneConfig>, arms: Arms): Result<FlatStore> {
    if configs == [] then Ok(map[])
    else
      match LoadedStore(configs[..|configs| - 1], arms)
      case Err => Err
      case Ok(before) =>
        match Denotes(configs[|configs| - 1], arms)
        case Err => Err
        case Ok(z) => Ok(before[z.origin := z])
  }

  method LoadZones(configs: seq<ZoneConfig>, arms: Arms) returns (r: Result<ZoneStore>)
    ensures r.Ok? <==> LoadedStore(configs, arms).Ok?
    ensures r.Ok? ==> fresh(r.value) && r.value.Valid()
    ensures r.Ok? ==> Ok(r.value.Flat()) == LoadedStore(configs, arms)
  {
    var store := new ZoneStore();
    for i := 0 to |configs|
      invariant fresh(store) && store.Valid()
      invariant LoadedStore(configs[..i], arms) == Ok(store.Flat())
    {
      LoadedStoreSnoc(configs, i, arms);
      var ok := LoadZone(store, configs[i], arms);
      if !ok {
        FailureStays(configs, i + 1, arms);
        return Err;
      }
    }
    assert configs[..|configs|] == configs;
    return Ok(store);
  }

  /** The body of the loop. */
  method LoadZone(store: ZoneStore, config: ZoneConfig, arms: Arms) returns (ok: bool)
    requires store.Valid()
    modifies store
    ensures store.Valid()
    ensures ok <==> Denotes(config, arms).Ok?
    ensures ok ==> store.Flat() == old(store.Flat())[Denotes(config, arms).value.origin := Denotes(config, arms).value]
  {
    var zone := ParseZoneFile(config.content, config.name, arms);
    if zone.Err? {
      return false;
    }
    store.AddZone(zone.value);
    return true;
  }

  lemma LoadedStoreSnoc(configs: seq<ZoneConfig>, i: nat, arms: Arms)
    requires i < |configs| && LoadedStore(configs[..i], arms).Ok?
    ensures LoadedStore(configs[..i + 1], arms) ==
            match Denotes(configs[i], arms)
            case Err => Err
            case Ok(z) => Ok(LoadedStore(configs[..i], arms).value[z.origin := z])
  {
    assert configs[..i + 1][..i] == configs[..i];
  }

  lemma {:induction false} FailureStays(configs: seq<ZoneConfig>, i: nat, arms: Arms)
    requires i <= |configs| && LoadedStore(configs[..i], arms).Err?
    ensures LoadedStore(configs, arms).Err?
    decreases |configs|
  {
    if i == |configs| {
      assert configs[..i] == configs;
    } else {
      var init := configs[..|configs| - 1];
      assert init[..i] == configs[..i];
      FailureStays(init, i, arms);
    }
  }

  /** The last zone configured for an origin. */
  function LastFor(configs: seq<ZoneConfig>, origin: Name, arms: Arms): Option<FlatZone> {
    if configs == [] then None
    else
      var z := Denotes(configs[|configs| - 1], arms);
      if z.Ok? && z.value.origin == origin then Some(z.value)
      else LastFor(configs[..|configs| - 1], origin, arms)
  }

  /** All or nothing: a store is produced exactly when every file denotes a zone, and it then
    * holds, for each origin, the last zone configured for it. */
  lemma {:induction false} AllOrNothing(configs: seq<ZoneConfig>, arms: Arms)
    ensures LoadedStore(configs, arms).Ok? <==> forall c :: c in configs ==> Denotes(c, arms).Ok?
    ensures LoadedStore(configs, arms).Ok? ==>
              forall o :: LastFor(configs, o, arms) ==
                          if o in LoadedStore(configs, arms).value
                          then Some(LoadedStore(configs, arms).value[o]) else None
  {
    if configs != [] {
      AllOrNothing(configs[..|configs| - 1], arms);
      assert configs == configs[..|configs| - 1] + [configs[|configs| - 1]];
    }
  }

  ghost predicate Configured(configs: seq<ZoneConfig>, origin: Name) {
    exists i :: 0 <= i < |configs| && ParseName(configs[i].name) == Some(origin)
  }

  /** Every zone of a loaded store is filed under its own, configured origin. */
  lemma {:induction false} OriginsConfigured(configs: seq<ZoneConfig>, arms: Arms)
    requires LoadedStore(configs, arms).Ok?
    ensures var store := LoadedStore(configs, arms).value;
            forall o :: o in store ==> store[o].origin == o && Configured(configs, o)
  {
    if configs != [] {
      var init, last := configs[..|configs| - 1], configs[|configs| - 1];
      OriginsConfigured(init, arms);
      OriginOfFile(last, arms);
      forall o | Configured(init, o) ensures Configured(configs, o) {
        var i :| 0 <= i < |init| && ParseName(init[i].name) == Some(o);
        assert configs[i] == init[i];
      }
    }
  }

  lemma OriginOfFile(c: ZoneConfig, arms: Arms)
    requires Denotes(c, arms).Ok?
    ensures ParseName(c.name) == Some(Denotes(c, arms).value.origin)
  {
    var origin := ParseName(c.name).value;
    var lines := Processed(Lines(c.content.value));
    ZoneFiles.ZoneIsFromSoa(lines, origin, arms);
    FromSoaOrigin(ZoneFiles.ParseAll(lines, origin, arms).value.records, origin);
  }

  lemma {:induction false} FromSoaOrigin(records: seq<Records.Record>, origin: Name)
    ensures ZoneFiles.FromSoa(records, origin).Some? ==> ZoneFiles.FromSoa(records, origin).value.origin == origin
  {
    if records != [] {
      FromSoaOrigin(records[1..], origin);
    }
  }
}

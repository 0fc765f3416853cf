/** `ProfileLoader` (aicoder/profiles.py): two YAML files of named profiles,
    one per profile type, and a file of model aliases; `get_profile` hands
    out a copy of one profile with its model alias resolved. */
module Profiles {
  import opened Wrappers
  import opened PyStr

  datatype ProfileType = Commenter | Analyzer

  /** A value as `yaml.safe_load` produces it (mapping keys taken as
      strings, floats and dates not modelled). */
  datatype Value =
    | Null
    | Bool(b: bool)
    | Int(n: int)
    | Str(s: String)
    | Dict(entries: map<String, Value>)
    | List(items: seq<Value>)

  /** Python truthiness: `None`, `False`, `0` and empty containers are false. */
  predicate Truthy(v: Value) {
    match v
    case Null => false
    case Bool(b) => b
    case Int(n) => n != 0
    case Str(s) => s != []
    case Dict(m) => m != map[]
    case List(xs) => xs != []
  }

  /** Whether `v` may be looked up as a dictionary key (`dict` and `list`
      objects raise `TypeError`). */
  predicate Hashable(v: Value) {
    !v.Dict? && !v.List?
  }

  /** What reading a configuration file gave: it was absent, `open` or the
      YAML parser raised, or it parsed to a value. */
  datatype YamlFile = Missing | Unreadable | Parsed(data: Value)

  type Profile = map<String, Value>

  /** The exceptions `get_profile` lets escape. */
  datatype ProfileError =
    | NoCopy       // a truthy profile that is not a dict has no usable `.copy()`/`.get()`
    | Unhashable   // the model is a dict or list, so `in self.model_aliases` raises
    | NotIterable  // the model is a number or boolean, so `"/" in model_alias` raises

  /** `_load_model_aliases`: the parsed mapping, or `{}` when the file is
      missing, unreadable or not a mapping. */
  function AliasesTable(file: YamlFile): (r: map<String, Value>)
    ensures r != map[] ==> file == Parsed(Dict(r))
    ensures file.Parsed? && file.data.Dict? ==> r == file.data.entries
  {
    match file
    case Parsed(Dict(m)) => m
    case _ => map[]
  }

  /** The table `_load_profiles` stores for one type: the mapping under the
      top-level `profiles` key, or `{}` for every other outcome (a list or
      string at the top level fails the membership test or the subscript,
      and the exception is caught). */
  function ProfilesTable(file: YamlFile): (r: map<String, Value>)
    ensures r != map[] ==>
      file.Parsed? && file.data.Dict? && "profiles" in file.data.entries &&
      file.data.entries["profiles"] == Dict(r)
    ensures (file.Parsed? && file.data.Dict? && "profiles" in file.data.entries &&
             file.data.entries["profiles"].Dict?) ==> r == file.data.entries["profiles"].entries
  {
    match file
    case Parsed(Dict(m)) =>
      if "profiles" in m && m["profiles"].Dict? then m["profiles"].entries else map[]
    case _ => map[]
  }

  /** The profiles of one type, `{}` for a type never loaded. */
  function TableOf(store: map<ProfileType, map<String, Value>>, t: ProfileType): map<String, Value> {
    if t in store then store[t] else map[]
  }

  /** Lines 99-116 of `get_profile` on the copy `p`: a truthy model that names
      an alias is replaced by the alias target (one level only); any other
      string model, and a missing or falsy model, is kept; a truthy model of
      another kind raises. */
  function ResolveModel(p: Profile, aliases: map<String, Value>): (r: Result<Profile, ProfileError>)
    ensures r.Ok? ==> r.value.Keys == p.Keys
    ensures r.Ok? ==> forall k :: k in p && k != "model" ==> r.value[k] == p[k]
    ensures r.Ok? && r.value != p ==>
      p["model"].Str? && p["model"].s in aliases && r.value["model"] == aliases[p["model"].s]
    ensures r.Err? <==> "model" in p && Truthy(p["model"]) && !p["model"].Str?
  {
    if "model" !in p || !Truthy(p["model"]) then Ok(p)
    else
      var alias := p["model"];
      if !Hashable(alias) then Err(Unhashable)
      else if alias.Str? && alias.s in aliases then Ok(p["model" := aliases[alias.s]])
      else if alias.Str? then Ok(p)
      else Err(NotIterable)
  }

  /** `get_profile(profile_type, name)` as a function of the loader's state. */
  function Lookup(store: map<ProfileType, map<String, Value>>, aliases: map<String, Value>,
                  t: ProfileType, name: String): (r: Result<Option<Profile>, ProfileError>)
    ensures r == Ok(None) <==> name !in TableOf(store, t) || !Truthy(TableOf(store, t)[name])
    ensures r.Ok? && r.value.Some? ==>
      TableOf(store, t)[name].Dict? && ResolveModel(TableOf(store, t)[name].entries, aliases) == Ok(r.value.value)
    ensures r == Err(NoCopy) <==>
      name in TableOf(store, t) && Truthy(TableOf(store, t)[name]) && !TableOf(store, t)[name].Dict?
  {
    var table := TableOf(store, t);
    if name !in table || !Truthy(table[name]) then Ok(None)
    else match table[name]
      case Dict(p) =>
        (match ResolveModel(p, aliases)
         case Ok(q) => Ok(Some(q))
         case Err(e) => Err(e))
      case _ => Err(NoCopy)
  }

  /** A profile whose model names an alias comes back with the alias target
      as its model and every other entry as stored. */
  lemma AliasResolved(store: map<ProfileType, map<String, Value>>, aliases: map<String, Value>,
                      t: ProfileType, name: String, p: Profile, alias: String)
    requires name in TableOf(store, t) && TableOf(store, t)[name] == Dict(p)
    requires "model" in p && p["model"] == Str(alias) && alias != [] && alias in aliases
    ensures Lookup(store, aliases, t, name) == Ok(Some(p["model" := aliases[alias]]))
  {
    assert Truthy(Dict(p)) by {
      assert "model" in p.Keys;
    }
  }

  /** A model that is not an alias (a direct `provider/model` name or one
      that only draws a warning), and a missing or empty model, leave the
      profile exactly as stored. */
  lemma DirectModelKept(store: map<ProfileType, map<String, Value>>, aliases: map<String, Value>,
                        t: ProfileType, name: String, p: Profile)
    requires name in TableOf(store, t) && TableOf(store, t)[name] == Dict(p) && p != map[]
    requires "model" in p ==> (p["model"].Str? && p["model"].s !in aliases) || !Truthy(p["model"])
    ensures Lookup(store, aliases, t, name) == Ok(Some(p))
  {
  }

  /** The strategy entry is only logged: whatever it holds, it is handed
      back as stored and never changes the outcome. */
  lemma StrategyIgnored(p: Profile, aliases: map<String, Value>, v: Value)
    ensures ResolveModel(p["strategy" := v], aliases) ==
      match ResolveModel(p, aliases)
      case Ok(q) => Ok(q["strategy" := v])
      case Err(e) => Err(e)
  {
    var p' := p["strategy" := v];
    assert "model" in p' <==> "model" in p;
    if "model" in p {
      assert p'["model"] == p["model"];
      if Truthy(p["model"]) && p["model"].Str? && p["model"].s in aliases {
        var target := aliases[p["model"].s];
        assert p'["model" := target] == p["model" := target]["strategy" := v];
      }
    }
  }

  /** Aliases resolve one level deep: an alias whose target is itself an
      alias name is not followed further. */
  lemma OneLevelOfAliases(p: Profile, aliases: map<String, Value>, a: String, b: String)
    requires "model" in p && p["model"] == Str(a) && a != []
    requires a in aliases && aliases[a] == Str(b) && b in aliases && aliases[b] != Str(b)
    ensures ResolveModel(p, aliases).Ok?
    ensures ResolveModel(p, aliases).value["model"] == Str(b)
  {
  }

  /** The loader: the profile tables by type and the alias mapping, both
      filled while it is built. */
  class ProfileLoader {
    var profiles: map<ProfileType, map<String, Value>>
    var modelAliases: map<String, Value>

    /** `ProfileLoader()`: aliases first, then the analyzer and commenter
        profile files; the file contents are parameters. */
    constructor (aliasesFile: YamlFile, analyzerFile: YamlFile, commenterFile: YamlFile)
      ensures modelAliases == AliasesTable(aliasesFile)
      ensures profiles == map[Analyzer := ProfilesTable(analyzerFile), Commenter := ProfilesTable(commenterFile)]
    {
      profiles := map[];
      modelAliases := AliasesTable(aliasesFile);
      new;
      LoadProfiles(Analyzer, analyzerFile);
      LoadProfiles(Commenter, commenterFile);
    }

    /** `_load_profiles(profile_type, filename)`: sets the table of one type
        and leaves the other types and the aliases alone. */
    method LoadProfiles(t: ProfileType, file: YamlFile)
      modifies this
      ensures profiles == old(profiles)[t := ProfilesTable(file)]
      ensures modelAliases == old(modelAliases)
    {
      var table: map<String, Value> := map[];
      if file.Parsed? {
        var data := file.data;
        if Truthy(data) && data.Dict? && "profiles" in data.entries && data.entries["profiles"].Dict? {
          table := data.entries["profiles"].entries;
        }
      }
      profiles := profiles[t := table];
    }

    /** `get_profile(profile_type, name)`: works on a copy, so the stored
        tables are left as they are (the method modifies nothing). */
    method GetProfile(t: ProfileType, name: String) returns (r: Result<Option<Profile>, ProfileError>)
      ensures r == Lookup(profiles, modelAliases, t, name)
    {
      var table := if t in profiles then profiles[t] else map[];
      if name !in table || !Truthy(table[name]) {
        return Ok(None);
      }
      var data := table[name];
      if !data.Dict? {
        return Err(NoCopy);
      }
      var resolved := data.entries;
      if "model" in resolved && Truthy(resolved["model"]) {
        var alias := resolved["model"];
        if !Hashable(alias) {
          return Err(Unhashable);
        }
        if alias.Str? && alias.s in modelAliases {
          resolved := resolved["model" := modelAliases[alias.s]];
        } else if !alias.Str? {
          return Err(NotIterable);
        }
      }
      r := Ok(Some(resolved));
    }

    /** `get_available_profiles(profile_type)`: the names of that type, none
        for a type never loaded (list order is not modelled). A name outside
        it is not found by `get_profile`; a name inside it is found unless its
        profile is empty. */
    function GetAvailableProfiles(t: ProfileType): (r: set<String>)
      reads this
      ensures forall name :: name !in r ==> Lookup(profiles, modelAliases, t, name) == Ok(None)
      ensures forall name :: name in TableOf(profiles, t) ==> name in r
      ensures forall name :: name in r ==>
        (name in TableOf(profiles, t) &&
         (Lookup(profiles, modelAliases, t, name) == Ok(None) <==> !Truthy(TableOf(profiles, t)[name])))
    {
      TableOf(profiles, t).Keys
    }
  }
}

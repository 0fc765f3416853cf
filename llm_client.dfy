/** `LLMClient.__init__` (aicoder/llm/api_client.py): the provider is chosen
    by the prefix of the model name, the prefix is stripped, and the API key
    the provider's adapter reports is checked. */
module LlmClient {
  import opened Wrappers
  import opened PyStr

  /** The adapter class a provider is served by. */
  datatype Adapter = OpenRouterAdapter | OpenAIAdapter

  /** One entry of `PROVIDER_CONFIGS`; `baseUrl` is `config.get("base_url")`. */
  datatype ProviderConfig = ProviderConfig(name: String, adapter: Adapter, prefixes: seq<String>, baseUrl: Option<String>)

  /** `PROVIDER_CONFIGS`, in declaration order (a Python dict keeps it). */
  const ProviderConfigs: seq<ProviderConfig> := [
    ProviderConfig("openrouter", OpenRouterAdapter, ["openrouter/"], None),
    ProviderConfig("openai", OpenAIAdapter, ["openai/"], Some("https://api.openai.com/v1")),
    ProviderConfig("deepseek", OpenAIAdapter, ["deepseek/"], Some("https://api.deepseek.com/v1"))
  ]

  /** What `provider.get_api_credentials(api_key)` returns: the key (possibly
      `None`), the environment variable to hint at, the prefix every key of
      that provider has, and the base URL the client keeps. */
  datatype Credentials = Credentials(apiKey: Option<String>, keyHint: String, keyPrefix: String, baseUrl: Option<String>)

  /** The adapter built as `adapter_class(base_url=...)`, asked for its
      credentials given the key passed to the client; the adapters' own code
      is not part of this model. */
  type CredentialSource = (Adapter, Option<String>, Option<String>) -> Credentials

  /** The `ValueError`s `__init__` raises. */
  datatype ClientError =
    | MissingPrefix(validPrefixes: seq<String>)
    | KeyRequired(provider: String, keyHint: String)
    | InvalidKeyFormat(provider: String, keyPrefix: String)

  /** The index of the first prefix `m` starts with (the inner `for` loop). */
  function FirstPrefix(prefixes: seq<String>, m: String): (r: Option<nat>)
    ensures r.Some? ==> r.value < |prefixes| && StartsWith(m, prefixes[r.value])
    ensures r.Some? ==> forall j :: 0 <= j < r.value ==> !StartsWith(m, prefixes[j])
    ensures r.None? <==> forall j :: 0 <= j < |prefixes| ==> !StartsWith(m, prefixes[j])
  {
    if prefixes == [] then None
    else if StartsWith(m, prefixes[0]) then Some(0)
    else match FirstPrefix(prefixes[1..], m)
      case Some(k) => Some(k + 1)
      case None => None
  }

  /** The provider and prefix the two nested loops stop at: the first
      provider with a matching prefix, and its first matching prefix. */
  function FirstMatch(configs: seq<ProviderConfig>, m: String): (r: Option<(nat, nat)>)
    ensures r.Some? ==> r.value.0 < |configs| && FirstPrefix(configs[r.value.0].prefixes, m) == Some(r.value.1)
    ensures r.Some? ==> forall i :: 0 <= i < r.value.0 ==> FirstPrefix(configs[i].prefixes, m).None?
    ensures r.None? <==> forall i :: 0 <= i < |configs| ==> FirstPrefix(configs[i].prefixes, m).None?
  {
    if configs == [] then None
    else match FirstPrefix(configs[0].prefixes, m)
      case Some(j) => Some((0, j))
      case None =>
        match FirstMatch(configs[1..], m)
        case Some(p) => Some((p.0 + 1, p.1))
        case None => None
  }

  /** `self.PROVIDER_CONFIGS[name]`: the entry with that name. */
  function ConfigNamed(configs: seq<ProviderConfig>, name: String): (r: Option<ProviderConfig>)
    ensures r.Some? ==> r.value in configs && r.value.name == name
    ensures r.None? <==> forall i :: 0 <= i < |configs| ==> configs[i].name != name
  {
    if configs == [] then None
    else if configs[0].name == name then Some(configs[0])
    else ConfigNamed(configs[1..], name)
  }

  /** The comprehension over all configs and their prefixes, in order. */
  function ValidPrefixes(configs: seq<ProviderConfig>): (r: seq<String>)
    ensures forall i, j :: 0 <= i < |configs| && 0 <= j < |configs[i].prefixes| ==> configs[i].prefixes[j] in r
  {
    if configs == [] then []
    else configs[0].prefixes + ValidPrefixes(configs[1..])
  }

  /** `s.capitalize()` for ASCII letters: the first upper case, the rest lower. */
  function Capitalize(s: String): (r: String)
    ensures |r| == |s|
  {
    if s == [] then [] else [Upper(s[0])] + Lower(s[1..])
  }

  function Upper(c: char): char {
    if 'a' <= c <= 'z' then (c as int - 32) as char else c
  }

  function Lower(s: String): (r: String)
    ensures |r| == |s|
  {
    if s == [] then []
    else [if 'A' <= s[0] <= 'Z' then (s[0] as int + 32) as char else s[0]] + Lower(s[1..])
  }

  /** The missing-prefix message up to its list of prefixes. */
  const MissingPrefixLead: String := "Model must include provider prefix. Valid prefixes: "

  /** The text of each error. */
  function Message(e: ClientError): String {
    match e
    case MissingPrefix(ps) =>
      MissingPrefixLead + Join(", ", ps)
    case KeyRequired(p, hint) =>
      Capitalize(p) + " API key required. Set " + hint + " environment variable or pass explicitly."
    case InvalidKeyFormat(p, kp) =>
      "Invalid " + p + " API key format. Should start with '" + kp + "'"
  }

  /** Each joined part appears in the joined text. */
  lemma {:induction false} JoinContains(sep: String, parts: seq<String>, k: nat)
    requires k < |parts|
    ensures exists a, b :: Join(sep, parts) == a + parts[k] + b
  {
    if |parts| == 1 {
      assert Join(sep, parts) == [] + parts[0] + [];
    } else if k == 0 {
      assert Join(sep, parts) == [] + parts[0] + (sep + Join(sep, parts[1..]));
    } else {
      JoinContains(sep, parts[1..], k - 1);
      var a, b :| Join(sep, parts[1..]) == a + parts[1..][k - 1] + b;
      assert Join(sep, parts) == (parts[0] + sep + a) + parts[k] + b;
    }
  }

  /** The missing-prefix message names each prefix of its list. */
  lemma MessageNamesPrefix(ps: seq<String>, k: nat)
    requires k < |ps|
    ensures exists p :: OccursAt(Message(MissingPrefix(ps)), ps[k], p)
  {
    var x := ps[k];
    JoinContains(", ", ps, k);
    var a, b :| Join(", ", ps) == a + x + b;
    OccurrenceAt(a, x, b);
    OccursAtShift(MissingPrefixLead, Join(", ", ps), x, |a|);
    assert Message(MissingPrefix(ps)) == MissingPrefixLead + Join(", ", ps);
    assert OccursAt(Message(MissingPrefix(ps)), ps[k], |MissingPrefixLead| + |a|);
  }

  /** The missing-prefix message names every prefix of every provider. */
  lemma MessageListsEveryPrefix(configs: seq<ProviderConfig>, i: nat, j: nat)
    requires i < |configs| && j < |configs[i].prefixes|
    ensures exists p :: OccursAt(Message(MissingPrefix(ValidPrefixes(configs))), configs[i].prefixes[j], p)
  {
    var ps := ValidPrefixes(configs);
    assert configs[i].prefixes[j] in ps;
    var k :| 0 <= k < |ps| && ps[k] == configs[i].prefixes[j];
    MessageNamesPrefix(ps, k);
  }

  /** The prefixes the message lists, in declaration order. */
  lemma ListedPrefixes()
    ensures ValidPrefixes(ProviderConfigs) == ["openrouter/", "openai/", "deepseek/"]
  {
    assert ProviderConfigs[1..][1..][1..] == [];
  }

  /** Lines 70-76: a missing or empty key, then a key without the provider's
      prefix, is refused. */
  function CheckKey(providerName: String, creds: Credentials): (r: Option<ClientError>)
    ensures r.None? <==> creds.apiKey.Some? && creds.apiKey.value != [] && StartsWith(creds.apiKey.value, creds.keyPrefix)
    ensures r.Some? && (creds.apiKey.None? || creds.apiKey.value == []) ==> r.value == KeyRequired(providerName, creds.keyHint)
    ensures r.Some? && creds.apiKey.Some? && creds.apiKey.value != [] ==> r.value == InvalidKeyFormat(providerName, creds.keyPrefix)
  {
    if creds.apiKey.None? || creds.apiKey.value == [] then Some(KeyRequired(providerName, creds.keyHint))
    else if !StartsWith(creds.apiKey.value, creds.keyPrefix) then Some(InvalidKeyFormat(providerName, creds.keyPrefix))
    else None
  }

  /** The fields a successfully built client ends with. */
  datatype Session = Session(providerName: String, model: String, apiKey: String, baseUrl: Option<String>)

  /** `LLMClient(modelWithPrefix, api_key)` as a function: the session it
      builds or the error it raises. */
  function Connect(modelWithPrefix: String, explicitKey: Option<String>, credentials: CredentialSource): (r: Result<Session, ClientError>)
    ensures r.Ok? ==>
      exists i, j :: 0 <= i < |ProviderConfigs| && 0 <= j < |ProviderConfigs[i].prefixes| &&
        r.value.providerName == ProviderConfigs[i].name &&
        ProviderConfigs[i].prefixes[j] + r.value.model == modelWithPrefix
    ensures r.Ok? ==> r.value.apiKey != []
    ensures r == Err(MissingPrefix(ValidPrefixes(ProviderConfigs))) <==>
      forall i, j :: 0 <= i < |ProviderConfigs| && 0 <= j < |ProviderConfigs[i].prefixes| ==>
        !StartsWith(modelWithPrefix, ProviderConfigs[i].prefixes[j])
  {
    match FirstMatch(ProviderConfigs, modelWithPrefix)
    case None => Err(MissingPrefix(ValidPrefixes(ProviderConfigs)))
    case Some((i, j)) =>
      var config := ProviderConfigs[i];
      var creds := credentials(config.adapter, config.baseUrl, explicitKey);
      ReplaceFirstStripsPrefix(modelWithPrefix, config.prefixes[j]);
      match CheckKey(config.name, creds)
      case Some(e) => Err(e)
      case None => Ok(Session(config.name, ReplaceFirst(modelWithPrefix, config.prefixes[j], []), creds.apiKey.value, creds.baseUrl))
  }

  /** The three providers' prefixes are not prefixes of one another, so the
      provider is decided by whichever prefix the model name carries. */
  lemma ProviderOfPrefix(i: nat, rest: String)
    requires i < |ProviderConfigs|
    ensures FirstMatch(ProviderConfigs, ProviderConfigs[i].prefixes[0] + rest) == Some((i, 0))
  {
    var m := ProviderConfigs[i].prefixes[0] + rest;
    assert StartsWith(m, ProviderConfigs[i].prefixes[0]) by {
      assert m[..|ProviderConfigs[i].prefixes[0]|] == ProviderConfigs[i].prefixes[0];
    }
    forall i' | 0 <= i' < |ProviderConfigs| && i' != i
      ensures FirstPrefix(ProviderConfigs[i'].prefixes, m).None?
    {
      var p := ProviderConfigs[i].prefixes[0];
      var q := ProviderConfigs[i'].prefixes[0];
      assert m[0] == p[0] && m[4] == p[4];
      assert !StartsWith(m, q);
      assert ProviderConfigs[i'].prefixes == [q];
    }
  }

  /** The base URL handed to the adapter comes from the provider's entry:
      none for openrouter, the provider's endpoint for the other two. */
  lemma BaseUrls()
    ensures ConfigNamed(ProviderConfigs, "openrouter") == Some(ProviderConfigs[0]) && ProviderConfigs[0].baseUrl == None
    ensures ConfigNamed(ProviderConfigs, "openai").Some? && ConfigNamed(ProviderConfigs, "openai").value.baseUrl == Some("https://api.openai.com/v1")
    ensures ConfigNamed(ProviderConfigs, "deepseek").Some? && ConfigNamed(ProviderConfigs, "deepseek").value.baseUrl == Some("https://api.deepseek.com/v1")
  {
    assert ProviderConfigs[1..][1..][1..] == [];
  }

  /** Looking a provider up by its name gives back its own entry. */
  lemma ConfigOfProvider(i: nat)
    requires i < |ProviderConfigs|
    ensures ConfigNamed(ProviderConfigs, ProviderConfigs[i].name) == Some(ProviderConfigs[i])
  {
    assert ProviderConfigs[1..][1..][1..] == [];
  }

  /** The client; the fields are those `__init__` sets. */
  class LLMClient {
    var model: String
    var providerName: Option<String>
    var apiKey: Option<String>
    var baseUrl: Option<String>

    /** Lines 31-33: the model as given, no provider yet. */
    constructor (modelWithPrefix: String)
      ensures model == modelWithPrefix && providerName == None && apiKey == None && baseUrl == None
    {
      model := modelWithPrefix;
      providerName := None;
      apiKey := None;
      baseUrl := None;
    }

    /** Lines 35-43: the nested loops over providers and their prefixes; the
        first match sets the provider and strips its prefix from the model. */
    method SelectProvider(modelWithPrefix: String)
      requires providerName == None
      modifies this
      ensures FirstMatch(ProviderConfigs, modelWithPrefix).None? ==> providerName == None && model == old(model)
      ensures FirstMatch(ProviderConfigs, modelWithPrefix).Some? ==>
        var (i, j) := FirstMatch(ProviderConfigs, modelWithPrefix).value;
        providerName == Some(ProviderConfigs[i].name) &&
        model == ReplaceFirst(modelWithPrefix, ProviderConfigs[i].prefixes[j], [])
      ensures apiKey == old(apiKey) && baseUrl == old(baseUrl)
    {
      var i := 0;
      while i < |ProviderConfigs|
        invariant 0 <= i <= |ProviderConfigs|
        invariant providerName == None && model == old(model)
        invariant apiKey == old(apiKey) && baseUrl == old(baseUrl)
        invariant forall i' :: 0 <= i' < i ==> FirstPrefix(ProviderConfigs[i'].prefixes, modelWithPrefix).None?
      {
        var prefixes := ProviderConfigs[i].prefixes;
        var j := 0;
        while j < |prefixes|
          invariant 0 <= j <= |prefixes|
          invariant providerName == None && model == old(model)
          invariant apiKey == old(apiKey) && baseUrl == old(baseUrl)
          invariant forall j' :: 0 <= j' < j ==> !StartsWith(modelWithPrefix, prefixes[j'])
        {
          if StartsWith(modelWithPrefix, prefixes[j]) {
            providerName := Some(ProviderConfigs[i].name);
            model := ReplaceFirst(modelWithPrefix, prefixes[j], []);
            assert FirstPrefix(prefixes, modelWithPrefix) == Some(j);
            break;
          }
          j := j + 1;
        }
        if providerName.Some? {
          assert FirstMatch(ProviderConfigs, modelWithPrefix) == Some((i, j));
          break;
        }
        i := i + 1;
      }
    }

    /** Lines 65-67: the adapter's key and base URL become the client's. */
    method SetCredentials(creds: Credentials)
      modifies this
      ensures apiKey == creds.apiKey && baseUrl == creds.baseUrl
      ensures model == old(model) && providerName == old(providerName)
    {
      apiKey := creds.apiKey;
      baseUrl := creds.baseUrl;
    }
  }

  /** `LLMClient(modelWithPrefix, api_key)`: builds the client or raises. */
  method NewClient(modelWithPrefix: String, explicitKey: Option<String>, credentials: CredentialSource)
    returns (r: Result<LLMClient, ClientError>)
    ensures r.Err? ==> Connect(modelWithPrefix, explicitKey, credentials) == Err(r.error)
    ensures r.Ok? ==>
      (fresh(r.value) && r.value.providerName.Some? && r.value.apiKey.Some? &&
       Connect(modelWithPrefix, explicitKey, credentials) ==
         Ok(Session(r.value.providerName.value, r.value.model, r.value.apiKey.value, r.value.baseUrl)))
  {
    var client := new LLMClient(modelWithPrefix);
    client.SelectProvider(modelWithPrefix);
    if client.providerName.None? {
      return Err(MissingPrefix(ValidPrefixes(ProviderConfigs)));
    }
    var name := client.providerName.value;
    var i := FirstMatch(ProviderConfigs, modelWithPrefix).value.0;
    ConfigOfProvider(i);
    var config := ConfigNamed(ProviderConfigs, name).value;
    var creds := credentials(config.adapter, config.baseUrl, explicitKey);
    client.SetCredentials(creds);
    var failure := CheckKey(name, creds);
    if failure.Some? {
      return Err(failure.value);
    }
    r := Ok(client);
  }
}

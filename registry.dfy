/**
 * api/registry.py: the module-level `API_KEY_REGISTRY` dict, the
 * `register_api_key` decorator's wrapper that writes to it, and
 * `get_api_key`, which reads it.
 *
 * The wrapper writes under the model name passed as `select_model`, while
 * `get_api_key` reads under `<COMPANY>_API_KEY`: the two use different keys.
 */
module Registry {
  import opened Wrappers
  import opened Kwargs
  import opened Text
  import opened Models

  /** `f"{company.upper()}_API_KEY"`. */
  function KeyName(company: string): (r: string)
    ensures |r| == |company| + 8
    ensures forall i :: 0 <= i < |company| ==> r[i] == UpperChar(company[i])
    ensures r[|company|..] == "_API_KEY"
  {
    Upper(company) + "_API_KEY"
  }

  /** Every key name ends in `Y`. */
  lemma KeyNameEndsInY(company: string)
    ensures |KeyName(company)| > 0 && KeyName(company)[|KeyName(company)| - 1] == 'Y'
  {
  }

  /** No listed model name ends in `Y`. */
  lemma ModelNamesDoNotEndInY(name: string)
    requires name in AllModels()
    ensures |name| > 0 && name[|name| - 1] != 'Y'
  {
    var j :| 0 <= j < |CommercialModels| && name in CommercialModels[j].1;
  }

  /** So a listed model name is never a key name: writes and reads never meet. */
  lemma ModelNameIsNoKeyName(name: string, company: string)
    requires name in AllModels()
    ensures name != KeyName(company)
  {
    ModelNamesDoNotEndInY(name);
    KeyNameEndsInY(company);
  }

  /** What the wrapper leaves in the registry: `api_key` under `select_model` when both keywords are truthy. */
  function Registered(entries: map<string, string>, kwargs: map<string, PyValue>): (r: map<string, string>)
    ensures Truthy(Get(kwargs, "api_key")) && Truthy(Get(kwargs, "select_model")) ==>
              r.Keys == entries.Keys + {Get(kwargs, "select_model").s}
              && r[Get(kwargs, "select_model").s] == Get(kwargs, "api_key").s
    ensures !(Truthy(Get(kwargs, "api_key")) && Truthy(Get(kwargs, "select_model"))) ==> r == entries
  {
    var apiKey := Get(kwargs, "api_key");
    var selectModel := Get(kwargs, "select_model");
    if Truthy(apiKey) && Truthy(selectModel) then entries[selectModel.s := apiKey.s] else entries
  }

  /** `get_api_key(model_name)` over the registry's entries. */
  function ApiKeyFor(entries: map<string, string>, model: string): (r: Result<Option<string>, ModelError>)
    ensures r.Failure? <==> GetCompanyName(model).Failure?
    ensures r.Failure? ==> r.error == UnknownModel(model)
    ensures r.Success? ==> var key := KeyName(GetCompanyName(model).value);
                           r.value == if key in entries then Some(entries[key]) else None
  {
    match GetCompanyName(model)
    case Failure(e) => Failure(e)
    case Success(company) =>
      var key := KeyName(company);
      Success(if key in entries then Some(entries[key]) else None)
  }

  class ApiKeyRegistry {
    /** `API_KEY_REGISTRY`. */
    var entries: map<string, string>

    /** The registry starts empty. */
    constructor()
      ensures entries == map[]
    {
      entries := map[];
    }

    /** The registration the wrapper does before the call: only keyword arguments are looked at. */
    method Register(kwargs: map<string, PyValue>)
      modifies this
      ensures entries == Registered(old(entries), kwargs)
    {
      var apiKey := Get(kwargs, "api_key");
      var selectModel := Get(kwargs, "select_model");
      if Truthy(apiKey) && Truthy(selectModel) {
        entries := entries[selectModel.s := apiKey.s];
      }
    }

    /** `wrapper(*args, **kwargs)` around a function `func`: register, then call `func` once with the same arguments. */
    method Wrap<R>(func: (seq<PyValue>, map<string, PyValue>) -> R, args: seq<PyValue>, kwargs: map<string, PyValue>)
      returns (r: R)
      modifies this
      ensures entries == Registered(old(entries), kwargs)
      ensures r == func(args, kwargs)
    {
      Register(kwargs);
      r := func(args, kwargs);
    }

    /** `get_api_key(model_name)`. */
    method GetApiKey(model: string) returns (r: Result<Option<string>, ModelError>)
      ensures r == ApiKeyFor(entries, model)
    {
      var company := GetCompanyName(model);
      if company.Failure? {
        return Failure(company.error);
      }
      var key := KeyName(company.value);
      r := Success(if key in entries then Some(entries[key]) else None);
    }
  }

  /** A registration changes the entry under `select_model` and no other. */
  lemma RegisterChangesOneEntry(entries: map<string, string>, kwargs: map<string, PyValue>, key: string)
    requires !Truthy(Get(kwargs, "select_model")) || key != Get(kwargs, "select_model").s
    ensures key in Registered(entries, kwargs) <==> key in entries
    ensures key in entries ==> Registered(entries, kwargs)[key] == entries[key]
  {
  }

  /** Registering the same model again overwrites the earlier key: only the last one counts. */
  lemma ReRegisterOverwrites(entries: map<string, string>, first: map<string, PyValue>, second: map<string, PyValue>)
    requires Truthy(Get(first, "api_key")) && Truthy(Get(first, "select_model"))
    requires Truthy(Get(second, "api_key")) && Get(second, "select_model") == Get(first, "select_model")
    ensures Registered(Registered(entries, first), second) == Registered(entries, second)
  {
    var sel := Get(first, "select_model").s;
    var e1 := Registered(entries, first);
    assert e1 == entries[sel := Get(first, "api_key").s];
  }

  /**
   * Registering under a listed model name never changes what `get_api_key`
   * returns, for any model: the wrapper writes model names, `get_api_key`
   * reads `_API_KEY` names.
   */
  lemma RegisterIsInvisibleToGetApiKey(entries: map<string, string>, kwargs: map<string, PyValue>, model: string)
    requires Truthy(Get(kwargs, "select_model")) ==> Get(kwargs, "select_model").s in AllModels()
    ensures ApiKeyFor(Registered(entries, kwargs), model) == ApiKeyFor(entries, model)
  {
    if GetCompanyName(model).Success? && Truthy(Get(kwargs, "select_model")) {
      ModelNameIsNoKeyName(Get(kwargs, "select_model").s, GetCompanyName(model).value);
    }
  }

  /** `get_api_key` does see a key stored under the provider's key name. */
  lemma GetApiKeyReadsKeyName(entries: map<string, string>, model: string, company: string, key: string)
    requires GetCompanyName(model) == Success(company)
    ensures ApiKeyFor(entries[KeyName(company) := key], model) == Success(Some(key))
  {
  }
}

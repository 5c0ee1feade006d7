/**
 * The model table of api/models.py and the two lookups over it:
 * `get_company_name`, a search in table order that raises on an unknown
 * name, and `get_model`, which rejects the open-source model and otherwise
 * describes the LLM to build.
 */
module Models {
  import opened Wrappers
  import opened Kwargs
  import ReportParser

  /** A table of providers, each with its model names, in the dict's order. */
  type Table = seq<(string, seq<string>)>

  const OpensourceCompany: string := "opensource"
  const OpensourceModel: string := "기본 모델"

  /** `COMMERCIAL_MODELS`. */
  const CommercialModels: Table := [
    (OpensourceCompany, [OpensourceModel]),
    ("OpenAI", ["gpt-4o", "gpt-4o-mini"]),
    ("Anthropic", ["claude-3-5-sonnet-20240620", "claude-3-opus-20240229", "claude-3-sonnet-20240229"])
  ]

  /** `COMMERCIAL_MODELS.keys()`. */
  function Companies(table: Table): (r: seq<string>)
    ensures |r| == |table|
    ensures forall i :: 0 <= i < |table| ==> r[i] == table[i].0
  {
    seq(|table|, i requires 0 <= i < |table| => table[i].0)
  }

  /** `get_args(**COMMERCIAL_MODELS)`: every model name, in table order. */
  function AllModels(): (r: seq<string>)
    ensures |r| == 6 && r[0] == OpensourceModel
    ensures forall m :: m in r <==> exists j :: 0 <= j < |CommercialModels| && m in CommercialModels[j].1
  {
    var r := ReportParser.GetArgs(CommercialModels);
    assert r == CommercialModels[0].1 + ReportParser.GetArgs(CommercialModels[1..]);
    assert ReportParser.TotalLength(CommercialModels[2..]) == 3;
    r
  }

  datatype ModelError =
    | UnknownModel(name: string)                    // ValueError of get_company_name
    | NotSupported(company: string, model: string)  // NotImplementedError of get_model

  /** The index of the first provider, in table order, whose list holds `name`. */
  function FirstOwner(table: Table, name: string): (r: Option<nat>)
    ensures r.Some? ==> r.value < |table| && name in table[r.value].1
    ensures r.Some? ==> forall j :: 0 <= j < r.value ==> name !in table[j].1
    ensures r.None? ==> forall j :: 0 <= j < |table| ==> name !in table[j].1
  {
    if table == [] then None
    else if name in table[0].1 then Some(0)
    else
      assert forall j :: 1 <= j < |table| ==> table[j] == table[1..][j - 1];
      match FirstOwner(table[1..], name)
      case None => None
      case Some(i) => Some(i + 1)
  }

  /** `get_company_name(model_name)`. */
  function GetCompanyName(name: string): (r: Result<string, ModelError>)
    ensures r.Failure? <==> forall j :: 0 <= j < |CommercialModels| ==> name !in CommercialModels[j].1
    ensures r.Failure? ==> r.error == UnknownModel(name)
    ensures r.Success? ==> exists j :: 0 <= j < |CommercialModels| && r.value == CommercialModels[j].0
                                     && name in CommercialModels[j].1
  {
    match FirstOwner(CommercialModels, name)
    case None => Failure(UnknownModel(name))
    case Some(i) => Success(CommercialModels[i].0)
  }

  /** No model name is listed under two providers. */
  lemma ModelListsDisjoint()
    ensures forall i, j, m :: 0 <= i < j < |CommercialModels| && m in CommercialModels[i].1 ==> m !in CommercialModels[j].1
  {
  }

  /** The provider of a listed model is the one that lists it: the owner is unique. */
  lemma OwnerIsUnique(name: string, i: nat)
    requires i < |CommercialModels| && name in CommercialModels[i].1
    ensures GetCompanyName(name) == Success(CommercialModels[i].0)
  {
    ModelListsDisjoint();
    var k := FirstOwner(CommercialModels, name).value;
    assert k == i;
  }

  /** Every name of the flattened table resolves, to a provider whose list holds it. */
  lemma ListedModelsResolve(name: string)
    requires name in AllModels()
    ensures GetCompanyName(name).Success?
    ensures exists j :: 0 <= j < |CommercialModels| && GetCompanyName(name).value == CommercialModels[j].0
                        && name in CommercialModels[j].1
  {
    var j :| 0 <= j < |CommercialModels| && name in CommercialModels[j].1;
    OwnerIsUnique(name, j);
  }

  /** Only names of the flattened table resolve: there is no default provider. */
  lemma ResolvesOnlyListed(name: string)
    ensures GetCompanyName(name).Success? <==> name in AllModels()
  {
    if GetCompanyName(name).Success? {
      var j :| 0 <= j < |CommercialModels| && name in CommercialModels[j].1;
      assert name in AllModels();
    }
  }

  /** The provider `get_company_name` returns is a key of the table. */
  lemma ResolvedCompanyIsKey(name: string)
    requires GetCompanyName(name).Success?
    ensures GetCompanyName(name).value in Companies(CommercialModels)
  {
    var i := FirstOwner(CommercialModels, name).value;
    assert Companies(CommercialModels)[i] == CommercialModels[i].0;
  }

  /** What `get_model` hands to `crewai.LLM`: the model name and, when passed, the `api_key` keyword. */
  datatype Llm = Llm(model: string, apiKey: Option<PyValue>)

  /** `get_model(model, **kwargs)`. */
  function GetModel(model: string, kwargs: map<string, PyValue>): (r: Result<Llm, ModelError>)
    ensures GetCompanyName(model).Failure? ==> r == Failure(UnknownModel(model))
    ensures GetCompanyName(model) == Success(OpensourceCompany) ==> r == Failure(NotSupported(OpensourceCompany, model))
    ensures r.Success? <==> GetCompanyName(model).Success? && GetCompanyName(model).value != OpensourceCompany
    ensures r.Success? ==> r.value.model == model
    ensures r.Success? ==> (r.value.apiKey.Some? <==> "api_key" in kwargs)
    ensures r.Success? && "api_key" in kwargs ==> r.value.apiKey == Some(kwargs["api_key"])
  {
    match GetCompanyName(model)
    case Failure(e) => Failure(e)
    case Success(company) =>
      ResolvedCompanyIsKey(model);
      if company == OpensourceCompany then Failure(NotSupported(company, model))
      else if company in Companies(CommercialModels) then
        if "api_key" in kwargs then Success(Llm(model, Some(kwargs["api_key"])))
        else Success(Llm(model, None))
      else
        assert false;
        Failure(NotSupported(company, model))
  }

  /** `get_model` never builds the open-source model. */
  lemma OpensourceNotSupported(kwargs: map<string, PyValue>)
    ensures GetModel(OpensourceModel, kwargs) == Failure(NotSupported(OpensourceCompany, OpensourceModel))
  {
    OwnerIsUnique(OpensourceModel, 0);
  }

  /** Every listed commercial model builds an LLM for exactly that name. */
  lemma CommercialModelsBuild(model: string, kwargs: map<string, PyValue>)
    requires model in AllModels() && model != OpensourceModel
    ensures GetModel(model, kwargs).Success? && GetModel(model, kwargs).value.model == model
  {
    ListedModelsResolve(model);
    var j :| 0 <= j < |CommercialModels| && GetCompanyName(model).value == CommercialModels[j].0
             && model in CommercialModels[j].1;
    assert j != 0;
  }
}

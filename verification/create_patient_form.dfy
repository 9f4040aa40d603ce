/**
 * The postback `create_patient` sends: the hidden tokens of the freshly
 * fetched patient page, the caller's first and last name, and a fixed
 * snapshot of every other control on the page. Only five keys of the form
 * depend on the inputs.
 */
module CreatePatientForm {
  import opened Wrappers

  /** An `<input>` element of a fetched page: its `id` and `value` attributes, when present. */
  datatype InputElement = InputElement(id: Option<string>, value: Option<string>)

  /** The three WebForms tokens taken from a page; each may be missing. */
  datatype PageTokens = PageTokens(viewState: Option<string>, eventValidation: Option<string>, viewStateGenerator: Option<string>)

  /** The request `create_patient` issues. */
  datatype Postback = Postback(httpMethod: string, url: string, form: map<string, string>)

  const CreatePatientUrl: string := "https://brightree.net/F1/02873/Nation/Patient/frmPatientPersonal.aspx?PatientKey=0&Edit=1"

  const ViewStateKey: string := "__VIEWSTATE"
  const ViewStateGeneratorKey: string := "__VIEWSTATEGENERATOR"
  const EventValidationKey: string := "__EVENTVALIDATION"
  const LastNameKey: string := "ctl00$ctl00$c$c$txtLastName"
  const FirstNameKey: string := "ctl00$ctl00$c$c$txtFirstName"

  /** The keys whose values depend on the page or the caller. */
  const VaryingKeys: set<string> := {ViewStateKey, ViewStateGeneratorKey, EventValidationKey, LastNameKey, FirstNameKey}

  /** The fixed part of the form: the controls of the page as an empty new-patient form shows them. */
  const StaticFields: map<string, string> := map[
    "ctl00$ctl00$pageSM" := "ctl00$ctl00$ctl00$ctl00$c$btnContextSavePanel|ctl00$ctl00$c$btnContextSave",
    "__EVENTTARGET" := "ctl00$ctl00$c$btnContextSave",
    "__EVENTARGUMENT" := "",
    "__LASTFOCUS" := "",
    "ctl00$ctl00$c$ssnControl$hfSSNRetrieved" := "false",
    "ctl00$ctl00$c$ssnControl$hfSSN" := "",
    "ctl00$ctl00$c$c$txtMiddleName" := "",
    "ctl00$ctl00$c$c$txtPreferredName" := "",
    "ctl00$ctl00$c$c$txtSuffix" := "",
    "ctl00$ctl00$c$c$hmeDOB" := "",
    "ctl00$ctl00$c$c$hmeDOB$dateInput" := "",
    "ctl00$ctl00$c$c$ssnControl$hmeSSN" := "___-__-____",
    "ctl00$ctl00$c$c$ddlCustomerType" := "Patient",
    "ctl00$ctl00$c$c$hmePhone" := "(___) ___-____",
    "ctl00$ctl00$c$c$hmeFax" := "(___) ___-____",
    "ctl00$ctl00$c$c$hmeMobilePhone" := "(___) ___-____",
    "ctl00$ctl00$c$c$txtEmailAddress" := "",
    "ctl00$ctl00$c$c$ddlBranch" := "102",
    "ctl00$ctl00$c$c$ddlPOS" := "4",
    "ctl00$ctl00$c$c$chkActiveAddress" := "on",
    "ctl00$ctl00$c$ucMainFooter$isReadOnly" := "False",
    "__ASYNCPOST" := "true",
    "RadAJAXControlID" := "ctl00_ctl00_pageRAM"
  ]

  /** No varying key is also a key of the fixed part, so the fixed part survives the overlay whole. */
  lemma VaryingKeysNotStatic()
    ensures VaryingKeys !! StaticFields.Keys
  {
    assert ViewStateKey !in StaticFields;
    assert ViewStateGeneratorKey !in StaticFields;
    assert EventValidationKey !in StaticFields;
    assert LastNameKey !in StaticFields;
    assert FirstNameKey !in StaticFields;
  }

  /**
   * What `soup.find("input", {"id": inputId})` and `.get("value")` give: the
   * `value` of the first input carrying the id, or `None` when no input does.
   */
  ghost predicate IsFirstValue(page: seq<InputElement>, inputId: string, v: Option<string>) {
    || (exists i :: 0 <= i < |page| && page[i].id == Some(inputId) && v == page[i].value
                    && forall j :: 0 <= j < i ==> page[j].id != Some(inputId))
    || (v == None && forall j :: 0 <= j < |page| ==> page[j].id != Some(inputId))
  }

  /** `_extract_input_value`: the `value` of the first input with this id, `None` when there is none. */
  function ExtractInputValue(page: seq<InputElement>, inputId: string): (v: Option<string>)
    ensures IsFirstValue(page, inputId, v)
  {
    if page == [] then None
    else if page[0].id == Some(inputId) then page[0].value
    else
      var v := ExtractInputValue(page[1..], inputId);
      FirstValueOfTail(page, inputId, v);
      v
  }

  /** Skipping a first input that does not carry the id keeps the first value. */
  lemma FirstValueOfTail(page: seq<InputElement>, inputId: string, v: Option<string>)
    requires page != [] && page[0].id != Some(inputId)
    requires IsFirstValue(page[1..], inputId, v)
    ensures IsFirstValue(page, inputId, v)
  {
    var tail := page[1..];
    if exists i :: 0 <= i < |tail| && tail[i].id == Some(inputId) && v == tail[i].value
                   && forall j :: 0 <= j < i ==> tail[j].id != Some(inputId) {
      var i :| 0 <= i < |tail| && tail[i].id == Some(inputId) && v == tail[i].value
               && forall j :: 0 <= j < i ==> tail[j].id != Some(inputId);
      assert page[i + 1] == tail[i];
      assert forall j :: 0 <= j < i + 1 ==> page[j].id != Some(inputId) by {
        forall j | 0 <= j < i + 1
          ensures page[j].id != Some(inputId)
        {
          if j > 0 {
            assert page[j] == tail[j - 1];
          }
        }
      }
    } else {
      assert forall j :: 0 <= j < |page| ==> page[j].id != Some(inputId) by {
        forall j | 0 <= j < |page|
          ensures page[j].id != Some(inputId)
        {
          if j > 0 {
            assert page[j] == tail[j - 1];
          }
        }
      }
    }
  }

  /** The lookup returns the value of the first input carrying the id. */
  lemma {:induction false} ExtractFindsFirst(page: seq<InputElement>, inputId: string, i: nat)
    requires i < |page| && page[i].id == Some(inputId)
    requires forall j :: 0 <= j < i ==> page[j].id != Some(inputId)
    ensures ExtractInputValue(page, inputId) == page[i].value
  {
    if i > 0 {
      ExtractFindsFirst(page[1..], inputId, i - 1);
    }
  }

  /** A page without an input carrying the id yields `None`. */
  lemma {:induction false} ExtractMissing(page: seq<InputElement>, inputId: string)
    requires forall j :: 0 <= j < |page| ==> page[j].id != Some(inputId)
    ensures ExtractInputValue(page, inputId) == None
  {
    if page != [] {
      ExtractMissing(page[1..], inputId);
    }
  }

  /** The three tokens `create_patient` reads from the page. */
  function ExtractTokens(page: seq<InputElement>): (tokens: PageTokens)
    ensures IsFirstValue(page, ViewStateKey, tokens.viewState)
    ensures IsFirstValue(page, EventValidationKey, tokens.eventValidation)
    ensures IsFirstValue(page, ViewStateGeneratorKey, tokens.viewStateGenerator)
  {
    PageTokens(
      ExtractInputValue(page, "__VIEWSTATE"),
      ExtractInputValue(page, "__EVENTVALIDATION"),
      ExtractInputValue(page, "__VIEWSTATEGENERATOR"))
  }

  /** Python's `f"{v}"` of an optional string: `None` prints as the text `None`. */
  function PyStr(v: Option<string>): (s: string) {
    match v
    case None => "None"
    case Some(s) => s
  }

  /** The `form_data` dictionary of `create_patient`. */
  function CreatePatientFormData(tokens: PageTokens, firstName: string, lastName: string): (form: map<string, string>)
    ensures form.Keys == StaticFields.Keys + VaryingKeys
    ensures forall k :: k in StaticFields ==> form[k] == StaticFields[k]
  {
    VaryingKeysNotStatic();
    StaticFields[
      ViewStateKey := PyStr(tokens.viewState)][
      ViewStateGeneratorKey := PyStr(tokens.viewStateGenerator)][
      EventValidationKey := PyStr(tokens.eventValidation)][
      LastNameKey := lastName][
      FirstNameKey := firstName]
  }

  /**
   * The five input-dependent keys: each token is its string form (a missing
   * one becomes the text `None`), and the names are the caller's, verbatim.
   */
  lemma FormVaryingFields(tokens: PageTokens, firstName: string, lastName: string)
    ensures var form := CreatePatientFormData(tokens, firstName, lastName);
      && form[ViewStateKey] == PyStr(tokens.viewState)
      && form[ViewStateGeneratorKey] == PyStr(tokens.viewStateGenerator)
      && form[EventValidationKey] == PyStr(tokens.eventValidation)
      && form[LastNameKey] == lastName
      && form[FirstNameKey] == firstName
      && (tokens.viewState.None? ==> form[ViewStateKey] == "None")
  {
  }

  /**
   * Only the five varying keys depend on the inputs: any two forms have the
   * same keys and agree on every other key.
   */
  lemma FormFixedOutsideVaryingKeys(t1: PageTokens, f1: string, l1: string, t2: PageTokens, f2: string, l2: string)
    ensures var a := CreatePatientFormData(t1, f1, l1);
      var b := CreatePatientFormData(t2, f2, l2);
      a.Keys == b.Keys && forall k :: k in a && k !in VaryingKeys ==> a[k] == b[k]
  {
  }

  /** `create_patient`, from the fetched page onwards. */
  function CreatePatient(page: seq<InputElement>, firstName: string, lastName: string): (post: Postback)
    ensures post.httpMethod == "POST" && post.url == CreatePatientUrl
    ensures post.form.Keys == StaticFields.Keys + VaryingKeys
    ensures forall k :: k in StaticFields ==> post.form[k] == StaticFields[k]
    ensures post.form[FirstNameKey] == firstName && post.form[LastNameKey] == lastName
    ensures exists v :: IsFirstValue(page, ViewStateKey, v) && post.form[ViewStateKey] == PyStr(v)
  {
    Postback("POST", CreatePatientUrl, CreatePatientFormData(ExtractTokens(page), firstName, lastName))
  }

  /** The view state posted back is the value of the page's first `__VIEWSTATE` input. */
  lemma CreatePatientEchoesViewState(page: seq<InputElement>, firstName: string, lastName: string, i: nat)
    requires i < |page| && page[i].id == Some("__VIEWSTATE")
    requires forall j :: 0 <= j < i ==> page[j].id != Some("__VIEWSTATE")
    ensures CreatePatient(page, firstName, lastName).form[ViewStateKey] == PyStr(page[i].value)
  {
    ExtractFindsFirst(page, "__VIEWSTATE", i);
  }
}

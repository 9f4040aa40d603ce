# Brightree integration: patient-field normalisers and request handling, in Dafny

This project models two self-contained parts of an unofficial client for the Brightree
healthcare-billing portal, and proves properties about them.

1. **The patient record's field validators** (`models/models.py`). `format_phone` turns a
   US phone number into `(XXX) XXX-XXXX`. `format_ssn` turns a social security number into
   `XXX-XX-XXXX`. Both keep the portal's placeholder masks `(___) ___-____` and
   `___-__-____` for blank input. `validate_email` checks the e-mail against a prefix
   pattern. `validate_date_format` checks the date of birth against
   `strptime(..., '%Y-%m-%d')`. The model also covers how `NewPatient` and
   `ExistingPatient` treat `patient_id`.
2. **The request path of the integration** (`brightree_integration.py`):
   - `_handle_response` classifies one HTTP response as a body, an authentication error
     (`IntegrationAuthError`) or an API error (`IntegrationAPIError`).
   - `_make_request` decides what to do with the first response.
   - `_handle_manual_redirect` is the bounded, hop-by-hop redirect walk.
   - `create_patient` builds its WebForms postback form.

Files and modules:

| file | module | models |
|---|---|---|
| `wrappers.dfy` | `Wrappers` | `Option` (Python's `None`) and `Result` (a raised exception) |
| `text.dfy` | `Text` | ASCII digits, `re.sub(r'\D', '', s)`, Python's `pat in s`, `str(n)` |
| `patient_fields.dfy` | `PatientFields` | `format_phone`, `format_ssn`, `validate_email` |
| `date_of_birth.dfy` | `DateOfBirth` | `validate_date_format` and the `%Y-%m-%d` rule |
| `patients.dfy` | `Patients` | `BasePatient`, `NewPatient`, `ExistingPatient` |
| `responses.dfy` | `Responses` | `_handle_response` |
| `redirects.dfy` | `Redirects` | `_handle_manual_redirect` and the status dispatch of `_make_request` |
| `create_patient_form.dfy` | `CreatePatientForm` | `_extract_input_value` and the `create_patient` form |

Modelling choices:

- The validators are pure functions returning `Result<string, string>`. The error carries
  the `ValueError` message.
- The transport is a function from a request (method and URL) to the response, with
  redirect following disabled. `urlparse` is a function from a URL to its scheme and
  network location. Both are parameters.
- `_handle_manual_redirect` is a `method` with the source's `while` loop and its three
  variables (`redirectCount`, `currentUrl`, `currentMethod`). Its postcondition ties it to
  `WalkFrom`, a recursive specification of the walk. The properties of the walk are proved
  about `WalkFrom`. `WalkFrom` also records the requests issued, so that hop counts and
  methods can be stated.

Three behaviours of the code that are easy to misread; the model follows the code:

- Success is `status == 200 or response.ok`, that is, any status below 400. It is not only
  2xx.
- A page that looks like the login page counts as an authentication failure only on that
  success branch. A 5xx login page is an API error.
- A 4xx authentication error names the status in its message only. It does not pass the
  status as `status_code`.

## Model

| member | source | states |
|---|---|---|
| `PatientFields.FormatPhone` | models/models.py:22-34 | blank or placeholder input gives the placeholder; the result is an error (with the source's message) exactly when the input is not blank, not the placeholder, and has neither 10 digits nor 11 digits starting with `1` |
| `PatientFields.PhoneLayoutDigits` | models/models.py:29-30 | ten digits laid out as `(XXX) XXX-XXXX` have phone shape, and filtering the digits back out gives the same ten digits in order |
| `PatientFields.PhoneShapeIsLayout` | models/models.py:29-32 | every string in phone shape is the layout of its own ten digits (the inverse direction) |
| `PatientFields.FormatPhoneKeepsDigits` | models/models.py:27-32 | a successful non-blank result has length 14, is in phone shape, and carries the input's digits in order, minus a leading `1` when there were 11 |
| `PatientFields.FormatPhoneIdempotent` | models/models.py:22-34 | normalising a successful result again returns it unchanged |
| `PatientFields.FormatSsn` | models/models.py:36-46 | blank or placeholder input gives `___-__-____`; error exactly when a non-blank, non-placeholder input does not have 9 digits |
| `PatientFields.SsnLayoutDigits` | models/models.py:46 | nine digits laid out as `XXX-XX-XXXX` have SSN shape and filter back to the same digits |
| `PatientFields.SsnShapeIsLayout` | models/models.py:41-46 | every string in SSN shape is the layout of its own nine digits |
| `PatientFields.FormatSsnKeepsDigits` | models/models.py:41-46 | a successful non-blank result has length 11, SSN shape, and the input's digits in order |
| `PatientFields.FormatSsnIdempotent` | models/models.py:36-46 | normalising a successful SSN again returns it unchanged |
| `PatientFields.EmailPrefixMatchesIff` | models/models.py:53 | the scanning decision agrees, on every string, with "some prefix matches `[^@]+@[^@]+\.[^@]+`" stated by positions |
| `PatientFields.EmailPatternIgnoresTrailingText` | models/models.py:53 | the match is anchored at the start only: appending any text to a matching value keeps it matching |
| `PatientFields.ValidateEmail` | models/models.py:48-55 | blank gives `""`; a non-blank value is returned unchanged or fails with "Invalid email format" |
| `PatientFields.ValidateEmailAccepts` | models/models.py:48-55 | a non-blank value is accepted exactly when the pattern matches a prefix of it |
| `PatientFields.ValidateEmailIdempotent` | models/models.py:48-55 | validating an accepted value again returns it unchanged |
| `DateOfBirth.ParseYmdIff` | models/models.py:64 | the split at the first `-` after the year finds a reading of the string as `%Y-%m-%d` exactly when one exists, and that reading is unique |
| `DateOfBirth.ValidateDateFormat` | models/models.py:57-67 | blank gives `""`; a non-blank value is returned unchanged or fails with the source's message |
| `DateOfBirth.ValidateDateFormatAccepts` | models/models.py:57-67 | a non-blank value is accepted exactly when it reads as four-digit year, `%m` month and `%d` day, and that is a calendar day of the years 1 to 9999 |
| `DateOfBirth.ValidateDateFormatIdempotent` | models/models.py:57-67 | validating an accepted value again returns it unchanged |
| `DateOfBirth.IsoDateRoundTrip` | models/models.py:62-67 | every calendar day written as zero-padded `YYYY-MM-DD` parses back to the same day and is accepted unchanged |
| `DateOfBirth.DecidedAt` | models/models.py:62-66 | once a string reads as `%Y-%m-%d`, acceptance depends only on whether the date is a real calendar day |
| `DateOfBirth.LeapDayInLeapYear` | models/models.py:64 | `2024-02-29` is accepted |
| `DateOfBirth.LeapDayInCommonYear` | models/models.py:64 | `2023-02-29` is rejected |
| `DateOfBirth.LeapDayAccepted` | models/models.py:64 | for every year 1 to 9999, `YYYY-02-29` is accepted exactly in leap years, so a century year only when it is divisible by 400 |
| `DateOfBirth.CenturyLeapYear` | models/models.py:64 | the Gregorian rule for century years: leap exactly when divisible by 400 |
| `DateOfBirth.ShortFieldsAccepted` | models/models.py:64 | a one-digit month and day (`2024-3-5`) are accepted |
| `DateOfBirth.SpacePaddedDayAccepted` | models/models.py:64 | a space-padded day (`2024-03- 5`) is accepted |
| `Patients.ValidatePatient` | models/models.py:8-67 | the record's id is the given one or the default; with neither, the first error is the missing `patient_id`, and with one no error concerns `patient_id`; in a record that validates, an omitted name is `""`, a given name is kept, an omitted validated field is `None`, and a given one holds its validator's result |
| `Patients.ValidatedPatientIsNormalised` | models/models.py:22-67 | in a record that validates, every phone field is `None`, the placeholder or phone-shaped; the SSN is `None`, the placeholder or SSN-shaped; e-mail and date of birth are `None`, empty or accepted by their patterns |
| `Patients.ValidatePatientIdempotent` | models/models.py:22-67 | validating a record again gives the same record, when its fields are passed back with the `None` validated fields left out |
| `Patients.ValidatePatientExplicitNone` | models/models.py:22-67 | passing every field back explicitly, `None` included, turns a `None` phone or SSN into its placeholder and a `None` e-mail or date of birth into `""`, keeps every other field, and the result is then stable |
| `Patients.ValidatePatientFailsIff` | models/models.py:22-67 | a record fails exactly when its id is missing or some supplied validated field is rejected |
| `Patients.NewPatient` | models/models.py:70-71 | a new patient's id is the given one, or 0; its errors never concern `patient_id` |
| `Patients.ExistingPatient` | models/models.py:74-75 | an existing patient is built only with a given id, which it keeps; without one the first error is `patient_id` "Field required" |
| `Patients.NewPatientIdDefault` | models/models.py:70-75 | a new patient given no id gets id 0; an existing patient given no id is rejected |
| `Responses.HandleResponse` | brightree_integration.py:106-132 | the three outcomes partition all responses: the body itself iff status < 400 and the body is not a login page; auth error iff a login page below 400 (`Unauthorized`, 401) or a 4xx; API error carrying the status iff status >= 500 |
| `Responses.IsLoginPageIff` | brightree_integration.py:112-113 | the `in` tests on the body agree with "the doctype marker occurs, and the access-denied or login marker occurs" |
| `Responses.ClientErrorNamesStatus` | brightree_integration.py:123-126 | a 4xx error message is `Brightree: ` followed by the status in decimal, which reads back as the status |
| `Redirects.ResolveLocation` | brightree_integration.py:85-91 | a `Location` that does not start with `/` is used verbatim |
| `Redirects.ResolveLocationShape` | brightree_integration.py:85-91 | the next URL ends with the `Location`; a `Location` starting with `/` gets the current URL's `scheme://netloc` in front of it; any other is used verbatim |
| `Redirects.HandleManualRedirect` | brightree_integration.py:67-104 | the loop returns the outcome of the walk specified by `WalkFrom` and issues exactly its requests; with a cap of zero or less it issues no request and raises the "Too many redirects" error |
| `Redirects.WalkLength` | brightree_integration.py:69-104 | at most `max_redirects - count` requests, the first one being the original request; with no budget left, no request and the "Too many redirects" error |
| `Redirects.WalkChain` | brightree_integration.py:74-97 | every request but the last received a redirect with a `Location`, and the next request is its resolved target with the method rule applied |
| `Redirects.WalkEnd` | brightree_integration.py:73-104 | a final non-redirect response is classified and returned; a final redirect without `Location` is that API error; a final redirect with one means exactly the cap was spent and the cap error is raised |
| `Redirects.SeeOtherStaysGet` | brightree_integration.py:93-95 | after a 303 answer, every later request of the walk is a GET |
| `Redirects.MethodKeptWithoutSeeOther` | brightree_integration.py:71-95 | until some hop answers 303, every request uses the original method |
| `Redirects.WalkSuccess` | brightree_integration.py:99 | a walk that returns a body returns the body of its last response, which is a non-redirect success that is not a login page |
| `Redirects.AllRedirectsHitCap` | brightree_integration.py:73-104 | a server that always redirects with a `Location` gets exactly `max_redirects` requests, then the cap error |
| `Redirects.DefaultCapMessage` | brightree_integration.py:101-104 | with the default cap the error is "Too many redirects (max: 5)" |
| `Redirects.TwoRedirectsThenPage` | brightree_integration.py:73-99 | 302, 302, 200 issues exactly three requests, resolving relative `Location`s against the origin, and returns the final body |
| `Redirects.MakeRequest` | brightree_integration.py:47-61 | a first response that is not a redirect is classified by `_handle_response`, errors included, and a clean success among them is returned as its body; a redirect first response gives exactly the outcome of the manual walk from the original request, so the cap error when the cap is zero or less; the test for 200 adds nothing |
| `Redirects.MakeRequestReturnsCleanBody` | brightree_integration.py:47-61 | a body returned by the dispatch is that of a non-redirect success that is not a login page: the first response, or one received in the manual walk started when the first response was a redirect |
| `CreatePatientForm.ExtractInputValue` | brightree_integration.py:138-144 | the result is the `value` of the first input carrying the id, or `None` when no input carries it |
| `CreatePatientForm.ExtractTokens` | brightree_integration.py:156-158 | each of the three tokens is the value of the first input with its id, or `None` |
| `CreatePatientForm.ExtractFindsFirst` | brightree_integration.py:138-144 | the token lookup returns the value of the first input with the id |
| `CreatePatientForm.ExtractMissing` | brightree_integration.py:138-144 | with no input carrying the id, the lookup gives `None` |
| `CreatePatientForm.VaryingKeysNotStatic` | brightree_integration.py:160-376 | none of the five input-dependent keys is a key of the fixed part of the form |
| `CreatePatientForm.CreatePatientFormData` | brightree_integration.py:160-376 | the form has exactly the fixed keys plus the five varying ones, and every fixed key keeps its fixed value |
| `CreatePatientForm.FormVaryingFields` | brightree_integration.py:165-186 | the three tokens appear as their string form (a missing one as `None`), and the last and first names verbatim |
| `CreatePatientForm.FormFixedOutsideVaryingKeys` | brightree_integration.py:160-376 | any two forms have the same keys and agree on every key outside the five varying ones |
| `CreatePatientForm.CreatePatient` | brightree_integration.py:151-186 | a POST to the new-patient page whose form has exactly the fixed keys and the five varying ones, with every fixed value kept, the names verbatim and the view state of the page's first `__VIEWSTATE` input |
| `CreatePatientForm.CreatePatientEchoesViewState` | brightree_integration.py:151-167 | the posted `__VIEWSTATE` is the value of the page's first `__VIEWSTATE` input |

## Left out

- The injected `network_requester` path, the aiohttp session and the automatic-redirect request itself (brightree_integration.py:41-52) are network I/O. The `network_requester` path returns the requester's result directly and never reaches the status dispatch; it is not modelled. On the default path, the response to the automatic-redirect request enters `MakeRequest` as the first response.
- The `aiohttp.ClientError` fallback to the manual walk (brightree_integration.py:63-65) is transport failure and is not modelled.
- The transport is a pure function of method and URL. A server whose answers change between identical requests is not modelled.
- `urllib.parse.urlparse` is a parameter. The model does not say how a URL splits into scheme and network location.
- `_create_soup` (BeautifulSoup) is not part of this model. A fetched page is given as its list of `<input>` elements. `_get_create_patient_page` and the POST itself are I/O.
- The static field table of `create_patient` (brightree_integration.py:168-376) is reproduced only in part (23 of its constant entries). The model states that its values do not depend on the inputs.
- The POST headers (brightree_integration.py:378-380), the header dictionary built in `initialize` (brightree_integration.py:26-34), `UserAgent().random`, `print` logging and async/await are left out.
- `Responses.HandleResponse`: the text of the API error message includes the printed header collection. It is an opaque string field of the response here.
- The default `status_code` of `IntegrationAuthError` lives in a module that is not part of this model. The model records that none is passed.
- pydantic's machinery is left out. That covers its error wrapper texts (such as the `Value error,` prefix), type coercion of `patient_id` and the other fields, and validators' access to other fields. A record's errors are modelled as the list of failing fields in declaration order.
- The form is a `map`, so the insertion order of `form_data`, which is the field order of the url-encoded POST body, is not modelled.
- `\D` and `strptime`'s `\d` also match non-ASCII Unicode digits. The model uses ASCII digits only.
- The full `strptime` directive language is left out. Only the `%Y-%m-%d` acceptance rule is modelled.

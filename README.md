# Policy result model (policy-reporter, PolicyReport v1alpha2)

A Dafny model of the logic in `pkg/crd/api/policyreport/v1alpha2/common.go`
of policy-reporter. That file has three pieces of behaviour, and the model
covers all three:

- **Priority.** The internal urgency weighting. It covers the `Priority`
  enumeration (Default, Debug, Info, Warning, Critical, Error, in that
  order), its lowercase labels (`String`, `NewPriority`), its JSON form
  (`MarshalJSON`) and the fixed table from severity to priority
  (`PriorityFromSeverity`).
- **Primary resource.** A policy result may name several resources. The
  first one is its primary subject (`GetResource`, `HasResource`).
- **Result identity.** `GetID` returns a memoised identity. A cached `ID`
  wins. Otherwise a collector-supplied `Properties["resultID"]` is used.
  Otherwise the identity is the base-10 rendering of a 64-bit FNV-1a hash
  over the primary resource's Name and UID, Policy, Rule, Result, Category
  and Message.

Go strings are byte strings, so every string here is `Bytes = seq<byte>`.
The uint64 hash state is a `bv64`, so its multiplication wraps modulo 2^64
as Go's does.

Module layout:

- `bytes.dfy`: bytes, and a helper that turns string literals into bytes.
- `wrappers.dfy`: `Option`, which stands for a pointer that may be nil.
- `fnv1a.dfy`: 64-bit FNV-1a with the offset basis 14695981039346656037 and
  the prime 1099511628211. It holds a pure fold, the byte loop
  `AddString64` proved against that fold, and the fold's laws.
- `decimal.dfy`: `strconv.FormatUint(x, 10)`, with its inverse used to
  state what it means.
- `priority.dfy`: Priority and severity.
- `policy_report.dfy`: the result record as a class whose `GetID` writes
  its `ID` field.

Two consequences of the code are easy to miss, and the model keeps both:

- GetID can return "". It returns `Properties["resultID"]` as it is, so it
  returns "" when that value is "". It then leaves `ID` empty, so a later
  call checks again.
- Agreeing on the identity fields is not the only way for two results to
  get the same identity. The fields are hashed one after another with
  nothing between them. So moving bytes from one field to the next
  gives the same identity for certain, not just by a hash collision.
  `FieldBoundaryCollision` proves this.

## Model

| member | source | states |
|---|---|---|
| Priorities.String | pkg/crd/api/policyreport/v1alpha2/common.go:68-83 | the label is "" exactly when the priority is not one of Debug..Error, so Default and every undeclared int render as ""; otherwise it is one of the five labels |
| Priorities.NewPriority | pkg/crd/api/policyreport/v1alpha2/common.go:95-110 | total and never fails; always returns a declared priority; returns Default exactly for strings that are not one of "debug", "info", "warning", "error", "critical" |
| Priorities.NewPriorityOfString | pkg/crd/api/policyreport/v1alpha2/common.go:68-110 | for each of the six declared priorities p, NewPriority(String(p)) == p |
| Priorities.StringOfNewPriority | pkg/crd/api/policyreport/v1alpha2/common.go:58-65 | for every string s, String(NewPriority(s)) is s when s is a label and "" otherwise |
| Priorities.StringInjective | pkg/crd/api/policyreport/v1alpha2/common.go:68-83 | distinct named priorities have distinct labels |
| Priorities.LabelsDistinct | pkg/crd/api/policyreport/v1alpha2/common.go:38-65 | the five priority labels are pairwise distinct, and so are the five severity constants |
| Priorities.LabelsAreLetters | pkg/crd/api/policyreport/v1alpha2/common.go:58-65 | every label, "" included, is made of lowercase ASCII letters only |
| Priorities.PriorityFromSeverity | pkg/crd/api/policyreport/v1alpha2/common.go:113-128 | never returns Default; returns Debug exactly for strings that are not one of the five documented severities |
| Priorities.SeverityTable | pkg/crd/api/policyreport/v1alpha2/common.go:113-128 | critical gives Critical, high gives Error, medium gives Warning, low and info give Info, "" gives Debug |
| Priorities.HighOutranksCritical | pkg/crd/api/policyreport/v1alpha2/common.go:49-56 | because Error is declared after Critical, severity "high" ranks above severity "critical" |
| Priorities.MarshalJSON | pkg/crd/api/policyreport/v1alpha2/common.go:86-92 | the label between double quotes and a nil error: a JSON string literal that needs no escapes and whose text is exactly String(p) |
| Priorities.MarshalJSONIsQuotedLabel | pkg/crd/api/policyreport/v1alpha2/common.go:86-92 | unquoting the MarshalJSON output and reading it with NewPriority gives back each of the six declared priorities |
| Fnv1a.AddString64 | pkg/crd/api/policyreport/v1alpha2/common.go:258-266 | the byte loop (xor with the byte, then multiply by the prime modulo 2^64) computes the fold of the hash state over the string |
| Fnv1a.FoldEmpty | pkg/crd/api/policyreport/v1alpha2/common.go:257-260 | absorbing the empty string leaves the hash state unchanged |
| Fnv1a.FoldAppend | pkg/crd/api/policyreport/v1alpha2/common.go:254-266 | absorbing a and then b is the same as absorbing a + b, which is why field-by-field hashing is hashing the concatenation |
| Fnv1a.HashOfA | pkg/crd/api/policyreport/v1alpha2/common.go:254-258 | FNV-1a 64 of "a" is the FNV standard's published test vector 0xaf63dc4c8601ec8c, which pins the offset basis, the prime and the xor-before-multiply order of the fasthash calls |
| Decimal.Digits | pkg/crd/api/policyreport/v1alpha2/common.go:268 | the base-10 rendering is non-empty, all digits, with no leading zero except for "0" itself |
| Decimal.FormatUint | pkg/crd/api/policyreport/v1alpha2/common.go:268 | strconv.FormatUint(x, 10) is a canonical decimal string |
| Decimal.ParseDigits | pkg/crd/api/policyreport/v1alpha2/common.go:268 | parsing the rendering of n gives n back |
| Decimal.DigitsOfParse | pkg/crd/api/policyreport/v1alpha2/common.go:268 | every canonical digit string is the rendering of its own value |
| Decimal.DigitsInjective | pkg/crd/api/policyreport/v1alpha2/common.go:268 | distinct numbers render differently, so distinct hashes give distinct IDs |
| Decimal.ParsePositive | pkg/crd/api/policyreport/v1alpha2/common.go:268 | a canonical digit string that does not start with "0" has a positive value |
| Decimal.DigitsLength | pkg/crd/api/policyreport/v1alpha2/common.go:268 | a number below 10^k renders in at most k digits |
| Decimal.FormatUintLength | pkg/crd/api/policyreport/v1alpha2/common.go:268 | a uint64 renders in 1 to 20 digits |
| PolicyReports.FieldsHash | pkg/crd/api/policyreport/v1alpha2/common.go:254-266 | threading the hash state through Name, UID (only when a resource exists), Policy, Rule, Result, Category and Message is FNV-1a 64 of their concatenation |
| PolicyReports.ConcatenatedHash | pkg/crd/api/policyreport/v1alpha2/common.go:262-266 | six successive AddString64 steps equal one fold over the six strings concatenated |
| PolicyReports.PolicyReportResult.GetResource | pkg/crd/api/policyreport/v1alpha2/common.go:231-237 | nil exactly when Resources is empty; otherwise element 0 |
| PolicyReports.PolicyReportResult.HasResource | pkg/crd/api/policyreport/v1alpha2/common.go:239-241 | true exactly when GetResource is not nil |
| PolicyReports.PolicyReportResult.ResultID | pkg/crd/api/policyreport/v1alpha2/common.go:243-270 | a cached non-empty ID is returned as it is; otherwise a present resultID property is returned, even ""; otherwise the result is the decimal rendering of FNV-1a 64 over the identity fields, a canonical digit string of 1 to 20 digits |
| PolicyReports.PolicyReportResult.GetID | pkg/crd/api/policyreport/v1alpha2/common.go:243-271 | returns ResultID of the state before the call and caches it in ID; nothing but ID changes; a non-empty ID is never overwritten |
| PolicyReports.CachedIDSurvivesEdits | pkg/crd/api/policyreport/v1alpha2/common.go:243-246 | after a GetID that returned a non-empty value, changing Policy, Message, Properties and Resources does not change what the next GetID returns |
| PolicyReports.DeterminedByIdentityFields | pkg/crd/api/policyreport/v1alpha2/common.go:243-270 | two results that agree on ID, the resultID property, the primary resource and Policy, Rule, Result, Category and Message get the same identity. Source, Scored, Timestamp, Severity, Priority, other properties and later resources may all differ |
| PolicyReports.NoResourceIDAsEmptyResource | pkg/crd/api/policyreport/v1alpha2/common.go:256-260 | a result with no resources gets the same identity as one whose first resource has empty Name and UID, other fields equal |
| PolicyReports.FieldBoundaryCollision | pkg/crd/api/policyreport/v1alpha2/common.go:262-266 | with Policy + Rule fixed, how the bytes split between the two fields does not change the hash |

## Left out

- PolicyReportSummary.ToMap (common.go:153-158): this is a marshal and unmarshal through `encoding/json` with its errors thrown away. It has no logic of its own, and neither has the summary struct, so neither is modelled.
- The status constants (common.go:28-35) are declarations only. No operation in the file reads them, so the model leaves them out.
- Summary counting: the file declares the summary struct but no code that counts results into it, so there is no fold to model.
- ReportInterface (common.go:273-282): an interface with no implementation in this file.
- corev1.ObjectReference keeps only Name and UID, the two fields the identity reads. The resource selector is dropped. metav1.Timestamp is an opaque pair of integers.
- PolicyReports.PolicyReportResult.GetResource: Go returns a pointer into the Resources slice. The model returns the element by value, so writes through that pointer are not modelled.
- PolicyReports.PolicyReportResult.GetID: modelled as single-threaded. The cache write has no lock in Go, so concurrent callers are not modelled.
- JSON struct tags and kubebuilder validation markers are serialisation metadata, not behaviour.
- segmentio/fasthash/fnv1a and strconv are outside this file. They are written here from the FNV-1a definition and from the meaning of base-10 formatting. fasthash's 8-byte loop unrolling is not modelled, since it gives the same result as the byte-by-byte loop.

# Contact-form validator

This project is a Dafny model of the contact-form validator of an
event-management brochure site (`src/utils/validation.ts`), with proofs of
what it does. The validator has four field predicates and one aggregating
function:

- `isValidEmail` runs the regular expression `^[^\s@]+@[^\s@]+\.[^\s@]+$`;
- `isValidPhone` deletes every non-digit and requires 10 to 15 digits;
- `isNotEmpty` requires something other than white space;
- `hasMinLength` compares the untrimmed length with a bound;
- `validateContactForm` checks `name`, `email`, `phone` and `message`. Each
  field has two rules, checked in order, and the message of the first rule
  that fails becomes that field's entry in the error record. The result is
  valid exactly when the error record has no keys.

Files:

- `wrappers.dfy`: the `Option` type used for the optional properties of the
  error record.
- `js_string.dfy` (module `JsString`): the JavaScript string primitives the
  validator uses. These are the white-space class shared by `\s` and `trim()`,
  `length` counted in UTF-16 code units, `trim()`, and `replace(/\D/g, '')`.
- `validation.dfy` (module `Validation`): the records, the predicates, the
  validator and their properties.
  - The validator appears twice. `ValidateContactForm` is a method that fills a
    local error record through four if/else-if chains, as the source does.
    `Validate` is the function it is proved equal to.
  - The lemmas are stated about `Validate`.
  - The email regular expression is also modelled twice. `MatchesEmailPattern`
    is the regular expression read as three runs of characters.
    `IsValidEmail` is an explicit character check. They are proved equivalent.
- `validation_examples.dfy` (module `ValidationExamples`): concrete
  submissions and field values with their outcomes.

## Model

| member | source | states |
|---|---|---|
| `JsString.Utf16Length` | src/utils/validation.ts:52 | The JavaScript length of a string is between its number of characters and twice that. It equals the number of characters when every character is in the Basic Multilingual Plane, and it is 0 only for "". |
| `JsString.Trim` | src/utils/validation.ts:45 | `trim()` returns nothing longer than its input. It returns "" exactly when the input is all white space. Otherwise what it returns neither starts nor ends with white space. |
| `JsString.TrimSplit` | src/utils/validation.ts:45 | `trim()` returns a slice of its input with only white space before and after it. |
| `JsString.TrimUnique` | src/utils/validation.ts:45 | Take any split of a string into white space, a middle part, and white space, where the middle part is empty or has no white space at either end. Then `trim()` returns that middle part. |
| `JsString.TrimIdempotent` | src/utils/validation.ts:45 | Trimming twice gives the same result as trimming once. |
| `JsString.KeepDigits` | src/utils/validation.ts:37 | `replace(/\D/g, '')` returns only ASCII digits and is no longer than its input. |
| `JsString.KeepDigitsMultiset` | src/utils/validation.ts:37 | `replace(/\D/g, '')` keeps every ASCII digit as often as it occurs and drops every other character. |
| `JsString.KeepDigitsAppend` | src/utils/validation.ts:37 | Stripping non-digits from a concatenation is the concatenation of the stripped parts, so order is kept. |
| `JsString.KeepDigitsCounts` | src/utils/validation.ts:37-38 | The stripped string's length is the number of digit positions in the input. |
| `Validation.EmailMatchesPattern` | src/utils/validation.ts:28-31 | `isValidEmail` accepts exactly what `^[^\s@]+@[^\s@]+\.[^\s@]+$` matches. This holds in both directions. |
| `Validation.ValidEmailMatches` | src/utils/validation.ts:28-31 | Every address the explicit check accepts matches the regular expression. |
| `Validation.MatchIsValidEmail` | src/utils/validation.ts:28-31 | Every string the regular expression matches passes the explicit check. |
| `Validation.EmailFromParts` | src/utils/validation.ts:29 | Any three non-empty runs of `[^\s@]`, joined as x@y.z, form a valid address. |
| `Validation.ValidEmailShape` | src/utils/validation.ts:28-31 | A valid address has no white space and exactly one '@'. The '@' is not the first character. After it comes some x.y with x and y non-empty. |
| `Validation.PhoneDigitCount` | src/utils/validation.ts:36-39 | `isValidPhone` holds exactly when the number of ASCII digits is between 10 and 15 inclusive. |
| `Validation.PhoneIgnoresNonDigits` | src/utils/validation.ts:36-39 | Inserting a non-digit anywhere never changes `isValidPhone`. |
| `Validation.NotEmptyIff` | src/utils/validation.ts:44-46 | `isNotEmpty` holds exactly when some character is not white space. So "" and all-white-space strings fail. |
| `Validation.MinLengthIsUntrimmed` | src/utils/validation.ts:51-53 | `hasMinLength` is false on "" for every bound. On text in the Basic Multilingual Plane it compares the raw, untrimmed length. |
| `Validation.SecondRuleImpliesNotEmpty` | src/utils/validation.ts:68-80 | A valid email address or phone number is never blank. So for these two fields, the second rule alone decides whether the field has an entry. |
| `Validation.ValidateContactForm` | src/utils/validation.ts:58-93 | The imperative validator returns exactly `Validate(formData)`. Its result is valid exactly when the error record is empty. It never sets `submit`. |
| `Validation.KeysEmptyIff` | src/utils/validation.ts:90 | `Object.keys(errors)` is empty exactly when none of the five properties is set. |
| `Validation.KeysOfErrors` | src/utils/validation.ts:90 | `Object.keys(errors)` lists exactly the properties that are set. Without `submit` it has at most four keys. |
| `Validation.FieldErrorCases` | src/utils/validation.ts:61-87 | A field's entry is its "required" message exactly when `isNotEmpty` fails. It is its second message exactly when `isNotEmpty` passes and the second rule fails. Otherwise there is no entry. |
| `Validation.ValidateEntries` | src/utils/validation.ts:58-93 | Every field is checked, and each entry comes from that field's own rule chain. `submit` is never set. |
| `Validation.ValidIffNoErrors` | src/utils/validation.ts:89-92 | `isValid` is true exactly when the error record is empty. |
| `Validation.ValidIffAllRulesPass` | src/utils/validation.ts:58-93 | A submission is valid exactly when both rules of every field pass. |
| `Validation.FieldIndependence` | src/utils/validation.ts:61-87 | Changing one field never changes another field's entry. |
| `Validation.KeysOfResult` | src/utils/validation.ts:58-93 | The result's error record has a key for each failing field and nothing else, so at most four keys. |
| `ValidationExamples.EmptyFormExample` | src/utils/validation.ts:62-84 | An all-empty form gets the four "required" messages, is invalid, and has no `submit` entry. |
| `ValidationExamples.ValidFormExample` | src/utils/validation.ts:58-93 | "Jo", "a@b.co", "1234567890", "Hello there!" is valid and has an empty error record. |
| `ValidationExamples.ShortNameExample` | src/utils/validation.ts:64-65 | With name "J" and valid other fields, the only entry is "Name must be at least 2 characters". |
| `ValidationExamples.BadEmailExample` | src/utils/validation.ts:71-72 | "not-an-email" gets "Please enter a valid email address". |
| `ValidationExamples.ShortPhoneExample` | src/utils/validation.ts:78-79 | "12345" gets "Please enter a valid phone number". |
| `ValidationExamples.FormattedPhoneExample` | src/utils/validation.ts:36-39 | "+1 (234) 567-8901" passes: 11 digits remain after stripping. |
| `ValidationExamples.MinLengthExamples` | src/utils/validation.ts:44-53 | "a " passes a minimum of 2. A single emoji passes a minimum of 2. "" fails even a minimum of 0. White space alone is empty. |
| `ValidationExamples.DottedEmailExample` | src/utils/validation.ts:29 | Dots may appear both before and after the '@'. |
| `ValidationExamples.TwoAtsExample` | src/utils/validation.ts:29 | A second '@' is rejected. |
| `ValidationExamples.MissingPartsExample` | src/utils/validation.ts:29 | The address is rejected if nothing comes before the '@', or if the '.' is first or last after it. |
| `ValidationExamples.SpaceInEmailExample` | src/utils/validation.ts:29 | White space inside an address is rejected. |

## Left out

- Absent or `null` field values are not modelled. Every field is a string, as `ContactFormData` declares. The `value &&` guards would make such a value behave like "" in `isNotEmpty`, so the field would get its "required" message.
- `isNotEmpty` and `hasMinLength` return the empty string, not `false`, for "". The model returns the boolean `false`, which is what the callers' `!` sees.
- `HasMinLength`: the bound is an integer. The source's `number` could also be a fraction or NaN, but the only callers pass 2 and 10.
- A JavaScript string can hold lone UTF-16 surrogates. A Dafny string holds only Unicode scalar values, so such strings are not modelled. Every other string is, and its `length` counts UTF-16 code units.
- The regular-expression engine is not modelled. The two regular expressions are replaced by character predicates, and the `EmailMatchesPattern` lemma ties the email one to the pattern's structure. The white-space class is the fixed ECMAScript set of white-space and line-terminator characters.
- `Object.keys` returns its keys in insertion order. The model keeps them as a set, because only their number is used.
- Purity and idempotence are not stated as lemmas. Every member other than the method is a Dafny function, so equal inputs give equal outputs by construction.
- The `submit` entry is set by a caller after a failed delivery. That caller is not part of this model. The validator never sets it, and `ValidateEntries` proves this.
- The pages, components, hooks and type declarations are not part of this model. They hold view markup, routing, browser observers, and timers over the DOM.

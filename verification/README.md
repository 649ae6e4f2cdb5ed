# error-pile, modelled in Dafny

A model of the decision logic of the `error-pile` Rust crate, which gathers the
errors of many libraries under one enum, `ErrPile`. It covers three parts:

- **The JSON error-message extractor** (`SerdeValue::extract_error_from_json`).
  It receives a JSON failure body of unknown shape and returns the most plausible
  human-readable message in it. It never fails. A string comes back verbatim.
  Other non-objects come back as their compact serialisation. An object is
  scanned for ten candidate field names in a fixed priority order, with a
  recursive search into nested objects. When nothing is found, the object is
  pretty-printed, or the text `Unknown error format` is returned if printing fails.
- **`ErrPile`**: its variants, display texts, `#[from]` conversions and causes,
  the `custom` constructor, `From<&str>`, `From<ErrPile> for PileResult<T>`, and
  the Graph response-envelope conversion `MSResponse<T> -> PileResult<T>`.
  The crate has two versions of that conversion: src/lib.rs builds `Response(err)`
  and src/microsoft.rs builds `MS(err)`. Both are modelled, and one lemma shows
  they make the same decision.
- **The Azure error records** `AZError`, `AZErrorDetails` and `AZErrorInner`.
  The model covers their recursive structure, the `"code - message"` display,
  and the `source()` chain. That chain follows `innererror` and never
  `details`.

Files: `wrappers.dfy` (Option, Result), `json.dfy` (the JSON value and member
lookup), `value.dfy` (src/value.rs), `envelope.dfy` (the `MSResponse` records
both source files declare), `lib.dfy` (src/lib.rs), `microsoft.dfy`
(src/microsoft.rs).

The serde printers `Value::to_string` and `to_string_pretty` are outside the
model. The extractor takes them as a `Printer` parameter, and the pretty printer
returns an `Option` so that its failure branch is modelled. The derived `Debug`
text used in the `Custom` message of the envelope conversion is a parameter too.
Foreign error types are modelled by the text their own `Display` prints.

A JSON object is a sequence of key/value members with no constraint on its
keys, and lookup takes the first member carrying a key. A `serde_json::Map`
never holds two members with the same key. Every lemma about the extractor
holds for all member sequences, so it also holds for the key-unique ones
(`UniqueKeys`), where the first member with a key is the only one.

## Model

| member | source | states |
|---|---|---|
| `JsonValue.Find` | src/value.rs:29 | member lookup for `obj.get(field)`: finds the first member with the key, and returns none exactly when no member has it |
| `JsonValue.Get` | src/value.rs:29 | `Map::get` returns a value exactly when some member carries the key, and that value is stored under the key |
| `JsonValue.GetUniqueMember` | src/value.rs:29 | on an object with unique keys, as a `serde_json::Map` always is, `Get` returns the value of the one member carrying the key |
| `Value.Yield` | src/value.rs:29-39 | what one candidate contributes: a string field gives its text unchanged; an object field contributes its own nested extraction exactly when that is non-empty; a missing field or any other kind of value contributes nothing |
| `Value.Scan` | src/value.rs:28-45 | the loop's result is either the fallback or the contribution of one of the scanned candidate names |
| `Value.Fallback` | src/value.rs:44-45 | the pretty-printed object when printing succeeds, else exactly `Unknown error format` |
| `Value.ExtractError` | src/value.rs:46-49 | a JSON string comes back verbatim, including the empty string; a number, bool, null or array comes back as its compact serialisation |
| `Value.ScanTakesFirstYield` | src/value.rs:28-41 | the field loop stops at the first candidate name that yields a result and returns that result |
| `Value.ScanFallsBack` | src/value.rs:43-45 | when no candidate yields, the loop ends in the pretty-printed object, or `Unknown error format` |
| `Value.ScanSkipsPrefix` | src/value.rs:28-41 | once every earlier candidate has been passed over, the scan goes on as if it had started at the next name |
| `Value.ObjectResult` | src/value.rs:13-45 | for an object, the result is the text of the highest-priority yielding candidate in the order error, err, message, detail, details, description, errorMessage, error_message, reason, title; if none yields, it is the fallback |
| `Value.StringFieldWins` | src/value.rs:29-31 | a candidate holding a string is returned once the earlier candidates are passed over, even an empty string |
| `Value.NestedObjectField` | src/value.rs:32-37 | a candidate holding an object is searched recursively; a non-empty nested result is returned, and an empty one lets the scan continue |
| `Value.OtherFieldSkipped` | src/value.rs:28-40 | a missing candidate, or one holding a number, bool, null or array, is skipped |
| `Value.OnlyCandidateFieldsMatter` | src/value.rs:15-45 | keys outside the ten names never change the result except through the printed fallback |
| `Value.NoCandidateFallsBack` | src/value.rs:43-45 | an object with no candidate key is printed whole |
| `Value.FirstIndex` | src/value.rs:28-41 | if some candidate yields, there is a first one that does |
| `Value.SameFieldSameYield` | src/value.rs:29-39 | what a candidate contributes depends only on the value stored under it |
| `Value.ExtractErrorFromJson` | src/value.rs:10-51 | the `for` loop with early returns and recursive calls computes the same text as the recursive definition, on every input |
| `Value.FromValue` | src/value.rs:54-58 | `From<Value>` keeps the JSON value unchanged |
| `Value.Display` | src/value.rs:60-64 | `Display` prints the compact form of the wrapped value, which for a number, bool, null or array is also the extracted message |
| `Value.ExtractAgreesWithDisplayOnScalars` | src/value.rs:46-64 | for a number, bool, null or array, the extracted message is what `Display` prints |
| `Value.ExampleTopLevelError` | src/value.rs:15-31 | `{"error": "disk full"}` gives `disk full` |
| `Value.ExampleNestedError` | src/value.rs:32-37 | `{"error": {"message": "nested fail"}}` gives `nested fail` |
| `Value.ExampleMessageBeforeTitle` | src/value.rs:15-31 | `{"title": "Not Found", "message": "resource missing"}` gives `resource missing` |
| `Value.ExampleNoCandidate` | src/value.rs:43-45 | `{"foo": "bar"}` gives its pretty-printed form, or `Unknown error format` |
| `Value.ExampleNestedFallbackWins` | src/value.rs:32-37 | in `{"error": {"code": 7}, "message": ""}` the nested object has no candidate and yields its own printed form; whenever that is non-empty it wins over the later `message` |
| `Pile.Display` | src/lib.rs:50-92 | `Custom` shows its text unchanged; `IO` shows `IO Err: ` and the I/O error's own text; every other variant (bar `MS`) shows a fixed text from which its kind reads back |
| `Pile.Source` | src/lib.rs:50-93 | an error has a cause exactly when it is one of the `#[from]` variants |
| `Pile.Wrap` | src/lib.rs:50-89 | every `#[from]` conversion is total; it gives the variant of its own domain, and that variant's cause is the wrapped error unchanged |
| `Pile.WrapCoversWrappers` | src/lib.rs:50-89 | every wrapping variant is the conversion of its own cause |
| `Pile.WrappedCauseKeepsDisplay` | src/lib.rs:50-89 | the cause of a wrapped error displays the same text as the original error (a corollary of `Pile.Wrap`) |
| `Pile.DisplayIgnoresPayload` | src/lib.rs:50-87 | every wrapper except `IO` shows its constant text, whatever it carries |
| `Pile.DisplayIdentifiesVariant` | src/lib.rs:50-87 | the fixed display texts are pairwise different: two fixed-text errors that print the same are of the same kind; among the fixed-text variants only `Auth` prints the invalid-credentials sentence (a `Custom` error can print it too) |
| `Pile.IoDisplayShowsCause` | src/lib.rs:88-89 | `IO(e)` displays `IO Err: ` followed by the display of `e`, which can be read back from it |
| `Pile.CustomOf` | src/lib.rs:91-102 | `ErrPile::custom(msg)` is a `Custom` error, and its display gives back `msg` unchanged |
| `Pile.FromStr` | src/lib.rs:111-115 | `From<&str>` gives the same error as `ErrPile::custom`, which displays the text unchanged |
| `Pile.IntoResult` | src/lib.rs:105-109 | `From<ErrPile> for PileResult<T>` always gives `Err` of the same error, never `Ok` |
| `Pile.FromMSResponse` | src/lib.rs:27-42 | the result is `Ok` exactly when the error is absent and the value present, and then it holds that value; a present error gives `Err(Response(err))` even when a value is present too; with neither, the result is a `Custom` error whose text starts with the fixed `Could not parse...` prefix |
| `Microsoft.FromMSResponse` | src/microsoft.rs:31-45 | the same three-way decision with `Err(MS(err))`: the error wins, else the value, else a `Custom` error |
| `Microsoft.ConversionsAgree` | src/microsoft.rs:31-45 | the src/microsoft.rs conversion is the src/lib.rs one with `Response` relabelled as `MS` |
| `Microsoft.DetailsDisplay` | src/microsoft.rs:74-78 | `AZErrorDetails` prints its code, ` - `, then its message; both parts can be cut back out of the text |
| `Microsoft.AZErrorDisplay` | src/microsoft.rs:53-57 | an `AZError` prints its details' code, ` - `, then the details' message |
| `Microsoft.AZErrorDisplayRoundTrip` | src/microsoft.rs:53-57 | an `AZError`'s code and message can be read back from its display when the code has no hyphen |
| `Microsoft.InnerDisplay` | src/microsoft.rs:95-103 | `AZErrorInner` prints code, ` - `, message, with a missing part shown as empty, so a missing code leaves the text starting with the separator and a missing message leaves it ending with it |
| `Microsoft.InnerDisplayAsDetails` | src/microsoft.rs:95-103 | an inner error prints in the details' `code - message` format, with a missing part shown as empty |
| `Microsoft.MissingPartsPrintEmpty` | src/microsoft.rs:95-103 | a missing code or message prints the same as an empty one |
| `Microsoft.SeparatorAt` | src/microsoft.rs:76 | finds the first ` - ` separator in a text, and returns none only when there is none |
| `Microsoft.DashedRoundTrip` | src/microsoft.rs:74-78 | the `"{} - {}"` format can be split back into its two parts when the left part has no hyphen |
| `Microsoft.DetailsDisplayRoundTrip` | src/microsoft.rs:74-78 | code and message can be read back from a details display when the code has no hyphen |
| `Microsoft.InnerDisplayRoundTrip` | src/microsoft.rs:95-103 | code and message can be read back from an inner display when the code has no hyphen, with a missing part read back as empty |
| `Microsoft.AZErrorSource` | src/microsoft.rs:59-63 | `AZError::source` is always present and is its details |
| `Microsoft.DetailsSource` | src/microsoft.rs:80-84 | `AZErrorDetails::source` is present exactly when `innererror` is, and is that inner error |
| `Microsoft.InnerSource` | src/microsoft.rs:106-110 | `AZErrorInner::source` is present exactly when its boxed `innererror` is, and is that inner error |
| `Microsoft.InnerChain` | src/microsoft.rs:88-93 | the `innererror` links of a chain in order: empty exactly when there is no link, starting at the first link, each link's `innererror` the next one, the last with none |
| `Microsoft.CauseSource` | src/microsoft.rs:80-84 | one `source()` step below an `AZError` never returns a details record, and always moves one link further down the chain |
| `Microsoft.Causes` | src/microsoft.rs:80-110 | repeated `source()` calls end; they return as many causes as there are links left below, all of them inner errors |
| `Microsoft.Walk` | src/microsoft.rs:59-110 | the walk from an `AZError` starts with its details record and has one more cause than the `innererror` chain has links |
| `Microsoft.CausesFollowInnerChain` | src/microsoft.rs:80-110 | below a record, repeated `source()` calls visit exactly the rest of its `innererror` chain, in order |
| `Microsoft.WalkFollowsInnerErrors` | src/microsoft.rs:59-110 | walking `source()` from an `AZError` is finite; it visits the details first, then exactly the `innererror` chain; no later cause is a details record |
| `Microsoft.WalkIgnoresDetails` | src/microsoft.rs:65-84 | replacing the `details` list changes nothing after the first cause of the walk, so the list is never entered |

## Left out

- The transience and retry predicates, the not-ready sentinel, the HTTP status labels, and the dispatch of a failed HTTP body (try the Azure schema, else keep the raw JSON): none of these appear in src/lib.rs, src/microsoft.rs or src/value.rs.
- src/size_check.rs only prints type sizes; there is no logic to model.
- The foreign error types (`DbErr`, russh, sftp, graph-rs, calamine, zip, base64, tokio `JoinError`, `std::io::Error`) are known only by their display text.
- serde deserialisation is left out; the two serde printers are parameters. So is the derived `Debug` text inside the `Could not parse...` message. Only its fixed prefix is stated.
- `AZWarning` is a plain record with no behaviour.
- `SerdeValue`'s `source()` always returns nothing. The model has no cause type for it.
- The `target` field of `AZErrorDetails` is carried but never read.
- Pile.Display: the `MS` variant is declared in a version of src/lib.rs that is not part of this model. Its display text and cause are unknown, so `Display` and `Source` exclude it.
- Pile.Source: the `MS` variant is excluded for the same reason.
- Pile.DisplayIdentifiesVariant: covers the fixed-text variants only. A `Custom` error prints its text unchanged, so `Custom(AuthText)` prints the same sentence as `Auth`. An `IO` text always starts with `IO Err: `, but the model does not prove that this prefix differs from every fixed text.

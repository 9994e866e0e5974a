# Keyword-proximity extractor of medicalAPI, modelled in Dafny

The service takes a free-text clinical note and mines it for a weight, a
height and the symptoms. `MachineLearning` cuts the text at single spaces
and looks for fixed keywords. It normalises each word (diacritic folding,
then lowercasing) before comparing it with the keywords. A suffix scan
(`getValueFromSufix`) walks backward from a keyword to the nearest value.
A prefix scan (`getValueFromPrefix`) walks forward from a keyword. A value
is a word that parses as a number in numeric mode, or any word at all in
text mode. `processText` runs three numeric suffix scans (weight, metres,
centimetres) and one text prefix scan (symptoms). It builds a result record
and serialises it. `TodoController.create` answers
`{"error":"Incorrect parameter"}` when the request text is missing or
empty, and otherwise returns what `processText` returns.

Modules:

- `Common`: `Option` (Swift's `T?`, with `GetOr` as `??`) and `Outcome`,
  which is either a completed value or a runtime trap.
- `Tokens`: `components(separatedBy: " ")` as `Split`, with `Join` as its
  inverse.
- `KeywordScan`: the two scans. Each is a method with the source's nested
  loops and early returns, proved equal to a recursive specification
  function. The specification functions are then described independently:
  when the scan traps, which keyword occurrence wins, which token supplies
  the value, and when nothing is found.
- `MachineLearning`: the keyword lists, the result record, the height
  arithmetic and `processText`.
- `TodoController`: the empty-input guard of `create`.

The Swift generic dispatch `T.self is Double.Type` / `T.self is String.Type`
is replaced by a converter the caller passes in. The number parser is
numeric mode; `AsText`, which accepts every word unchanged, is text mode.

Behaviour of the code that a reader might not expect, kept in the model:

- A suffix scan traps when a keyword is the first word.
  `let index = i - 1` followed by `(0 ... index).reversed()` builds the
  closed range `0...-1`, which Swift rejects at run time. So `"kg 30"` and
  `"peso 80 kg ..."` stop the process. They do not give a null weight.
  `processText` traps exactly when the first word normalises to a weight or
  height keyword.
- The height is metres plus centimetres. `??` binds looser than `*`, so
  `currentHeightMeter ?? 0 * 100` is `currentHeightMeter ?? 0`. Therefore
  `"1 m 70 cm"` gives 71, not 170.

## Model

| member | source | states |
|---|---|---|
| `Tokens.JoinSplit` | Sources/App/Controllers/TodoController.swift:68 | Splitting at spaces loses nothing: the pieces joined with single spaces give back the text. |
| `Tokens.SplitJoin` | Sources/App/Controllers/TodoController.swift:68 | Space-free pieces joined with spaces split back into exactly those pieces. |
| `Tokens.SplitHasNoSpace` | Sources/App/Controllers/TodoController.swift:68 | No token contains a space. |
| `Tokens.SplitCount` | Sources/App/Controllers/TodoController.swift:68 | Empty tokens are kept: there is one more token than there are spaces. |
| `KeywordScan.GetValueFromSuffix` | Sources/App/Controllers/TodoController.swift:67-88 | The nested backward loops, with the trap on the range `0...-1` and the early returns, compute the suffix scan's specification. |
| `KeywordScan.GetValueFromPrefix` | Sources/App/Controllers/TodoController.swift:90-111 | The nested forward loops, with their early returns, compute the prefix scan's specification. |
| `KeywordScan.SuffixTrapsIff` | Sources/App/Controllers/TodoController.swift:72-74 | The suffix scan traps if and only if the first token normalises to a keyword. |
| `KeywordScan.SuffixFoundIff` | Sources/App/Controllers/TodoController.swift:69-84 | A value is found if and only if the first token is no keyword and some keyword occurrence i is the earliest with a value before it. The value comes from the largest j < i whose token converts. |
| `KeywordScan.SuffixNotFoundIff` | Sources/App/Controllers/TodoController.swift:69-87 | The result is nil if and only if there is no trap and no keyword occurrence has a convertible token before it. |
| `KeywordScan.SuffixTextFirstKeyword` | Sources/App/Controllers/TodoController.swift:73-83 | In text mode the first keyword occurrence i decides: it traps when i is 0, and otherwise yields the raw token at i-1. |
| `KeywordScan.SuffixTextNotFoundIff` | Sources/App/Controllers/TodoController.swift:69-87 | In text mode the result is nil if and only if no token normalises to a keyword. |
| `KeywordScan.PrefixNeverTraps` | Sources/App/Controllers/TodoController.swift:96-97 | The prefix scan never traps, since `i + 1 ..< count` is always a valid range, empty for the last token. |
| `KeywordScan.PrefixFoundIff` | Sources/App/Controllers/TodoController.swift:92-107 | A value is found if and only if the first keyword occurrence i has a convertible token after it. The value comes from the smallest such j > i. |
| `KeywordScan.PrefixNotFoundIff` | Sources/App/Controllers/TodoController.swift:92-110 | The result is nil if and only if no keyword occurrence has a convertible token after it. |
| `KeywordScan.PrefixTextFirstKeyword` | Sources/App/Controllers/TodoController.swift:96-106 | In text mode the first keyword occurrence i yields the raw token at i+1, or nil when i is the last token. |
| `MachineLearning.ProcessTextTrapsIff` | Sources/App/Controllers/TodoController.swift:38-49 | `processText` traps if and only if the first word normalises to a weight, metre or centimetre keyword. |
| `MachineLearning.RecordFields` | Sources/App/Controllers/TodoController.swift:39-56 | Record fields: `full_text` is the input unchanged; weight and the two height parts come from the numeric suffix scans over the lists at lines 39, 42 and 45; `symptoms` comes from the text prefix scan; height is metres-or-0 plus centimetres-or-0. |
| `MachineLearning.ProcessTextReply` | Sources/App/Controllers/TodoController.swift:58-64 | The reply is the encoded record, or the fixed error payload when encoding fails. |
| `MachineLearning.HeightUnscaled` | Sources/App/Controllers/TodoController.swift:53 | The height is metres-or-0 plus centimetres-or-0, and it differs from metres × 100 plus centimetres whenever metres are present and not 0. |
| `MachineLearning.ExampleHeightIsSum` | Sources/App/Controllers/TodoController.swift:42-53 | `"1 m 70 cm"` gives no weight, a height of 71, no symptoms and the text itself. |
| `MachineLearning.ExampleNearestNumberWins` | Sources/App/Controllers/TodoController.swift:73-79 | `"10 20 kg"` gives the weight 20, the nearest number before the keyword. |
| `MachineLearning.ExampleKeywordFirstTraps` | Sources/App/Controllers/TodoController.swift:72-74 | `"kg 30"` traps. |
| `MachineLearning.ExampleRawSymptom` | Sources/App/Controllers/TodoController.swift:94-105 | `"Sintomas Febre"` matches the normalised keyword and returns the raw, unnormalised `"Febre"`. |
| `TodoController.Create` | Sources/App/Controllers/TodoController.swift:11-23 | A missing or empty text gives exactly `{"error":"Incorrect parameter"}`. Any other text gives `processText` of that text. |
| `TodoController.CreateTrapsIff` | Sources/App/Controllers/TodoController.swift:11-19 | `create` traps if and only if it is given a non-empty text whose first word normalises to a weight or height keyword. |

## Left out

- Vapor plumbing: `index`, `delete`, and the asynchronous request decoding at line 13 are not modelled. `create` takes the decoded text as an `Option<string>`, with `None` when decoding failed.
- JSON serialisation (`JSONSerialization` with `.prettyPrinted`, and the UTF-8 conversion) is foreign library code. It is the parameter `encode`. `None` stands for a throw or a failed conversion, which both give the error payload. Key order and number formatting are not modelled.
- Number parsing: `Double(String)` is the parameter `parse`. Swift's floating-point `Double` is modelled as `real`, so the height sum is exact addition, with no rounding. `real` cannot express the non-finite values: `Double(String)` also accepts "nan", "inf" and "infinity", and metres plus centimetres can overflow to infinity. `JSONSerialization` rejects a non-finite weight or height. On Linux Foundation that is a throw, which gives the error payload; on Darwin it is an Objective-C exception that the `do`/`catch` at lines 58-64 does not catch, so the process stops.
- Normalisation: `folding(options: .diacriticInsensitive, locale: .current).lowercased()` depends on the locale. It is the parameter `normalize`. No accent- or case-insensitivity fact is proved about it. The worked examples state only the values of `normalize` that they use.
- Unicode: strings are sequences of characters. Swift's grapheme clusters and canonical equivalence in string comparison are not modelled.
- Generic types other than `Double` and `String`: the model lets the caller choose the converter, so a third type would be a converter that accepts nothing. No caller in the code uses one.
- The duplicate `"metros"` in the metre keywords is kept. It has no effect, because only membership is tested.

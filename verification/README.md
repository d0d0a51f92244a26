# Report extraction and summarisation — a Dafny model

This project models the decision logic of a speech-to-report service:

* **`text_to_report`** (`app/services/report_service.py`) is the extractor. It asks a completion service to
  turn free text into JSON that has the fields a report template declares. It then salvages a JSON object
  from the reply: the slice from the first `{` to the last `}` is parsed, and `{"text": reply}` is the
  fallback. Finally it repairs the object, so that every declared field is present: `[]` for array fields
  and `""` for all others.
* **`create_summary` / `summarize_audio`** (`app/services/summary_service.py`) form the summariser.
  `length`, `focus` and `language` options are mapped to instruction fragments through closed tables
  with defaults, and the summary prompt is assembled from them. A failing completion call becomes a
  diagnostic text. The extractor then runs over the summary with a fixed five-field template.
* **The upload check of `transcribe_file`** (`app/api/endpoints/transcription.py`) lower-cases the file
  extension and classifies it as `audio` or `video`. Any other extension is refused with status 400
  before transcription.

The external services are parameters:

* The completion service (`Completion.Oracle`) maps a chat request to `Ok(reply)` or `Err(message)`.
* `json.loads` on the brace slice is `Json.Parser`, returning `Some(object)` or `None`.
* `json.dumps` is `Json.Serializer`.
* `transcribe_audio` is `TranscriptionService.Transcriber`.

Every property is proved for every choice of these functions.

Modules follow the source:

| module | models |
|---|---|
| `Wrappers` | `Option` and `Result` (exceptions) |
| `Strings` | `str.find`, `str.rfind`, `str.strip`, `str.lower`, `str.join` |
| `Json` | JSON values and ordered objects (Python dicts, in insertion order) |
| `Completion` | the chat request and the completion call |
| `ReportService` | `text_to_report`: prompt, salvage, repair |
| `ReportScenarios` | worked examples of `text_to_report` |
| `TranscriptionService` | the transcript record `transcribe_audio` returns |
| `SummaryService` | `create_summary`, `summarize_audio` |
| `TranscriptionEndpoint` | `os.path.splitext`, the extension lists, the classification |

Two behaviours of the code are worth noting:

* The fallback object carries the *stripped* reply (`result_text` is stripped at line 46 before it is
  used at lines 62 and 65), not the raw one.
* The report keeps every key the reply had, including keys the template does not declare. Its keys are
  the union of the parsed keys and the declared ones, not exactly the declared ones.

`summarize_audio` returns no options at all. The `language` normalisation is local to `create_summary`:
`summarize_audio` passes on whatever option values it was given (`EffectiveOptionDefaults`).

## Model

| member | source | states |
|---|---|---|
| Strings.Find | app/services/report_service.py:54 | `find('{')` is -1 exactly when there is no `{`; otherwise it is the index of a `{` with none before it |
| Strings.RFind | app/services/report_service.py:55 | `rfind('}')` is -1 exactly when there is no `}`; otherwise it is the index of a `}` with none after it |
| Strings.Strip | app/services/report_service.py:46 | the stripped reply is a slice of the reply; only whitespace was removed, and none is left at either end |
| Json.Get | app/services/report_service.py:71 | a key lookup fails exactly when the object lacks the key; a found value is stored under that key |
| ReportService.ReportPromptOrder | app/services/report_service.py:21-34 | the prompt embeds the rendered `fields` map and, after it, the input text |
| ReportService.SpanGuardIffBracePair | app/services/report_service.py:54-57 | the guard `start_idx >= 0 and end_idx > start_idx` holds exactly when some `{` is followed later by a `}` |
| ReportService.BraceSpan | app/services/report_service.py:54-58 | the parsed text starts with `{` and ends with `}`; no `{` precedes it and no `}` follows it in the reply |
| ReportService.Salvage | app/services/report_service.py:51-65 | without a `{`…`}` pair the result is `{"text": reply}`; with one, it is the parse of the brace slice, or `{"text": reply}` when parsing fails; no JSON decode error escapes |
| ReportService.Repair | app/services/report_service.py:67-74 | the input object is a prefix of the result, so existing members keep their place and value; the result's keys are the input's keys plus the declared names; unique keys stay unique |
| ReportService.RepairKeepsValues | app/services/report_service.py:68-70 | a key already present is never overwritten |
| ReportService.RepairDefaults | app/services/report_service.py:68-74 | a declared field that is missing gets `[]` exactly when its descriptor's `type` is `"array"`, and `""` otherwise, including when `type` is absent |
| ReportService.RepairComplete | app/services/report_service.py:68-69 | an object that already has every declared key is returned unchanged |
| ReportService.RepairIdempotent | app/services/report_service.py:67-76 | repairing a repaired report changes nothing |
| ReportService.RepairInPlace | app/services/report_service.py:68-74 | the in-place loop over the fields computes the same report as `Repair` |
| ReportService.TextToReport | app/services/report_service.py:9-76 | a failing completion call is re-raised with its message; any reply the parser accepts or rejects with a decode error yields a report that extends the salvaged object and holds every declared field |
| ReportService.MissingFieldsRepairsNothing | app/services/report_service.py:21 | a template without `"fields"` declares nothing, so the salvaged object is returned unchanged |
| ReportScenarios.FencedReplyIsSalvaged | app/services/report_service.py:51-74 | a reply that wraps `{"title": "Weekly Sync"}` in prose and a code fence gives `{"title": "Weekly Sync", "tags": []}` |
| ReportScenarios.DeclinedReplyFallsBack | app/services/report_service.py:60-74 | a reply without braces gives `{"text": reply, "title": "", "tags": []}` |
| SummaryService.LengthFragmentChoice | app/services/summary_service.py:73-77 | `short` and `long` select their own directives; every other value, `None` included, selects the `medium` one |
| SummaryService.FocusFragmentChoice | app/services/summary_service.py:80-84 | `key_points` and `action_items` select their own directives; every other value selects the `general` one |
| SummaryService.LanguageNormalization | app/services/summary_service.py:87-101 | a language outside `ko`/`en`/`ja` becomes `ko` before the prompt is built; a known one is kept; normalising is idempotent; the Korean directive is used exactly when the language is neither `en` nor `ja` |
| SummaryService.SummaryPromptOrder | app/services/summary_service.py:98-105 | the prompt carries the length, focus and language directives in that order, then the original text |
| SummaryService.CreateSummary | app/services/summary_service.py:107-121 | on success the summary is the stripped completion; on failure it is the diagnostic prefix followed by the error message, and nothing is raised |
| SummaryService.ErrorAsymmetry | app/services/summary_service.py:119-121 | the same completion failure is absorbed by `create_summary` but re-raised by `text_to_report` |
| SummaryService.EffectiveOptionDefaults | app/services/summary_service.py:24-29 | with no options the values are `medium`, `general`, `ko`, which select those directives; a given value is passed on unchanged and a missing key takes its default |
| SummaryService.SummaryReportNames | app/services/summary_service.py:39-47 | the fixed template declares exactly `title`, `summary`, `key_points`, `action_items` and `additional_notes` |
| SummaryService.SummaryReportDefaults | app/services/summary_service.py:39-50 | a report field missing from the reply gets `[]` for `key_points` and `action_items`, and `""` for the other three |
| SummaryService.SummarizeAudio | app/services/summary_service.py:9-57 | a transcription failure is raised; on success, `text` and `duration` are the transcript's, unchanged, and the report holds all five keys |
| SummaryService.SummarizeAudioOutcome | app/services/summary_service.py:32-57 | once the transcript exists, the result fails exactly when the report's completion call fails; otherwise it is the summary and its repaired report |
| SummaryService.DegradedSummaryStillReported | app/services/summary_service.py:36-50 | when the summary call fails but the report call succeeds, a result is still returned and its summary is the diagnostic text |
| TranscriptionEndpoint.Extension | app/api/endpoints/transcription.py:26 | the extension is a suffix of the name; it is empty or is one leading dot with no other dot or slash; it is empty exactly when the final path component's dots are all leading dots |
| TranscriptionEndpoint.ExtensionOfLower | app/api/endpoints/transcription.py:26 | taking the extension commutes with lower-casing the name |
| TranscriptionEndpoint.ClassifyIgnoresCase | app/api/endpoints/transcription.py:26-35 | names that differ only in letter case are classified alike |
| TranscriptionEndpoint.StoredFileType | app/api/endpoints/transcription.py:32-35 | the stored `file_type` is `"audio"` exactly for the four audio extensions and `"video"` exactly for the four video ones |
| TranscriptionEndpoint.Classify | app/api/endpoints/transcription.py:26-40 | the result is `audio` exactly for the four audio extensions and `video` exactly for the four video ones; everything else is refused with status 400 and the list of accepted formats |
| TranscriptionEndpoint.NoExtensionRejected | app/api/endpoints/transcription.py:36-40 | a name without an extension is refused |
| TranscriptionEndpoint.ExtensionAfterStem | app/api/endpoints/transcription.py:26 | a single-dot extension after a stem that ends in neither `/` nor `.` is the name's extension |
| TranscriptionEndpoint.ListedExtensionsClassify | app/api/endpoints/transcription.py:29-35 | `.mp3`, `.wav`, `.ogg` and `.m4a` (in any letter case) classify as audio; `.mp4`, `.avi`, `.mov` and `.webm` classify as video |
| TranscriptionEndpoint.FormatsDisjoint | app/api/endpoints/transcription.py:29-30 | no extension is in both lists, so an accepted name gets exactly one type |
| TranscriptionEndpoint.TranscribeFile | app/api/endpoints/transcription.py:32-49 | a refused name yields the 400 error; an accepted one yields its media type with the transcript, or the transcription failure |
| TranscriptionEndpoint.RejectedBeforeTranscription | app/api/endpoints/transcription.py:36-49 | for a refused name the outcome does not depend on the transcriber, which is never consulted, and the status is 400 |

## Left out

- The completion client: model name, temperature, client construction and the `print` logging (`app/services/openai_client.py`; report_service.py:37-44; summary_service.py:108-115). The client is the `Oracle` parameter. It is a function of the request. A reply with no content (where `.strip()` raises) is one of its `Err` results.
- The oracle's nondeterminism across separate calls is not modelled. Every property holds for every oracle function, and so for every reply.
- `json.loads` and `json.dumps` internals (report_service.py:28,59) are the `Parser` and `Serializer` parameters. The parser yields an object or fails. This matches `json.loads` on a slice that starts with `{`: it decodes a dict or raises.
- JSON numbers keep their literal text, because no computation uses them.
- ReportService.Salvage: only `json.JSONDecodeError` is caught (report_service.py:63). Other exceptions `json.loads` raises on a brace slice are not modelled: `RecursionError` on very deep nesting, and `ValueError` on an integer literal longer than the interpreter's digit limit. These escape `text_to_report`, so the `Parser` type, which yields an object or a decode failure, does not cover them.
- `transcribe_audio` (`app/services/transcription_service.py`) is the `Transcriber` parameter. Demuxing, duration decoding, the float millisecond division and the speech API are I/O and floating point.
- Database sessions, ORM records, the HTTP layer, temporary files and uploads are persistence and transport plumbing. This includes `app/main.py`, `app/api/api.py`, `app/db/*`, `app/models/*` and `app/api/endpoints/report_template.py`.
- `app/api/endpoints/report.py:86-100` repeats the classifier modelled here.
- `app/api/endpoints/summary.py` has its own extension list and echoes raw options into storage. Both are intertwined with uploads and the database.
- Inputs outside the modelled types are excluded, and the source behaves as follows on them:
  - A `"fields"` value that is not a dict raises at report_service.py:68.
  - A `None` file name raises inside `os.path.splitext` (transcription.py:26).
  - A field descriptor that is not a dict raises at report_service.py:71, but only when its field is missing from the reply. Otherwise `text_to_report` returns normally.
  - A hashable option value that is not a string, such as `5`, selects the defaults: the `medium` and `general` directives (summary_service.py:99-100) and the language `ko` (:94-95). This is what an unknown string does. Only an unhashable value, such as a list or a dict, raises `TypeError`.
- Strings.Lower: maps only ASCII `A`-`Z`. Python's full Unicode lower-casing is not modelled. The only non-ASCII character that lower-cases to an ASCII letter is the Kelvin sign (to `k`). No accepted extension contains `k`, so classification is unaffected.
- TranscriptionEndpoint.Extension: follows POSIX `os.path.splitext`, with `/` as the only separator. Windows paths are not modelled.

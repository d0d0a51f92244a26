/** `create_summary` and `summarize_audio`: a summary whose length, focus
    and language come from closed instruction tables, then a report of that
    summary built against a fixed five-field template. */
module SummaryService {
  import opened Wrappers
  import opened Json
  import opened Strings
  import opened Completion
  import opened ReportService
  import opened TranscriptionService

  /** Length directive per `length` option. */
  const LengthTokens: map<string, string> := map[
    "short" := "100단어 이내로",
    "medium" := "200-300단어 정도로",
    "long" := "500단어 정도로"
  ]

  /** Focus directive per `focus` option. */
  const FocusPrompts: map<string, string> := map[
    "general" := "주요 내용을 균형있게 요약해주세요.",
    "key_points" := "가장 중요한 핵심 포인트만 추출하여 요약해주세요.",
    "action_items" := "필요한 조치사항과 결정사항을 중심으로 요약해주세요."
  ]

  /** Language directive per `language` option. */
  const LanguagePrompts: map<string, string> := map[
    "ko" := "한국어로 요약해주세요.",
    "en" := "영어로 요약해주세요.",
    "ja" := "일본어로 요약해주세요."
  ]

  /** `table.get(key, table[fallback])`; Python's `None` is never a key. */
  function LookupOr(table: map<string, string>, key: Option<string>, fallback: string): string
    requires fallback in table
  {
    if key.Some? && key.value in table then table[key.value] else table[fallback]
  }

  /** The length directive the prompt uses. */
  function LengthFragment(length: Option<string>): string {
    LookupOr(LengthTokens, length, "medium")
  }

  /** The focus directive the prompt uses. */
  function FocusFragment(focus: Option<string>): string {
    LookupOr(FocusPrompts, focus, "general")
  }

  /** `if language not in language_prompt: language = 'ko'`. */
  function NormalizeLanguage(language: Option<string>): string {
    if language.Some? && language.value in LanguagePrompts then language.value else "ko"
  }

  /** The language directive the prompt uses, looked up after normalisation. */
  function LanguageFragment(language: Option<string>): string {
    LookupOr(LanguagePrompts, Some(NormalizeLanguage(language)), "ko")
  }

  /** Each length option selects its own directive; anything else,
      `None` included, selects the "medium" one. */
  lemma LengthFragmentChoice(length: Option<string>)
    ensures LengthFragment(length) == LengthTokens["short"] <==> length == Some("short")
    ensures LengthFragment(length) == LengthTokens["long"] <==> length == Some("long")
    ensures LengthFragment(length) == LengthTokens["medium"] <==> length != Some("short") && length != Some("long")
  {
  }

  /** Each focus option selects its own directive; anything else selects
      the "general" one. */
  lemma FocusFragmentChoice(focus: Option<string>)
    ensures FocusFragment(focus) == FocusPrompts["key_points"] <==> focus == Some("key_points")
    ensures FocusFragment(focus) == FocusPrompts["action_items"] <==> focus == Some("action_items")
    ensures FocusFragment(focus) == FocusPrompts["general"] <==> focus != Some("key_points") && focus != Some("action_items")
  {
  }

  /** An unrecognised language becomes "ko" before the prompt is built; a
      recognised one is kept; normalising twice changes nothing more. */
  lemma LanguageNormalization(language: Option<string>)
    ensures NormalizeLanguage(language) in LanguagePrompts
    ensures language.Some? && language.value in LanguagePrompts ==> NormalizeLanguage(language) == language.value
    ensures !(language.Some? && language.value in LanguagePrompts) ==> NormalizeLanguage(language) == "ko"
    ensures NormalizeLanguage(Some(NormalizeLanguage(language))) == NormalizeLanguage(language)
    ensures LanguageFragment(language) == LanguagePrompts[NormalizeLanguage(language)]
    ensures LanguageFragment(language) == LanguagePrompts["ko"] <==> language != Some("en") && language != Some("ja")
  {
  }

  const SummarySystemRole := "당신은 텍스트를 요약하는 전문가입니다."

  /** The text `create_summary` returns when the completion call raises. */
  const SummaryErrorPrefix := "요약 생성 중 오류가 발생했습니다: "

  /** The f-string of `create_summary`, filled with the three directives
      and the text. */
  function PromptText(lengthDirective: string, focusDirective: string, languageDirective: string, text: string): string {
    "\n    다음 텍스트를 " + lengthDirective + " 요약해주세요.\n    "
    + focusDirective + "\n    "
    + languageDirective + "\n    \n    원본 텍스트:\n    "
    + text + "\n    "
  }

  /** The user prompt: length, focus and language directives, then the text. */
  function SummaryPrompt(text: string, length: Option<string>, focus: Option<string>, language: Option<string>): string {
    PromptText(LengthFragment(length), FocusFragment(focus), LanguageFragment(language), text)
  }

  /** The request `create_summary` sends to the completion service. */
  function SummaryRequest(text: string, length: Option<string>, focus: Option<string>, language: Option<string>): ChatRequest {
    ChatRequest(SummarySystemRole, SummaryPrompt(text, length, focus, language))
  }

  /** The filled f-string carries its four parts in order. */
  lemma PromptTextOrder(l: string, f: string, g: string, text: string)
    ensures InOrder([l, f, g, text], PromptText(l, f, g, text))
  {
    var p0, p1, p2, p3, p4 := "\n    다음 텍스트를 ", " 요약해주세요.\n    ", "\n    ", "\n    \n    원본 텍스트:\n    ", "\n    ";
    assert PromptText(l, f, g, text) == p0 + l + (p1 + f + (p2 + g + (p3 + text + p4)));
    InOrderSingle(p3, text, p4);
    InOrderCons(p2, g, [text], p3 + text + p4);
    assert [g] + [text] == [g, text];
    InOrderCons(p1, f, [g, text], p2 + g + (p3 + text + p4));
    assert [f] + [g, text] == [f, g, text];
    InOrderCons(p0, l, [f, g, text], p1 + f + (p2 + g + (p3 + text + p4)));
    assert [l] + [f, g, text] == [l, f, g, text];
  }

  /** The three directives appear in the order length, focus, language,
      and the original text follows them. */
  lemma SummaryPromptOrder(text: string, length: Option<string>, focus: Option<string>, language: Option<string>)
    ensures InOrder([LengthFragment(length), FocusFragment(focus), LanguageFragment(language), text],
                    SummaryRequest(text, length, focus, language).user)
  {
    PromptTextOrder(LengthFragment(length), FocusFragment(focus), LanguageFragment(language), text);
  }

  /** `create_summary(text, length, focus, language)`. A failing completion
      call does not raise: it becomes a diagnostic text carrying the error. */
  function CreateSummary(text: string, length: Option<string>, focus: Option<string>, language: Option<string>, oracle: Oracle)
    : (summary: string)
    ensures oracle(SummaryRequest(text, length, focus, language)).Ok? ==>
              IsStripOf(summary, oracle(SummaryRequest(text, length, focus, language)).value)
    ensures oracle(SummaryRequest(text, length, focus, language)).Err? ==>
              summary == SummaryErrorPrefix + oracle(SummaryRequest(text, length, focus, language)).error
  {
    match oracle(SummaryRequest(text, length, focus, language))
    case Ok(content) => Strip(content)
    case Err(e) => SummaryErrorPrefix + e
  }

  /** The same completion failure is absorbed by `create_summary` and
      re-raised by `text_to_report`. */
  lemma ErrorAsymmetry(text: string, length: Option<string>, focus: Option<string>, language: Option<string>,
                       template: Template, oracle: Oracle, parse: Parser, dumps: Serializer, e: string)
    requires oracle(SummaryRequest(text, length, focus, language)) == Err(e)
    requires oracle(ReportRequest(text, template, dumps)) == Err(e)
    ensures CreateSummary(text, length, focus, language, oracle) == SummaryErrorPrefix + e
    ensures TextToReport(text, template, oracle, parse, dumps) == Err(e)
  {
  }

  /** A summary-options dict: a missing key is absent from the map, and a
      key mapped to `None` holds Python's `None`. */
  type OptionsDict = map<string, Option<string>>

  /** The three option values `summarize_audio` passes on. */
  datatype SummaryOptions = SummaryOptions(length: Option<string>, focus: Option<string>, language: Option<string>)

  /** `d.get(key, default)`. */
  function DictGet(d: OptionsDict, key: string, default: string): Option<string> {
    if key in d then d[key] else Some(default)
  }

  /** The option defaulting at the top of `summarize_audio`; a `None` dict
      counts as an empty one. Values are passed on as given, unchecked. */
  function EffectiveOptions(options: Option<OptionsDict>): SummaryOptions {
    var d := options.GetOr(map[]);
    SummaryOptions(DictGet(d, "length", "medium"), DictGet(d, "focus", "general"), DictGet(d, "language", "ko"))
  }

  /** Without options the summary uses the medium, general and Korean
      directives; a given value is passed on unchanged. */
  lemma EffectiveOptionDefaults(options: Option<OptionsDict>)
    ensures options.None? ==> EffectiveOptions(options) == SummaryOptions(Some("medium"), Some("general"), Some("ko"))
    ensures options.None? ==>
              && LengthFragment(EffectiveOptions(options).length) == LengthTokens["medium"]
              && FocusFragment(EffectiveOptions(options).focus) == FocusPrompts["general"]
              && LanguageFragment(EffectiveOptions(options).language) == LanguagePrompts["ko"]
    ensures options.Some? && "length" in options.value ==> EffectiveOptions(options).length == options.value["length"]
    ensures options.Some? && "focus" in options.value ==> EffectiveOptions(options).focus == options.value["focus"]
    ensures options.Some? && "language" in options.value ==> EffectiveOptions(options).language == options.value["language"]
    ensures options.Some? && "length" !in options.value ==> EffectiveOptions(options).length == Some("medium")
    ensures options.Some? && "focus" !in options.value ==> EffectiveOptions(options).focus == Some("general")
    ensures options.Some? && "language" !in options.value ==> EffectiveOptions(options).language == Some("ko")
  {
  }

  /** A descriptor `{"type": t, "description": d}`. */
  function Describe(t: string, d: string): JsonObject {
    [("type", JStr(t)), ("description", JStr(d))]
  }

  /** The fixed report template of `summarize_audio`. */
  const SummaryReportFields: Schema := [
    Field("title", Describe("string", "보고서 제목")),
    Field("summary", Describe("string", "요약 내용")),
    Field("key_points", Describe("array", "주요 포인트 목록")),
    Field("action_items", Describe("array", "필요한 조치 사항 목록")),
    Field("additional_notes", Describe("string", "추가 참고사항"))
  ]

  const SummaryReportTemplate := Template(Some(SummaryReportFields))

  /** The five report keys. */
  const SummaryReportKeys: set<string> := {"title", "summary", "key_points", "action_items", "additional_notes"}

  /** The fixed template declares exactly the five report keys. */
  lemma SummaryReportNames()
    ensures Names(SummaryReportFields) == SummaryReportKeys
  {
    var fs := SummaryReportFields;
    assert fs[0].name == "title" && fs[1].name == "summary" && fs[2].name == "key_points";
    assert fs[3].name == "action_items" && fs[4].name == "additional_notes";
    assert forall g | g in fs :: g == fs[0] || g == fs[1] || g == fs[2] || g == fs[3] || g == fs[4];
    assert fs[0] in fs && fs[1] in fs && fs[2] in fs && fs[3] in fs && fs[4] in fs;
  }

  /** A report built against the fixed template holds the five keys. */
  lemma SummaryReportCovered(report: Result<JsonObject, string>)
    requires report.Ok? ==> Names(FieldsOf(SummaryReportTemplate)) <= KeySet(report.value)
    ensures report.Ok? ==> SummaryReportKeys <= KeySet(report.value)
  {
    SummaryReportNames();
  }

  /** The value a missing report key receives. */
  function SummaryReportDefault(name: string): Json {
    if name == "key_points" || name == "action_items" then JArr([]) else JStr("")
  }

  /** `summarize_audio(file_path, summary_options)`: the transcript and its
      duration, the summary, and the report of the summary. A failing
      transcription or report call raises; a failing summary call does not. */
  datatype SummaryResult = SummaryResult(text: string, summary: string, report: JsonObject, duration: int)

  function SummarizeAudio(filePath: string, options: Option<OptionsDict>, transcribe: Transcriber,
                          oracle: Oracle, parse: Parser, dumps: Serializer)
    : (r: Result<SummaryResult, string>)
    ensures transcribe(filePath).Err? ==> r == Err(transcribe(filePath).error)
    ensures r.Ok? ==> transcribe(filePath) == Ok(Transcription(r.value.text, r.value.duration))
    ensures r.Ok? ==> SummaryReportKeys <= KeySet(r.value.report)
  {
    var opts := EffectiveOptions(options);
    match transcribe(filePath)
    case Err(e) => Err(e)
    case Ok(t) =>
      var summary := CreateSummary(t.text, opts.length, opts.focus, opts.language, oracle);
      var report := TextToReport(summary, SummaryReportTemplate, oracle, parse, dumps);
      SummaryReportCovered(report);
      match report
      case Err(e) => Err(e)
      case Ok(o) => Ok(SummaryResult(t.text, summary, o, t.duration))
  }

  /** The default of a field whose descriptor starts with its "type". */
  lemma FieldDefaultAt(fs: Schema, k: int, t: string)
    requires 0 <= k < |fs|
    requires forall i | 0 <= i < k :: fs[i].name != fs[k].name
    requires |fs[k].info| > 0 && fs[k].info[0] == ("type", JStr(t))
    ensures fs[k].name in Names(fs)
    ensures DefaultValue(FirstField(fs, fs[k].name)) == (if t == "array" then JArr([]) else JStr(""))
  {
    FirstFieldAt(fs, k);
  }

  /** A report field missing from the salvaged reply receives `[]` when it
      is "key_points" or "action_items" and `""` otherwise. */
  lemma SummaryReportDefaults(o: JsonObject, k: int)
    requires 0 <= k < |SummaryReportFields| && !HasKey(o, SummaryReportFields[k].name)
    ensures Get(Repair(o, SummaryReportFields), SummaryReportFields[k].name)
            == Some(SummaryReportDefault(SummaryReportFields[k].name))
  {
    var fs := SummaryReportFields;
    var t := if k == 2 || k == 3 then "array" else "string";
    assert SummaryReportDefault(fs[k].name) == (if t == "array" then JArr([]) else JStr("")) by {
      if k == 0 {} else if k == 1 {} else if k == 2 {} else if k == 3 {} else {}
    }
    FieldDefaultAt(fs, k, t);
    RepairDefaults(o, fs, fs[k].name);
  }

  /** Once the transcript is in hand, `summarize_audio` fails exactly when
      the report's completion call fails, and otherwise returns the summary
      with its repaired report. */
  lemma SummarizeAudioOutcome(filePath: string, options: Option<OptionsDict>, transcribe: Transcriber,
                              oracle: Oracle, parse: Parser, dumps: Serializer, t: Transcription)
    requires transcribe(filePath) == Ok(t)
    ensures var opts := EffectiveOptions(options);
            var summary := CreateSummary(t.text, opts.length, opts.focus, opts.language, oracle);
            var reply := oracle(ReportRequest(summary, SummaryReportTemplate, dumps));
            var r := SummarizeAudio(filePath, options, transcribe, oracle, parse, dumps);
            && (reply.Err? ==> r == Err(reply.error))
            && (reply.Ok? ==> r == Ok(SummaryResult(t.text, summary,
                                        Repair(Salvage(Strip(reply.value), parse), SummaryReportFields), t.duration)))
  {
  }

  /** A failed summary call still yields a result: the summary is the
      diagnostic text and the report is built from it. */
  lemma DegradedSummaryStillReported(filePath: string, options: Option<OptionsDict>, transcribe: Transcriber,
                                     oracle: Oracle, parse: Parser, dumps: Serializer, t: Transcription, e: string)
    requires transcribe(filePath) == Ok(t)
    requires var opts := EffectiveOptions(options);
             oracle(SummaryRequest(t.text, opts.length, opts.focus, opts.language)) == Err(e)
    requires oracle(ReportRequest(SummaryErrorPrefix + e, SummaryReportTemplate, dumps)).Ok?
    ensures SummarizeAudio(filePath, options, transcribe, oracle, parse, dumps).Ok?
    ensures SummarizeAudio(filePath, options, transcribe, oracle, parse, dumps).value.summary == SummaryErrorPrefix + e
  {
    SummarizeAudioOutcome(filePath, options, transcribe, oracle, parse, dumps, t);
  }
}

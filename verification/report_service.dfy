/** `text_to_report`: turns free text into a report that has every field a
    template declares, by asking the completion service for JSON, salvaging
    an object from its reply and filling in the fields it left out. */
module ReportService {
  import opened Wrappers
  import opened Json
  import opened Strings
  import opened Completion

  /** One entry of a template's "fields" map: the field name and its
      descriptor, the dict holding "type", "description" and so on. */
  datatype Field = Field(name: string, info: JsonObject)

  /** The "fields" map, in its declaration order. */
  type Schema = seq<Field>

  /** A report template; `fields` is `None` when the "fields" key is absent. */
  datatype Template = Template(fields: Option<Schema>)

  /** `template_format.get("fields", {})`. */
  function FieldsOf(t: Template): Schema {
    t.fields.GetOr([])
  }

  /** The declared field names. */
  function Names(schema: Schema): set<string> {
    set f | f in schema :: f.name
  }

  /** `field_info.get("type") == "array"`. */
  predicate IsArrayField(f: Field) {
    Get(f.info, "type") == Some(JStr("array"))
  }

  /** The value a missing field receives: `[]` for array fields, `""` otherwise. */
  function DefaultValue(f: Field): Json {
    if IsArrayField(f) then JArr([]) else JStr("")
  }

  /** The first declaration of `name`; a `dict` holds only one. */
  function FirstField(schema: Schema, name: string): (f: Field)
    requires name in Names(schema)
    ensures f in schema && f.name == name
  {
    if schema[0].name == name then schema[0]
    else
      assert name in Names(schema[1..]) by {
        var g :| g in schema && g.name == name;
        var i :| 0 <= i < |schema| && schema[i] == g;
        assert schema[1..][i - 1] == g;
      }
      FirstField(schema[1..], name)
  }

  /** A declaration no earlier one shares a name with is the first one. */
  lemma {:induction false} FirstFieldAt(schema: Schema, k: int)
    requires 0 <= k < |schema|
    requires forall i | 0 <= i < k :: schema[i].name != schema[k].name
    ensures schema[k].name in Names(schema)
    ensures FirstField(schema, schema[k].name) == schema[k]
  {
    assert schema[k] in schema;
    if k > 0 {
      assert schema[1..][k - 1] == schema[k];
      FirstFieldAt(schema[1..], k - 1);
    }
  }

  /** The "fields" map as the JSON object `json.dumps` renders into the prompt. */
  function SchemaJson(schema: Schema): Json {
    JObj(seq(|schema|, i requires 0 <= i < |schema| => (schema[i].name, JObj(schema[i].info))))
  }

  const ReportSystemRole := "당신은 텍스트를 구조화된 보고서로 변환하는 전문가입니다."

  /** The user prompt: the rendered fields, then the input text. */
  function ReportPrompt(text: string, renderedFields: string): string {
    "\n    다음 텍스트를 지정된 보고서 양식에 맞게 변환해주세요.\n    보고서에는 다음 필드가 포함되어야 합니다:\n    \n    "
    + renderedFields
    + "\n    \n    입력 텍스트: \n    "
    + text
    + "\n    \n    JSON 형식으로 결과를 반환해주세요.\n    "
  }

  /** The request `text_to_report` sends to the completion service. */
  function ReportRequest(text: string, template: Template, dumps: Serializer): ChatRequest {
    ChatRequest(ReportSystemRole, ReportPrompt(text, dumps(SchemaJson(FieldsOf(template)))))
  }

  /** The prompt carries the rendered field map and, after it, the input text. */
  lemma ReportPromptOrder(text: string, template: Template, dumps: Serializer)
    ensures InOrder([dumps(SchemaJson(FieldsOf(template))), text], ReportRequest(text, template, dumps).user)
  {
    var rendered := dumps(SchemaJson(FieldsOf(template)));
    var head := "\n    다음 텍스트를 지정된 보고서 양식에 맞게 변환해주세요.\n    보고서에는 다음 필드가 포함되어야 합니다:\n    \n    ";
    var mid := "\n    \n    입력 텍스트: \n    ";
    var tail := "\n    \n    JSON 형식으로 결과를 반환해주세요.\n    ";
    InOrderSingle(mid, text, tail);
    InOrderCons(head, rendered, [text], mid + text + tail);
    assert ReportPrompt(text, rendered) == head + rendered + (mid + text + tail);
    assert [rendered] + [text] == [rendered, text];
  }

  /** The one-member object used when no JSON object can be recovered. */
  function TextFallback(reply: string): JsonObject {
    [("text", JStr(reply))]
  }

  /** Some `{` in `s` is followed, later on, by a `}`. */
  ghost predicate HasBracePair(s: string) {
    exists i, j | 0 <= i < j < |s| :: s[i] == '{' && s[j] == '}'
  }

  /** The guard `start_idx >= 0 and end_idx > start_idx`, with
      `start_idx = s.find('{')` and `end_idx = s.rfind('}') + 1`. */
  predicate SpanGuard(s: string) {
    Find(s, '{') >= 0 && RFind(s, '}') + 1 > Find(s, '{')
  }

  /** The guard holds exactly when a `{` has a `}` after it. */
  lemma SpanGuardIffBracePair(s: string)
    ensures SpanGuard(s) <==> HasBracePair(s)
  {
    if HasBracePair(s) {
      var i, j :| 0 <= i < j < |s| && s[i] == '{' && s[j] == '}';
      var start := Find(s, '{');
      var last := RFind(s, '}');
      assert start <= i;
      assert j <= last;
    }
  }

  /** The slice `s[s.find('{') : s.rfind('}') + 1]`: from the first `{`
      up to and including the last `}`. */
  function BraceSpan(s: string): (span: string)
    requires HasBracePair(s)
    ensures 2 <= |span| && span[0] == '{' && span[|span| - 1] == '}'
    ensures exists i :: OccursAt(s, i, span) && '{' !in s[..i] && '}' !in s[i + |span|..]
  {
    SpanGuardIffBracePair(s);
    var start := Find(s, '{');
    var end := RFind(s, '}') + 1;
    var span := s[start..end];
    assert OccursAt(s, start, span) && s[start + |span|..] == s[end..];
    span
  }

  /** Recovers a JSON object from the stripped reply: the brace span's
      parse when there is one and it succeeds, the fallback otherwise. */
  function Salvage(reply: string, parse: Parser): (r: JsonObject)
    ensures !HasBracePair(reply) ==> r == TextFallback(reply)
    ensures HasBracePair(reply) && parse(BraceSpan(reply)).Some? ==> r == parse(BraceSpan(reply)).value
    ensures HasBracePair(reply) && parse(BraceSpan(reply)).None? ==> r == TextFallback(reply)
  {
    SpanGuardIffBracePair(reply);
    var start := Find(reply, '{');
    var end := RFind(reply, '}') + 1;
    if start >= 0 && end > start then
      match parse(reply[start..end])
      case Some(o) => o
      case None => TextFallback(reply)
    else
      TextFallback(reply)
  }

  /** The repair loop of `text_to_report`: walks the declared fields in
      order and appends each one the object lacks with its default value.
      Members already present keep their place and value. */
  function Repair(o: JsonObject, schema: Schema): (r: JsonObject)
    ensures o <= r
    ensures KeySet(r) == KeySet(o) + Names(schema)
    ensures UniqueKeys(o) ==> UniqueKeys(r)
    decreases |schema|
  {
    if |schema| == 0 then o
    else
      var f := schema[0];
      assert Names(schema) == {f.name} + Names(schema[1..]) by {
        forall g | g in schema ensures g == f || g in schema[1..] {
          var i :| 0 <= i < |schema| && schema[i] == g;
          if i > 0 { assert schema[1..][i - 1] == g; }
        }
      }
      HasKeyIffInKeySet(o, f.name);
      KeySetAppend(o, f.name, DefaultValue(f));
      var next := if HasKey(o, f.name) then o else o + [(f.name, DefaultValue(f))];
      assert UniqueKeys(o) ==> UniqueKeys(next) by {
        if UniqueKeys(o) && !HasKey(o, f.name) {
          forall i, j | 0 <= i < j < |next| ensures next[i].0 != next[j].0 {
            if j == |o| { assert o[i].0 != f.name; }
          }
        }
      }
      Repair(next, schema[1..])
  }

  /** Repair never changes the value of a key the object already has. */
  lemma {:induction false} RepairKeepsValues(o: JsonObject, schema: Schema, k: string)
    requires HasKey(o, k)
    ensures Get(Repair(o, schema), k) == Get(o, k)
  {
    var r := Repair(o, schema);
    assert r == o + r[|o|..];
    GetAppend(o, r[|o|..], k);
  }

  /** A declared field the object lacks receives the default of its first
      declaration: `[]` exactly when that declaration's type is "array",
      `""` otherwise, including when it names no type. */
  lemma {:induction false} RepairDefaults(o: JsonObject, schema: Schema, name: string)
    requires name in Names(schema) && !HasKey(o, name)
    ensures Get(Repair(o, schema), name) == Some(DefaultValue(FirstField(schema, name)))
    ensures Get(Repair(o, schema), name) == Some(JArr([])) <==> IsArrayField(FirstField(schema, name))
    ensures Get(Repair(o, schema), name) == Some(JStr("")) <==> !IsArrayField(FirstField(schema, name))
    decreases |schema|
  {
    var f := schema[0];
    var rest := schema[1..];
    var next := if HasKey(o, f.name) then o else o + [(f.name, DefaultValue(f))];
    assert Repair(o, schema) == Repair(next, rest);
    if f.name == name {
      GetAppend(o, [(name, DefaultValue(f))], name);
      RepairKeepsValues(next, rest, name);
    } else {
      GetAppend(o, [(f.name, DefaultValue(f))], name);
      assert name in Names(rest) by {
        var g :| g in schema && g.name == name;
        var i :| 0 <= i < |schema| && schema[i] == g;
        assert rest[i - 1] == g;
      }
      RepairDefaults(next, rest, name);
    }
  }

  /** An object that already has every declared key is left as it is. */
  lemma {:induction false} RepairComplete(o: JsonObject, schema: Schema)
    requires Names(schema) <= KeySet(o)
    ensures Repair(o, schema) == o
    decreases |schema|
  {
    if |schema| > 0 {
      assert schema[0] in schema;
      HasKeyIffInKeySet(o, schema[0].name);
      assert Names(schema[1..]) <= Names(schema) by {
        forall g | g in schema[1..] ensures g in schema {
        }
      }
      RepairComplete(o, schema[1..]);
    }
  }

  /** Repairing a repaired object changes nothing. */
  lemma RepairIdempotent(o: JsonObject, schema: Schema)
    ensures Repair(Repair(o, schema), schema) == Repair(o, schema)
  {
    RepairComplete(Repair(o, schema), schema);
  }

  /** The repair loop as `text_to_report` writes it: one pass over the
      fields, adding each missing one to the object in place. */
  method RepairInPlace(o: JsonObject, schema: Schema) returns (r: JsonObject)
    ensures r == Repair(o, schema)
  {
    r := o;
    for i := 0 to |schema|
      invariant Repair(r, schema[i..]) == Repair(o, schema)
    {
      var f := schema[i];
      assert schema[i..][0] == f && schema[i..][1..] == schema[i + 1..];
      if !HasKey(r, f.name) {
        r := r + [(f.name, DefaultValue(f))];
      }
    }
  }

  /** `text_to_report(text, template_format)`. A failing completion call is
      re-raised; otherwise no JSON decode error escapes, and the reply
      yields a report holding every declared field. */
  function TextToReport(text: string, template: Template, oracle: Oracle, parse: Parser, dumps: Serializer)
    : (r: Result<JsonObject, string>)
    ensures oracle(ReportRequest(text, template, dumps)).Err? ==>
              r == Err(oracle(ReportRequest(text, template, dumps)).error)
    ensures oracle(ReportRequest(text, template, dumps)).Ok? ==>
              && r.Ok?
              && Salvage(Strip(oracle(ReportRequest(text, template, dumps)).value), parse) <= r.value
              && Names(FieldsOf(template)) <= KeySet(r.value)
  {
    match oracle(ReportRequest(text, template, dumps))
    case Err(e) => Err(e)
    case Ok(content) => Ok(Repair(Salvage(Strip(content), parse), FieldsOf(template)))
  }

  /** A template without a "fields" key declares nothing, so the salvaged
      object is the report as it stands. */
  lemma MissingFieldsRepairsNothing(text: string, oracle: Oracle, parse: Parser, dumps: Serializer)
    requires oracle(ReportRequest(text, Template(None), dumps)).Ok?
    ensures TextToReport(text, Template(None), oracle, parse, dumps)
            == Ok(Salvage(Strip(oracle(ReportRequest(text, Template(None), dumps)).value), parse))
  {
  }
}

/** Worked examples of `text_to_report` on a two-field template. */
module ReportScenarios {
  import opened Wrappers
  import opened Json
  import opened Strings
  import opened Completion
  import opened ReportService

  /** `{"fields": {"title": {"type": "string"}, "tags": {"type": "array"}}}`. */
  const SyncTemplate := Template(Some([
    Field("title", [("type", JStr("string"))]),
    Field("tags", [("type", JStr("array"))])
  ]))

  const FencedObject := "{\"title\": \"Weekly Sync\"}"
  const FencedReply := "Sure! ```json\n" + FencedObject + "\n```"
  const DeclinedReply := "I cannot process this."

  /** Whatever the reply, the report is the repaired salvage of its strip. */
  lemma ReportOfReply(text: string, template: Template, oracle: Oracle, parse: Parser, dumps: Serializer, reply: string)
    requires oracle(ReportRequest(text, template, dumps)) == Ok(reply)
    ensures TextToReport(text, template, oracle, parse, dumps) == Ok(Repair(Salvage(Strip(reply), parse), FieldsOf(template)))
  {
  }

  /** The fenced reply's object is cut out between its braces and parsed. */
  lemma SalvageFenced(parse: Parser)
    requires parse(FencedObject) == Some([("title", JStr("Weekly Sync"))])
    ensures Salvage(Strip(FencedReply), parse) == [("title", JStr("Weekly Sync"))]
  {
    FencedTrimmed();
    FencedBraces();
  }

  /** The fenced reply has no surrounding whitespace. */
  lemma FencedTrimmed()
    ensures Strip(FencedReply) == FencedReply
  {
    StripTrimmed(FencedReply);
  }

  /** The fenced reply's first `{` and last `}` enclose exactly the object. */
  lemma FencedBraces()
    ensures Find(FencedReply, '{') == 14 && RFind(FencedReply, '}') == 37
    ensures FencedReply[14..38] == FencedObject
  {
    FindAt(FencedReply, '{', 14);
    RFindAt(FencedReply, '}', 37);
  }

  /** A reply without braces falls back to `{"text": reply}`. */
  lemma SalvageDeclined(parse: Parser)
    ensures Salvage(Strip(DeclinedReply), parse) == TextFallback(DeclinedReply)
  {
    DeclinedTrimmed();
    DeclinedHasNoBrace();
  }

  /** The declined reply has no surrounding whitespace. */
  lemma DeclinedTrimmed()
    ensures Strip(DeclinedReply) == DeclinedReply
  {
    StripTrimmed(DeclinedReply);
  }

  /** The declined reply holds no `{`. */
  lemma DeclinedHasNoBrace()
    ensures Find(DeclinedReply, '{') == -1
  {
    assert '{' !in DeclinedReply;
  }

  /** Repairing the parsed object appends the missing array field. */
  lemma RepairSyncParsed()
    ensures Repair([("title", JStr("Weekly Sync"))], FieldsOf(SyncTemplate))
            == [("title", JStr("Weekly Sync")), ("tags", JArr([]))]
  {
  }

  /** Repairing the fallback object appends both declared fields. */
  lemma RepairSyncFallback()
    ensures Repair(TextFallback(DeclinedReply), FieldsOf(SyncTemplate))
            == [("text", JStr(DeclinedReply)), ("title", JStr("")), ("tags", JArr([]))]
  {
    var fields := FieldsOf(SyncTemplate);
    var o := TextFallback(DeclinedReply);
    var o1 := o + [("title", JStr(""))];
    assert !HasKey(o, "title");
    assert !IsArrayField(fields[0]);
    assert Repair(o, fields) == Repair(o1, fields[1..]);
    assert !HasKey(o1, "tags");
    assert IsArrayField(fields[1]);
    assert Repair(o1, fields[1..]) == Repair(o1 + [("tags", JArr([]))], []);
  }

  /** A reply that wraps the object in prose and a code fence: the object
      is cut out, parsed, and the missing array field is added as `[]`. */
  lemma FencedReplyIsSalvaged(text: string, oracle: Oracle, parse: Parser, dumps: Serializer)
    requires oracle(ReportRequest(text, SyncTemplate, dumps)) == Ok(FencedReply)
    requires parse(FencedObject) == Some([("title", JStr("Weekly Sync"))])
    ensures TextToReport(text, SyncTemplate, oracle, parse, dumps)
            == Ok([("title", JStr("Weekly Sync")), ("tags", JArr([]))])
  {
    ReportOfReply(text, SyncTemplate, oracle, parse, dumps, FencedReply);
    SalvageFenced(parse);
    RepairSyncParsed();
  }

  /** A reply without braces becomes `{"text": reply}`, and both declared
      fields are added after it. */
  lemma DeclinedReplyFallsBack(text: string, oracle: Oracle, parse: Parser, dumps: Serializer)
    requires oracle(ReportRequest(text, SyncTemplate, dumps)) == Ok(DeclinedReply)
    ensures TextToReport(text, SyncTemplate, oracle, parse, dumps)
            == Ok([("text", JStr(DeclinedReply)), ("title", JStr("")), ("tags", JArr([]))])
  {
    ReportOfReply(text, SyncTemplate, oracle, parse, dumps, DeclinedReply);
    SalvageDeclined(parse);
    RepairSyncFallback();
  }
}

/** JSON values as the services see them once `json.loads` has run. */
module Json {
  import opened Wrappers

  /** A JSON value. Numbers keep their literal text: the services never
      compute with them, so no numeric representation is chosen. */
  datatype Json =
    | JNull
    | JBool(b: bool)
    | JNum(literal: string)
    | JStr(s: string)
    | JArr(items: seq<Json>)
    | JObj(members: seq<(string, Json)>)

  /** A JSON object as a Python `dict`: members in insertion order. */
  type JsonObject = seq<(string, Json)>

  /** The keys of an object (`o.keys()`). */
  function KeySet(o: JsonObject): set<string> {
    set m | m in o :: m.0
  }

  /** `k in o`. */
  predicate HasKey(o: JsonObject, k: string) {
    exists i | 0 <= i < |o| :: o[i].0 == k
  }

  /** `o.get(k)`: the value stored under `k`, or `None`. */
  function Get(o: JsonObject, k: string): (r: Option<Json>)
    ensures r.None? <==> !HasKey(o, k)
    ensures r.Some? ==> (k, r.value) in o
  {
    if |o| == 0 then None
    else if o[0].0 == k then Some(o[0].1)
    else
      var r := Get(o[1..], k);
      assert HasKey(o, k) ==> k == o[0].0 || HasKey(o[1..], k) by {
        if HasKey(o, k) {
          var i :| 0 <= i < |o| && o[i].0 == k;
          if i > 0 { assert o[1..][i - 1].0 == k; }
        }
      }
      r
  }

  /** Membership and the key set agree. */
  lemma HasKeyIffInKeySet(o: JsonObject, k: string)
    ensures HasKey(o, k) <==> k in KeySet(o)
  {
    if HasKey(o, k) {
      var i :| 0 <= i < |o| && o[i].0 == k;
      assert o[i] in o;
    }
    if k in KeySet(o) {
      var m :| m in o && m.0 == k;
      var i :| 0 <= i < |o| && o[i] == m;
    }
  }

  /** `json.loads` applied to text that starts with `{` and ends with `}`:
      the decoded object, or `None` when it raises `JSONDecodeError`. The
      decoder itself is not part of this model. */
  type Parser = string -> Option<JsonObject>

  /** `json.dumps(value, ensure_ascii=False, indent=2)`, also not modelled. */
  type Serializer = Json -> string

  /** Appending one member adds exactly its key. */
  lemma KeySetAppend(o: JsonObject, k: string, v: Json)
    ensures KeySet(o + [(k, v)]) == KeySet(o) + {k}
  {
    assert (k, v) in o + [(k, v)];
    forall m | m in o + [(k, v)] ensures m in o || m == (k, v) {
    }
    forall m | m in o ensures m in o + [(k, v)] {
    }
  }

  /** No key occurs twice, as in every Python `dict`. */
  predicate UniqueKeys(o: JsonObject) {
    forall i, j | 0 <= i < j < |o| :: o[i].0 != o[j].0
  }

  /** Members appended after an object do not change what it already holds. */
  lemma GetAppend(o: JsonObject, extra: JsonObject, k: string)
    ensures HasKey(o + extra, k) <==> HasKey(o, k) || HasKey(extra, k)
    ensures HasKey(o, k) ==> Get(o + extra, k) == Get(o, k)
    ensures !HasKey(o, k) ==> Get(o + extra, k) == Get(extra, k)
    decreases |o|
  {
    if HasKey(o + extra, k) {
      var i :| 0 <= i < |o + extra| && (o + extra)[i].0 == k;
      if i >= |o| { assert extra[i - |o|].0 == k; } else { assert o[i].0 == k; }
    }
    if HasKey(o, k) {
      var i :| 0 <= i < |o| && o[i].0 == k;
      assert (o + extra)[i].0 == k;
    }
    if HasKey(extra, k) {
      var i :| 0 <= i < |extra| && extra[i].0 == k;
      assert (o + extra)[|o| + i].0 == k;
    }
    if |o| > 0 {
      assert (o + extra)[1..] == o[1..] + extra;
      GetAppend(o[1..], extra, k);
      if o[0].0 != k {
        assert HasKey(o, k) ==> HasKey(o[1..], k) by {
          if HasKey(o, k) {
            var i :| 0 <= i < |o| && o[i].0 == k;
            assert o[1..][i - 1].0 == k;
          }
        }
      }
    } else {
      assert o + extra == extra;
    }
  }
}

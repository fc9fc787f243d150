/**
The append-only log of configuration overrides: one write path, three queries,
and the one-time import of legacy selection files.
*/
module ConfigStore {
  import opened Wrappers
  import Text

  // ---- stored values -----------------------------------------------------------

  datatype Json =
    | JNull
    | JBool(b: bool)
    | JNumber(n: int)
    | JString(s: string)
    | JArray(items: seq<Json>)
    | JObject(fields: map<string, Json>)

  /** A text column: what serde_json reads back from it, or text it rejects. */
  datatype Document = Parsed(json: Json) | Garbled(raw: string)

  const KEY_MODEL_SELECTED := "model.selected"
  const KEY_BACKEND_SELECTED := "backend.selected"
  const KEY_MODEL_FALLBACKS := "model.fallbacks"
  const KEY_ROUTING_RULES := "routing.rules"

  function Field(doc: Document, name: string): Option<Json> {
    if doc.Parsed? && doc.json.JObject? && name in doc.json.fields then Some(doc.json.fields[name]) else None
  }

  function ModelValue(model: string): Document {
    Parsed(JObject(map["model" := JString(model)]))
  }

  function ModelFromValue(doc: Document): Option<string> {
    match Field(doc, "model")
    case Some(JString(model)) => if Text.IsBlank(model) then None else Some(model)
    case _ => None
  }

  function Strings(items: seq<string>): (r: seq<Json>)
    ensures |r| == |items| && forall i | 0 <= i < |r| :: r[i] == JString(items[i])
  {
    seq(|items|, i requires 0 <= i < |items| => JString(items[i]))
  }

  /** The non-blank strings of a JSON array, in order. */
  function NonBlank(items: seq<Json>): seq<string> {
    if items == [] then []
    else (if items[0].JString? && !Text.IsBlank(items[0].s) then [items[0].s] else []) + NonBlank(items[1..])
  }

  function FallbackModelsValue(models: seq<string>): Document {
    Parsed(JObject(map["models" := JArray(Strings(models))]))
  }

  function FallbackModelsFromValue(doc: Document): Option<seq<string>> {
    match Field(doc, "models")
    case Some(JArray(items)) => (var models := NonBlank(items); if models == [] then None else Some(models))
    case _ => None
  }

  function Encoded(rules: map<string, string>): map<string, Json> {
    map cls | cls in rules :: JString(rules[cls])
  }

  function RoutingRulesValue(rules: map<string, string>): Document {
    Parsed(JObject(map["rules" := JObject(Encoded(rules))]))
  }

  predicate KeepsRule(cls: string, model: Json) {
    model.JString? && !Text.IsBlank(cls) && !Text.IsBlank(model.s)
  }

  function ReadRules(fields: map<string, Json>): map<string, string> {
    map cls | cls in fields && KeepsRule(cls, fields[cls]) :: Text.Trim(fields[cls].s)
  }

  function RoutingRulesFromValue(doc: Document): Option<map<string, string>> {
    match Field(doc, "rules")
    case Some(JObject(fields)) => (var rules := ReadRules(fields); if rules == map[] then None else Some(rules))
    case _ => None
  }

  /** `/model` round trip: every non-blank id comes back unchanged, blank ids clear the override. */
  lemma ModelRoundTrip(model: string)
    ensures ModelFromValue(ModelValue(model)) == if Text.IsBlank(model) then None else Some(model)
  {
  }

  lemma {:induction false} NonBlankStrings(models: seq<string>)
    requires forall m | m in models :: !Text.IsBlank(m)
    ensures NonBlank(Strings(models)) == models
  {
    if models != [] {
      assert Strings(models)[1..] == Strings(models[1..]);
      NonBlankStrings(models[1..]);
      assert models[0] in models;
    }
  }

  /**
  Ladder round trip: a ladder without blank ids comes back exactly, except that
  the empty one reads as no override.
  */
  lemma FallbackRoundTrip(models: seq<string>)
    requires forall m | m in models :: !Text.IsBlank(m)
    ensures FallbackModelsFromValue(FallbackModelsValue(models)) == if models == [] then None else Some(models)
  {
    NonBlankStrings(models);
  }

  /** The rules with a non-blank class and model, the model trimmed. */
  function KeptRules(rules: map<string, string>): map<string, string> {
    map cls | cls in rules && !Text.IsBlank(cls) && !Text.IsBlank(rules[cls]) :: Text.Trim(rules[cls])
  }

  /** Rules round trip: non-blank classes keep their trimmed model, all else is dropped. */
  lemma RulesRoundTrip(rules: map<string, string>)
    ensures RoutingRulesFromValue(RoutingRulesValue(rules)) ==
            if KeptRules(rules) == map[] then None else Some(KeptRules(rules))
  {
    hide Text.IsBlank, Text.Trim;
    var fields := Encoded(rules);
    forall cls
      ensures cls in ReadRules(fields) <==> cls in KeptRules(rules)
      ensures cls in ReadRules(fields) ==> ReadRules(fields)[cls] == KeptRules(rules)[cls]
    {
    }
    assert ReadRules(fields) == KeptRules(rules);
  }

  // ---- the log -------------------------------------------------------------------

  datatype Row = Row(key: string, value: Document, origin: string, actor: Option<string>, appliedAt: int)

  datatype Event = ConfigApplied(key: string, origin: string, appliedAt: int)

  /** SELECT value_json .. WHERE key = ? ORDER BY id DESC LIMIT 1. */
  function Latest(rows: seq<Row>, key: string): Option<Document> {
    if rows == [] then None
    else if rows[|rows| - 1].key == key then Some(rows[|rows| - 1].value)
    else Latest(rows[..|rows| - 1], key)
  }

  /** SELECT .. WHERE key = ? ORDER BY id DESC LIMIT ?. */
  function History(rows: seq<Row>, key: string, limit: nat): seq<Row> {
    if rows == [] || limit == 0 then []
    else if rows[|rows| - 1].key == key then [rows[|rows| - 1]] + History(rows[..|rows| - 1], key, limit - 1)
    else History(rows[..|rows| - 1], key, limit)
  }

  /** id IN (SELECT MAX(id) .. GROUP BY key). */
  predicate IsMaxId(rows: seq<Row>, i: nat)
    requires i < |rows|
  {
    forall j | i < j < |rows| :: rows[j].key != rows[i].key
  }

  /** The rows with a maximal id among the first n, in id order. */
  function MaxIdRows(rows: seq<Row>, n: nat): seq<Row>
    requires n <= |rows|
  {
    if n == 0 then []
    else MaxIdRows(rows, n - 1) + (if IsMaxId(rows, n - 1) then [rows[n - 1]] else [])
  }

  /** SQLite's BINARY collation: code points compared left to right. */
  predicate Less(a: string, b: string) {
    b != "" && (a == "" || a[0] < b[0] || (a[0] == b[0] && Less(a[1..], b[1..])))
  }

  function InsertByKey(row: Row, sorted: seq<Row>): seq<Row> {
    if sorted == [] || Less(row.key, sorted[0].key) then [row] + sorted
    else [sorted[0]] + InsertByKey(row, sorted[1..])
  }

  function SortByKey(rows: seq<Row>): seq<Row> {
    if rows == [] then [] else InsertByKey(rows[0], SortByKey(rows[1..]))
  }

  /** Latest row per key, ORDER BY key. */
  function AllLatest(rows: seq<Row>): seq<Row> {
    SortByKey(MaxIdRows(rows, |rows|))
  }

  /** The map the log stands for: each row overwrites its key. */
  function Current(rows: seq<Row>): map<string, Document> {
    if rows == [] then map[]
    else Current(rows[..|rows| - 1])[rows[|rows| - 1].key := rows[|rows| - 1].value]
  }

  function Lookup(m: map<string, Document>, key: string): Option<Document> {
    if key in m then Some(m[key]) else None
  }

  /** The rows of one key, oldest first. */
  function RowsFor(rows: seq<Row>, key: string): seq<Row> {
    if rows == [] then []
    else RowsFor(rows[..|rows| - 1], key) + (if rows[|rows| - 1].key == key then [rows[|rows| - 1]] else [])
  }

  function Reverse(rows: seq<Row>): (r: seq<Row>)
    ensures |r| == |rows|
    ensures forall i | 0 <= i < |r| :: r[i] == rows[|rows| - 1 - i]
  {
    if rows == [] then [] else [rows[|rows| - 1]] + Reverse(rows[..|rows| - 1])
  }

  /** The log after a run of writes, and the map the same writes make. */
  function Replay(rows: seq<Row>, writes: seq<Row>): seq<Row> {
    rows + writes
  }

  function Updated(m: map<string, Document>, writes: seq<Row>): map<string, Document>
    decreases |writes|
  {
    if writes == [] then m else Updated(m[writes[0].key := writes[0].value], writes[1..])
  }

  /** Reading the log is reading the map. */
  lemma {:induction false} LatestIsCurrent(rows: seq<Row>, key: string)
    ensures Latest(rows, key) == Lookup(Current(rows), key)
  {
    if rows != [] { LatestIsCurrent(rows[..|rows| - 1], key); }
  }

  lemma {:induction false} CurrentOfRun(rows: seq<Row>, writes: seq<Row>)
    ensures Current(rows + writes) == Updated(Current(rows), writes)
    decreases |writes|
  {
    if writes == [] {
      assert rows + writes == rows;
    } else {
      var first := rows + [writes[0]];
      assert first[..|first| - 1] == rows;
      assert first + writes[1..] == rows + writes;
      CurrentOfRun(first, writes[1..]);
    }
  }

  /** Any run of writes on the log is the same run of updates on a map, and never alters an older row. */
  lemma LogRefinesMap(rows: seq<Row>, writes: seq<Row>, key: string)
    ensures Latest(Replay(rows, writes), key) == Lookup(Updated(Current(rows), writes), key)
    ensures rows <= Replay(rows, writes)
  {
    CurrentOfRun(rows, writes);
    LatestIsCurrent(rows + writes, key);
  }

  /** A key no later write names keeps its value. */
  lemma {:induction false} LatestUnaffected(rows: seq<Row>, writes: seq<Row>, key: string)
    requires forall w | w in writes :: w.key != key
    ensures Latest(rows + writes, key) == Latest(rows, key)
    decreases |writes|
  {
    if writes == [] {
      assert rows + writes == rows;
    } else {
      var n := |writes| - 1;
      assert (rows + writes)[..|rows| + n] == rows + writes[..n];
      assert writes[n] in writes;
      LatestUnaffected(rows, writes[..n], key);
    }
  }

  /** History is the first `limit` rows of the key's rows read backwards. */
  lemma {:induction false} HistoryIsReversedPrefix(rows: seq<Row>, key: string, limit: nat)
    ensures var all := Reverse(RowsFor(rows, key));
            History(rows, key, limit) == all[..if limit < |all| then limit else |all|]
  {
    if rows != [] {
      var older := rows[..|rows| - 1];
      var last := rows[|rows| - 1];
      if last.key == key {
        assert RowsFor(rows, key)[..|RowsFor(rows, key)| - 1] == RowsFor(older, key);
        if limit > 0 { HistoryIsReversedPrefix(older, key, limit - 1); }
      } else {
        assert RowsFor(rows, key) == RowsFor(older, key);
        HistoryIsReversedPrefix(older, key, limit);
      }
    }
  }

  /** The newest entry of a history is what `Latest` returns. */
  lemma {:induction false} HistoryStartsAtLatest(rows: seq<Row>, key: string, limit: nat)
    requires limit > 0
    ensures Latest(rows, key).Some? <==> History(rows, key, limit) != []
    ensures Latest(rows, key).Some? ==> Latest(rows, key).value == History(rows, key, limit)[0].value
  {
    if rows != [] { HistoryStartsAtLatest(rows[..|rows| - 1], key, limit); }
  }

  /** One write moves only its own key's history: it goes to the front, and every other history stays. */
  lemma HistoryAfterWrite(rows: seq<Row>, write: Row, key: string, limit: nat)
    ensures History(rows + [write], key, limit) ==
            if write.key != key then History(rows, key, limit)
            else if limit == 0 then [] else [write] + History(rows, key, limit - 1)
  {
    assert (rows + [write])[..|rows|] == rows;
  }

  // ---- the grouped view --------------------------------------------------------------

  lemma {:induction false} LessTrans(a: string, b: string, c: string)
    requires Less(a, b) && Less(b, c)
    ensures Less(a, c)
  {
    if a != "" && a[0] == b[0] && b[0] == c[0] { LessTrans(a[1..], b[1..], c[1..]); }
  }

  lemma {:induction false} LessTotal(a: string, b: string)
    ensures a == b || Less(a, b) || Less(b, a)
    ensures !(Less(a, b) && Less(b, a)) && !Less(a, a)
  {
    if a != "" { LessIrreflexive(a); }
    if a != "" && b != "" && a[0] == b[0] {
      LessTotal(a[1..], b[1..]);
      assert a == [a[0]] + a[1..] && b == [b[0]] + b[1..];
    }
  }

  lemma {:induction false} LessIrreflexive(a: string)
    ensures !Less(a, a)
  {
    if a != "" { LessIrreflexive(a[1..]); }
  }

  ghost predicate Ascending(rows: seq<Row>) {
    forall i, j | 0 <= i < j < |rows| :: Less(rows[i].key, rows[j].key)
  }

  ghost predicate DistinctKeys(rows: seq<Row>) {
    forall i, j | 0 <= i < j < |rows| :: rows[i].key != rows[j].key
  }

  /** The grouped view: keys strictly ascending, and per key exactly the last row written. */
  ghost predicate IsGroupedView(rows: seq<Row>, view: seq<Row>) {
    && Ascending(view)
    && forall row: Row :: row in view <==> LastRow(rows, row.key) == Some(row)
  }

  /** The last row of a key. */
  function LastRow(rows: seq<Row>, key: string): Option<Row> {
    if rows == [] then None
    else if rows[|rows| - 1].key == key then Some(rows[|rows| - 1])
    else LastRow(rows[..|rows| - 1], key)
  }

  lemma {:induction false} InsertKeeps(row: Row, sorted: seq<Row>)
    requires Ascending(sorted) && forall r | r in sorted :: r.key != row.key
    ensures Ascending(InsertByKey(row, sorted))
    ensures forall r :: r in InsertByKey(row, sorted) <==> r == row || r in sorted
  {
    if sorted == [] {
    } else if Less(row.key, sorted[0].key) {
      forall j | 0 <= j < |sorted|
        ensures Less(row.key, sorted[j].key)
      {
        if j > 0 { LessTrans(row.key, sorted[0].key, sorted[j].key); }
      }
    } else {
      LessTotal(row.key, sorted[0].key);
      assert sorted[0] in sorted;
      InsertKeeps(row, sorted[1..]);
      var rest := InsertByKey(row, sorted[1..]);
      forall j | 0 <= j < |rest|
        ensures Less(sorted[0].key, rest[j].key)
      {
        assert rest[j] in rest;
        if rest[j] != row {
          var k :| 0 <= k < |sorted[1..]| && sorted[1..][k] == rest[j];
          assert sorted[k + 1] == rest[j];
        }
      }
    }
  }

  lemma {:induction false} SortKeeps(rows: seq<Row>)
    requires DistinctKeys(rows)
    ensures Ascending(SortByKey(rows))
    ensures forall r :: r in SortByKey(rows) <==> r in rows
  {
    if rows != [] {
      SortKeeps(rows[1..]);
      forall r | r in SortByKey(rows[1..])
        ensures r.key != rows[0].key
      {
        var k :| 0 <= k < |rows[1..]| && rows[1..][k] == r;
        assert rows[k + 1] == r;
      }
      InsertKeeps(rows[0], SortByKey(rows[1..]));
    }
  }

  lemma {:induction false} MaxIdRowsOf(rows: seq<Row>, n: nat)
    requires n <= |rows|
    ensures forall r :: r in MaxIdRows(rows, n) <==> exists i :: 0 <= i < n && rows[i] == r && IsMaxId(rows, i)
    ensures DistinctKeys(MaxIdRows(rows, n))
  {
    if n > 0 {
      MaxIdRowsOf(rows, n - 1);
      var before := MaxIdRows(rows, n - 1);
      forall k | 0 <= k < |before| && IsMaxId(rows, n - 1)
        ensures before[k].key != rows[n - 1].key
      {
        assert before[k] in before;
        var i :| 0 <= i < n - 1 && rows[i] == before[k] && IsMaxId(rows, i);
      }
    }
  }

  lemma {:induction false} LastRowIsMaxId(rows: seq<Row>, row: Row)
    ensures LastRow(rows, row.key) == Some(row) <==> exists i :: 0 <= i < |rows| && rows[i] == row && IsMaxId(rows, i)
  {
    if rows != [] {
      var n := |rows| - 1;
      LastRowIsMaxId(rows[..n], row);
      if rows[n].key == row.key {
        assert IsMaxId(rows, n);
      } else {
        forall i | 0 <= i < n && rows[i] == row
          ensures IsMaxId(rows, i) <==> IsMaxId(rows[..n], i)
        {
        }
      }
    }
  }

  /** `all_latest` is the grouped view of the log. */
  lemma AllLatestIsGroupedView(rows: seq<Row>)
    ensures IsGroupedView(rows, AllLatest(rows))
  {
    MaxIdRowsOf(rows, |rows|);
    SortKeeps(MaxIdRows(rows, |rows|));
    forall row: Row
      ensures row in AllLatest(rows) <==> LastRow(rows, row.key) == Some(row)
    {
      LastRowIsMaxId(rows, row);
    }
  }

  /** Only one sequence is the grouped view of a log. */
  lemma {:induction false} GroupedViewIsUnique(view: seq<Row>, view': seq<Row>)
    requires Ascending(view) && Ascending(view') && forall r :: r in view <==> r in view'
    ensures view == view'
  {
    if view == [] {
      assert forall i | 0 <= i < |view'| :: view'[i] in view';
    } else {
      assert view[0] in view && view[0] in view';
      assert view'[0] in view' && view'[0] in view;
      LessTotal(view[0].key, view'[0].key);
      assert view[0] == view'[0];
      forall r
        ensures r in view[1..] <==> r in view'[1..]
      {
        TailMembers(view, r);
        TailMembers(view', r);
      }
      GroupedViewIsUnique(view[1..], view'[1..]);
    }
  }

  lemma TailMembers(view: seq<Row>, r: Row)
    requires view != [] && Ascending(view)
    ensures r in view[1..] <==> r in view && r != view[0]
  {
    LessIrreflexive(view[0].key);
    if r in view[1..] {
      var k :| 0 <= k < |view[1..]| && view[1..][k] == r;
      assert view[k + 1] == r;
    }
    if r in view && r != view[0] {
      var k :| 0 <= k < |view| && view[k] == r;
      assert view[1..][k - 1] == r;
    }
  }

  lemma {:induction false} LatestOfLastRow(rows: seq<Row>, key: string)
    ensures Latest(rows, key).Some? <==> LastRow(rows, key).Some?
    ensures Latest(rows, key).Some? ==>
            LastRow(rows, key).value.key == key && Latest(rows, key).value == LastRow(rows, key).value.value
  {
    if rows != [] { LatestOfLastRow(rows[..|rows| - 1], key); }
  }

  /** The grouped view agrees with `Latest` on every key: same keys, same values, one row each. */
  lemma AllLatestAgreesWithLatest(rows: seq<Row>, key: string)
    ensures Latest(rows, key).Some? <==> exists row :: row in AllLatest(rows) && row.key == key
    ensures forall row | row in AllLatest(rows) && row.key == key :: Latest(rows, key) == Some(row.value)
  {
    AllLatestIsGroupedView(rows);
    LatestOfLastRow(rows, key);
    if Latest(rows, key).Some? {
      assert LastRow(rows, key).value in AllLatest(rows);
    }
  }

  /** The handle: the table, and the events sent when a subscriber channel is attached. */
  class ConfigStore {
    var rows: seq<Row>
    var events: seq<Event>
    const withEvents: bool

    constructor (withEvents: bool)
      ensures rows == [] && events == [] && this.withEvents == withEvents
    {
      rows, events, this.withEvents := [], [], withEvents;
    }

    /** The single write path. `stored` is false when the insert fails. */
    method Apply(key: string, value: Document, origin: string, actor: Option<string>, now: int, stored: bool)
      returns (ok: bool)
      modifies this
      ensures ok == stored
      ensures rows == if stored then old(rows) + [Row(key, value, origin, actor, now)] else old(rows)
      ensures events == if stored && withEvents then old(events) + [ConfigApplied(key, origin, now)] else old(events)
      ensures stored ==> Latest(rows, key) == Some(value)
      ensures forall k | k != key || !stored :: Latest(rows, k) == Latest(old(rows), k)
    {
      if !stored { return false; }
      rows := rows + [Row(key, value, origin, actor, now)];
      if withEvents {
        events := events + [ConfigApplied(key, origin, now)];
      }
      assert rows[..|rows| - 1] == old(rows);
      return true;
    }
  }
}

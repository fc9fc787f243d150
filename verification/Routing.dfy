/**
The effective model-routing table: the config log's `routing.rules` override
laid over the `[routing]` table of the TOML file, class by class.
*/
module Routing {
  import opened Wrappers
  import opened ConfigStore
  import Text

  datatype RouteClass = ChatTurn | PursueTask | Cabinet | Reflection | Compaction

  const ALL_CLASSES := [ChatTurn, PursueTask, Cabinet, Reflection, Compaction]

  function AsStr(c: RouteClass): string {
    match c
    case ChatTurn => "chat_turn"
    case PursueTask => "pursue_task"
    case Cabinet => "cabinet"
    case Reflection => "reflection"
    case Compaction => "compaction"
  }

  /** The first class of `classes` named s. */
  function Find(classes: seq<RouteClass>, s: string): Option<RouteClass> {
    if classes == [] then None
    else if AsStr(classes[0]) == s then Some(classes[0])
    else Find(classes[1..], s)
  }

  function Parse(s: string): Option<RouteClass> {
    Find(ALL_CLASSES, s)
  }

  lemma {:induction false} FindSome(classes: seq<RouteClass>, s: string)
    ensures Find(classes, s).Some? <==> exists c :: c in classes && AsStr(c) == s
    ensures Find(classes, s).Some? ==> AsStr(Find(classes, s).value) == s
  {
    if classes != [] {
      FindSome(classes[1..], s);
      assert classes == [classes[0]] + classes[1..];
    }
  }

  lemma NamesDiffer(c: RouteClass, d: RouteClass)
    ensures AsStr(c) == AsStr(d) <==> c == d
  {
    assert |"chat_turn"| == 9 && |"pursue_task"| == 11 && |"cabinet"| == 7
           && |"reflection"| == 10 && |"compaction"| == 10;
    assert "reflection"[0] == 'r' && "compaction"[0] == 'c';
  }

  /** Parsing accepts exactly the five names and inverts naming. */
  lemma ParseInvertsAsStr(s: string, c: RouteClass)
    ensures Parse(s) == Some(c) <==> s == AsStr(c)
  {
    FindSome(ALL_CLASSES, s);
    assert c in ALL_CLASSES by {
      assert ALL_CLASSES[0] == ChatTurn && ALL_CLASSES[1] == PursueTask && ALL_CLASSES[2] == Cabinet;
      assert ALL_CLASSES[3] == Reflection && ALL_CLASSES[4] == Compaction;
    }
    if s == AsStr(c) {
      NamesDiffer(c, Parse(s).value);
    }
  }

  /** The names that parse are these five. */
  lemma ParsesIff(s: string)
    ensures Parse(s).Some? <==> s in ["chat_turn", "pursue_task", "cabinet", "reflection", "compaction"]
  {
    if Parse(s).Some? { ParseInvertsAsStr(s, Parse(s).value); }
    ParseInvertsAsStr(s, ChatTurn);
    ParseInvertsAsStr(s, PursueTask);
    ParseInvertsAsStr(s, Cabinet);
    ParseInvertsAsStr(s, Reflection);
    ParseInvertsAsStr(s, Compaction);
  }

  datatype RuleSource = Override | Toml

  datatype Rule = Rule(model: string, source: RuleSource)

  type RoutingTable = map<RouteClass, Rule>

  function ModelFor(table: RoutingTable, c: RouteClass): Option<string> {
    if c in table then Some(table[c].model) else None
  }

  function SourceFor(table: RoutingTable, c: RouteClass): Option<RuleSource> {
    if c in table then Some(table[c].source) else None
  }

  datatype RouteReport = RouteReport(cls: string, model: Option<string>, source: Option<RuleSource>)

  function Report(table: RoutingTable): seq<RouteReport> {
    seq(|ALL_CLASSES|, i requires 0 <= i < |ALL_CLASSES| =>
      RouteReport(AsStr(ALL_CLASSES[i]), ModelFor(table, ALL_CLASSES[i]), SourceFor(table, ALL_CLASSES[i])))
  }

  /** What a layer says about a class: its trimmed model, unless blank or missing. */
  function Named(layer: map<string, string>, c: RouteClass): Option<string> {
    if AsStr(c) in layer && !Text.IsBlank(layer[AsStr(c)]) then Some(Text.Trim(layer[AsStr(c)])) else None
  }

  /** The rule a class ends up with: the override's, else the TOML one, else none. */
  function Effective(toml: map<string, string>, over: Option<map<string, string>>, c: RouteClass): Option<Rule> {
    if over.Some? && Named(over.value, c).Some? then Some(Rule(Named(over.value, c).value, Override))
    else if Named(toml, c).Some? then Some(Rule(Named(toml, c).value, Toml))
    else None
  }

  function RuleOf(table: RoutingTable, c: RouteClass): Option<Rule> {
    if c in table then Some(table[c]) else None
  }

  /** What a layer leaves of a class's rule once laid over an older one. */
  function Overlaid(layer: map<string, string>, source: RuleSource, older: Option<Rule>, c: RouteClass): Option<Rule> {
    if Named(layer, c).Some? then Some(Rule(Named(layer, c).value, source)) else older
  }

  /** One layer's loop. The map is visited in whatever order `class` is picked. */
  method Overlay(layer: map<string, string>, source: RuleSource, table: RoutingTable) returns (r: RoutingTable)
    ensures forall c :: RuleOf(r, c) == Overlaid(layer, source, RuleOf(table, c), c)
  {
    hide Text.IsBlank, Text.Trim;
    r := table;
    var pending := layer.Keys;
    while pending != {}
      invariant pending <= layer.Keys
      invariant forall c :: RuleOf(r, c) ==
                            (if AsStr(c) in pending then RuleOf(table, c)
                              else Overlaid(layer, source, RuleOf(table, c), c))
    {
      var cls :| cls in pending;
      pending := pending - {cls};
      var model := Text.Trim(layer[cls]);
      var parsed := Parse(cls);
      forall c
        ensures parsed == Some(c) <==> cls == AsStr(c)
      {
        ParseInvertsAsStr(cls, c);
      }
      if parsed.None? { continue; }
      BlankIsEmpty(layer[cls]);
      if model == "" { continue; }
      r := r[parsed.value := Rule(model, source)];
    }
  }

  lemma BlankIsEmpty(s: string)
    ensures Text.IsBlank(s) <==> Text.Trim(s) == ""
  {
  }

  /** A class has the override's trimmed model, else the file's, unless both are blank or missing. */
  predicate IsOverlaid(
    table: RoutingTable, toml: map<string, string>, over: Option<map<string, string>>, c: RouteClass)
  {
    var name := AsStr(c);
    if over.Some? && name in over.value && Text.Trim(over.value[name]) != "" then
      c in table && table[c] == Rule(Text.Trim(over.value[name]), Override)
    else if name in toml && Text.Trim(toml[name]) != "" then
      c in table && table[c] == Rule(Text.Trim(toml[name]), Toml)
    else c !in table
  }

  /** RoutingTable::resolve: the TOML layer first, the override over it, whatever the iteration order. */
  method Resolve(toml: map<string, string>, over: Option<map<string, string>>) returns (table: RoutingTable)
    ensures forall c :: RuleOf(table, c) == Effective(toml, over, c)
    ensures forall c :: IsOverlaid(table, toml, over, c)
  {
    table := Overlay(toml, Toml, map[]);
    if over.Some? {
      table := Overlay(over.value, Override, table);
    }
    forall c
      ensures IsOverlaid(table, toml, over, c)
    {
      assert RuleOf(table, c) == Effective(toml, over, c);
    }
  }

  /** The rule `load_table` gives a class; a failed read of the log counts as no override. */
  function Loaded(log: seq<Row>, readable: bool, toml: map<string, string>, c: RouteClass): Option<Rule> {
    var raw := if readable then Latest(log, KEY_ROUTING_RULES) else None;
    Effective(toml, if raw.Some? then RoutingRulesFromValue(raw.value) else None, c)
  }

  method LoadTable(store: ConfigStore, readable: bool, toml: map<string, string>) returns (table: RoutingTable)
    ensures forall c :: RuleOf(table, c) == Loaded(store.rows, readable, toml, c)
    // the override is what the latest row holds, if it can be read and holds any rule at all
    ensures var raw := if readable then Latest(store.rows, KEY_ROUTING_RULES) else None;
            var over := if raw.Some? then RoutingRulesFromValue(raw.value) else None;
            forall c :: IsOverlaid(table, toml, over, c)
  {
    hide Latest, RoutingRulesFromValue, Text.Trim;
    var raw := if readable then Latest(store.rows, KEY_ROUTING_RULES) else None;
    var over := if raw.Some? then RoutingRulesFromValue(raw.value) else None;
    table := Resolve(toml, over);
  }

  // ---- what a history of writes leaves effective ---------------------------------

  datatype RulesWrite = RulesWrite(rules: map<string, string>, origin: string, actor: Option<string>, at: int)

  function Write(w: RulesWrite): Row {
    Row(KEY_ROUTING_RULES, RoutingRulesValue(w.rules), w.origin, w.actor, w.at)
  }

  /** The log after a history in which rules writes are mixed with rows of other keys. */
  ghost predicate EndsWith(log: seq<Row>, last: RulesWrite) {
    exists i :: 0 <= i < |log| && log[i] == Write(last) && forall j | i < j < |log| :: log[j].key != KEY_ROUTING_RULES
  }

  lemma LastWriteIsLatest(log: seq<Row>, last: RulesWrite)
    requires EndsWith(log, last)
    ensures Latest(log, KEY_ROUTING_RULES) == Some(RoutingRulesValue(last.rules))
  {
    var i :| 0 <= i < |log| && log[i] == Write(last) && forall j | i < j < |log| :: log[j].key != KEY_ROUTING_RULES;
    assert log == log[..i + 1] + log[i + 1..];
    assert log[..i + 1][..i] == log[..i];
    forall w | w in log[i + 1..]
      ensures w.key != KEY_ROUTING_RULES
    {
      var k :| 0 <= k < |log[i + 1..]| && log[i + 1..][k] == w;
      assert w == log[i + 1 + k];
    }
    LatestUnaffected(log[..i + 1], log[i + 1..], KEY_ROUTING_RULES);
  }

  /** The names of classes are never blank, so storing a rule does not lose it. */
  lemma NamesAreNotBlank(c: RouteClass)
    ensures !Text.IsBlank(AsStr(c))
  {
    var s := AsStr(c);
    assert s[0] == 'c' || s[0] == 'p' || s[0] == 'r';
    assert s[|s| - 1] == 'n' || s[|s| - 1] == 'k' || s[|s| - 1] == 't';
    Text.TrimByBare(Text.Whitespace, s);
  }

  /** Storing and reading back a rules map keeps what it says about every class. */
  lemma StoredRulesSayTheSame(rules: map<string, string>, c: RouteClass)
    ensures Named(KeptRules(rules), c) == Named(rules, c)
  {
    NamesAreNotBlank(c);
    if AsStr(c) in rules {
      Text.TrimByIdempotent(Text.Whitespace, rules[AsStr(c)]);
    }
  }

  /** Rules that are the log's latest ones are loaded over the TOML table. */
  lemma StoredRulesLoad(log: seq<Row>, rules: map<string, string>, toml: map<string, string>, c: RouteClass)
    requires Latest(log, KEY_ROUTING_RULES) == Some(RoutingRulesValue(rules))
    ensures Loaded(log, true, toml, c) == Effective(toml, Some(rules), c)
  {
    hide Text.IsBlank, Text.Trim;
    RulesRoundTrip(rules);
    StoredRulesSayTheSame(rules, c);
  }

  /**
  After any history of writes, a class has the model of the last written map
  (trimmed, unless blank), else the TOML one, else none, with the right source.
  */
  lemma LastRulesWin(log: seq<Row>, last: RulesWrite, toml: map<string, string>, c: RouteClass)
    requires EndsWith(log, last)
    ensures Loaded(log, true, toml, c) == Effective(toml, Some(last.rules), c)
  {
    LastWriteIsLatest(log, last);
    StoredRulesLoad(log, last.rules, toml, c);
  }

  /** Writing the empty map restores the TOML table, whatever was written before. */
  lemma EmptyRulesRestoreToml(log: seq<Row>, last: RulesWrite, toml: map<string, string>, c: RouteClass)
    requires EndsWith(log, last) && last.rules == map[]
    ensures Loaded(log, true, toml, c) == Effective(toml, None, c)
  {
    LastRulesWin(log, last, toml, c);
  }

  /** A rules map replaces the previous one whole: nothing of an earlier map survives. */
  lemma EarlierRulesDoNotMatter(
    log: seq<Row>, log': seq<Row>, last: RulesWrite, toml: map<string, string>, c: RouteClass)
    requires EndsWith(log, last) && EndsWith(log', last)
    ensures Loaded(log, true, toml, c) == Loaded(log', true, toml, c)
  {
    LastRulesWin(log, last, toml, c);
    LastRulesWin(log', last, toml, c);
  }

  /** The report lists every class once, in display order, with its effective rule. */
  lemma ReportIsComplete(table: RoutingTable, c: RouteClass)
    ensures |Report(table)| == 5
    ensures forall i | 0 <= i < 5 ::
              Report(table)[i].cls == ["chat_turn", "pursue_task", "cabinet", "reflection", "compaction"][i]
    ensures exists i :: 0 <= i < 5 && Report(table)[i] == RouteReport(AsStr(c), ModelFor(table, c), SourceFor(table, c))
    ensures forall i, j | 0 <= i < j < 5 :: Report(table)[i].cls != Report(table)[j].cls
  {
    var r := Report(table);
    assert r[0].cls == "chat_turn" && r[1].cls == "pursue_task" && r[2].cls == "cabinet";
    assert r[3].cls == "reflection" && r[4].cls == "compaction";
    forall i, j | 0 <= i < j < 5
      ensures r[i].cls != r[j].cls
    {
      NamesDiffer(ALL_CLASSES[i], ALL_CLASSES[j]);
    }
    var i :=
      match c case ChatTurn => 0 case PursueTask => 1 case Cabinet => 2 case Reflection => 3 case Compaction => 4;
    assert ALL_CLASSES[i] == c;
    assert r[i] == RouteReport(AsStr(c), ModelFor(table, c), SourceFor(table, c));
  }
}

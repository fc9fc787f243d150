/**
Crisis mode: how a message is classified, and which tasks are given up so that at
least two hours are freed. Hours, priorities and weights are real numbers.
*/
module CrisisMode {
  import opened Text

  // ---- detection -----------------------------------------------------------------------------

  const CRISIS_THRESHOLD: real := 0.8
  const TRIGGER := "/crise"

  const URGENCY_KEYWORDS: seq<(string, real)> := [
    ("urgente", 0.35), ("emergência", 0.35), ("emergencia", 0.35),
    ("crítico", 0.30), ("critico", 0.30), ("socorro", 0.30), ("ajuda agora", 0.30), ("preciso agora", 0.30),
    ("imediato", 0.25), ("imediatamente", 0.25), ("agora mesmo", 0.25),
    ("não pode esperar", 0.25), ("nao pode esperar", 0.25),
    ("prazo hoje", 0.25), ("deadline hoje", 0.25), ("tudo parado", 0.25),
    ("sistema caiu", 0.30), ("servidor caiu", 0.30), ("produção caiu", 0.30), ("producao caiu", 0.30),
    ("urgência", 0.20), ("urgencia", 0.20), ("problema grave", 0.20),
    ("situação crítica", 0.20), ("situacao critica", 0.20),
    ("preciso de ajuda", 0.15), ("não consigo", 0.10), ("nao consigo", 0.10), ("travado", 0.10), ("bloqueado", 0.10)
  ]

  predicate OccursAt(text: string, part: string, i: nat) {
    i + |part| <= |text| && text[i..i + |part|] == part
  }

  predicate Contains(text: string, part: string) {
    exists i: nat | i <= |text| :: OccursAt(text, part, i)
  }

  /** The weight of every keyword the text contains. */
  function Score(text: string, table: seq<(string, real)>): real {
    if table == [] then 0.0
    else (if Contains(text, table[0].0) then table[0].1 else 0.0) + Score(text, table[1..])
  }

  function AtMostOne(x: real): real {
    if x < 1.0 then x else 1.0
  }

  predicate IsCrisis(lower: char -> string, message: string) {
    var text := Lowered(lower, message);
    Contains(text, TRIGGER) || AtMostOne(Score(text, URGENCY_KEYWORDS)) > CRISIS_THRESHOLD
  }

  predicate NonNegative(table: seq<(string, real)>) {
    forall i | 0 <= i < |table| :: table[i].1 >= 0.0
  }

  lemma {:induction false} ScoreIsNonNegative(text: string, table: seq<(string, real)>)
    requires NonNegative(table)
    ensures Score(text, table) >= 0.0
  {
    if table != [] { ScoreIsNonNegative(text, table[1..]); }
  }

  method DetectCrisis(lower: char -> string, message: string) returns (isCrisis: bool, confidence: real)
    ensures isCrisis == IsCrisis(lower, message)
    ensures var text := Lowered(lower, message);
            confidence == if Contains(text, TRIGGER) then 1.0 else AtMostOne(Score(text, URGENCY_KEYWORDS))
    ensures isCrisis <==> confidence > 0.8
    ensures IsAround(Lowered(lower, message), "/crise") ==> confidence == 1.0
  {
    ContainsIff(Lowered(lower, message), "/crise");
    var text := Lowered(lower, message);
    if Contains(text, TRIGGER) { return true, 1.0; }
    confidence := ScoreCapped(text, URGENCY_KEYWORDS);
    isCrisis := confidence > CRISIS_THRESHOLD;
  }

  /** Capping after every keyword is capping once at the end. */
  method ScoreCapped(text: string, table: seq<(string, real)>) returns (confidence: real)
    requires NonNegative(table)
    ensures confidence == AtMostOne(Score(text, table))
    ensures 0.0 <= confidence <= 1.0
  {
    confidence := 0.0;
    var i := 0;
    while i < |table|
      invariant i <= |table| && 0.0 <= confidence <= 1.0
      invariant AtMostOne(confidence + Score(text, table[i..])) == AtMostOne(Score(text, table))
    {
      ScoreIsNonNegative(text, table[i + 1..]);
      assert table[i..][1..] == table[i + 1..];
      if Contains(text, table[i].0) {
        confidence := AtMostOne(confidence + table[i].1);
      }
      i := i + 1;
    }
  }

  /** Some text, the part, and some more text. */
  ghost predicate IsAround(text: string, part: string) {
    exists before: string, after: string :: text == before + part + after
  }

  lemma ContainsIff(text: string, part: string)
    ensures Contains(text, part) <==> IsAround(text, part)
  {
    if i: nat :| i <= |text| && OccursAt(text, part, i) {
      assert text == text[..i] + part + text[i + |part|..];
    }
    if before: string, after: string :| text == before + part + after {
      assert OccursAt(text, part, |before|);
    }
  }

  /** A keyword counts its weight once if the text has it at all, wherever it stands in the table. */
  lemma {:induction false} KeywordCounts(
    text: string, a: seq<(string, real)>, keyword: string, weight: real, b: seq<(string, real)>)
    ensures Score(text, a + [(keyword, weight)] + b) ==
            Score(text, a + b) + if IsAround(text, keyword) then weight else 0.0
  {
    hide Contains, IsAround;
    ContainsIff(text, keyword);
    var all := a + [(keyword, weight)] + b;
    if a == [] {
      assert all[1..] == b && a + b == b;
    } else {
      KeywordCounts(text, a[1..], keyword, weight, b);
      assert all[0] == a[0] && all[1..] == a[1..] + [(keyword, weight)] + b;
      assert (a + b)[0] == a[0] && (a + b)[1..] == a[1..] + b;
    }
  }

  lemma StillContains(before: string, text: string, after: string, part: string)
    requires Contains(text, part)
    ensures Contains(before + text + after, part)
  {
    var i: nat :| i <= |text| && OccursAt(text, part, i);
    var all := before + text + after;
    assert all[|before| + i..|before| + i + |part|] == text[i..i + |part|];
    assert OccursAt(all, part, |before| + i);
  }

  lemma {:induction false} ScoreIsMonotone(before: string, text: string, after: string, table: seq<(string, real)>)
    requires NonNegative(table)
    ensures Score(text, table) <= Score(before + text + after, table)
  {
    if table != [] {
      ScoreIsMonotone(before, text, after, table[1..]);
      if Contains(text, table[0].0) { StillContains(before, text, after, table[0].0); }
    }
  }

  lemma WeightsAreNonNegative()
    ensures NonNegative(URGENCY_KEYWORDS)
  {
  }

  /** Saying more never calms a message down. */
  lemma CrisisIsMonotone(lower: char -> string, before: string, message: string, after: string)
    requires IsCrisis(lower, message)
    ensures IsCrisis(lower, before + message + after)
  {
    hide Contains, Score, NonNegative, Lowered, URGENCY_KEYWORDS;
    WeightsAreNonNegative();
    LoweredConcat(lower, before + message, after);
    LoweredConcat(lower, before, message);
    var text := Lowered(lower, message);
    var b, a := Lowered(lower, before), Lowered(lower, after);
    if Contains(text, TRIGGER) { StillContains(b, text, a, TRIGGER); }
    ScoreIsMonotone(b, text, a, URGENCY_KEYWORDS);
  }

  // ---- the sacrifice -------------------------------------------------------------------------------

  const TARGET_HOURS: real := 2.0

  datatype Task = Task(id: string, title: string, hours: real, movable: bool, priority: real)

  datatype SacrificeResult = SacrificeResult(sacrificed: seq<Task>, freed: real, newWeight: real, fallback: bool)

  predicate IsSacrificable(t: Task, threshold: real) {
    t.movable && t.priority < threshold
  }

  function Sacrificable(tasks: seq<Task>, threshold: real): seq<Task> {
    if tasks == [] then []
    else if IsSacrificable(tasks[0], threshold) then [tasks[0]] + Sacrificable(tasks[1..], threshold)
    else Sacrificable(tasks[1..], threshold)
  }

  function Total(tasks: seq<Task>): real {
    if tasks == [] then 0.0 else tasks[0].hours + Total(tasks[1..])
  }

  /** list.sort by priority: a stable sort, here by insertion. */
  function Insert(t: Task, sorted: seq<Task>): seq<Task> {
    if sorted == [] || t.priority <= sorted[0].priority then [t] + sorted
    else [sorted[0]] + Insert(t, sorted[1..])
  }

  function SortedByPriority(tasks: seq<Task>): seq<Task> {
    if tasks == [] then [] else Insert(tasks[0], SortedByPriority(tasks[1..]))
  }

  predicate IsSorted(tasks: seq<Task>) {
    forall i, j | 0 <= i < j < |tasks| :: tasks[i].priority <= tasks[j].priority
  }

  function OfPriority(tasks: seq<Task>, p: real): seq<Task> {
    if tasks == [] then []
    else if tasks[0].priority == p then [tasks[0]] + OfPriority(tasks[1..], p)
    else OfPriority(tasks[1..], p)
  }

  lemma {:induction false} InsertAdds(t: Task, sorted: seq<Task>)
    ensures multiset(Insert(t, sorted)) == multiset(sorted) + multiset{t}
  {
    if sorted != [] && t.priority > sorted[0].priority {
      InsertAdds(t, sorted[1..]);
      assert sorted == [sorted[0]] + sorted[1..];
    }
  }

  lemma {:induction false} InsertIsSorted(t: Task, sorted: seq<Task>)
    requires IsSorted(sorted)
    ensures IsSorted(Insert(t, sorted))
  {
    if sorted != [] && t.priority > sorted[0].priority {
      var rest := sorted[1..];
      var inserted := Insert(t, rest);
      InsertIsSorted(t, rest);
      InsertAdds(t, rest);
      forall k | 0 <= k < |inserted|
        ensures sorted[0].priority <= inserted[k].priority
      {
        assert inserted[k] in multiset(inserted);
        if inserted[k] != t {
          assert inserted[k] in rest;
        }
      }
    }
  }

  lemma {:induction false} InsertIsStable(t: Task, sorted: seq<Task>, p: real)
    ensures OfPriority(Insert(t, sorted), p) ==
            if t.priority == p then [t] + OfPriority(sorted, p) else OfPriority(sorted, p)
  {
    if sorted == [] || t.priority <= sorted[0].priority {
      assert ([t] + sorted)[1..] == sorted;
    } else {
      InsertIsStable(t, sorted[1..], p);
      assert ([sorted[0]] + Insert(t, sorted[1..]))[1..] == Insert(t, sorted[1..]);
    }
  }

  /** The result is sorted, a permutation, and keeps the order of equal priorities. */
  lemma {:induction false} SortIsStable(tasks: seq<Task>)
    ensures IsSorted(SortedByPriority(tasks))
    ensures multiset(SortedByPriority(tasks)) == multiset(tasks)
    ensures forall p :: OfPriority(SortedByPriority(tasks), p) == OfPriority(tasks, p)
  {
    if tasks != [] {
      var rest := SortedByPriority(tasks[1..]);
      SortIsStable(tasks[1..]);
      InsertAdds(tasks[0], rest);
      InsertIsSorted(tasks[0], rest);
      assert tasks == [tasks[0]] + tasks[1..];
      forall p
        ensures OfPriority(SortedByPriority(tasks), p) == OfPriority(tasks, p)
      {
        InsertIsStable(tasks[0], rest, p);
      }
    }
  }

  lemma {:induction false} TotalConcat(a: seq<Task>, b: seq<Task>)
    ensures Total(a + b) == Total(a) + Total(b)
  {
    if a == [] {
      assert a + b == b;
    } else {
      TotalConcat(a[1..], b);
      assert (a + b)[1..] == a[1..] + b;
    }
  }

  lemma {:induction false} SacrificableConcat(a: seq<Task>, b: seq<Task>, threshold: real)
    ensures Sacrificable(a + b, threshold) == Sacrificable(a, threshold) + Sacrificable(b, threshold)
  {
    if a == [] {
      assert a + b == b;
    } else {
      SacrificableConcat(a[1..], b, threshold);
      assert (a + b)[1..] == a[1..] + b;
    }
  }

  function Boosted(weight: real): real {
    AtMostOne(weight + 0.3)
  }

  /** What may be given up, least important first. */
  function Candidates(weight: real, tasks: seq<Task>): seq<Task> {
    SortedByPriority(Sacrificable(tasks, Boosted(weight) * 0.6))
  }

  /** The shortest prefix that frees the target. */
  predicate IsShortestEnough(selected: seq<Task>, candidates: seq<Task>) {
    && selected <= candidates
    && Total(selected) >= TARGET_HOURS
    && forall k | 0 <= k < |selected| :: Total(candidates[..k]) < TARGET_HOURS
  }

  method SacrificeAlgorithm(weight: real, tasks: seq<Task>) returns (r: SacrificeResult)
    ensures r.newWeight == Boosted(weight)
    ensures r.freed == Total(r.sacrificed)
    ensures r.fallback <==> Total(Candidates(weight, tasks)) < TARGET_HOURS
    ensures r.fallback ==> r.sacrificed == Candidates(weight, tasks)
    ensures !r.fallback ==> IsShortestEnough(r.sacrificed, Candidates(weight, tasks))
    // the weight rises by 0.3, up to 1, and only movable tasks below six tenths of it are given up
    ensures r.newWeight == if weight + 0.3 < 1.0 then weight + 0.3 else 1.0
    ensures forall t | t in r.sacrificed :: t in tasks && t.movable && t.priority < r.newWeight * 0.6
    ensures r.fallback ==>
              forall t | t in tasks && t.movable && t.priority < r.newWeight * 0.6 :: t in r.sacrificed
  {
    CandidatesComeFromTasks(weight, tasks);
    var newWeight := AtMostOne(weight + 0.3);
    var threshold := newWeight * 0.6;
    var sacrificable: seq<Task> := [];
    var i := 0;
    while i < |tasks|
      invariant i <= |tasks| && sacrificable == Sacrificable(tasks[..i], threshold)
    {
      assert tasks[..i + 1] == tasks[..i] + [tasks[i]];
      SacrificableConcat(tasks[..i], [tasks[i]], threshold);
      if IsSacrificable(tasks[i], threshold) { sacrificable := sacrificable + [tasks[i]]; }
      i := i + 1;
    }
    assert tasks[..i] == tasks;
    sacrificable := SortedByPriority(sacrificable);
    var total := Sum(sacrificable);
    if total < TARGET_HOURS {
      return SacrificeResult(sacrificable, total, newWeight, true);
    }
    var selected, freed := Select(sacrificable);
    r := SacrificeResult(selected, freed, newWeight, false);
  }

  method Sum(tasks: seq<Task>) returns (total: real)
    ensures total == Total(tasks)
  {
    total := 0.0;
    for i := 0 to |tasks|
      invariant total == Total(tasks[..i])
    {
      assert tasks[..i + 1] == tasks[..i] + [tasks[i]];
      TotalConcat(tasks[..i], [tasks[i]]);
      total := total + tasks[i].hours;
    }
    assert tasks[..|tasks|] == tasks;
  }

  /** Take tasks in order until the target is reached. */
  method Select(candidates: seq<Task>) returns (selected: seq<Task>, freed: real)
    requires Total(candidates) >= TARGET_HOURS
    ensures freed == Total(selected) && IsShortestEnough(selected, candidates)
  {
    selected, freed := [], 0.0;
    assert candidates[..|candidates|] == candidates;
    var i := 0;
    while i < |candidates|
      invariant i <= |candidates| && selected == candidates[..i] && freed == Total(selected)
      invariant forall k | 0 <= k <= i :: Total(candidates[..k]) < TARGET_HOURS
    {
      assert candidates[..i + 1] == selected + [candidates[i]];
      TotalConcat(selected, [candidates[i]]);
      selected := selected + [candidates[i]];
      freed := freed + candidates[i].hours;
      if freed >= TARGET_HOURS { break; }
      i := i + 1;
    }
  }

  // ---- optimality -------------------------------------------------------------------------------------

  /** Another choice of candidates that frees enough. */
  predicate IsRival(rival: seq<Task>, candidates: seq<Task>) {
    multiset(rival) <= multiset(candidates) && Total(rival) >= TARGET_HOURS
  }

  /** The tasks below a priority that free time rather than cost it. */
  function Helpful(tasks: seq<Task>, p: real): seq<Task> {
    if tasks == [] then []
    else if tasks[0].hours > 0.0 && tasks[0].priority < p then [tasks[0]] + Helpful(tasks[1..], p)
    else Helpful(tasks[1..], p)
  }

  lemma {:induction false} HelpfulCount(tasks: seq<Task>, p: real, t: Task)
    ensures multiset(Helpful(tasks, p))[t] == if t.hours > 0.0 && t.priority < p then multiset(tasks)[t] else 0
  {
    if tasks != [] {
      HelpfulCount(tasks[1..], p, t);
      assert tasks == [tasks[0]] + tasks[1..];
    }
  }

  lemma {:induction false} TotalAtMostHelpful(tasks: seq<Task>, p: real)
    requires forall t | t in tasks :: t.priority < p
    ensures Total(tasks) <= Total(Helpful(tasks, p))
  {
    if tasks != [] {
      assert tasks[0] in tasks;
      TotalAtMostHelpful(tasks[1..], p);
    }
  }

  lemma Around(a: seq<Task>, t: Task, b: seq<Task>)
    ensures Total(a + ([t] + b)) == t.hours + Total(a + b)
    ensures multiset(a + ([t] + b)) == multiset(a + b) + multiset{t}
  {
    TotalConcat(a, b);
    TotalConcat(a, [t] + b);
    assert ([t] + b)[1..] == b;
  }

  lemma TakeOut(tasks: seq<Task>, i: nat)
    requires i < |tasks|
    ensures Total(tasks) == tasks[i].hours + Total(tasks[..i] + tasks[i + 1..])
    ensures multiset(tasks) == multiset(tasks[..i] + tasks[i + 1..]) + multiset{tasks[i]}
  {
    hide Total;
    Around(tasks[..i], tasks[i], tasks[i + 1..]);
    AsAround(tasks, i);
  }

  lemma AsAround(tasks: seq<Task>, i: nat)
    requires i < |tasks|
    ensures tasks == tasks[..i] + ([tasks[i]] + tasks[i + 1..])
  {
  }

  lemma StillPart(part: multiset<Task>, whole: multiset<Task>, t: Task)
    requires part + multiset{t} <= whole + multiset{t}
    ensures part <= whole
  {
    forall x
      ensures part[x] <= whole[x]
    {
      assert (part + multiset{t})[x] <= (whole + multiset{t})[x];
    }
  }

  /** With nothing that costs time, fewer tasks free no more. */
  lemma {:induction false} TotalIsMonotone(part: seq<Task>, tasks: seq<Task>)
    requires multiset(part) <= multiset(tasks)
    requires forall t | t in tasks :: t.hours >= 0.0
    ensures Total(part) <= Total(tasks)
    decreases |tasks|
  {
    if part == [] {
      TotalIsNonNegative(tasks);
    } else {
      assert part[0] in multiset(tasks);
      var i :| 0 <= i < |tasks| && tasks[i] == part[0];
      var rest := tasks[..i] + tasks[i + 1..];
      TakeOut(tasks, i);
      assert part == [part[0]] + part[1..];
      StillPart(multiset(part[1..]), multiset(rest), part[0]);
      TotalIsMonotone(part[1..], rest);
    }
  }

  lemma {:induction false} TotalIsNonNegative(tasks: seq<Task>)
    requires forall t | t in tasks :: t.hours >= 0.0
    ensures Total(tasks) >= 0.0
  {
    if tasks != [] {
      assert tasks[0] in tasks;
      TotalIsNonNegative(tasks[1..]);
    }
  }

  lemma HelpfulFacts(tasks: seq<Task>, p: real)
    ensures multiset(Helpful(tasks, p)) <= multiset(tasks)
    ensures forall t | t in Helpful(tasks, p) :: t.hours > 0.0 && t.priority < p && t in tasks
  {
    forall t
      ensures multiset(Helpful(tasks, p))[t] <= multiset(tasks)[t]
      ensures t in Helpful(tasks, p) ==> t.hours > 0.0 && t.priority < p && t in tasks
    {
      HelpfulCount(tasks, p, t);
      assert t in Helpful(tasks, p) <==> multiset(Helpful(tasks, p))[t] > 0;
      assert t in tasks <==> multiset(tasks)[t] > 0;
    }
  }

  /** A rival kept below priority p frees at most what the helpful candidates below p do. */
  lemma RivalBelow(rival: seq<Task>, candidates: seq<Task>, p: real)
    requires multiset(rival) <= multiset(candidates)
    requires forall t | t in rival :: t.priority < p
    ensures Total(rival) <= Total(Helpful(candidates, p))
  {
    TotalAtMostHelpful(rival, p);
    HelpfulFacts(candidates, p);
    forall t
      ensures multiset(Helpful(rival, p))[t] <= multiset(Helpful(candidates, p))[t]
    {
      HelpfulCount(rival, p, t);
      HelpfulCount(candidates, p, t);
    }
    TotalIsMonotone(Helpful(rival, p), Helpful(candidates, p));
  }

  /** Every rival gives up something at least as important as p. */
  ghost predicate NoRivalBelow(candidates: seq<Task>, p: real) {
    forall rival: seq<Task> | IsRival(rival, candidates) :: exists t: Task :: t in rival && t.priority >= p
  }

  /** A priority is unavoidable exactly when the helpful candidates below it do not free enough. */
  lemma UnavoidableIff(candidates: seq<Task>, p: real)
    ensures NoRivalBelow(candidates, p) <==> Total(Helpful(candidates, p)) < TARGET_HOURS
  {
    HelpfulFacts(candidates, p);
    if Total(Helpful(candidates, p)) < TARGET_HOURS {
      forall rival: seq<Task> | IsRival(rival, candidates)
        ensures exists t: Task :: t in rival && t.priority >= p
      {
        if forall t: Task | t in rival :: t.priority < p { RivalBelow(rival, candidates, p); }
      }
    } else {
      assert IsRival(Helpful(candidates, p), candidates);
    }
  }

  /**
  The greedy choice is bottleneck-optimal when no task has negative hours: every
  other choice that frees two hours also gives up something at least as
  important as the most important task selected.
  */
  lemma GreedyIsBottleneckOptimal(selected: seq<Task>, candidates: seq<Task>)
    requires IsSorted(candidates) && IsShortestEnough(selected, candidates)
    requires forall t | t in candidates :: t.hours >= 0.0
    ensures selected != []
    ensures forall t | t in selected :: t.priority <= selected[|selected| - 1].priority
    ensures NoRivalBelow(candidates, selected[|selected| - 1].priority)
  {
    hide Total, Helpful, NoRivalBelow;
    LastIsNeeded(selected, candidates);
    UnavoidableIff(candidates, selected[|selected| - 1].priority);
  }

  /** What helps below the last task selected is in front of it, and does not free enough. */
  lemma LastIsNeeded(selected: seq<Task>, candidates: seq<Task>)
    requires IsSorted(candidates) && IsShortestEnough(selected, candidates)
    requires forall t | t in candidates :: t.hours >= 0.0
    ensures selected != []
    ensures Total(Helpful(candidates, selected[|selected| - 1].priority)) < TARGET_HOURS
  {
    var n := |selected| - 1;
    assert n >= 0;
    hide Total, Helpful;
    var p := selected[n].priority;
    HelpfulOfSorted(candidates, n, p);
    HelpfulFacts(candidates[..n], p);
    forall t | t in candidates[..n]
      ensures t.hours >= 0.0
    {
      assert t in candidates;
    }
    TotalIsMonotone(Helpful(candidates[..n], p), candidates[..n]);
  }

  function HelpfulFirst(t: Task, p: real): seq<Task> {
    if t.hours > 0.0 && t.priority < p then [t] else []
  }

  lemma HelpfulHead(tasks: seq<Task>, p: real)
    requires tasks != []
    ensures Helpful(tasks, p) == HelpfulFirst(tasks[0], p) + Helpful(tasks[1..], p)
  {
  }

  lemma HelpfulOfNone(p: real)
    ensures Helpful([], p) == []
  {
  }

  lemma {:induction false} HelpfulConcat(a: seq<Task>, b: seq<Task>, p: real)
    ensures Helpful(a + b, p) == Helpful(a, p) + Helpful(b, p)
  {
    hide Helpful, HelpfulFirst;
    if a == [] {
      HelpfulOfNone(p);
      assert a + b == b && [] + Helpful(b, p) == Helpful(b, p);
    } else {
      var head, rest := HelpfulFirst(a[0], p), Helpful(a[1..], p);
      HelpfulConcat(a[1..], b, p);
      assert (a + b)[0] == a[0] && (a + b)[1..] == a[1..] + b;
      HelpfulHead(a, p);
      HelpfulHead(a + b, p);
      assert head + rest + Helpful(b, p) == head + (rest + Helpful(b, p));
    }
  }

  lemma {:induction false} NothingHelpful(tasks: seq<Task>, p: real)
    requires forall t | t in tasks :: t.priority >= p
    ensures Helpful(tasks, p) == []
  {
    if tasks != [] { NothingHelpful(tasks[1..], p); }
  }

  lemma HelpfulOfSorted(candidates: seq<Task>, n: nat, p: real)
    requires IsSorted(candidates) && n < |candidates| && candidates[n].priority == p
    ensures Helpful(candidates, p) == Helpful(candidates[..n], p)
  {
    assert candidates == candidates[..n] + candidates[n..];
    HelpfulConcat(candidates[..n], candidates[n..], p);
    forall t | t in candidates[n..]
      ensures t.priority >= p
    {
      var k :| n <= k < |candidates| && candidates[k] == t;
    }
    NothingHelpful(candidates[n..], p);
  }

  /** The tasks that free time at all. */
  function Gaining(tasks: seq<Task>): seq<Task> {
    if tasks == [] then []
    else if tasks[0].hours > 0.0 then [tasks[0]] + Gaining(tasks[1..])
    else Gaining(tasks[1..])
  }

  lemma {:induction false} AllBelowAreHelpful(tasks: seq<Task>, p: real)
    requires forall t | t in tasks :: t.priority < p
    ensures Helpful(tasks, p) == Gaining(tasks)
  {
    if tasks != [] {
      assert tasks[0] in tasks;
      AllBelowAreHelpful(tasks[1..], p);
    }
  }

  /** For any hours: some choice frees enough exactly when the candidates that free time do so together. */
  lemma SufficientChoiceIff(weight: real, tasks: seq<Task>)
    ensures (exists rival: seq<Task> :: IsRival(rival, Candidates(weight, tasks))) <==>
            Total(Gaining(Candidates(weight, tasks))) >= TARGET_HOURS
  {
    var candidates, p := Candidates(weight, tasks), Boosted(weight) * 0.6;
    CandidatesComeFromTasks(weight, tasks);
    AllBelowAreHelpful(candidates, p);
    if rival: seq<Task> :| IsRival(rival, candidates) {
      forall t | t in rival
        ensures t.priority < p
      {
        assert t in multiset(rival) && t in candidates;
      }
      RivalBelow(rival, candidates, p);
    }
    if Total(Gaining(candidates)) >= TARGET_HOURS {
      HelpfulFacts(candidates, p);
      assert IsRival(Helpful(candidates, p), candidates);
    }
  }

  /**
  For any hours: falling back means that no choice would have freed enough,
  except exactly when tasks that cost time pull the total below the target
  which the others reach. With no negative hours there is no exception.
  */
  lemma FallbackIffImpossible(weight: real, tasks: seq<Task>)
    ensures var candidates := Candidates(weight, tasks);
            (Total(candidates) < TARGET_HOURS <==> forall rival: seq<Task> :: !IsRival(rival, candidates))
            <==> !(Total(candidates) < TARGET_HOURS <= Total(Gaining(candidates)))
    ensures var candidates := Candidates(weight, tasks);
            (forall t | t in tasks :: t.hours >= 0.0) ==>
              (Total(candidates) < TARGET_HOURS <==> forall rival: seq<Task> :: !IsRival(rival, candidates))
  {
    var candidates := Candidates(weight, tasks);
    SufficientChoiceIff(weight, tasks);
    CandidatesComeFromTasks(weight, tasks);
    if Total(candidates) >= TARGET_HOURS { assert IsRival(candidates, candidates); }
    if forall t | t in tasks :: t.hours >= 0.0 { GainingIsAtMostAll(candidates); }
  }

  lemma {:induction false} GainingIsAtMostAll(tasks: seq<Task>)
    requires forall t | t in tasks :: t.hours >= 0.0
    ensures Total(Gaining(tasks)) <= Total(tasks)
  {
    if tasks != [] {
      assert tasks[0] in tasks;
      GainingIsAtMostAll(tasks[1..]);
    }
  }

  /** Such an exception: the algorithm falls back although giving up b alone frees two hours. */
  lemma NegativeHoursForceFallback()
    ensures var a, b := Task("a", "", -1.0, true, 0.1), Task("b", "", 2.0, true, 0.2);
            && Total(Candidates(0.7, [a, b])) < TARGET_HOURS
            && IsRival([b], Candidates(0.7, [a, b]))
  {
    var a, b := Task("a", "", -1.0, true, 0.1), Task("b", "", 2.0, true, 0.2);
    assert [a, b][1..] == [b] && [b][1..] == [];
    assert Sacrificable([b], 0.6) == [b] && Sacrificable([a, b], 0.6) == [a, b];
    assert SortedByPriority([b]) == [b];
    assert Candidates(0.7, [a, b]) == [a, b];
    assert Total([b]) == 2.0;
    assert multiset([a, b]) == multiset{a, b} && multiset([b]) == multiset{b};
  }

  lemma {:induction false} SacrificableIff(tasks: seq<Task>, threshold: real, t: Task)
    ensures t in Sacrificable(tasks, threshold) <==> t in tasks && IsSacrificable(t, threshold)
  {
    if tasks != [] {
      SacrificableIff(tasks[1..], threshold, t);
      assert tasks == [tasks[0]] + tasks[1..];
    }
  }

  /** The candidates are sorted, and exactly the movable tasks below the boosted threshold. */
  lemma CandidatesComeFromTasks(weight: real, tasks: seq<Task>)
    ensures IsSorted(Candidates(weight, tasks))
    ensures forall t :: t in Candidates(weight, tasks) <==> t in tasks && IsSacrificable(t, Boosted(weight) * 0.6)
    ensures var raised := if weight + 0.3 < 1.0 then weight + 0.3 else 1.0;
            forall t :: t in Candidates(weight, tasks) <==> t in tasks && t.movable && t.priority < raised * 0.6
  {
    var sacrificable := Sacrificable(tasks, Boosted(weight) * 0.6);
    SortIsStable(sacrificable);
    forall t
      ensures t in Candidates(weight, tasks) <==> t in tasks && IsSacrificable(t, Boosted(weight) * 0.6)
    {
      SacrificableIff(tasks, Boosted(weight) * 0.6, t);
      assert t in Candidates(weight, tasks) <==> t in multiset(Candidates(weight, tasks));
      assert t in sacrificable <==> t in multiset(sacrificable);
    }
  }

  /** One negative duration is enough to lose optimality: a single less important task would have done. */
  lemma NegativeHoursBreakIt()
    ensures var a, b, c := Task("a", "", -1.0, true, 0.1), Task("b", "", 2.0, true, 0.2), Task("c", "", 1.0, true, 0.3);
            && IsSorted([a, b, c])
            && IsShortestEnough([a, b, c], [a, b, c])
            && !NoRivalBelow([a, b, c], c.priority)
  {
    var a, b, c := Task("a", "", -1.0, true, 0.1), Task("b", "", 2.0, true, 0.2), Task("c", "", 1.0, true, 0.3);
    var all := [a, b, c];
    assert all[1..] == [b, c] && [b, c][1..] == [c] && [c][1..] == [];
    assert all[..0] == [] && all[..1] == [a] && all[..2] == [a, b];
    assert [a, b][1..] == [b] && [b][1..] == [] && [a][1..] == [];
    assert Total([c]) == 1.0 && Total([b]) == 2.0;
    assert Total([b, c]) == 3.0;
    assert Total([a, b]) == 1.0 && Total(all) == 2.0 && Total([a]) == -1.0;
    assert Helpful([c], 0.3) == [];
    assert Helpful([b, c], 0.3) == [b];
    assert Helpful(all, 0.3) == [b];
    UnavoidableIff(all, 0.3);
  }
}

/**
Finding a slash command from part of its name: the ordered-subsequence check of
the completion list, and the closest command to a typo.
*/
module CommandCatalog {
  import opened Wrappers
  import opened Text

  // ---- subsequences ------------------------------------------------------------------------

  /** Positions in `hay`, strictly increasing, at which the characters of `needle` stand. */
  predicate IsEmbedding(needle: string, hay: string, at: seq<nat>) {
    && |at| == |needle|
    && (forall i, j | 0 <= i < j < |at| :: at[i] < at[j])
    && forall i | 0 <= i < |at| :: at[i] < |hay| && hay[at[i]] == needle[i]
  }

  ghost predicate Embeds(needle: string, hay: string) {
    exists at: seq<nat> :: IsEmbedding(needle, hay, at)
  }

  /** Take every character of the needle at its first occurrence. */
  predicate Greedy(needle: string, hay: string) {
    if needle == "" then true
    else if hay == "" then false
    else if needle[0] == hay[0] then Greedy(needle[1..], hay[1..])
    else Greedy(needle, hay[1..])
  }

  function Shifted(at: seq<nat>): (r: seq<nat>)
    ensures |r| == |at| && forall i | 0 <= i < |at| :: r[i] == at[i] + 1
  {
    if at == [] then [] else [at[0] + 1] + Shifted(at[1..])
  }

  function Unshifted(at: seq<nat>): (r: seq<nat>)
    requires forall i | 0 <= i < |at| :: at[i] > 0
    ensures |r| == |at| && forall i | 0 <= i < |at| :: r[i] == at[i] - 1
  {
    if at == [] then [] else [at[0] - 1] + Unshifted(at[1..])
  }

  lemma {:induction false} GreedyIsSound(needle: string, hay: string)
    requires Greedy(needle, hay)
    ensures Embeds(needle, hay)
    decreases |hay|
  {
    if needle == "" {
      assert IsEmbedding(needle, hay, []);
    } else if needle[0] == hay[0] {
      GreedyIsSound(needle[1..], hay[1..]);
      var at: seq<nat> :| IsEmbedding(needle[1..], hay[1..], at);
      assert IsEmbedding(needle, hay, [0] + Shifted(at));
    } else {
      GreedyIsSound(needle, hay[1..]);
      var at: seq<nat> :| IsEmbedding(needle, hay[1..], at);
      assert IsEmbedding(needle, hay, Shifted(at));
    }
  }

  /** If any embedding exists, taking first occurrences finds one. */
  lemma {:induction false} GreedyIsComplete(needle: string, hay: string, at: seq<nat>)
    requires IsEmbedding(needle, hay, at)
    ensures Greedy(needle, hay)
    decreases |hay|
  {
    if needle != "" {
      assert at[0] < |hay|;
      if needle[0] == hay[0] {
        assert forall i | 0 <= i < |at[1..]| :: at[1..][i] > 0;
        var rest := Unshifted(at[1..]);
        assert IsEmbedding(needle[1..], hay[1..], rest);
        GreedyIsComplete(needle[1..], hay[1..], rest);
      } else {
        assert forall i | 0 <= i < |at| :: at[i] > 0;
        assert IsEmbedding(needle, hay[1..], Unshifted(at));
        GreedyIsComplete(needle, hay[1..], Unshifted(at));
      }
    }
  }

  lemma GreedyIffEmbeds(needle: string, hay: string)
    ensures Greedy(needle, hay) <==> Embeds(needle, hay)
  {
    if Greedy(needle, hay) { GreedyIsSound(needle, hay); }
    if Embeds(needle, hay) {
      var at: seq<nat> :| IsEmbedding(needle, hay, at);
      GreedyIsComplete(needle, hay, at);
    }
  }

  /** The check is case-insensitive. */
  ghost predicate Matches(lower: char -> string, needle: string, hay: string) {
    Embeds(Lowered(lower, needle), Lowered(lower, hay))
  }

  /** `any` on the shared iterator: consume up to and including the first hit. */
  method Advance(hay: string, start: nat, c: char) returns (found: bool, next: nat)
    requires start <= |hay|
    ensures start <= next <= |hay|
    ensures found <==> c in hay[start..]
    ensures found ==> start < next && hay[next - 1] == c && c !in hay[start..next - 1]
    ensures !found ==> next == |hay|
  {
    found, next := false, start;
    while next < |hay|
      invariant start <= next <= |hay| && c !in hay[start..next]
    {
      next := next + 1;
      if hay[next - 1] == c { return true, next; }
    }
  }

  lemma {:induction false} SkipMisses(needle: string, hay: string, n: nat)
    requires needle != "" && n <= |hay| && needle[0] !in hay[..n]
    ensures Greedy(needle, hay) <==> Greedy(needle, hay[n..])
  {
    if n > 0 {
      assert hay[0] == hay[..n][0];
      assert hay[1..][..n - 1] == hay[1..n] == hay[..n][1..];
      SkipMisses(needle, hay[1..], n - 1);
      assert hay[1..][n - 1..] == hay[n..];
    }
  }

  lemma NothingIsWanted(needle: string, hay: string)
    requires needle == ""
    ensures Greedy(needle, hay)
  {
  }

  /** One `any`: the rest of the needle is wanted after the hit, and a miss is final. */
  lemma GreedyAdvances(wanted: string, hay: string, i: nat, start: nat, found: bool, next: nat)
    requires i < |wanted| && start <= next <= |hay|
    requires found ==> start < next && hay[next - 1] == wanted[i] && wanted[i] !in hay[start..next - 1]
    requires !found ==> next == |hay| && wanted[i] !in hay[start..]
    ensures Greedy(wanted[i..], hay[start..]) <==> found && Greedy(wanted[i + 1..], hay[next..])
  {
    var last := if found then next - 1 else next;
    assert hay[start..][..last - start] == hay[start..last];
    SkipMisses(wanted[i..], hay[start..], last - start);
    assert hay[start..][last - start..] == hay[last..];
    assert wanted[i..][1..] == wanted[i + 1..];
    if found { assert hay[last..][1..] == hay[next..]; }
  }

  /** True exactly when the needle embeds into the haystack, case aside. */
  method SubsequenceMatch(lower: char -> string, needle: string, haystack: string) returns (matches: bool)
    ensures matches <==> Matches(lower, needle, haystack)
  {
    hide Greedy;
    var wanted := Lowered(lower, needle);
    var hay := Lowered(lower, haystack);
    var i, next := 0, 0;
    assert wanted[0..] == wanted && hay[0..] == hay;
    while i < |wanted|
      invariant i <= |wanted| && next <= |hay|
      invariant Greedy(wanted, hay) <==> Greedy(wanted[i..], hay[next..])
    {
      var start := next;
      var found;
      found, next := Advance(hay, start, wanted[i]);
      GreedyAdvances(wanted, hay, i, start, found, next);
      if !found {
        GreedyIffEmbeds(wanted, hay);
        return false;
      }
      i := i + 1;
    }
    NothingIsWanted(wanted[i..], hay[next..]);
    GreedyIffEmbeds(wanted, hay);
    return true;
  }

  // ---- an order on names -----------------------------------------------------------------------

  lemma {:induction false} Identity(n: nat) returns (at: seq<nat>)
    ensures |at| == n && forall i | 0 <= i < n :: at[i] == i
  {
    if n == 0 { at := []; } else { var front := Identity(n - 1); at := front + [n - 1]; }
  }

  /** A prefix matches, so the subsequence tier finds everything the prefix tier does; a name matches itself. */
  lemma PrefixMatches(lower: char -> string, name: string, rest: string)
    ensures Matches(lower, name, name + rest)
    ensures Matches(lower, name, name)
  {
    LoweredConcat(lower, name, rest);
    var at := Identity(|Lowered(lower, name)|);
    assert IsEmbedding(Lowered(lower, name), Lowered(lower, name + rest), at);
    assert IsEmbedding(Lowered(lower, name), Lowered(lower, name), at);
  }

  function Composed(at: seq<nat>, through: seq<nat>): (r: seq<nat>)
    requires forall i | 0 <= i < |at| :: at[i] < |through|
    ensures |r| == |at| && forall i | 0 <= i < |at| :: r[i] == through[at[i]]
  {
    if at == [] then [] else [through[at[0]]] + Composed(at[1..], through)
  }

  lemma MatchingIsTransitive(lower: char -> string, a: string, b: string, c: string)
    requires Matches(lower, a, b) && Matches(lower, b, c)
    ensures Matches(lower, a, c)
  {
    var x, y, z := Lowered(lower, a), Lowered(lower, b), Lowered(lower, c);
    var at: seq<nat> :| IsEmbedding(x, y, at);
    var through: seq<nat> :| IsEmbedding(y, z, through);
    assert IsEmbedding(x, z, Composed(at, through));
  }

  /** The k-th position is at least k. */
  lemma {:induction false} PositionsGrow(needle: string, hay: string, at: seq<nat>, k: nat)
    requires IsEmbedding(needle, hay, at) && k < |at|
    ensures k <= at[k] && at[k] + |at| - k <= |hay|
    decreases |at| - k
  {
    if k + 1 < |at| { PositionsGrow(needle, hay, at, k + 1); }
    PositionAtLeast(needle, hay, at, k);
  }

  lemma {:induction false} PositionAtLeast(needle: string, hay: string, at: seq<nat>, k: nat)
    requires IsEmbedding(needle, hay, at) && k < |at|
    ensures k <= at[k]
  {
    if k > 0 { PositionAtLeast(needle, hay, at, k - 1); }
  }

  lemma EmbeddedIsShorter(needle: string, hay: string)
    requires Embeds(needle, hay)
    ensures |needle| <= |hay|
    ensures |needle| == |hay| ==> needle == hay
  {
    var at: seq<nat> :| IsEmbedding(needle, hay, at);
    forall k | 0 <= k < |at|
      ensures k <= at[k] && at[k] + |at| - k <= |hay|
    {
      PositionsGrow(needle, hay, at, k);
    }
    if at != [] { PositionsGrow(needle, hay, at, 0); }
  }

  /** Two names that match each other differ in case only. */
  lemma MatchingIsAntisymmetric(lower: char -> string, a: string, b: string)
    requires Matches(lower, a, b) && Matches(lower, b, a)
    ensures Lowered(lower, a) == Lowered(lower, b)
  {
    EmbeddedIsShorter(Lowered(lower, a), Lowered(lower, b));
    EmbeddedIsShorter(Lowered(lower, b), Lowered(lower, a));
  }

  // ---- the closest command -----------------------------------------------------------------------

  datatype CommandSpec = CommandSpec(name: string, aliases: seq<string>)

  const MIN_SIMILARITY: real := 0.75

  /** Every name followed by its aliases, in catalogue order. */
  function Candidates(catalog: seq<CommandSpec>): seq<string> {
    if catalog == [] then [] else [catalog[0].name] + catalog[0].aliases + Candidates(catalog[1..])
  }

  predicate IsListed(catalog: seq<CommandSpec>, s: string) {
    exists i | 0 <= i < |catalog| :: s == catalog[i].name || s in catalog[i].aliases
  }

  lemma {:induction false} CandidatesAreListed(catalog: seq<CommandSpec>, s: string)
    ensures s in Candidates(catalog) <==> IsListed(catalog, s)
  {
    if catalog != [] {
      CandidatesAreListed(catalog[1..], s);
      assert forall i | 1 <= i < |catalog| :: catalog[i] == catalog[1..][i - 1];
      assert s in catalog[0].aliases || s == catalog[0].name ==> IsListed(catalog, s);
    }
  }

  /** The first of the most similar candidates, if it is similar enough. */
  predicate IsClosest(score: string -> real, candidates: seq<string>, best: Option<string>) {
    match best
    case None => forall i | 0 <= i < |candidates| :: score(candidates[i]) < MIN_SIMILARITY
    case Some(name) =>
      && score(name) >= MIN_SIMILARITY
      && exists i | 0 <= i < |candidates| ::
           && candidates[i] == name
           && (forall j | 0 <= j < |candidates| :: score(candidates[j]) <= score(name))
           && forall j | 0 <= j < i :: score(candidates[j]) < score(name)
  }

  /** Only one answer fits. */
  lemma ClosestIsUnique(score: string -> real, candidates: seq<string>, best: Option<string>, best': Option<string>)
    requires IsClosest(score, candidates, best) && IsClosest(score, candidates, best')
    ensures best == best'
  {
  }

  method Consider(score: string -> real, ghost before: seq<string>, best: Option<string>, candidate: string)
    returns (better: Option<string>)
    requires IsClosest(score, before, best)
    ensures IsClosest(score, before + [candidate], better)
  {
    ghost var after := before + [candidate];
    assert after[|before|] == candidate;
    assert forall i | 0 <= i < |before| :: after[i] == before[i];
    if score(candidate) >= MIN_SIMILARITY && (best.None? || score(candidate) > score(best.value)) {
      better := Some(candidate);
      assert forall j | 0 <= j < |before| :: score(after[j]) < score(candidate);
    } else {
      better := best;
    }
  }

  method ConsiderAll(score: string -> real, ghost before: seq<string>, best: Option<string>, names: seq<string>)
    returns (better: Option<string>)
    requires IsClosest(score, before, best)
    ensures IsClosest(score, before + names, better)
  {
    hide IsClosest;
    better := best;
    assert before + names[..0] == before;
    for k := 0 to |names|
      invariant IsClosest(score, before + names[..k], better)
    {
      better := Consider(score, before + names[..k], better, names[k]);
      assert before + names[..k] + [names[k]] == before + names[..k + 1];
    }
    assert names[..|names|] == names;
  }

  method ClosestCommand(catalog: seq<CommandSpec>, score: string -> real) returns (best: Option<string>)
    ensures IsClosest(score, Candidates(catalog), best)
    // no name and no alias is more similar than the answer, which is one of them and similar enough
    ensures best.None? <==> forall s | IsListed(catalog, s) :: score(s) < 0.75
    ensures best.Some? ==>
              && IsListed(catalog, best.value) && score(best.value) >= 0.75
              && forall s | IsListed(catalog, s) :: score(s) <= score(best.value)
  {
    forall s
      ensures s in Candidates(catalog) <==> IsListed(catalog, s)
    {
      CandidatesAreListed(catalog, s);
    }
    best := None;
    ghost var seen: seq<string> := [];
    assert IsClosest(score, seen, best);
    hide IsClosest;
    for i := 0 to |catalog|
      invariant IsClosest(score, seen, best)
      invariant seen + Candidates(catalog[i..]) == Candidates(catalog)
    {
      assert catalog[i..][1..] == catalog[i + 1..];
      var names := [catalog[i].name] + catalog[i].aliases;
      best := ConsiderAll(score, seen, best, names);
      seen := seen + names;
    }
    assert seen == Candidates(catalog);
  }
}

/**
How a console line is taken apart. The read-only whitelist splits at any
whitespace, the dispatch at the first space; both have to mean the same command.
*/
module ConsoleLine {
  import opened Wrappers
  import opened Text

  /** The first whitespace at or after i. */
  function NextWhitespace(s: string, i: nat): (r: nat)
    requires i <= |s|
    ensures i <= r <= |s|
    ensures forall k | i <= k < r :: !IsWhitespace(s[k])
    ensures r < |s| ==> IsWhitespace(s[r])
    decreases |s| - i
  {
    if i < |s| && !IsWhitespace(s[i]) then NextWhitespace(s, i + 1) else i
  }

  /** The first space at or after i; other whitespace does not count. */
  function NextSpace(s: string, i: nat): (r: nat)
    requires i <= |s|
    ensures i <= r <= |s|
    ensures ' ' !in s[i..r]
    ensures r < |s| ==> s[r] == ' '
    decreases |s| - i
  {
    if i < |s| && s[i] != ' ' then
      var r := NextSpace(s, i + 1);
      assert s[i..r] == [s[i]] + s[i + 1..r];
      r
    else i
  }

  function FirstToken(s: string): string {
    s[..NextWhitespace(s, 0)]
  }

  /** split_once(char::is_whitespace), second half trimmed. */
  function Rest(s: string): string {
    var i := NextWhitespace(s, 0);
    if i < |s| then Trim(s[i + 1..]) else ""
  }

  /** split_once(' '), second half. */
  function SpaceArg(s: string): Option<string> {
    var i := NextSpace(s, 0);
    if i < |s| then Some(s[i + 1..]) else None
  }

  /** What every command handler makes of its argument: absent is empty, and both ends are trimmed. */
  function ArgText(s: string): string {
    match SpaceArg(s)
    case None => ""
    case Some(a) => Trim(a)
  }

  /** The whitespace between the first token and the rest. */
  function Gap(s: string): string {
    var i := NextWhitespace(s, 0);
    s[i..SkipFrom(Whitespace, s, i)]
  }

  lemma TailIsBare(s: string, j: nat)
    requires Bare(Whitespace, s) && j < |s| && !IsWhitespace(s[j])
    ensures Bare(Whitespace, s[j..])
  {
    hide IsWhitespace;
    assert s[j..][0] == s[j] && s[j..][|s| - j - 1] == s[|s| - 1];
  }

  /** Behind the first token of a trimmed line there is a gap, and then something. */
  lemma GapEnds(s: string)
    requires Bare(Whitespace, s)
    ensures var i := NextWhitespace(s, 0);
            var j := SkipFrom(Whitespace, s, i);
            if i < |s| then i < j < |s| && !IsWhitespace(s[j]) else j == |s|
  {
    hide IsWhitespace;
  }

  lemma RestIsTail(s: string, i: nat, j: nat)
    requires Bare(Whitespace, s) && i == NextWhitespace(s, 0) && j == SkipFrom(Whitespace, s, i) && i < |s|
    ensures j < |s| && Rest(s) == s[j..] && Bare(Whitespace, s[j..])
  {
    hide IsWhitespace, TrimBy, Bare, SkipFrom;
    GapEnds(s);
    TailIsBare(s, j);
    var pad := s[i + 1..j];
    AllSlice(Whitespace, s, i + 1, j);
    assert s[i + 1..] == pad + s[j..] + "";
    TrimByPadded(Whitespace, pad, s[j..], "");
  }

  /** A trimmed line is its first token, the gap, and the rest. */
  lemma LineShape(s: string)
    requires Bare(Whitespace, s)
    ensures s == FirstToken(s) + Gap(s) + Rest(s)
    ensures Bare(Whitespace, Rest(s))
    ensures Rest(s) == "" <==> Gap(s) == ""
    ensures Rest(s) == s[SkipFrom(Whitespace, s, NextWhitespace(s, 0))..]
  {
    hide IsWhitespace, TrimBy, SkipFrom, NextWhitespace;
    var i := NextWhitespace(s, 0);
    var j := SkipFrom(Whitespace, s, i);
    GapEnds(s);
    if i < |s| { RestIsTail(s, i, j); }
    Halves(s, i, j);
    assert s[j..] == "" <==> j == |s|;
  }

  lemma NoSpaceBefore(s: string, i: nat)
    requires i <= NextWhitespace(s, 0)
    ensures ' ' !in s[..i]
  {
  }

  /** Where the first space is, seen from a position before it. */
  lemma {:induction false} NextSpaceFrom(s: string, i: nat, j: nat)
    requires i <= j <= |s| && ' ' !in s[i..j]
    ensures NextSpace(s, i) == NextSpace(s, j)
    decreases j - i
  {
    if i < j {
      assert s[i] == s[i..j][0];
      assert s[i + 1..j] == s[i..j][1..];
      NextSpaceFrom(s, i + 1, j);
    }
  }

  lemma {:induction false} NextSpaceBound(s: string, i: nat, m: nat)
    requires i <= m < |s| && s[m] == ' '
    ensures NextSpace(s, i) <= m
    decreases m - i
  {
    if s[i] != ' ' { NextSpaceBound(s, i + 1, m); }
  }

  lemma FirstSpaceInGap(s: string)
    requires ' ' in Gap(s)
    ensures var i := NextWhitespace(s, 0); i <= NextSpace(s, 0) < SkipFrom(Whitespace, s, i)
  {
    hide IsWhitespace;
    var i := NextWhitespace(s, 0);
    NoSpaceBefore(s, i);
    NextSpaceFrom(s, 0, i);
    var g :| 0 <= g < |Gap(s)| && Gap(s)[g] == ' ';
    NextSpaceBound(s, i, i + g);
  }

  /** Cut at a space inside the gap, what is behind it trims to the rest. */
  lemma CutInGap(s: string, k: nat)
    requires Bare(Whitespace, s)
    requires var i := NextWhitespace(s, 0); i <= k < SkipFrom(Whitespace, s, i)
    ensures k < |s| && Trim(s[k + 1..]) == Rest(s)
  {
    hide IsWhitespace, TrimBy, Bare, SkipFrom, NextWhitespace, Rest;
    LineShape(s);
    var j := SkipFrom(Whitespace, s, NextWhitespace(s, 0));
    var pad := s[k + 1..j];
    AllSlice(Whitespace, s, k + 1, j);
    assert s[k + 1..] == pad + s[j..] + "";
    TrimByPadded(Whitespace, pad, s[j..], "");
  }

  lemma ArgWithSpaceInGap(s: string)
    requires Bare(Whitespace, s) && ' ' in Gap(s)
    ensures ArgText(s) == Rest(s)
  {
    hide IsWhitespace, TrimBy, Trim, Bare, SkipFrom, NextWhitespace, NextSpace, Rest;
    FirstSpaceInGap(s);
    CutInGap(s, NextSpace(s, 0));
  }

  lemma ArgIsShorter(s: string)
    requires s != ""
    ensures |ArgText(s)| < |s|
  {
  }

  lemma ArgWithoutSpaceInGap(s: string)
    requires Bare(Whitespace, s) && ' ' !in Gap(s)
    ensures ArgText(s) == ArgText(Rest(s))
  {
    hide IsWhitespace, TrimBy, Trim, Bare, NextWhitespace, SkipFrom, NextSpace, Rest;
    LineShape(s);
    var i := NextWhitespace(s, 0);
    var j := SkipFrom(Whitespace, s, i);
    NoSpaceBefore(s, i);
    NextSpaceFrom(s, 0, i);
    NextSpaceFrom(s, i, j);
    NextSpaceOfSlice(s, j, j);
    var k := NextSpace(s, j);
    if k < |s| { assert s[j..][k - j + 1..] == s[k + 1..]; }
  }

  lemma {:induction false} NextSpaceOfSlice(s: string, j: nat, k: nat)
    requires j <= k <= |s|
    ensures NextSpace(s[j..], k - j) == NextSpace(s, k) - j
    decreases |s| - k
  {
    if k < |s| && s[k] != ' ' {
      assert s[j..][k - j] == s[k];
      NextSpaceOfSlice(s, j, k + 1);
    }
  }

  /**
  The handler is given the text the whitelist looked at exactly when there is no
  text at all or a space somewhere in the whitespace before it.
  */
  lemma SplittersAgreeIff(line: string)
    ensures var s := Trim(line);
            ArgText(s) == Rest(s) <==> Rest(s) == "" || ' ' in Gap(s)
  {
    var s := Trim(line);
    var pre, post := TrimByShape(Whitespace, line);
    LineShape(s);
    if ' ' in Gap(s) {
      ArgWithSpaceInGap(s);
    } else {
      ArgWithoutSpaceInGap(s);
      if Rest(s) == "" { assert ArgText("") == ""; } else { ArgIsShorter(Rest(s)); }
    }
  }

  // ---- the whitelist -----------------------------------------------------------------------

  const INSPECT := "inspect "
  const SHOW := "show "

  /** Lines that leave an open prompt alone. */
  predicate IsReadOnly(line: string) {
    var s := Trim(line);
    var cmd := FirstToken(s);
    var rest := Rest(s);
    if cmd == "/help" || cmd == "/logs" || cmd == "/connect" then true
    else if cmd == "/model" || cmd == "/backend" then rest == ""
    else if cmd == "/update" then rest == "" || rest == "status"
    else if cmd == "/task" then rest == "list" || INSPECT <= rest
    else if cmd == "/schedule" || cmd == "/credential" || cmd == "/extension" || cmd == "/auth" then rest == "list"
    else if cmd == "/proposal" then rest == "list" || SHOW <= rest
    else false
  }

  /** The whitelist, argument by argument. */
  lemma WhitelistIs(line: string)
    ensures var s := Trim(line);
            var (cmd, rest) := (FirstToken(s), Rest(s));
            IsReadOnly(line) <==>
              || cmd in ["/help", "/logs", "/connect"]
              || (rest == "" && cmd in ["/model", "/backend", "/update"])
              || (rest == "status" && cmd == "/update")
              || (rest == "list" && cmd in ["/task", "/schedule", "/credential", "/extension", "/auth", "/proposal"])
              || ("inspect " <= rest && cmd == "/task")
              || ("show " <= rest && cmd == "/proposal")
  {
    hide Trim, FirstToken, Rest;
  }

  /** The subcommand a handler runs. */
  function Subcommand(arg: string): string {
    FirstToken(Trim(arg))
  }

  /** The subcommands that change something, command by command. */
  predicate Changes(cmd: string, sub: string) {
    || (cmd == "/task" && sub in ["pause", "resume", "cancel", "steer"])
    || (cmd == "/proposal" && sub in ["approve", "reject"])
    || (cmd == "/schedule" && sub in ["add", "cancel", "revoke"])
    || (cmd == "/credential" && sub in ["issue", "revoke"])
    || (cmd == "/extension" && sub in ["install", "revoke"])
    || (cmd == "/auth" && sub in ["connect", "disconnect"])
  }

  /** What dispatching a line changes. */
  predicate DispatchChanges(line: string) {
    var s := Trim(line);
    Changes(FirstToken(s), FirstToken(ArgText(s)))
  }

  lemma FirstTokenIs(word: string, after: string)
    requires forall k | 0 <= k < |word| :: !IsWhitespace(word[k])
    requires after == "" || IsWhitespace(after[0])
    ensures FirstToken(word + after) == word
  {
    var s := word + after;
    var i := NextWhitespace(s, 0);
    assert forall k | 0 <= k < |word| :: s[k] == word[k];
    if after != "" { assert s[|word|] == after[0]; }
    assert i == |word|;
  }

  lemma FirstSpaceIs(word: string, after: string)
    requires ' ' !in word
    ensures SpaceArg(word + " " + after) == Some(after)
  {
    var s := word + " " + after;
    assert s[0..|word|] == word;
    NextSpaceFrom(s, 0, |word|);
    assert s[|word|] == ' ';
    assert s[|word| + 1..] == after;
  }

  lemma NoSpaceNoArg(word: string)
    requires ' ' !in word
    ensures SpaceArg(word) == None
  {
    assert word[0..|word|] == word;
    NextSpaceFrom(word, 0, |word|);
  }

  /** The subcommands of a rest the whitelist accepted, as the whitelist reads it. */
  lemma AcceptedSubcommand(rest: string)
    ensures rest == "list" ==> FirstToken(rest) == "list" && SpaceArg(rest) == None
    ensures INSPECT <= rest ==> FirstToken(rest) == "inspect" && SpaceArg(rest) == Some(rest[|INSPECT|..])
    ensures SHOW <= rest ==> FirstToken(rest) == "show" && SpaceArg(rest) == Some(rest[|SHOW|..])
  {
    if rest == "list" {
      assert rest == "list" + "";
      FirstTokenIs("list", "");
      NoSpaceNoArg("list");
    } else if INSPECT <= rest {
      assert rest == "inspect" + " " + rest[|INSPECT|..];
      assert rest == "inspect" + (" " + rest[|INSPECT|..]);
      FirstTokenIs("inspect", " " + rest[|INSPECT|..]);
      FirstSpaceIs("inspect", rest[|INSPECT|..]);
    } else if SHOW <= rest {
      assert rest == "show" + " " + rest[|SHOW|..];
      assert rest == "show" + (" " + rest[|SHOW|..]);
      FirstTokenIs("show", " " + rest[|SHOW|..]);
      FirstSpaceIs("show", rest[|SHOW|..]);
    }
  }

  lemma EmptyHasNoToken()
    ensures FirstToken("") == ""
  {
  }

  /**
  A line on the whitelist changes something exactly when its first whitespace
  holds no space and what follows `inspect` or `show` is itself a changing
  subcommand: then the dispatch skips the word the whitelist looked at.
  */
  lemma ReadOnlyChangesIff(line: string)
    requires IsReadOnly(line)
    ensures var s := Trim(line);
            DispatchChanges(line) <==>
            && ' ' !in Gap(s)
            && ((FirstToken(s) == "/task" && INSPECT <= Rest(s) && Changes("/task", Subcommand(Rest(s)[|INSPECT|..])))
                || (FirstToken(s) == "/proposal" && SHOW <= Rest(s)
                  && Changes("/proposal", Subcommand(Rest(s)[|SHOW|..]))))
  {
    hide FirstToken, SpaceArg, Rest, Gap;
    var s := Trim(line);
    SplittersAgreeIff(line);
    AcceptedSubcommand(Rest(s));
    EmptyHasNoToken();
    TrimmedIsBare(line);
    if ' ' !in Gap(s) { ArgWithoutSpaceInGap(s); }
  }

  lemma TrimmedIsBare(line: string)
    ensures Bare(Whitespace, Trim(line))
  {
    var pre, post := TrimByShape(Whitespace, line);
  }

  /** With only spaces after the command, the whitelist is right about every line. */
  lemma SpacedLinesAreSafe(line: string)
    requires IsReadOnly(line) && (Rest(Trim(line)) == "" || ' ' in Gap(Trim(line)))
    ensures !DispatchChanges(line)
  {
    ReadOnlyChangesIff(line);
    TrimmedIsBare(line);
    LineShape(Trim(line));
    if Rest(Trim(line)) == "" { assert !(INSPECT <= "") && !(SHOW <= ""); }
  }

  lemma TabLineCharacters()
    ensures forall k | 0 <= k < 5 :: !IsWhitespace("/task"[k])
    ensures forall k | 0 <= k < 6 :: !IsWhitespace("cancel"[k])
    ensures All(Whitespace, "\t") && IsWhitespace(' ') && !IsWhitespace('/')
            && !IsWhitespace('c') && !IsWhitespace('1') && !IsWhitespace('i')
  {
  }

  /** A tab after the command: accepted as `inspect`, dispatched as `cancel`. */
  lemma TabDefeatsTheWhitelist()
    ensures IsReadOnly("/task\tinspect cancel t1") && DispatchChanges("/task\tinspect cancel t1")
  {
    hide IsWhitespace, TrimBy, FirstToken, Rest, Gap, DispatchChanges, SpaceArg;
    var line := "/task\tinspect cancel t1";
    TabLineCharacters();
    assert line == "/task" + "\t" + "inspect cancel t1";
    TrimByBare(Whitespace, line);
    TakenApart(line, "/task", "\t", "inspect cancel t1");
    var tail := "inspect cancel t1"[|INSPECT|..];
    assert tail == "cancel t1" == "cancel" + " t1";
    TrimByBare(Whitespace, tail);
    FirstTokenIs("cancel", " t1");
    assert ' ' !in "\t";
    ReadOnlyChangesIff(line);
  }

  /** The parts of a line put together from its parts. */
  lemma TakenApart(s: string, cmd: string, gap: string, rest: string)
    requires s == cmd + gap + rest && rest != "" && gap != ""
    requires forall k | 0 <= k < |cmd| :: !IsWhitespace(cmd[k])
    requires All(Whitespace, gap) && Bare(Whitespace, rest)
    ensures FirstToken(s) == cmd && Gap(s) == gap && Rest(s) == rest
  {
    hide IsWhitespace, TrimBy, NextWhitespace, SkipFrom, Rest, Gap, All, Bare;
    SameParts(s, cmd, gap, rest);
    StartsWhite(gap, rest);
    FirstTokenIs(cmd, gap + rest);
    GapEndsAt(s, cmd, gap, rest);
    RestFrom(s, cmd, gap, rest);
  }

  lemma SameParts(s: string, cmd: string, gap: string, rest: string)
    requires s == cmd + gap + rest
    ensures s == cmd + (gap + rest)
  {
  }

  lemma StartsWhite(gap: string, rest: string)
    requires gap != "" && All(Whitespace, gap)
    ensures gap + rest != "" && IsWhitespace((gap + rest)[0])
  {
    hide IsWhitespace;
    assert (gap + rest)[0] == gap[0];
  }

  lemma RestFrom(s: string, cmd: string, gap: string, rest: string)
    requires s == cmd + gap + rest && gap != "" && NextWhitespace(s, 0) == |cmd|
    requires All(Whitespace, gap) && Bare(Whitespace, rest)
    ensures Rest(s) == rest
  {
    hide IsWhitespace, TrimBy, NextWhitespace, SkipFrom, Bare;
    AllSlice(Whitespace, gap, 1, |gap|);
    assert s[|cmd| + 1..] == gap[1..|gap|] + rest + "";
    TrimByPadded(Whitespace, gap[1..|gap|], rest, "");
  }

  lemma GapEndsAt(s: string, cmd: string, gap: string, rest: string)
    requires s == cmd + gap + rest && rest != "" && gap != "" && FirstToken(s) == cmd
    requires All(Whitespace, gap) && Bare(Whitespace, rest)
    ensures NextWhitespace(s, 0) == |cmd| && SkipFrom(Whitespace, s, |cmd|) == |cmd| + |gap| && Gap(s) == gap
  {
    hide IsWhitespace;
    var i := NextWhitespace(s, 0);
    var j := SkipFrom(Whitespace, s, i);
    assert |FirstToken(s)| == i;
    assert forall k | i <= k < i + |gap| :: s[k] == gap[k - i];
    assert s[i + |gap|] == rest[0];
    assert j == i + |gap|;
  }
}

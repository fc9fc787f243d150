/**
The transactional import of personas, config and skill candidates: files are
staged first, then published one rename at a time, and taken back in reverse
when a step fails.
*/
module ProductImport {
  import opened Wrappers
  import opened FileTree
  import opened ImportPlan
  import Text

  datatype PersonaEntry = PersonaEntry(
    name: string, description: Option<string>, systemPrompt: string, tier: string, weight: real, skills: seq<string>)

  datatype AgentFile = AgentFile(
    version: int, personas: seq<PersonaEntry>, defaultModel: string, dailyBudgetUsd: real, skills: seq<string>)

  /** Code outside the repository: the format version, character tables and serialisers. */
  datatype Library = Library(
    afVersion: int,
    lower: char -> string,
    isAlphanumeric: char -> bool,
    yaml: PersonaEntry -> Option<string>,
    editConfig: (string, string, real) -> Option<string>,
    json: seq<string> -> Option<string>)

  datatype ImportError = UnsupportedVersion | InvalidName
    | PersonaExists(slug: string) | UnsupportedTier | BadConfig | Unserialisable | Io

  // ---- naming ----------------------------------------------------------------

  const MAX_SLUG_BYTES := 80

  predicate SlugChar(lib: Library, c: char) {
    lib.isAlphanumeric(c) || c == '-' || c == '_'
  }

  /** Every character that may not be in a slug becomes a dash. */
  function Dashed(lib: Library, text: string): (r: string)
    ensures |r| == |text|
    ensures forall i | 0 <= i < |r| :: r[i] == if SlugChar(lib, text[i]) then text[i] else '-'
  {
    if text == "" then "" else [if SlugChar(lib, text[0]) then text[0] else '-'] + Dashed(lib, text[1..])
  }

  function SlugText(lib: Library, name: string): (r: string)
    ensures forall i | 0 <= i < |r| :: SlugChar(lib, r[i])
  {
    Dashed(lib, Text.Lowered(lib.lower, name))
  }

  function SafeSlug(lib: Library, name: string): Option<string> {
    var slug := Text.TrimBy(Text.Dash, SlugText(lib, Text.Trim(name)));
    if slug == "" || slug == "." || slug == ".." || Text.Bytes(slug) > MAX_SLUG_BYTES then None else Some(slug)
  }

  /** Dashes, the slug, dashes: together the text with a dash for every character that may not be in a slug. */
  predicate IsParted(lib: Library, text: string, pre: string, s: string, post: string) {
    && (forall i | 0 <= i < |pre| :: pre[i] == '-') && (forall i | 0 <= i < |post| :: post[i] == '-')
    && var all := pre + s + post;
       && |all| == |text|
       && forall i | 0 <= i < |text| ::
            all[i] == if lib.isAlphanumeric(text[i]) || text[i] == '-' || text[i] == '_' then text[i] else '-'
  }

  /** What is left of the trimmed and lower-cased name without the dashes at both ends. */
  ghost predicate IsSlugOf(lib: Library, name: string, s: string) {
    && s != "" && s != "." && s != ".." && Text.Bytes(s) <= 80 && s[0] != '-' && s[|s| - 1] != '-'
    && exists pre, post :: IsParted(lib, Text.Lowered(lib.lower, Text.Trim(name)), pre, s, post)
  }

  lemma PartsTrim(lib: Library, text: string, pre: string, s: string, post: string)
    requires s != "" && s[0] != '-' && s[|s| - 1] != '-' && IsParted(lib, text, pre, s, post)
    ensures Text.TrimBy(Text.Dash, Dashed(lib, text)) == s
  {
    hide Text.SkipFrom, Text.BackTo, Text.TrimBy;
    assert Dashed(lib, text) == pre + s + post;
    assert Text.All(Text.Dash, pre) && Text.All(Text.Dash, post) && Text.Bare(Text.Dash, s);
    Text.TrimByPadded(Text.Dash, pre, s, post);
  }

  lemma TrimParts(lib: Library, text: string)
    ensures var s := Text.TrimBy(Text.Dash, Dashed(lib, text));
            && (exists pre, post :: IsParted(lib, text, pre, s, post))
            && (s != "" ==> s[0] != '-' && s[|s| - 1] != '-')
  {
    hide Text.SkipFrom, Text.BackTo, Text.TrimBy;
    var s := Text.TrimBy(Text.Dash, Dashed(lib, text));
    var pre, post := Text.TrimByShape(Text.Dash, Dashed(lib, text));
    assert Dashed(lib, text) == pre + s + post && Text.Bare(Text.Dash, s);
    assert forall i | 0 <= i < |pre| :: pre[i] == '-';
    assert forall i | 0 <= i < |post| :: post[i] == '-';
    assert IsParted(lib, text, pre, s, post);
  }

  /** The slug of a name, and when it has none. */
  lemma SlugIs(lib: Library, name: string, s: string)
    ensures SafeSlug(lib, name) == Some(s) <==> IsSlugOf(lib, name, s)
  {
    hide Text.Trim, Text.TrimBy, Text.Bytes, Text.Lowered, Dashed, IsParted;
    var text := Text.Lowered(lib.lower, Text.Trim(name));
    TrimParts(lib, text);
    if IsSlugOf(lib, name, s) {
      var pre, post :| IsParted(lib, text, pre, s, post);
      PartsTrim(lib, text, pre, s, post);
    }
  }

  /**
  A slug is one path component that cannot climb out of the personas directory,
  provided the character tables do not count '/' and '.' as letters or digits.
  */
  lemma SlugIsOneComponent(lib: Library, name: string)
    requires SafeSlug(lib, name).Some?
    ensures var s := SafeSlug(lib, name).value;
            && s != "" && Text.Bytes(s) <= MAX_SLUG_BYTES
            && s[0] != '-' && s[|s| - 1] != '-'
            && (forall i | 0 <= i < |s| :: SlugChar(lib, s[i]))
            && (!lib.isAlphanumeric('/') && !lib.isAlphanumeric('.') ==> '/' !in s && '.' !in s)
  {
    var pre, post := Text.TrimByShape(Text.Dash, SlugText(lib, Text.Trim(name)));
    var s := SafeSlug(lib, name).value;
    forall i | 0 <= i < |s|
      ensures SlugChar(lib, s[i])
    {
      assert s[i] == SlugText(lib, Text.Trim(name))[|pre| + i];
    }
  }

  /** Naming a persona by its own slug changes nothing, when lower-casing is settled on it. */
  lemma SlugIsFixpoint(lib: Library, name: string)
    requires SafeSlug(lib, name).Some?
    requires forall c | c in SafeSlug(lib, name).value :: lib.lower(c) == [c] && !Text.IsWhitespace(c)
    ensures SafeSlug(lib, SafeSlug(lib, name).value) == SafeSlug(lib, name)
  {
    SlugIsOneComponent(lib, name);
    var s := SafeSlug(lib, name).value;
    Text.TrimByBare(Text.Whitespace, s);
    SettledSlugText(lib, s);
    Text.TrimByBare(Text.Dash, s);
  }

  lemma {:induction false} SettledSlugText(lib: Library, s: string)
    requires forall i | 0 <= i < |s| :: lib.lower(s[i]) == [s[i]] && SlugChar(lib, s[i])
    ensures Text.Lowered(lib.lower, s) == s && SlugText(lib, s) == s
  {
    if s != "" { SettledSlugText(lib, s[1..]); }
  }

  /** Two names written apart can collapse to one slug; prepare accepts both, commit cannot. */
  lemma NamesCollapse(lib: Library)
    requires lib.lower('a') == "a" && lib.lower('b') == "b" && lib.isAlphanumeric('a') && lib.isAlphanumeric('b')
    requires lib.lower(' ') == " " && !lib.isAlphanumeric(' ') && lib.lower('-') == "-"
    ensures SafeSlug(lib, "a b") == SafeSlug(lib, "a-b") == Some("a-b")
  {
    Text.TrimByBare(Text.Whitespace, "a b");
    Text.TrimByBare(Text.Whitespace, "a-b");
    Text.TrimByBare(Text.Dash, "a-b");
    assert "a b"[1..] == " b" && " b"[1..] == "b" && "a-b"[1..] == "-b" && "-b"[1..] == "b" && "b"[1..] == "";
    assert Text.Lowered(lib.lower, "b") == "b" && Text.Lowered(lib.lower, " b") == " b"
           && Text.Lowered(lib.lower, "-b") == "-b";
    assert SlugText(lib, "a b") == Dashed(lib, "a b") == "a-b";
    assert SlugText(lib, "a-b") == Dashed(lib, "a-b") == "a-b";
    assert Text.Bytes("a-b") == 1 + Text.Bytes("-b") by { assert "a-b"[1..] == "-b"; }
    assert Text.Bytes("-b") == 1 + Text.Bytes("b") by { assert "-b"[1..] == "b"; }
    assert Text.Bytes("b") == 1 + Text.Bytes("") by { assert "b"[1..] == ""; }
  }

  /** The text of SOUL.md. */
  function Soul(lib: Library, entry: PersonaEntry): Result<string, ImportError> {
    if entry.tier != "cloud-ok" && entry.tier != "local-only" then Err(UnsupportedTier)
    else match lib.yaml(entry)
      case None => Err(Unserialisable)
      case Some(yaml) => Ok("---\n" + yaml + "---\n" + entry.systemPrompt + "\n")
  }

  /** The tier is one of the two there are, and the front matter can be written. */
  predicate HasText(lib: Library, entry: PersonaEntry) {
    (entry.tier == "cloud-ok" || entry.tier == "local-only") && lib.yaml(entry).Some?
  }

  /** Front matter between its two marks, then the system prompt. */
  predicate IsText(lib: Library, entry: PersonaEntry, text: string) {
    && HasText(lib, entry)
    && text == "---\n" + lib.yaml(entry).value + "---\n" + entry.systemPrompt + "\n"
  }

  lemma SoulIs(lib: Library, entry: PersonaEntry)
    ensures forall text :: Soul(lib, entry) == Ok(text) <==> IsText(lib, entry, text)
    ensures Soul(lib, entry).Ok? <==> HasText(lib, entry)
    ensures Soul(lib, entry) == Err(UnsupportedTier) <==> entry.tier != "cloud-ok" && entry.tier != "local-only"
    ensures Soul(lib, entry).Err? ==> Soul(lib, entry) in [Err(UnsupportedTier), Err(Unserialisable)]
  {
  }

  // ---- the transaction ---------------------------------------------------------

  ghost predicate FaultBetween(fs: FileSystem, from: nat, to: nat) {
    exists k | from <= k < to :: k in fs.faults
  }

  /** The step taken just before clock value n. */
  function Before(n: nat): nat {
    if n == 0 then 0 else n - 1
  }

  function Sources(site: Site, slugs: seq<string>): (r: seq<(Path, Path)>)
    ensures |r| == |slugs|
    ensures forall i | 0 <= i < |r| :: r[i] == (site.Source(slugs[i]), site.Target(slugs[i]))
  {
    if slugs == [] then [] else [(site.Source(slugs[0]), site.Target(slugs[0]))] + Sources(site, slugs[1..])
  }

  /** Where the first k personas go, in order. */
  ghost function Targets(plan: Plan, k: nat): (r: seq<Path>)
    requires k <= |plan.slugs|
    ensures |r| == k && forall i | 0 <= i < k :: r[i] == plan.site.Target(plan.slugs[i])
  {
    if k == 0 then [] else Targets(plan, k - 1) + [plan.site.Target(plan.slugs[k - 1])]
  }

  /** The trees agree outside the staging directory. */
  ghost predicate SameOutside(site: Site, t: Tree, t': Tree) {
    forall q | !(site.Staging() <= q) :: (q in t' <==> q in t) && (q in t' ==> t'[q] == t[q])
  }

  /** `RestoreFailed`: the personas are gone again but the old config could not be put back. */
  datatype CommitOutcome = Committed | RolledBack | RestoreFailed

  class PreparedProductImport {
    var staging: Option<Path>
    var personas: seq<(Path, Path)>
    var config: Option<(Path, Path)>
    var configBackup: Option<Path>
    var candidate: Option<(Path, Path)>

    /** Nothing to do: a managed deployment, or an import that is not applied. */
    ghost predicate Inert()
      reads this
    {
      staging.None? && personas == [] && config.None? && configBackup.None? && candidate.None?
    }

    /** The fields name exactly the moves of the plan. */
    ghost predicate Carries(plan: Plan)
      reads this
    {
      && staging == Some(plan.site.Staging())
      && personas == Sources(plan.site, plan.slugs)
      && config == Some((plan.site.StagedConfig(), plan.config))
      && configBackup == Some(plan.site.Backup())
      && candidate ==
         if plan.candidates.Some? then Some((plan.site.CandidateSource(), plan.site.CandidateTarget())) else None
    }

    constructor Nothing()
      ensures Inert()
    {
      staging, personas, config, configBackup, candidate := None, [], None, None, None;
    }

    constructor (
      staging: Path, personas: seq<(Path, Path)>, config: (Path, Path), backup: Path, candidate: Option<(Path, Path)>)
      ensures this.staging == Some(staging) && this.personas == personas && this.config == Some(config)
      ensures this.configBackup == Some(backup) && this.candidate == candidate
    {
      this.staging, this.personas, this.config := Some(staging), personas, Some(config);
      this.configBackup, this.candidate := Some(backup), candidate;
    }

    /** One persona: make the parent directory, then move the staged directory into place. */
    method PublishPersona(fs: FileSystem, i: nat, ghost plan: Plan, ghost t0: Tree) returns (ok: bool)
      requires fs.Valid() && Carries(plan) && i < |plan.slugs| && Halfway(plan, t0, fs.tree, i)
      modifies fs
      ensures fs.Valid() && fs.clock >= old(fs.clock)
      ensures Halfway(plan, t0, fs.tree, if ok then i + 1 else i)
      ensures !ok ==> || fs.lastFault >= old(fs.clock) || !Distinct(plan.slugs)
                      || Blocked(fs.tree, plan.site.PersonasDir())
    {
      var source, destination := personas[i].0, personas[i].1;
      ghost var dir := plan.site.PersonasDir();
      assert destination != [] && Parent(destination) == dir;
      ok := fs.CreateDirAll(Parent(destination));
      DirsMade(plan, t0, old(fs.tree), fs.tree, i, dir);
      if !ok {
        BlockedStays(old(fs.tree), fs.tree, dir);
        return;
      }
      assert dir[..|dir|] == dir;
      PersonaMovable(plan, t0, fs.tree, i);
      ghost var t := fs.tree;
      ok := fs.Rename(source, destination);
      if ok {
        PersonaPublished(plan, t0, t, i);
      } else if plan.slugs[i] in plan.slugs[..i] {
        Repeated(plan.slugs, i);
      }
    }

    /** The candidate file, once every persona is published. */
    method PublishCandidate(fs: FileSystem, ghost plan: Plan, ghost t0: Tree) returns (ok: bool)
      requires fs.Valid() && Carries(plan) && candidate.Some? && Halfway(plan, t0, fs.tree, |plan.slugs|)
      modifies fs
      ensures fs.Valid() && fs.clock >= old(fs.clock)
      ensures if ok then Published(plan, t0, fs.tree) else Halfway(plan, t0, fs.tree, |plan.slugs|)
      ensures !ok ==> fs.lastFault >= old(fs.clock) || Blocked(fs.tree, plan.site.CandidateDir())
    {
      var source, destination := candidate.value.0, candidate.value.1;
      ghost var dir := plan.site.CandidateDir();
      assert destination != [] && Parent(destination) == dir;
      ok := fs.CreateDirAll(Parent(destination));
      DirsMade(plan, t0, old(fs.tree), fs.tree, |plan.slugs|, dir);
      if !ok {
        BlockedStays(old(fs.tree), fs.tree, dir);
        return;
      }
      assert dir[..|dir|] == dir;
      CandidateMovable(plan, fs.tree);
      ghost var t := fs.tree;
      ok := fs.Rename(source, destination);
      if ok { CandidatePublished(plan, t0, t); }
    }

    /** The personas in order, up to the first that fails. */
    method PublishPersonas(fs: FileSystem, ghost plan: Plan, ghost t0: Tree) returns (ok: bool, published: seq<Path>)
      requires fs.Valid() && Carries(plan) && Halfway(plan, t0, fs.tree, 0)
      modifies fs
      ensures fs.Valid() && fs.clock >= old(fs.clock)
      ensures |published| <= |plan.slugs| && Halfway(plan, t0, fs.tree, |published|)
      ensures published == Targets(plan, |published|)
      ensures ok ==> |published| == |plan.slugs|
      ensures !ok ==> || fs.lastFault >= old(fs.clock) || !Distinct(plan.slugs)
                      || Blocked(fs.tree, plan.site.PersonasDir())
    {
      published, ok := [], true;
      var i := 0;
      while i < |personas|
        invariant 0 <= i <= |personas| && ok
        invariant fs.Valid() && fs.clock >= old(fs.clock)
        invariant Halfway(plan, t0, fs.tree, i)
        invariant published == Targets(plan, i)
      {
        ok := PublishPersona(fs, i, plan, t0);
        if !ok { return; }
        published := published + [personas[i].1];
        i := i + 1;
      }
    }

    /** The publishing steps of commit, up to the first that fails. */
    method Publish(fs: FileSystem, ghost plan: Plan) returns (ok: bool, published: seq<Path>, configPublished: bool)
      requires fs.Valid() && Carries(plan) && Staged(plan, fs.tree)
      modifies fs
      ensures fs.Valid() && fs.clock >= old(fs.clock)
      ensures configPublished <==> old(fs.clock) !in fs.faults
      ensures ok ==> configPublished && Published(plan, old(fs.tree), fs.tree)
      ensures !ok && !configPublished ==> published == [] && fs.tree == old(fs.tree)
      ensures !ok && configPublished ==>
                && |published| <= |plan.slugs| && Halfway(plan, old(fs.tree), fs.tree, |published|)
                && published == Targets(plan, |published|)
      ensures !ok ==> fs.lastFault >= old(fs.clock) || !Distinct(plan.slugs) || Obstructed(plan.site, old(fs.tree))
    {
      ghost var t0 := fs.tree;
      published, configPublished := [], false;
      ok := fs.Rename(config.value.0, config.value.1);
      if !ok {
        StagedConfigMovable(plan, t0);
        return;
      }
      configPublished := true;
      ConfigPublished(plan, t0);
      ok, published := PublishPersonas(fs, plan, t0);
      if !ok {
        ObstructedBefore(plan, t0, fs.tree, |published|);
        return;
      }
      if candidate.Some? {
        ok := PublishCandidate(fs, plan, t0);
        if !ok {
          ObstructedBefore(plan, t0, fs.tree, |published|);
          return;
        }
        published := published + [candidate.value.1];
      } else {
        NoCandidates(plan, t0, fs.tree);
      }
    }

    /** Take the j-th persona back. A failure is ignored. */
    method UnpublishOne(
      fs: FileSystem, destination: Path, ghost j: nat, ghost plan: Plan, ghost t0: Tree, ghost clean: bool)
      requires fs.Valid() && Unpublished(plan, t0) && j < |plan.slugs| && destination == plan.site.Target(plan.slugs[j])
      requires Distinct(plan.slugs[..j + 1]) && Restorable(plan, fs.tree)
      requires clean ==> Undoing(plan, t0, fs.tree, j + 1)
      modifies fs
      ensures fs.Valid() && fs.clock == old(fs.clock) + 1 && old(fs.lastFault) <= fs.lastFault
      ensures Restorable(plan, fs.tree)
      ensures clean && fs.lastFault < old(fs.clock) ==> Undoing(plan, t0, fs.tree, j)
    {
      if fs.IsDir(destination) {
        var _ := fs.RemoveDirAll(destination);
      } else {
        var _ := fs.RemoveFile(destination);
      }
      StillRestorable(plan, t0, old(fs.tree), fs.tree, plan.slugs[j]);
      if clean {
        assert plan.slugs[j] == plan.slugs[..j + 1][j];
        PersonaRemoved(plan, t0, old(fs.tree), j);
      }
    }

    /** Take published destinations back, newest first. */
    method Unpublish(fs: FileSystem, published: seq<Path>, ghost plan: Plan, ghost t0: Tree)
      requires fs.Valid() && Unpublished(plan, t0) && |published| <= |plan.slugs|
               && published == Targets(plan, |published|)
      requires Distinct(plan.slugs[..|published|])
      requires Restorable(plan, fs.tree) && Undoing(plan, t0, fs.tree, |published|)
      modifies fs
      ensures fs.Valid() && fs.clock == old(fs.clock) + |published| && old(fs.lastFault) <= fs.lastFault
      ensures Restorable(plan, fs.tree)
      ensures fs.lastFault < old(fs.clock) ==> Undoing(plan, t0, fs.tree, 0)
    {
      ghost var start := fs.clock;
      var j := |published|;
      while j > 0
        invariant 0 <= j <= |published|
        invariant fs.Valid() && fs.clock == start + (|published| - j) && old(fs.lastFault) <= fs.lastFault
        invariant Restorable(plan, fs.tree)
        invariant fs.lastFault < start ==> Undoing(plan, t0, fs.tree, j)
      {
        j := j - 1;
        DistinctPrefix(plan.slugs, |published|, j + 1);
        UnpublishOne(fs, published[j], j, plan, t0, fs.lastFault < start);
      }
    }

    /** Put the old config back. With every persona taken back, nothing is left changed. */
    method RestoreConfig(fs: FileSystem, ghost plan: Plan, ghost t0: Tree, ghost clean: bool) returns (ok: bool)
      requires fs.Valid() && configBackup == Some(plan.site.Backup()) && config.Some?
               && config.value.1 == plan.config && Restorable(plan, fs.tree)
      requires clean ==> Unpublished(plan, t0) && Undoing(plan, t0, fs.tree, 0)
      modifies fs
      ensures fs.Valid() && fs.clock == old(fs.clock) + 1 && old(fs.lastFault) <= fs.lastFault
      ensures ok <==> old(fs.clock) !in fs.faults
      ensures fs.lastFault < old(fs.clock) ==> ok
      ensures FileAt(fs.tree, plan.config, if ok then plan.oldConfig else plan.newConfig)
      ensures clean && ok ==> Untouched(plan.site, t0, fs.tree)
    {
      ConfigRestored(plan, fs.tree);
      ok := fs.Rename(configBackup.value, config.value.1);
      if clean {
        AllUndone(plan, t0, old(fs.tree));
      }
    }

    /** Undo a publication that got past the config; false when the old config could not be restored. */
    method Rollback(fs: FileSystem, published: seq<Path>, ghost plan: Plan, ghost t0: Tree) returns (restored: bool)
      requires fs.Valid() && configBackup == Some(plan.site.Backup()) && config.Some?
               && config.value.1 == plan.config && Unpublished(plan, t0)
      requires |published| <= |plan.slugs| && published == Targets(plan, |published|)
      requires Distinct(plan.slugs[..|published|])
      requires Restorable(plan, fs.tree) && Undoing(plan, t0, fs.tree, |published|)
      modifies fs
      ensures fs.Valid() && fs.clock == old(fs.clock) + |published| + 1 && old(fs.lastFault) <= fs.lastFault
      ensures restored <==> old(fs.clock) + |published| !in fs.faults
      ensures FileAt(fs.tree, plan.config, if restored then plan.oldConfig else plan.newConfig)
      ensures fs.lastFault < old(fs.clock) ==> restored && Untouched(plan.site, t0, fs.tree)
    {
      ghost var start := fs.clock;
      Unpublish(fs, published, plan, t0);
      ghost var clean := fs.lastFault < start;
      restored := RestoreConfig(fs, plan, t0, clean);
    }

    /** Dropping the value deletes the staging directory, and with it the backup. */
    method Drop(fs: FileSystem, ghost site: Site)
      requires fs.Valid() && (staging.None? || staging == Some(site.Staging()))
      modifies fs
      ensures fs.Valid() && fs.clock == old(fs.clock) + (if staging.None? then 0 else 1)
      ensures staging.None? ==> fs.tree == old(fs.tree)
      ensures SameOutside(site, old(fs.tree), fs.tree) && old(fs.lastFault) <= fs.lastFault
      ensures staging.Some? && old(fs.clock) !in fs.faults ==> NoStaging(site, fs.tree)
    {
      if staging.Some? {
        var _ := fs.RemoveDirAll(staging.value);
        if site.Staging() !in old(fs.tree) { AbsentBelow(old(fs.tree), site.Staging()); }
      }
    }

    /** A failed publication: undo it, then drop the value. */
    method Abandon(fs: FileSystem, published: seq<Path>, configPublished: bool, ghost plan: Plan, ghost t0: Tree)
      returns (r: CommitOutcome)
      requires fs.Valid() && staging == Some(plan.site.Staging()) && Unpublished(plan, t0)
      requires configBackup == Some(plan.site.Backup()) && config.Some? && config.value.1 == plan.config
      requires |published| <= |plan.slugs| && published == Targets(plan, |published|)
      requires !configPublished ==> fs.tree == t0
      requires configPublished ==> && Restorable(plan, fs.tree) && Undoing(plan, t0, fs.tree, |published|)
                                   && Distinct(plan.slugs[..|published|])
      modifies fs
      ensures fs.Valid() && fs.clock > old(fs.clock)
      ensures !r.Committed?
      ensures fs.lastFault < old(fs.clock) ==> r.RolledBack? && Untouched(plan.site, t0, fs.tree)
      ensures r.RolledBack? ==> FileAt(fs.tree, plan.config, plan.oldConfig)
      ensures r.RestoreFailed? ==> FileAt(fs.tree, plan.config, plan.newConfig)
      ensures r.RestoreFailed? <==> configPublished && old(fs.clock) + |published| in fs.faults
      ensures configPublished ==> fs.clock == old(fs.clock) + |published| + 2
      ensures Before(fs.clock) !in fs.faults ==> NoStaging(plan.site, fs.tree)
    {
      NothingPublished(plan, t0);
      var restored := true;
      if configPublished {
        restored := Rollback(fs, published, plan, t0);
      }
      r := if restored then RolledBack else RestoreFailed;
      ghost var clean, last := fs.lastFault < old(fs.clock), fs.clock;
      DropAfter(fs, plan, t0, clean);
      assert Before(fs.clock) == last;
    }

    method DropAfter(fs: FileSystem, ghost plan: Plan, ghost t0: Tree, ghost clean: bool)
      requires fs.Valid() && staging == Some(plan.site.Staging()) && !(plan.site.Staging() <= plan.config)
      requires clean ==> Untouched(plan.site, t0, fs.tree)
      modifies fs
      ensures fs.Valid() && fs.clock == old(fs.clock) + 1 && old(fs.lastFault) <= fs.lastFault
      ensures clean ==> Untouched(plan.site, t0, fs.tree)
      ensures forall content :: FileAt(old(fs.tree), plan.config, content) ==> FileAt(fs.tree, plan.config, content)
      ensures old(fs.clock) !in fs.faults ==> NoStaging(plan.site, fs.tree)
    {
      Drop(fs, plan.site);
      if clean { DropHarmless(plan.site, t0, old(fs.tree), fs.tree); }
    }

    /** A finished publication: take the staging path out of the value and delete the directory. */
    method Conclude(fs: FileSystem, ghost plan: Plan, ghost t0: Tree)
      requires fs.Valid() && Carries(plan) && Published(plan, t0, fs.tree) && !(plan.site.Staging() <= plan.config)
      modifies fs, this`staging
      ensures fs.Valid() && fs.clock == old(fs.clock) + 1 && staging.None?
      ensures Published(plan, t0, fs.tree)
      ensures old(fs.clock) !in fs.faults ==> NoStaging(plan.site, fs.tree)
    {
      Drop(fs, plan.site);
      staging := None;
      CleanupHarmless(plan, t0, old(fs.tree), fs.tree);
    }

    /**
    Publish everything or take it all back. `undoFrom` is the clock value at
    which undoing began, when it did, and `undone` the number of personas to
    take back, when the config was live by then. The value is dropped at the
    end, so the last step is the removal of the staging directory in every case.
    */
    method Commit(fs: FileSystem, ghost plan: Plan)
      returns (r: CommitOutcome, ghost undoFrom: nat, ghost undone: Option<nat>)
      requires fs.Valid() && (Inert() || (Carries(plan) && Staged(plan, fs.tree)))
      modifies fs, this`staging
      ensures fs.Valid() && old(fs.clock) <= undoFrom <= fs.clock
      ensures old(Inert()) ==> r.Committed? && fs.tree == old(fs.tree)
      ensures !r.Committed? ==> undoFrom < fs.clock
      ensures !old(Inert()) && Before(fs.clock) !in fs.faults ==> NoStaging(plan.site, fs.tree)
      // success: every destination holds what was staged for it
      ensures !old(Inert()) && r.Committed? ==> Published(plan, old(fs.tree), fs.tree)
      // failure: nothing but empty parent directories remains, if the undo steps succeed
      ensures !r.Committed? && fs.lastFault < undoFrom ==>
                r.RolledBack? && NoStaging(plan.site, fs.tree) && Untouched(plan.site, old(fs.tree), fs.tree)
      // the config is the old one unless its restoration failed
      ensures r.RolledBack? ==> FileAt(fs.tree, plan.config, plan.oldConfig)
      ensures r.RestoreFailed? ==> FileAt(fs.tree, plan.config, plan.newConfig)
      // the config was live when undoing began exactly if the first step published it
      ensures undone.Some? <==> !r.Committed? && old(fs.clock) !in fs.faults
      // then every persona is taken back, the config restored and the staging directory removed, one step each
      ensures undone.Some? ==> undone.value <= |plan.slugs| && fs.clock == undoFrom + undone.value + 2
      ensures r.RestoreFailed? <==> undone.Some? && undoFrom + undone.value in fs.faults
      // it fails only for a reason
      ensures !r.Committed? ==> || FaultBetween(fs, old(fs.clock), undoFrom)
                                || !Distinct(plan.slugs) || Obstructed(plan.site, old(fs.tree))
    {
      hide Staged, Published, Halfway, Untouched, NoStaging, Obstructed, FileAt, Distinct, FaultBetween, Unpublished;
      ghost var t0 := fs.tree;
      undoFrom, undone := fs.clock, None;
      if config.None? {
        r := Committed;
      } else {
        StagedGives(plan, t0);
        var ok, published, configPublished := PublishOrExplain(fs, plan);
        undoFrom := fs.clock;
        if ok {
          r := Committed;
          Conclude(fs, plan, t0);
        } else {
          if configPublished {
            HalfwayUndo(plan, t0, fs.tree, |published|);
            undone := Some(|published|);
          }
          r := Abandon(fs, published, configPublished, plan, t0);
        }
      }
    }

    /** The same, with the reason of a failure told by the steps themselves. */
    method PublishOrExplain(fs: FileSystem, ghost plan: Plan)
      returns (ok: bool, published: seq<Path>, configPublished: bool)
      requires fs.Valid() && Carries(plan) && Staged(plan, fs.tree)
      modifies fs
      ensures fs.Valid() && fs.clock >= old(fs.clock)
      ensures configPublished <==> old(fs.clock) !in fs.faults
      ensures ok ==> configPublished && Published(plan, old(fs.tree), fs.tree)
      ensures !ok && !configPublished ==> published == [] && fs.tree == old(fs.tree)
      ensures !ok && configPublished ==>
                && |published| <= |plan.slugs| && Halfway(plan, old(fs.tree), fs.tree, |published|)
                && published == Targets(plan, |published|)
      ensures !ok ==> || FaultBetween(fs, old(fs.clock), fs.clock)
                      || !Distinct(plan.slugs) || Obstructed(plan.site, old(fs.tree))
    {
      hide Staged, Published, Halfway, Obstructed, Distinct;
      ok, published, configPublished := Publish(fs, plan);
    }
  }

  lemma StagedGives(plan: Plan, t: Tree)
    requires Staged(plan, t)
    ensures Unpublished(plan, t) && !(plan.site.Staging() <= plan.config)
  {
  }

  lemma HalfwayUndo(plan: Plan, t0: Tree, t: Tree, k: nat)
    requires k <= |plan.slugs| && Halfway(plan, t0, t, k)
    ensures Restorable(plan, t) && Undoing(plan, t0, t, k) && Distinct(plan.slugs[..k])
  {
  }

  lemma NothingPublished(plan: Plan, t: Tree)
    requires Unpublished(plan, t)
    ensures Untouched(plan.site, t, t) && FileAt(t, plan.config, plan.oldConfig)
    ensures !(plan.site.Staging() <= plan.config)
  {
  }

  /** Removing the staging directory unpublishes nothing. */
  lemma CleanupHarmless(plan: Plan, t0: Tree, t: Tree, t': Tree)
    requires Published(plan, t0, t) && WellFormed(t') && !(plan.site.Staging() <= plan.config)
    requires SameOutside(plan.site, t, t')
    ensures Published(plan, t0, t')
  {
    Layout(plan.site, plan.site.CandidateTarget());
    PublishedStay(plan, t, t');
  }

  lemma DropHarmless(site: Site, t0: Tree, t: Tree, t': Tree)
    requires Untouched(site, t0, t)
    requires SameOutside(site, t, t')
    ensures Untouched(site, t0, t')
  {
    forall q | !(site.Staging() <= q)
      ensures Kept(site, t0, t', q)
    {
      assert Kept(site, t0, t, q);
    }
  }

  lemma DistinctPrefix(s: seq<string>, n: nat, k: nat)
    requires k <= n <= |s| && Distinct(s[..n])
    ensures Distinct(s[..k])
  {
    assert forall i | 0 <= i < k :: s[..k][i] == s[..n][i];
  }

  lemma NoCandidates(plan: Plan, t0: Tree, t: Tree)
    requires Halfway(plan, t0, t, |plan.slugs|) && plan.candidates.None?
    ensures Published(plan, t0, t)
  {
    assert plan.slugs[..|plan.slugs|] == plan.slugs;
  }

  lemma Repeated(s: seq<string>, i: nat)
    requires i < |s| && s[i] in s[..i]
    ensures !Distinct(s)
  {
    var j :| 0 <= j < i && s[..i][j] == s[i];
    assert s[j] == s[i];
  }

  lemma BlockedStays(t: Tree, t': Tree, p: Path)
    requires forall q | q in t :: q in t' && t'[q] == t[q]
    ensures Blocked(t, p) ==> Blocked(t', p)
  {
    if Blocked(t, p) {
      var n :| 0 <= n <= |p| && p[..n] in t && t[p[..n]].File?;
      assert p[..n] in t' && t'[p[..n]].File?;
    }
  }

  /** The staged config can always be moved over the live one. */
  lemma StagedConfigMovable(plan: Plan, t: Tree)
    requires Staged(plan, t)
    ensures CanRename(t, plan.site.StagedConfig(), plan.config)
  {
    var src, dst := plan.site.StagedConfig(), plan.config;
    PrefixTrans(plan.site.Staging(), src, dst);
    PrefixSlice(dst, src);
    LeafFile(t, dst);
    LeafFile(t, src);
    assert t[dst[..|dst| - 1]] == Dir;
  }

  // ---- preparing -----------------------------------------------------------------

  /** The slug and the SOUL.md text the agent file asks for. */
  ghost predicate StagedAs(lib: Library, entry: PersonaEntry, slug: string, text: string) {
    SafeSlug(lib, entry.name) == Some(slug) && IsText(lib, entry, text)
  }

  /** Each slug holds the text of the last entry naming it. */
  ghost predicate LastOf(slugs: seq<string>, texts: seq<string>, souls: map<string, string>) {
    && |texts| == |slugs|
    && (forall s :: s in souls <==> s in slugs)
    && (forall i | 0 <= i < |slugs| && slugs[i] !in slugs[i + 1..] :: souls[slugs[i]] == texts[i])
  }

  ghost predicate AllStaged(lib: Library, entries: seq<PersonaEntry>, slugs: seq<string>, texts: seq<string>) {
    |entries| == |slugs| == |texts| && forall i | 0 <= i < |slugs| :: StagedAs(lib, entries[i], slugs[i], texts[i])
  }

  lemma LastOfAppend(slugs: seq<string>, texts: seq<string>, souls: map<string, string>, s: string, text: string)
    requires LastOf(slugs, texts, souls)
    ensures LastOf(slugs + [s], texts + [text], souls[s := text])
  {
    var slugs' := slugs + [s];
    forall i | 0 <= i < |slugs'| && slugs'[i] !in slugs'[i + 1..]
      ensures souls[s := text][slugs'[i]] == (texts + [text])[i]
    {
      if i < |slugs| {
        assert slugs'[i + 1..] == slugs[i + 1..] + [s];
        assert s in slugs'[i + 1..];
      }
    }
  }

  lemma AllStagedAppend(
    lib: Library, entries: seq<PersonaEntry>, slugs: seq<string>, texts: seq<string>,
    entry: PersonaEntry, s: string, text: string)
    requires AllStaged(lib, entries, slugs, texts) && StagedAs(lib, entry, s, text)
    ensures AllStaged(lib, entries + [entry], slugs + [s], texts + [text])
  {
    hide StagedAs;
  }

  /** With distinct slugs every persona keeps its own text. */
  lemma OwnSoul(slugs: seq<string>, texts: seq<string>, souls: map<string, string>, i: nat)
    requires LastOf(slugs, texts, souls) && Distinct(slugs) && i < |slugs|
    ensures souls[slugs[i]] == texts[i]
  {
  }

  /** A persona that cannot be staged: a bad name, a bad tier, or a name already taken. */
  ghost predicate Refused(lib: Library, entry: PersonaEntry, site: Site, t: Tree) {
    || SafeSlug(lib, entry.name).None? || !HasText(lib, entry)
    || site.Target(SafeSlug(lib, entry.name).value) in t
  }

  /** The directory of a staged persona. */
  method MakeSource(fs: FileSystem, site: Site, slug: string, ghost souls: map<string, string>, ghost t0: Tree)
    returns (made: bool)
    requires fs.Valid() && StagingOpen(site, t0, fs.tree, souls)
    modifies fs
    ensures fs.Valid() && fs.clock >= old(fs.clock) && old(fs.lastFault) <= fs.lastFault
    ensures Untouched(site, t0, fs.tree)
    ensures if made then SourceMade(site, old(fs.tree), fs.tree, slug) else fs.lastFault >= old(fs.clock)
  {
    hide PersonaAt, Untouched;
    StagedNotBlocked(site, t0, fs.tree, souls, slug);
    made := fs.CreateDirAll(site.Source(slug));
    NewBelow(site, old(fs.tree), fs.tree, slug);
    StagingOnly(site, t0, old(fs.tree), fs.tree);
    assert site.Source(slug)[..|site.Source(slug)|] == site.Source(slug);
    assert site.Source(slug)[..|site.StagedPersonas()|] == site.StagedPersonas();
  }

  /** Its SOUL.md. */
  method WriteSoul(fs: FileSystem, site: Site, slug: string, text: string, ghost souls: map<string, string>,
      ghost t0: Tree, ghost t: Tree)
    returns (written: bool)
    requires fs.Valid() && StagingOpen(site, t0, t, souls) && site.Target(slug) !in t
    requires SourceMade(site, t, fs.tree, slug) && Untouched(site, t0, fs.tree)
    modifies fs
    ensures fs.Valid() && fs.clock >= old(fs.clock) && old(fs.lastFault) <= fs.lastFault
    ensures Untouched(site, t0, fs.tree)
    ensures if written then StagingOpen(site, t0, fs.tree, souls[slug := text]) else fs.lastFault >= old(fs.clock)
  {
    PersonaStaged(site, t0, t, fs.tree, souls, slug, text);
    assert site.Source(slug) in fs.tree && fs.tree[site.Source(slug)] == Dir;
    hide StagingOpen, SourceMade, Untouched, WellFormed;
    ghost var t1 := fs.tree;
    ghost var soul := site.Source(slug) + ["SOUL.md"];
    assert Parent(soul) == site.Source(slug);
    written := fs.Write(site.Source(slug) + ["SOUL.md"], text);
    SoulIsInside(site, slug);
    StagingOnly(site, t0, t1, fs.tree);
  }

  /** A destination that is taken now was taken before the import began. */
  lemma TakenBefore(site: Site, t0: Tree, t: Tree, souls: map<string, string>, slug: string)
    requires StagingOpen(site, t0, t, souls)
    ensures site.Target(slug) in t ==> site.Target(slug) in t0
  {
    Layout(site, site.Target(slug));
    TargetNotLeft(site, slug);
    assert Kept(site, t0, t, site.Target(slug));
  }

  /** Stage one persona: a directory with its SOUL.md. */
  method StagePersona(
    fs: FileSystem, lib: Library, entry: PersonaEntry, site: Site, ghost souls: map<string, string>, ghost t0: Tree)
    returns (r: Result<string, ImportError>, ghost text: string)
    requires fs.Valid() && FreshSite(site, t0) && StagingOpen(site, t0, fs.tree, souls)
    modifies fs
    ensures fs.Valid() && fs.clock >= old(fs.clock) && old(fs.lastFault) <= fs.lastFault
    ensures Untouched(site, t0, fs.tree)
    ensures r.Ok? ==> StagedAs(lib, entry, r.value, text) && StagingOpen(site, t0, fs.tree, souls[r.value := text])
    ensures r.Err? ==> fs.lastFault >= old(fs.clock) || Refused(lib, entry, site, t0)
    // the text staged is front matter and prompt, and it is missing only for a bad tier or front matter
    ensures r.Ok? ==>
              (entry.tier == "cloud-ok" || entry.tier == "local-only") && lib.yaml(entry).Some?
              && text == "---\n" + lib.yaml(entry).value + "---\n" + entry.systemPrompt + "\n"
    ensures fs.lastFault < old(fs.clock) && SafeSlug(lib, entry.name).Some?
              && site.Target(SafeSlug(lib, entry.name).value) !in old(fs.tree) ==>
              && (r == Err(UnsupportedTier) <==> entry.tier != "cloud-ok" && entry.tier != "local-only")
              && (r == Err(Unserialisable) <==>
                    (entry.tier == "cloud-ok" || entry.tier == "local-only") && lib.yaml(entry).None?)
              && (r.Ok? <==> (entry.tier == "cloud-ok" || entry.tier == "local-only") && lib.yaml(entry).Some?)
  {
    hide SafeSlug, Soul, StagingOpen, SourceMade, Untouched, FreshSite;
    SoulIs(lib, entry);
    text := "";
    StagingOpenUntouched(site, t0, fs.tree, souls);
    var slug := SafeSlug(lib, entry.name);
    if slug.None? { return Err(InvalidName), text; }
    TakenBefore(site, t0, fs.tree, souls, slug.value);
    if fs.Exists(site.Target(slug.value)) { return Err(PersonaExists(slug.value)), text; }
    ghost var t := fs.tree;
    var made := MakeSource(fs, site, slug.value, souls, t0);
    if !made { return Err(Io), text; }
    var soul := Soul(lib, entry);
    if soul.Err? { return Err(soul.error), text; }
    var written := WriteSoul(fs, site, slug.value, soul.value, souls, t0, t);
    if !written { return Err(Io), text; }
    return Ok(slug.value), soul.value;
  }

  lemma TargetNotLeft(site: Site, s: string)
    ensures !site.MayRemain(site.Target(s))
  {
    assert site.Target(s)[|site.root|] == "personas" && site.CandidateDir()[|site.root|] == ".bastion";
  }

  lemma NewBelow(site: Site, t: Tree, t': Tree, s: string)
    requires WellFormed(t) && site.Staging() in t
    requires forall q | q in t' && q !in t :: q <= site.Source(s)
    ensures forall q | q in t' && q !in t :: site.Staging() <= q
  {
    forall q | q in t' && q !in t
      ensures site.Staging() <= q
    {
      NewEntries(site, t, s, q);
    }
  }

  /** Nothing staged is in the way of a persona directory. */
  lemma StagedNotBlocked(site: Site, t0: Tree, t: Tree, souls: map<string, string>, s: string)
    requires StagingOpen(site, t0, t, souls)
    ensures !Blocked(t, site.Source(s))
  {
    forall n | 0 <= n <= |site.Source(s)| && site.Source(s)[..n] in t
      ensures t[site.Source(s)[..n]] == Dir
    {
      var q := site.Source(s)[..n];
      if n == |site.Source(s)| {
        assert q == site.Source(s);
      } else if n == |site.StagedPersonas()| {
        assert q == site.StagedPersonas();
      } else {
        assert q == site.Staging()[..n];
        if n == |site.Staging()| { assert q == site.Staging(); }
      }
    }
  }

  lemma SourcesAppend(site: Site, slugs: seq<string>, s: string)
    ensures Sources(site, slugs + [s]) == Sources(site, slugs) + [(site.Source(s), site.Target(s))]
  {
  }

  lemma NoneStaged(lib: Library)
    ensures AllStaged(lib, [], [], []) && LastOf([], [], map[])
  {
  }

  /** Stage every persona in order, up to the first that is refused. */
  method StagePersonas(fs: FileSystem, lib: Library, entries: seq<PersonaEntry>, site: Site, ghost t0: Tree)
    returns (r: Result<seq<(Path, Path)>, ImportError>, ghost slugs: seq<string>,
      ghost texts: seq<string>, ghost souls: map<string, string>)
    requires fs.Valid() && FreshSite(site, t0) && StagingOpen(site, t0, fs.tree, map[])
    modifies fs
    ensures fs.Valid() && fs.clock >= old(fs.clock) && old(fs.lastFault) <= fs.lastFault
    ensures Untouched(site, t0, fs.tree)
    ensures r.Ok? ==> AllStaged(lib, entries, slugs, texts) && LastOf(slugs, texts, souls)
    ensures r.Ok? ==> r.value == Sources(site, slugs) && StagingOpen(site, t0, fs.tree, souls)
    ensures r.Err? ==> fs.lastFault >= old(fs.clock) || exists e | e in entries :: Refused(lib, e, site, t0)
  {
    hide StagedAs, Refused, StagingOpen, FreshSite, AllStaged, LastOf, Untouched;
    r, slugs, texts, souls := Ok([]), [], [], map[];
    NoneStaged(lib);
    assert entries[..0] == [];
    var i := 0;
    while i < |entries|
      invariant 0 <= i <= |entries| && r.Ok?
      invariant fs.Valid() && fs.clock >= old(fs.clock) && old(fs.lastFault) <= fs.lastFault
      invariant AllStaged(lib, entries[..i], slugs, texts) && LastOf(slugs, texts, souls)
      invariant r.value == Sources(site, slugs) && StagingOpen(site, t0, fs.tree, souls)
    {
      var slug, text := StagePersona(fs, lib, entries[i], site, souls, t0);
      if slug.Err? {
        assert entries[i] in entries;
        r := Err(slug.error);
        return;
      }
      AllStagedAppend(lib, entries[..i], slugs, texts, entries[i], slug.value, text);
      LastOfAppend(slugs, texts, souls, slug.value, text);
      SourcesAppend(site, slugs, slug.value);
      assert entries[..i + 1] == entries[..i] + [entries[i]];
      r := Ok(r.value + [(site.Source(slug.value), site.Target(slug.value))]);
      slugs, texts, souls := slugs + [slug.value], texts + [text], souls[slug.value := text];
      i := i + 1;
    }
    assert entries[..i] == entries;
    StagingOpenUntouched(site, t0, fs.tree, souls);
  }

  lemma StagingOpenUntouched(site: Site, t0: Tree, t: Tree, souls: map<string, string>)
    requires StagingOpen(site, t0, t, souls)
    ensures Untouched(site, t0, t)
  {
  }

  /** The config edit and the candidate list the agent file asks for. */
  ghost predicate FilesOf(lib: Library, af: AgentFile, plan: Plan) {
    && lib.editConfig(plan.oldConfig, af.defaultModel, af.dailyBudgetUsd) == Some(plan.newConfig)
    && plan.candidates == (if af.skills == [] then None else lib.json(af.skills))
    && (af.skills != [] ==> plan.candidates.Some?)
  }

  /** The config cannot be read or edited, or the candidates cannot be written out. */
  ghost predicate UnusableFiles(lib: Library, af: AgentFile, configPath: Path, t: Tree) {
    || !(configPath in t && t[configPath].File?)
    || lib.editConfig(t[configPath].content, af.defaultModel, af.dailyBudgetUsd).None?
    || (af.skills != [] && lib.json(af.skills).None?)
  }

  /** Write one file directly into the staging directory. */
  method StageFile(fs: FileSystem, site: Site, p: Path, text: string, ghost t0: Tree) returns (ok: bool)
    requires fs.Valid() && Untouched(site, t0, fs.tree) && site.Staging() in fs.tree && fs.tree[site.Staging()] == Dir
    requires p in [site.StagedConfig(), site.Backup(), site.CandidateSource()] && p !in fs.tree
    modifies fs
    ensures fs.Valid() && fs.clock == old(fs.clock) + 1 && old(fs.lastFault) <= fs.lastFault
    ensures Untouched(site, t0, fs.tree)
    ensures ok ==> fs.tree == old(fs.tree)[p := File(text)]
    ensures !ok ==> fs.lastFault >= old(fs.clock)
  {
    assert Parent(p) == site.Staging() && site.Staging() <= p;
    ok := fs.Write(p, text);
    StagingOnly(site, t0, old(fs.tree), fs.tree);
  }

  /** Read and edit the config, then stage it with its backup and the candidate list. */
  method StageFiles(fs: FileSystem, lib: Library, af: AgentFile, configPath: Path, site: Site,
                    ghost slugs: seq<string>, ghost souls: map<string, string>, ghost t0: Tree)
    returns (r: Result<bool, ImportError>, ghost plan: Plan)
    requires fs.Valid() && FreshSite(site, t0) && StagingOpen(site, t0, fs.tree, souls)
    requires !(site.Staging() <= configPath) && forall s | s in slugs :: s in souls
    modifies fs
    ensures fs.Valid() && fs.clock >= old(fs.clock) && old(fs.lastFault) <= fs.lastFault
    ensures Untouched(site, t0, fs.tree)
    ensures plan.site == site && plan.config == configPath && plan.slugs == slugs && plan.souls == souls
    ensures r.Ok? ==> Staged(plan, fs.tree) && FileAt(t0, configPath, plan.oldConfig) && FilesOf(lib, af, plan)
    ensures r.Ok? ==> r.value == (af.skills != [])
    ensures r.Err? ==> fs.lastFault >= old(fs.clock) || UnusableFiles(lib, af, configPath, t0)
  {
    plan := Plan(site, configPath, "", "", slugs, souls, None);
    ghost var t := fs.tree;
    NothingStagedYet(site, t0, t, souls);
    assert Kept(site, t0, t, configPath);
    var raw := fs.Read(configPath);
    if raw.None? { return Err(Io), plan; }
    assert configPath in t0 && t0[configPath] == File(raw.value);
    var edited := lib.editConfig(raw.value, af.defaultModel, af.dailyBudgetUsd);
    if edited.None? { return Err(BadConfig), plan; }
    StagedNames(site);
    var ok := StageFile(fs, site, site.StagedConfig(), edited.value, t0);
    if !ok { return Err(Io), plan; }
    ok := StageFile(fs, site, site.Backup(), raw.value, t0);
    if !ok { return Err(Io), plan; }
    plan := plan.(oldConfig := raw.value, newConfig := edited.value);
    if af.skills != [] {
      var candidates := lib.json(af.skills);
      if candidates.None? { return Err(Unserialisable), plan; }
      ok := StageFile(fs, site, site.CandidateSource(), candidates.value, t0);
      if !ok { return Err(Io), plan; }
      plan := plan.(candidates := candidates);
    }
    assert fs.tree == WithFiles(plan, t);
    FilesStaged(plan, t0, t);
    return Ok(af.skills != []), plan;
  }

  lemma NothingStagedYet(site: Site, t0: Tree, t: Tree, souls: map<string, string>)
    requires StagingOpen(site, t0, t, souls)
    ensures site.StagedConfig() !in t && site.Backup() !in t && site.CandidateSource() !in t
  {
    var n := |site.Staging()|;
    assert site.StagedPersonas()[n] == "personas" && "personas"[0] == 'p' && "bastion.toml"[0] == 'b';
    assert site.StagedConfig()[n] == "bastion.toml" && site.Backup()[n] == "bastion.toml.backup";
    assert site.CandidateSource()[n] == "skill-candidates.json"
           && "bastion.toml.backup"[0] == 'b' && "skill-candidates.json"[0] == 's';
    assert site.Staging() < site.StagedConfig() && site.Staging() < site.Backup()
           && site.Staging() < site.CandidateSource();
  }

  /** What the plan of a prepared import says about the agent file. */
  ghost predicate PlanOf(
    lib: Library, af: AgentFile, configPath: Path, site: Site, t0: Tree, plan: Plan, texts: seq<string>)
  {
    && plan.site == site && plan.config == configPath && FileAt(t0, configPath, plan.oldConfig)
    && FilesOf(lib, af, plan)
    && AllStaged(lib, af.personas, plan.slugs, texts) && LastOf(plan.slugs, texts, plan.souls)
  }

  /** The staging closure of prepare_at. */
  method StageAll(fs: FileSystem, lib: Library, af: AgentFile, configPath: Path, site: Site, ghost t0: Tree)
    returns (r: Result<PreparedProductImport, ImportError>, ghost plan: Plan, ghost texts: seq<string>)
    requires fs.Valid() && FreshSite(site, t0) && StagingOpen(site, t0, fs.tree, map[])
             && !(site.Staging() <= configPath)
    modifies fs
    ensures fs.Valid() && fs.clock >= old(fs.clock) && old(fs.lastFault) <= fs.lastFault
    ensures Untouched(site, t0, fs.tree)
    ensures r.Ok? ==> fresh(r.value) && r.value.Carries(plan) && Staged(plan, fs.tree)
    ensures r.Ok? ==> PlanOf(lib, af, configPath, site, t0, plan, texts)
    ensures r.Err? ==> || fs.lastFault >= old(fs.clock) || UnusableFiles(lib, af, configPath, t0)
                       || exists e | e in af.personas :: Refused(lib, e, site, t0)
  {
    hide StagedAs, Refused, StagingOpen, Staged, FilesOf, UnusableFiles;
    plan := Plan(site, configPath, "", "", [], map[], None);
    var moves;
    ghost var slugs, souls;
    moves, slugs, texts, souls := StagePersonas(fs, lib, af.personas, site, t0);
    if moves.Err? { return Err(moves.error), plan, texts; }
    var withCandidates;
    withCandidates, plan := StageFiles(fs, lib, af, configPath, site, slugs, souls, t0);
    if withCandidates.Err? { return Err(withCandidates.error), plan, texts; }
    FilesOfCandidates(lib, af, plan);
    var candidate := if withCandidates.value then Some((site.CandidateSource(), site.CandidateTarget())) else None;
    var prepared := new PreparedProductImport(
      site.Staging(), moves.value, (site.StagedConfig(), configPath), site.Backup(), candidate);
    return Ok(prepared), plan, texts;
  }

  lemma FilesOfCandidates(lib: Library, af: AgentFile, plan: Plan)
    requires FilesOf(lib, af, plan)
    ensures plan.candidates.Some? <==> af.skills != []
  {
  }

  /** Everything prepare_at can refuse an import for, other than an I/O error. */
  ghost predicate Refusable(lib: Library, af: AgentFile, site: Site, configPath: Path, t: Tree) {
    || Blocked(t, site.Staging())
    || (exists e | e in af.personas :: Refused(lib, e, site, t))
    || UnusableFiles(lib, af, configPath, t)
  }

  /** Remove the staging directory after a refused import. */
  method Discard(fs: FileSystem, site: Site, ghost t0: Tree)
    requires fs.Valid() && Untouched(site, t0, fs.tree)
    modifies fs
    ensures fs.Valid() && fs.clock == old(fs.clock) + 1 && old(fs.lastFault) <= fs.lastFault
    ensures Untouched(site, t0, fs.tree)
    ensures old(fs.clock) !in fs.faults ==> NoStaging(site, fs.tree)
  {
    if site.Staging() !in fs.tree { AbsentBelow(fs.tree, site.Staging()); }
    var _ := fs.RemoveDirAll(site.Staging());
    forall q | !(site.Staging() <= q)
      ensures Kept(site, t0, fs.tree, q)
    {
      assert Kept(site, t0, old(fs.tree), q);
    }
  }

  /** Stage a whole import, or refuse it and leave nothing staged. */
  method PrepareAt(
    fs: FileSystem, lib: Library, af: AgentFile, apply: bool, managed: bool, configPath: Path, site: Site)
    returns (r: Result<PreparedProductImport, ImportError>, ghost plan: Plan, ghost texts: seq<string>)
    requires fs.Valid() && FreshSite(site, fs.tree) && !(site.Staging() <= configPath)
    modifies fs
    ensures fs.Valid() && fs.clock >= old(fs.clock) && old(fs.lastFault) <= fs.lastFault
    ensures af.version != lib.afVersion ==> r == Err(UnsupportedVersion) && fs.tree == old(fs.tree)
    ensures af.version == lib.afVersion && (managed || !apply) ==>
              r.Ok? && fresh(r.value) && r.value.Inert() && fs.tree == old(fs.tree)
    ensures Untouched(site, old(fs.tree), fs.tree)
    ensures Applies(lib, af, apply, managed) && r.Ok? ==>
              && fresh(r.value) && r.value.Carries(plan) && Staged(plan, fs.tree)
              && PlanOf(lib, af, configPath, site, old(fs.tree), plan, texts)
    ensures Applies(lib, af, apply, managed) && r.Err? ==>
              && fs.clock > old(fs.clock)
              && (Before(fs.clock) !in fs.faults ==> NoStaging(site, fs.tree))
              && (fs.lastFault >= old(fs.clock) || Refusable(lib, af, site, configPath, old(fs.tree)))
  {
    ghost var t0 := fs.tree;
    plan, texts := Plan(site, configPath, "", "", [], map[], None), [];
    if af.version != lib.afVersion { return Err(UnsupportedVersion), plan, texts; }
    if managed || !apply {
      var nothing := new PreparedProductImport.Nothing();
      return Ok(nothing), plan, texts;
    }
    var made := fs.CreateDirAll(site.Staging());
    OpeningIsHarmless(site, t0, fs.tree);
    if !made {
      AbsentBelow(fs.tree, site.Staging());
      return Err(Io), plan, texts;
    }
    StagingOpened(site, t0, fs.tree);
    r, plan, texts := StageAll(fs, lib, af, configPath, site, t0);
    if r.Err? {
      ghost var last := fs.clock;
      Discard(fs, site, t0);
      assert Before(fs.clock) == last;
    }
  }

  /** The import changes files at all. */
  predicate Applies(lib: Library, af: AgentFile, apply: bool, managed: bool) {
    af.version == lib.afVersion && !managed && apply
  }

  datatype ImportOutcome = NotPrepared(error: ImportError) | MemoryImportFailed | Finished(commit: CommitOutcome)

  /**
  The whole import command: prepare, import the memories (a step outside this
  model, which may fail), then commit. A value that is not committed is dropped.
  */
  method Import(fs: FileSystem, lib: Library, af: AgentFile, apply: bool, managed: bool, configPath: Path, site: Site,
                memoriesImported: bool)
    returns (r: ImportOutcome, ghost plan: Plan, ghost texts: seq<string>,
      ghost undoFrom: nat, ghost undone: Option<nat>)
    requires fs.Valid() && FreshSite(site, fs.tree) && !(site.Staging() <= configPath)
    modifies fs
    ensures fs.Valid() && old(fs.clock) <= undoFrom
    // nothing is applied: nothing changes
    ensures !Applies(lib, af, apply, managed) ==> fs.tree == old(fs.tree)
    // all: every part of the agent file is in place
    ensures Applies(lib, af, apply, managed) && r == Finished(Committed) ==>
              && PlanOf(lib, af, configPath, site, old(fs.tree), plan, texts)
              && Distinct(plan.slugs) && Published(plan, old(fs.tree), fs.tree)
    // nothing: only empty parent directories may remain, if no step fails once undoing began
    ensures Applies(lib, af, apply, managed) && r != Finished(Committed) && fs.lastFault < undoFrom ==>
              Untouched(site, old(fs.tree), fs.tree) && NoStaging(site, fs.tree)
    // each entry's own text, as the only thing in its own directory
    ensures Applies(lib, af, apply, managed) && r == Finished(Committed) ==>
              forall e | e in af.personas :: InPlace(lib, e, site, fs.tree)
    // that text is the entry's front matter and its system prompt
    ensures Applies(lib, af, apply, managed) && r == Finished(Committed) ==>
              forall e | e in af.personas ::
                && SafeSlug(lib, e.name).Some? && lib.yaml(e).Some? && (e.tier == "cloud-ok" || e.tier == "local-only")
                && FileAt(fs.tree, site.Target(SafeSlug(lib, e.name).value) + ["SOUL.md"],
                          "---\n" + lib.yaml(e).value + "---\n" + e.systemPrompt + "\n")
    // the new config stays after a failure exactly when its restoration, behind that of every
    // persona, is a failing step
    ensures r == Finished(RestoreFailed) <==> undone.Some? && undoFrom + undone.value in fs.faults
    ensures undone.Some? ==>
              Applies(lib, af, apply, managed) && undone.value <= |plan.slugs|
                  && fs.clock == undoFrom + undone.value + 2
    ensures r == Finished(RestoreFailed) ==> FileAt(fs.tree, configPath, plan.newConfig)
    ensures r == Finished(RolledBack) ==> FileAt(fs.tree, configPath, plan.oldConfig)
    // repeated slugs are never published
    ensures Applies(lib, af, apply, managed) && r == Finished(Committed) ==>
              forall i, j | 0 <= i < j < |af.personas| ::
                SafeSlug(lib, af.personas[i].name) != SafeSlug(lib, af.personas[j].name)
  {
    hide FilesOf, AllStaged, LastOf, Staged, Published, Untouched,
        NoStaging, Refusable, Obstructed, SafeSlug, FileAt, InPlace;
    ghost var t0 := fs.tree;
    undoFrom, undone := fs.clock, None;
    var prepared;
    prepared, plan, texts := PrepareAt(fs, lib, af, apply, managed, configPath, site);
    if prepared.Err? {
      return NotPrepared(prepared.error), plan, texts,
        (if fs.clock > old(fs.clock) then fs.clock - 1 else fs.clock), None;
    }
    ghost var t1 := fs.tree;
    if !memoriesImported {
      undoFrom := fs.clock;
      prepared.value.Drop(fs, site);
      DropHarmless(site, t0, t1, fs.tree);
      return MemoryImportFailed, plan, texts, undoFrom, None;
    }
    var commit;
    commit, undoFrom, undone := prepared.value.Commit(fs, plan);
    r := Finished(commit);
    if Applies(lib, af, apply, managed) {
      if commit.Committed? {
        PublishedFrom(plan, t0, t1, fs.tree);
        DistinctNames(lib, af.personas, plan.slugs, texts);
        EveryEntryInPlace(lib, af.personas, plan, texts, t1, fs.tree);
        InPlaceIsRead(lib, af.personas, site, fs.tree);
      } else if fs.lastFault < undoFrom {
        UntouchedTrans(site, t0, t1, fs.tree);
      }
    }
  }

  lemma InPlaceIsRead(lib: Library, entries: seq<PersonaEntry>, site: Site, t: Tree)
    requires forall e | e in entries :: InPlace(lib, e, site, t)
    ensures forall e | e in entries ::
              && SafeSlug(lib, e.name).Some? && lib.yaml(e).Some? && (e.tier == "cloud-ok" || e.tier == "local-only")
              && FileAt(t, site.Target(SafeSlug(lib, e.name).value) + ["SOUL.md"],
                        "---\n" + lib.yaml(e).value + "---\n" + e.systemPrompt + "\n")
  {
    hide SafeSlug;
  }

  /** An entry's directory holds its own SOUL.md and nothing else. */
  ghost predicate InPlace(lib: Library, entry: PersonaEntry, site: Site, t: Tree) {
    && SafeSlug(lib, entry.name).Some? && HasText(lib, entry)
    && PersonaAt(t, site.Target(SafeSlug(lib, entry.name).value),
                 "---\n" + lib.yaml(entry).value + "---\n" + entry.systemPrompt + "\n")
  }

  lemma EveryEntryInPlace(lib: Library, entries: seq<PersonaEntry>, plan: Plan, texts: seq<string>, t0: Tree, t: Tree)
    requires AllStaged(lib, entries, plan.slugs, texts)
             && LastOf(plan.slugs, texts, plan.souls) && Published(plan, t0, t)
    ensures forall e | e in entries :: InPlace(lib, e, plan.site, t)
  {
    hide SafeSlug, PersonaAt;
    forall e | e in entries
      ensures InPlace(lib, e, plan.site, t)
    {
      var i :| 0 <= i < |entries| && entries[i] == e;
      assert StagedAs(lib, e, plan.slugs[i], texts[i]) && plan.slugs[i] in plan.slugs;
      OwnSoul(plan.slugs, texts, plan.souls, i);
    }
  }

  /** Preparing changed nothing outside staging, so publishing relative to it is publishing relative to the start. */
  lemma PublishedFrom(plan: Plan, t0: Tree, t1: Tree, t: Tree)
    requires Untouched(plan.site, t0, t1) && Published(plan, t1, t)
    ensures Published(plan, t0, t)
  {
    forall q | Elsewhere(plan, q, plan.slugs) && (plan.candidates.Some? ==> q != plan.site.CandidateTarget())
      ensures Kept(plan.site, t0, t, q)
    {
      assert Kept(plan.site, t0, t1, q) && Kept(plan.site, t1, t, q);
    }
  }

  lemma DistinctNames(lib: Library, entries: seq<PersonaEntry>, slugs: seq<string>, texts: seq<string>)
    requires AllStaged(lib, entries, slugs, texts) && Distinct(slugs)
    ensures forall i, j | 0 <= i < j < |entries| :: SafeSlug(lib, entries[i].name) != SafeSlug(lib, entries[j].name)
  {
    hide SafeSlug;
    forall i, j | 0 <= i < j < |entries|
      ensures SafeSlug(lib, entries[i].name) != SafeSlug(lib, entries[j].name)
    {
      assert StagedAs(lib, entries[i], slugs[i], texts[i]) && StagedAs(lib, entries[j], slugs[j], texts[j]);
    }
  }
}

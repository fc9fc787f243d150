/**
What one import is about to publish and where each file sits, with the facts
about trees that every step of the import keeps.
*/
module ImportPlan {
  import opened Wrappers
  import opened FileTree

  /** Where an import works: the product root, and the stamp that makes its names unique. */
  datatype Site = Site(root: Path, stamp: string) {
    function Staging(): Path { root + [".bastion", "import-staging-" + stamp] }
    function StagedConfig(): Path { Staging() + ["bastion.toml"] }
    function Backup(): Path { Staging() + ["bastion.toml.backup"] }
    function CandidateSource(): Path { Staging() + ["skill-candidates.json"] }
    function CandidateDir(): Path { root + [".bastion", "import-candidates"] }
    function CandidateTarget(): Path { CandidateDir() + [stamp + ".json"] }
    function StagedPersonas(): Path { Staging() + ["personas"] }
    function Source(slug: string): Path { StagedPersonas() + [slug] }
    function PersonasDir(): Path { root + ["personas"] }
    function Target(slug: string): Path { PersonasDir() + [slug] }

    /** A directory the import may leave behind even when it is undone. */
    predicate MayRemain(q: Path) {
      q <= PersonasDir() || q <= CandidateDir()
    }
  }

  /** One import: `souls` holds, per slug, the last SOUL.md text staged for it. */
  datatype Plan = Plan(
    site: Site,
    config: Path,
    oldConfig: string,
    newConfig: string,
    slugs: seq<string>,
    souls: map<string, string>,
    candidates: Option<string>)

  /** p is a persona directory holding exactly one file, SOUL.md. */
  ghost predicate PersonaAt(t: Tree, p: Path, soul: string) {
    && p in t && t[p] == Dir
    && p + ["SOUL.md"] in t && t[p + ["SOUL.md"]] == File(soul)
    && forall q | q in t && p <= q :: q == p || q == p + ["SOUL.md"]
  }

  ghost predicate FileAt(t: Tree, p: Path, content: string) {
    p in t && t[p] == File(content)
  }

  /** At q, t is as t0 was, except perhaps for a directory the import may leave. */
  ghost predicate Kept(site: Site, t0: Tree, t: Tree, q: Path) {
    && (q in t0 ==> q in t && t[q] == t0[q])
    && (q in t && q !in t0 ==> site.MayRemain(q) && t[q] == Dir)
  }

  /** Outside the staging directory nothing but empty parent directories changed. */
  ghost predicate Untouched(site: Site, t0: Tree, t: Tree) {
    forall q | !(site.Staging() <= q) :: Kept(site, t0, t, q)
  }

  ghost predicate NoStaging(site: Site, t: Tree) {
    forall q | q in t :: !(site.Staging() <= q)
  }

  predicate Distinct(s: seq<string>) {
    forall i, j | 0 <= i < j < |s| :: s[i] != s[j]
  }

  /** Everything is staged and no destination is taken: what `prepare_at` hands to `commit`. */
  ghost predicate Staged(plan: Plan, t: Tree) {
    && WellFormed(t)
    && plan.config != [] && !(plan.site.Staging() <= plan.config) && FileAt(t, plan.config, plan.oldConfig)
    && FileAt(t, plan.site.StagedConfig(), plan.newConfig)
    && FileAt(t, plan.site.Backup(), plan.oldConfig)
    && (forall s | s in plan.slugs ::
          s in plan.souls && PersonaAt(t, plan.site.Source(s), plan.souls[s]) && plan.site.Target(s) !in t)
    && (plan.candidates.Some? ==>
          FileAt(t, plan.site.CandidateSource(), plan.candidates.value) && plan.site.CandidateTarget() !in t)
  }

  /** The state an undone import returns to: the old config in place and no destination taken. */
  ghost predicate Unpublished(plan: Plan, t: Tree) {
    && WellFormed(t)
    && plan.config != [] && !(plan.site.Staging() <= plan.config) && FileAt(t, plan.config, plan.oldConfig)
    && forall s | s in plan.slugs :: plan.site.Target(s) !in t
  }

  /** Outside the staging area, the config and the personas already published. */
  ghost predicate Elsewhere(plan: Plan, q: Path, done: seq<string>) {
    !(plan.site.Staging() <= q) && q != plan.config && forall s | s in done :: !(plan.site.Target(s) <= q)
  }

  /** The personas in `done` are published, every other one is still staged. */
  ghost predicate PersonasSplit(plan: Plan, t: Tree, done: seq<string>) {
    && (forall s | s in plan.slugs :: s in plan.souls)
    && (forall s | s in done ::
          s in plan.slugs && plan.site.Source(s) !in t && PersonaAt(t, plan.site.Target(s), plan.souls[s]))
    && (forall s | s in plan.slugs && s !in done ::
          plan.site.Target(s) !in t && PersonaAt(t, plan.site.Source(s), plan.souls[s]))
  }

  /** The new config is published; its backup and the candidate file are still staged. */
  ghost predicate ConfigLive(plan: Plan, t: Tree) {
    && WellFormed(t)
    && plan.config != [] && !(plan.site.Staging() <= plan.config)
    && FileAt(t, plan.config, plan.newConfig) && FileAt(t, plan.site.Backup(), plan.oldConfig)
    && (plan.candidates.Some? ==>
          FileAt(t, plan.site.CandidateSource(), plan.candidates.value) && plan.site.CandidateTarget() !in t)
  }

  ghost predicate RestKept(plan: Plan, t0: Tree, t: Tree, done: seq<string>) {
    forall q | Elsewhere(plan, q, done) :: Kept(plan.site, t0, t, q)
  }

  /** The new config and the first k personas are published; the rest is still staged. */
  ghost predicate Halfway(plan: Plan, t0: Tree, t: Tree, k: nat)
    requires k <= |plan.slugs|
  {
    && ConfigLive(plan, t)
    && Distinct(plan.slugs[..k])
    && PersonasSplit(plan, t, plan.slugs[..k])
    && RestKept(plan, t0, t, plan.slugs[..k])
  }

  /** The places of an import never overlap. */
  lemma Layout(site: Site, q: Path)
    ensures forall s | site.Target(s) <= q :: !(site.Staging() <= q) && !(site.CandidateTarget() <= q)
    ensures forall s, s' | site.Target(s) <= q && site.Target(s') <= q :: s == s'
    ensures forall s, s' | site.Source(s) <= q && site.Source(s') <= q :: s == s'
    ensures forall s | site.Source(s) <= q ::
              site.Staging() <= q && q != site.StagedConfig() && q != site.Backup() && q != site.CandidateSource()
    ensures site.CandidateTarget() <= q ==> !(site.Staging() <= q)
  {
    var n := |site.root|;
    assert site.Staging() <= q ==> |q| > n + 1 && q[n] == ".bastion" && q[n + 1] == "import-staging-" + site.stamp by {
      assert site.Staging()[n] == ".bastion" && site.Staging()[n + 1] == "import-staging-" + site.stamp;
    }
    assert site.CandidateTarget() <= q ==> |q| > n + 1 && q[n] == ".bastion" && q[n + 1] == "import-candidates" by {
      assert site.CandidateTarget()[n] == ".bastion" && site.CandidateTarget()[n + 1] == "import-candidates";
    }
    StampedNames(site.stamp);
    forall s | site.Target(s) <= q
      ensures |q| > n + 1 && q[n] == "personas" && q[n + 1] == s
    {
      assert site.Target(s)[n] == "personas" && site.Target(s)[n + 1] == s;
    }
    forall s | site.Source(s) <= q
      ensures site.Staging() <= q && |q| > n + 3 && q[n + 2] == "personas" && q[n + 3] == s
    {
      assert site.Source(s)[..n + 2] == site.Staging();
      assert site.Source(s)[n + 2] == "personas" && site.Source(s)[n + 3] == s;
    }
  }

  lemma StagedNames(site: Site)
    ensures site.StagedConfig() != site.Backup()
    ensures site.CandidateSource() != site.StagedConfig() && site.CandidateSource() != site.Backup()
  {
    var n := |site.root| + 2;
    assert site.StagedConfig()[n] == "bastion.toml" && site.Backup()[n] == "bastion.toml.backup";
    assert site.CandidateSource()[n] == "skill-candidates.json";
    assert |"bastion.toml"| != |"bastion.toml.backup"| && "skill-candidates.json"[0] == 's' && "bastion.toml"[0] == 'b';
  }

  lemma StampedNames(stamp: string)
    ensures "import-staging-" + stamp != "import-candidates"
  {
    assert ("import-staging-" + stamp)[7] == 's' && "import-candidates"[7] == 'c';
  }

  /** The trees agree at and below p. */
  ghost predicate SameBelow(t: Tree, t': Tree, p: Path) {
    forall q | p <= q :: (q in t' <==> q in t) && (q in t ==> t'[q] == t[q])
  }

  lemma PersonaFrame(t: Tree, t': Tree, p: Path, soul: string)
    requires PersonaAt(t, p, soul) && SameBelow(t, t', p)
    ensures PersonaAt(t', p, soul)
  {
    assert p <= p + ["SOUL.md"];
  }

  /** What nothing was below stays that way when only what is above or beside it changed. */
  lemma ConfigPlace(plan: Plan, t: Tree, q: Path)
    requires Staged(plan, t)
    ensures plan.config <= q && q in t ==> q == plan.config
    ensures forall s | s in plan.slugs && plan.site.Target(s) <= q :: q !in t && q != plan.config
    ensures plan.candidates.Some? && plan.site.CandidateTarget() <= q ==> q !in t && q != plan.config
  {
    LeafFile(t, plan.config);
    forall s | s in plan.slugs && plan.site.Target(s) <= q
      ensures q !in t
    {
      AbsentBelow(t, plan.site.Target(s));
    }
    if plan.candidates.Some? { AbsentBelow(t, plan.site.CandidateTarget()); }
  }

  /** Publishing the config leaves every persona staged. */
  lemma ConfigPublished(plan: Plan, t0: Tree)
    requires Staged(plan, t0) && CanRename(t0, plan.site.StagedConfig(), plan.config)
    ensures Halfway(plan, t0, Renamed(t0, plan.site.StagedConfig(), plan.config), 0)
  {
    hide Renamed, WellFormed, PersonaAt, CanRename;
    var t := Renamed(t0, plan.site.StagedConfig(), plan.config);
    RenamedWellFormed(t0, plan.site.StagedConfig(), plan.config);
    ConfigMoved(plan, t0);
    StagedNames(plan.site);
    forall s | s in plan.slugs
      ensures plan.site.Target(s) !in t && PersonaAt(t, plan.site.Source(s), plan.souls[s])
    {
      PersonaStaysStaged(plan, t0, t, s);
    }
  }

  /** Path by path: the config is the new one, its staged copy is gone, and nothing else changed. */
  lemma ConfigMoved(plan: Plan, t0: Tree)
    requires Staged(plan, t0) && CanRename(t0, plan.site.StagedConfig(), plan.config)
    ensures OnlyConfigMoved(plan, t0, Renamed(t0, plan.site.StagedConfig(), plan.config))
  {
    var t := Renamed(t0, plan.site.StagedConfig(), plan.config);
    RenamedPointwise(t0, plan.site.StagedConfig(), plan.config);
    LeafFile(t0, plan.site.StagedConfig());
    assert plan.site.StagedConfig() + plan.config[|plan.config|..] == plan.site.StagedConfig();
    forall q | q in t0 && q != plan.config && q != plan.site.StagedConfig()
      ensures q in t && t[q] == t0[q]
    {
      ConfigPlace(plan, t0, q);
    }
    forall q | q !in t0 && q != plan.config
      ensures q !in t
    {
      if plan.config <= q {
        assert plan.site.StagedConfig() <= plan.site.StagedConfig() + q[|plan.config|..];
      }
    }
  }

  ghost predicate OnlyConfigMoved(plan: Plan, t0: Tree, t: Tree) {
    && FileAt(t, plan.config, plan.newConfig)
    && (forall q | q in t0 && q != plan.config && q != plan.site.StagedConfig() :: q in t && t[q] == t0[q])
    && (forall q | q !in t0 && q != plan.config :: q !in t)
  }

  lemma PersonaStaysStaged(plan: Plan, t0: Tree, t: Tree, s: string)
    requires Staged(plan, t0) && OnlyConfigMoved(plan, t0, t) && s in plan.slugs
    ensures plan.site.Target(s) !in t && PersonaAt(t, plan.site.Source(s), plan.souls[s])
  {
    hide PersonaAt;
    StagedNames(plan.site);
    ConfigPlace(plan, t0, plan.site.Target(s));
    forall q | plan.site.Source(s) <= q
      ensures (q in t <==> q in t0) && (q in t0 ==> t[q] == t0[q])
    {
      Layout(plan.site, q);
    }
    PersonaFrame(t0, t, plan.site.Source(s), plan.souls[s]);
  }

  /** The parent directories of destinations are not inside anything an import places. */
  lemma DirsAside(plan: Plan, t: Tree, t': Tree, dir: Path, s: string)
    requires dir == plan.site.PersonasDir() || dir == plan.site.CandidateDir()
    requires forall q | q in t :: q in t' && t'[q] == t[q]
    requires forall q | q in t' && q !in t :: q <= dir
    ensures SameBelow(t, t', plan.site.Target(s)) && SameBelow(t, t', plan.site.Source(s))
    ensures plan.site.CandidateTarget() in t' ==> plan.site.CandidateTarget() in t
  {
    assert plan.site.CandidateDir()[|plan.site.root|] == ".bastion"
           && plan.site.Target(s)[|plan.site.root|] == "personas";
    forall q | plan.site.Target(s) <= q
      ensures (q in t' <==> q in t) && (q in t ==> t'[q] == t[q])
    {
      assert q[|plan.site.root|] == "personas";
    }
    forall q | plan.site.Source(s) <= q
      ensures (q in t' <==> q in t) && (q in t ==> t'[q] == t[q])
    {
    }
  }

  /** Making the parent directory of a destination disturbs nothing. */
  lemma DirsMade(plan: Plan, t0: Tree, t: Tree, t': Tree, k: nat, dir: Path)
    requires k <= |plan.slugs| && Halfway(plan, t0, t, k) && WellFormed(t')
    requires dir == plan.site.PersonasDir() || dir == plan.site.CandidateDir()
    requires forall q | q in t :: q in t' && t'[q] == t[q]
    requires forall q | q in t' && q !in t :: q <= dir && t'[q] == Dir
    ensures Halfway(plan, t0, t', k)
  {
    DirsAside(plan, t, t', dir, "");
    forall s | s in plan.slugs
      ensures s in plan.slugs[..k] ==> plan.site.Source(s) !in t' && PersonaAt(t', plan.site.Target(s), plan.souls[s])
      ensures s !in plan.slugs[..k] ==> plan.site.Target(s) !in t' && PersonaAt(t', plan.site.Source(s), plan.souls[s])
    {
      DirsAside(plan, t, t', dir, s);
      if s in plan.slugs[..k] {
        PersonaFrame(t, t', plan.site.Target(s), plan.souls[s]);
      } else {
        PersonaFrame(t, t', plan.site.Source(s), plan.souls[s]);
      }
    }
  }

  /** Once its parent exists, a staged persona can be moved unless its slug was already used. */
  lemma PersonaMovable(plan: Plan, t0: Tree, t: Tree, k: nat)
    requires k < |plan.slugs| && Halfway(plan, t0, t, k)
    requires plan.site.PersonasDir() in t && t[plan.site.PersonasDir()] == Dir
    ensures CanRename(t, plan.site.Source(plan.slugs[k]), plan.site.Target(plan.slugs[k])) <==>
            plan.slugs[k] !in plan.slugs[..k]
  {
    var s := plan.slugs[k];
    assert Parent(plan.site.Target(s)) == plan.site.PersonasDir();
    Layout(plan.site, plan.site.Source(s));
    Layout(plan.site, plan.site.Target(s));
    if s !in plan.slugs[..k] { AbsentBelow(t, plan.site.Target(s)); }
  }

  lemma PersonaPublished(plan: Plan, t0: Tree, t: Tree, k: nat)
    requires k < |plan.slugs| && Halfway(plan, t0, t, k)
    requires var s := plan.slugs[k]; s !in plan.slugs[..k] && CanRename(t, plan.site.Source(s), plan.site.Target(s))
    ensures Halfway(plan, t0, Renamed(t, plan.site.Source(plan.slugs[k]), plan.site.Target(plan.slugs[k])), k + 1)
  {
    var s := plan.slugs[k];
    assert plan.slugs[..k + 1] == plan.slugs[..k] + [s];
    PersonasAfter(plan, t, s, plan.slugs[..k]);
    FilesAfter(plan, t, s);
    RestAfter(plan, t0, t, s, plan.slugs[..k]);
  }

  lemma RestAfter(plan: Plan, t0: Tree, t: Tree, s: string, done: seq<string>)
    requires WellFormed(t) && CanRename(t, plan.site.Source(s), plan.site.Target(s))
    requires RestKept(plan, t0, t, done)
    ensures RestKept(plan, t0, Renamed(t, plan.site.Source(s), plan.site.Target(s)), done + [s])
  {
    forall q | Elsewhere(plan, q, done + [s])
      ensures Kept(plan.site, t0, Renamed(t, plan.site.Source(s), plan.site.Target(s)), q)
    {
      assert forall r | r in done :: r in done + [s];
      assert s in done + [s] && Elsewhere(plan, q, done);
      MovedAside(plan, t, s, q);
    }
  }

  /** Moving persona s touches only what is staged and what is at its target. */
  lemma MovedAside(plan: Plan, t: Tree, s: string, q: Path)
    requires WellFormed(t) && CanRename(t, plan.site.Source(s), plan.site.Target(s))
    ensures var t' := Renamed(t, plan.site.Source(s), plan.site.Target(s));
            !(plan.site.Source(s) <= q) && !(plan.site.Target(s) <= q) ==>
              (q in t' <==> q in t) && (q in t ==> t'[q] == t[q])
    ensures plan.site.Source(s) <= q ==> plan.site.Staging() <= q
  {
    RenamedPointwise(t, plan.site.Source(s), plan.site.Target(s));
    Layout(plan.site, q);
  }

  lemma FilesAfter(plan: Plan, t: Tree, s: string)
    requires ConfigLive(plan, t) && CanRename(t, plan.site.Source(s), plan.site.Target(s)) && plan.site.Target(s) !in t
    ensures ConfigLive(plan, Renamed(t, plan.site.Source(s), plan.site.Target(s)))
  {
    AbsentBelow(t, plan.site.Target(s));
    RenamedWellFormed(t, plan.site.Source(s), plan.site.Target(s));
    forall q | q in [plan.config, plan.site.Backup(), plan.site.CandidateSource(), plan.site.CandidateTarget()]
      ensures q != plan.site.CandidateTarget() ==> q in t ==> !(plan.site.Source(s) <= q) && !(plan.site.Target(s) <= q)
      ensures q == plan.site.CandidateTarget() ==> !(plan.site.Source(s) <= q) && !(plan.site.Target(s) <= q)
    {
      Layout(plan.site, q);
    }
    RenamedPointwise(t, plan.site.Source(s), plan.site.Target(s));
    assert plan.config in [plan.config, plan.site.Backup(), plan.site.CandidateSource(), plan.site.CandidateTarget()];
  }

  lemma PersonasAfter(plan: Plan, t: Tree, s: string, done: seq<string>)
    requires WellFormed(t) && CanRename(t, plan.site.Source(s), plan.site.Target(s)) && s !in done && s in plan.slugs
    requires PersonasSplit(plan, t, done)
    ensures PersonasSplit(plan, Renamed(t, plan.site.Source(s), plan.site.Target(s)), done + [s])
  {
    var t' := Renamed(t, plan.site.Source(s), plan.site.Target(s));
    PersonaLanded(t, plan.site.Source(s), plan.site.Target(s), plan.souls[s]);
    RenamedPointwise(t, plan.site.Source(s), plan.site.Target(s));
    forall r | r in plan.slugs && r != s
      ensures r in done ==> plan.site.Source(r) !in t' && PersonaAt(t', plan.site.Target(r), plan.souls[r])
      ensures r !in done ==> plan.site.Target(r) !in t' && PersonaAt(t', plan.site.Source(r), plan.souls[r])
    {
      OthersStay(plan, t, s, r);
      if r in done {
        PersonaFrame(t, t', plan.site.Target(r), plan.souls[r]);
      } else {
        PersonaFrame(t, t', plan.site.Source(r), plan.souls[r]);
      }
    }
  }

  /** A whole persona directory arrives with the rename. */
  lemma PersonaLanded(t: Tree, src: Path, dst: Path, soul: string)
    requires WellFormed(t) && CanRename(t, src, dst) && PersonaAt(t, src, soul)
    ensures PersonaAt(Renamed(t, src, dst), dst, soul)
  {
    RenamedPointwise(t, src, dst);
    assert src + dst[|dst|..] == src;
    assert (dst + ["SOUL.md"])[|dst|..] == ["SOUL.md"];
    forall q | q in Renamed(t, src, dst) && dst <= q
      ensures q == dst || q == dst + ["SOUL.md"]
    {
      var s := src + q[|dst|..];
      assert src <= s && s in t;
      assert q == dst + q[|dst|..];
      if s == src { assert q[|dst|..] == []; } else { assert q[|dst|..] == s[|src|..] == ["SOUL.md"]; }
    }
  }

  /** Moving one persona leaves the places of every other one alone. */
  lemma OthersStay(plan: Plan, t: Tree, s: string, r: string)
    requires r != s && WellFormed(t) && CanRename(t, plan.site.Source(s), plan.site.Target(s))
    ensures SameBelow(t, Renamed(t, plan.site.Source(s), plan.site.Target(s)), plan.site.Target(r))
    ensures SameBelow(t, Renamed(t, plan.site.Source(s), plan.site.Target(s)), plan.site.Source(r))
  {
    var t' := Renamed(t, plan.site.Source(s), plan.site.Target(s));
    RenamedPointwise(t, plan.site.Source(s), plan.site.Target(s));
    forall q | plan.site.Target(r) <= q
      ensures (q in t' <==> q in t) && (q in t ==> t'[q] == t[q])
    {
      Layout(plan.site, q);
    }
    forall q | plan.site.Source(r) <= q
      ensures (q in t' <==> q in t) && (q in t ==> t'[q] == t[q])
    {
      Layout(plan.site, q);
    }
  }

  /** Everything is published: the state a successful commit reaches. */
  ghost predicate Published(plan: Plan, t0: Tree, t: Tree) {
    && WellFormed(t)
    && FileAt(t, plan.config, plan.newConfig)
    && Distinct(plan.slugs)
    && (forall s | s in plan.slugs :: s in plan.souls && PersonaAt(t, plan.site.Target(s), plan.souls[s]))
    && (plan.candidates.Some? ==> FileAt(t, plan.site.CandidateTarget(), plan.candidates.value))
    && (forall q | Elsewhere(plan, q, plan.slugs) && (plan.candidates.Some? ==> q != plan.site.CandidateTarget())
          :: Kept(plan.site, t0, t, q))
  }

  lemma CandidateMovable(plan: Plan, t: Tree)
    requires ConfigLive(plan, t) && plan.candidates.Some?
    requires plan.site.CandidateDir() in t && t[plan.site.CandidateDir()] == Dir
    ensures CanRename(t, plan.site.CandidateSource(), plan.site.CandidateTarget())
  {
    assert Parent(plan.site.CandidateTarget()) == plan.site.CandidateDir();
    Layout(plan.site, plan.site.CandidateSource());
    Layout(plan.site, plan.site.CandidateTarget());
  }

  /** Published personas are untouched by changes to staged files and to the candidate file. */
  lemma PublishedStay(plan: Plan, t: Tree, t': Tree)
    requires forall s | s in plan.slugs :: s in plan.souls && PersonaAt(t, plan.site.Target(s), plan.souls[s])
    requires forall q | !(plan.site.Staging() <= q) && !(plan.site.CandidateTarget() <= q) ::
               (q in t' <==> q in t) && (q in t ==> t'[q] == t[q])
    ensures forall s | s in plan.slugs :: PersonaAt(t', plan.site.Target(s), plan.souls[s])
  {
    forall s | s in plan.slugs
      ensures PersonaAt(t', plan.site.Target(s), plan.souls[s])
    {
      forall q | plan.site.Target(s) <= q
        ensures (q in t' <==> q in t) && (q in t ==> t'[q] == t[q])
      {
        Layout(plan.site, q);
      }
      PersonaFrame(t, t', plan.site.Target(s), plan.souls[s]);
    }
  }

  /** Moving the candidate file changes nothing but staging and the file's new place. */
  lemma CandidateAside(site: Site, t: Tree, t': Tree)
    requires forall q | !(site.CandidateSource() <= q) && !(site.CandidateTarget() <= q) ::
               (q in t' <==> q in t) && (q in t ==> t'[q] == t[q])
    ensures forall q | !(site.Staging() <= q) && !(site.CandidateTarget() <= q) ::
              (q in t' <==> q in t) && (q in t ==> t'[q] == t[q])
  {
    forall q | !(site.Staging() <= q) && !(site.CandidateTarget() <= q)
      ensures (q in t' <==> q in t) && (q in t ==> t'[q] == t[q])
    {
      PrefixTrans(site.Staging(), site.CandidateSource(), q);
    }
  }

  lemma CandidatePublished(plan: Plan, t0: Tree, t: Tree)
    requires Halfway(plan, t0, t, |plan.slugs|) && plan.candidates.Some?
    requires CanRename(t, plan.site.CandidateSource(), plan.site.CandidateTarget())
    ensures Published(plan, t0, Renamed(t, plan.site.CandidateSource(), plan.site.CandidateTarget()))
  {
    var src, dst := plan.site.CandidateSource(), plan.site.CandidateTarget();
    var t' := Renamed(t, src, dst);
    assert plan.slugs[..|plan.slugs|] == plan.slugs;
    RenamedWellFormed(t, src, dst);
    RenamedPointwise(t, src, dst);
    LeafFile(t, src);
    AbsentBelow(t, dst);
    assert src + dst[|dst|..] == src;
    forall q | dst <= q && q != dst
      ensures q !in t'
    {
      assert src <= src + q[|dst|..];
    }
    CandidateAside(plan.site, t, t');
    PublishedStay(plan, t, t');
    forall q | Elsewhere(plan, q, plan.slugs) && q != dst
      ensures Kept(plan.site, t0, t', q)
    {
      PrefixTrans(plan.site.Staging(), src, q);
      if dst <= q { AbsentBelow(t, dst); }
    }
  }

  /** While undoing: the config can be restored and the first j personas are still published. */
  ghost predicate Restorable(plan: Plan, t: Tree) {
    && WellFormed(t)
    && plan.config != [] && !(plan.site.Staging() <= plan.config)
    && FileAt(t, plan.config, plan.newConfig) && FileAt(t, plan.site.Backup(), plan.oldConfig)
  }

  ghost predicate Undoing(plan: Plan, t0: Tree, t: Tree, j: nat)
    requires j <= |plan.slugs|
  {
    && RestKept(plan, t0, t, plan.slugs[..j])
    && forall s | s in plan.slugs[..j] :: plan.site.Target(s) in t && t[plan.site.Target(s)] == Dir
  }

  /** A persona directory holds nothing the restoration needs. */
  lemma TargetAside(plan: Plan, t0: Tree, s: string, q: Path)
    requires Unpublished(plan, t0) && s in plan.slugs
    ensures plan.site.Target(s) <= q ==> q !in t0 && q != plan.config && q != plan.site.Backup()
  {
    AbsentBelow(t0, plan.site.Target(s));
    Layout(plan.site, q);
  }

  lemma PersonaRemoved(plan: Plan, t0: Tree, t: Tree, j: nat)
    requires j < |plan.slugs| && Unpublished(plan, t0) && Undoing(plan, t0, t, j + 1)
    requires Distinct(plan.slugs[..j + 1])
    ensures Undoing(plan, t0, Prune(t, plan.site.Target(plan.slugs[j])), j)
  {
    var s := plan.slugs[j];
    var t' := Prune(t, plan.site.Target(s));
    assert plan.slugs[..j + 1] == plan.slugs[..j] + [s];
    forall r | r in plan.slugs[..j]
      ensures plan.site.Target(r) in t' && t'[plan.site.Target(r)] == Dir
    {
      assert r in plan.slugs[..j + 1] && r != s;
      Layout(plan.site, plan.site.Target(r));
    }
    forall q | Elsewhere(plan, q, plan.slugs[..j])
      ensures Kept(plan.site, t0, t', q)
    {
      TargetAside(plan, t0, s, q);
      if !(plan.site.Target(s) <= q) {
        assert Elsewhere(plan, q, plan.slugs[..j + 1]);
      }
    }
  }

  /** The backup can always be moved back over the config, and doing so undoes the import. */
  lemma ConfigRestored(plan: Plan, t: Tree)
    requires Restorable(plan, t)
    ensures CanRename(t, plan.site.Backup(), plan.config)
    ensures FileAt(Renamed(t, plan.site.Backup(), plan.config), plan.config, plan.oldConfig)
    ensures forall q | !(plan.site.Staging() <= q) && q != plan.config ::
              var t' := Renamed(t, plan.site.Backup(), plan.config);
              (q in t' <==> q in t) && (q in t ==> t'[q] == t[q])
  {
    var src, dst := plan.site.Backup(), plan.config;
    PrefixTrans(plan.site.Staging(), src, dst);
    PrefixSlice(dst, src);
    LeafFile(t, dst);
    LeafFile(t, src);
    assert t[dst[..|dst| - 1]] == Dir;
    RenamedPointwise(t, src, dst);
    assert src + dst[|dst|..] == src;
    forall q | !(plan.site.Staging() <= q) && q != plan.config
      ensures var t' := Renamed(t, src, dst); (q in t' <==> q in t) && (q in t ==> t'[q] == t[q])
    {
      PrefixTrans(plan.site.Staging(), src, q);
      if dst <= q { assert src <= src + q[|dst|..]; }
    }
  }

  /** Removing (part of) a published persona leaves the restoration possible. */
  lemma StillRestorable(plan: Plan, t0: Tree, t: Tree, t': Tree, s: string)
    requires Unpublished(plan, t0) && s in plan.slugs && Restorable(plan, t) && WellFormed(t')
    requires forall q | q in t && !(plan.site.Target(s) <= q) :: q in t' && t'[q] == t[q]
    ensures Restorable(plan, t')
  {
    TargetAside(plan, t0, s, plan.config);
    TargetAside(plan, t0, s, plan.site.Backup());
  }

  /** With no persona left published, restoring the config leaves nothing changed. */
  lemma AllUndone(plan: Plan, t0: Tree, t: Tree)
    requires Unpublished(plan, t0) && Restorable(plan, t) && Undoing(plan, t0, t, 0)
    ensures Untouched(plan.site, t0, Renamed(t, plan.site.Backup(), plan.config))
  {
    ConfigRestored(plan, t);
    var t' := Renamed(t, plan.site.Backup(), plan.config);
    forall q | !(plan.site.Staging() <= q)
      ensures Kept(plan.site, t0, t', q)
    {
      if q != plan.config { assert Elsewhere(plan, q, plan.slugs[..0]); }
    }
  }

  /** A file stands where a destination needs a directory. */
  predicate Obstructed(site: Site, t: Tree) {
    Blocked(t, site.PersonasDir()) || Blocked(t, site.CandidateDir())
  }

  /** Publishing puts no file in the way of a destination. */
  lemma ObstructedBefore(plan: Plan, t0: Tree, t: Tree, k: nat)
    requires k <= |plan.slugs| && Staged(plan, t0) && Halfway(plan, t0, t, k)
    ensures Obstructed(plan.site, t) ==> Obstructed(plan.site, t0)
  {
    ObstructedAt(plan, t0, t, k, plan.site.PersonasDir());
    ObstructedAt(plan, t0, t, k, plan.site.CandidateDir());
  }

  lemma ObstructedAt(plan: Plan, t0: Tree, t: Tree, k: nat, dir: Path)
    requires k <= |plan.slugs| && Staged(plan, t0) && Halfway(plan, t0, t, k)
    requires dir == plan.site.PersonasDir() || dir == plan.site.CandidateDir()
    ensures Blocked(t, dir) ==> Blocked(t0, dir)
  {
    if Blocked(t, dir) {
      var n :| 0 <= n <= |dir| && dir[..n] in t && t[dir[..n]].File?;
      var q := dir[..n];
      Layout(plan.site, q);
      assert plan.site.CandidateDir()[|plan.site.root|] == ".bastion";
      forall s | plan.site.Target(s) <= q
        ensures q[|plan.site.root|] == "personas"
      {
        assert plan.site.Target(s)[|plan.site.root|] == "personas";
      }
      assert plan.site.Staging()[|plan.site.root|] == ".bastion";
      assert plan.site.Staging()[|plan.site.root| + 1] == "import-staging-" + plan.site.stamp;
      assert plan.site.CandidateDir()[|plan.site.root| + 1] == "import-candidates";
      StampedNames(plan.site.stamp);
      if q != plan.config { assert Elsewhere(plan, q, plan.slugs[..k]); }
      assert q in t0 && t0[q].File?;
    }
  }

  // ---- staging ---------------------------------------------------------------

  /** Before anything is staged: no earlier import used this stamp. */
  ghost predicate FreshSite(site: Site, t: Tree) {
    WellFormed(t) && site.Staging() !in t && site.CandidateTarget() !in t
  }

  /** The staging directory exists, holding only `souls`; the rest of the tree is as in t0. */
  ghost predicate StagingOpen(site: Site, t0: Tree, t: Tree, souls: map<string, string>) {
    && WellFormed(t)
    && site.Staging() in t && t[site.Staging()] == Dir
    && Untouched(site, t0, t)
    && (forall q | q in t && site.Staging() < q :: site.StagedPersonas() <= q)
    && (site.StagedPersonas() in t ==> t[site.StagedPersonas()] == Dir)
    && (forall s | s in souls :: PersonaAt(t, site.Source(s), souls[s]) && site.Target(s) !in t)
    && (forall s | s !in souls :: site.Source(s) !in t)
  }

  lemma StagingOpened(site: Site, t0: Tree, t: Tree)
    requires FreshSite(site, t0) && WellFormed(t)
    requires forall n | 0 <= n <= |site.Staging()| :: site.Staging()[..n] in t && t[site.Staging()[..n]] == Dir
    requires forall q | q in t0 :: q in t && t[q] == t0[q]
    requires forall q | q in t && q !in t0 :: q <= site.Staging() && t[q] == Dir
    ensures StagingOpen(site, t0, t, map[])
  {
    AbsentBelow(t0, site.Staging());
    assert site.Staging()[..|site.Staging()|] == site.Staging();
    OpeningIsHarmless(site, t0, t);
  }

  /** Ancestors of the staging directory are directories an import may leave behind. */
  lemma OpeningIsHarmless(site: Site, t0: Tree, t: Tree)
    requires forall q | q in t0 :: q in t && t[q] == t0[q]
    requires forall q | q in t && q !in t0 :: q <= site.Staging() && t[q] == Dir
    ensures Untouched(site, t0, t)
  {
    forall q | q <= site.Staging() && !(site.Staging() <= q)
      ensures site.MayRemain(q)
    {
      assert q == site.Staging()[..|q|];
      assert |q| < |site.Staging()|;
      assert q == site.CandidateDir()[..|q|];
    }
  }

  /** What staging persona s adds is inside the staged personas directory. */
  lemma NewEntries(site: Site, t: Tree, s: string, q: Path)
    requires WellFormed(t) && site.Staging() in t && q !in t
    requires q <= site.Source(s) || q == site.Source(s) + ["SOUL.md"]
    ensures site.StagedPersonas() <= q && site.Staging() <= q
  {
    var soul := site.Source(s) + ["SOUL.md"];
    assert soul[..|site.StagedPersonas()|] == site.StagedPersonas();
    assert site.Source(s) == soul[..|site.Source(s)|];
    assert soul[..|site.Staging()|] == site.Staging();
    PrefixTrans(q, site.Source(s), soul);
    AncestorIn(t, site.Staging(), q);
    Comparable(site.Staging(), q, soul);
    assert |q| > |site.Staging()|;
    Comparable(site.StagedPersonas(), q, soul);
    assert |q| >= |site.StagedPersonas()|;
    PrefixSlice(q, site.StagedPersonas());
  }

  /** The directory of staged persona s exists; only it and its ancestors are new. */
  ghost predicate SourceMade(site: Site, t: Tree, t1: Tree, s: string) {
    && WellFormed(t1)
    && site.Source(s) in t1 && t1[site.Source(s)] == Dir && site.StagedPersonas() in t1
    && (forall q | q in t :: q in t1 && t1[q] == t[q])
    && (forall q | q in t1 && q !in t :: q <= site.Source(s) && t1[q] == Dir)
  }

  /** Only SOUL.md and its ancestors are new, all inside the staging directory; nothing else changed. */
  ghost predicate SoulAdded(site: Site, t: Tree, t2: Tree, s: string, text: string) {
    var soul := site.Source(s) + ["SOUL.md"];
    && WellFormed(t2)
    && FileAt(t2, soul, text) && site.Source(s) in t2 && t2[site.Source(s)] == Dir
    && site.StagedPersonas() in t2 && (site.StagedPersonas() in t || t2[site.StagedPersonas()] == Dir)
    && (forall q | q in t && q != soul :: q in t2 && t2[q] == t[q])
    && (forall q | q in t2 && q !in t :: site.StagedPersonas() <= q && site.Staging() <= q)
    && (forall q | q in t2 && q !in t :: q <= site.Source(s) || q == soul)
  }

  lemma WritingAdds(site: Site, t: Tree, t1: Tree, s: string, text: string)
    requires WellFormed(t) && site.Staging() in t && SourceMade(site, t, t1, s)
    requires var soul := site.Source(s) + ["SOUL.md"]; soul in t1 ==> t1[soul].File?
    ensures SoulAdded(site, t, t1[site.Source(s) + ["SOUL.md"] := File(text)], s, text)
  {
    var soul := site.Source(s) + ["SOUL.md"];
    var t2 := t1[soul := File(text)];
    assert Parent(soul) == site.Source(s);
    WriteWellFormed(t1, soul, text);
    assert |site.StagedPersonas()| < |soul|;
    forall q | q in t2 && q !in t
      ensures site.StagedPersonas() <= q && site.Staging() <= q
    {
      NewEntries(site, t, s, q);
    }
  }

  /** If anything is in SOUL.md's place, it is a file staged for the same slug. */
  lemma SoulIsFile(site: Site, t0: Tree, t: Tree, t1: Tree, souls: map<string, string>, s: string)
    requires StagingOpen(site, t0, t, souls) && SourceMade(site, t, t1, s)
    ensures var soul := site.Source(s) + ["SOUL.md"]; soul in t1 ==> t1[soul].File?
  {
    hide Untouched;
    if s !in souls { AbsentBelow(t, site.Source(s)); }
  }

  /** A persona's own directory: after mkdir and one write, exactly SOUL.md is in it. */
  lemma PersonaStaged(site: Site, t0: Tree, t: Tree, t1: Tree, souls: map<string, string>, s: string, text: string)
    requires StagingOpen(site, t0, t, souls) && site.Target(s) !in t && SourceMade(site, t, t1, s)
    ensures var soul := site.Source(s) + ["SOUL.md"];
            (soul in t1 ==> t1[soul].File?) && StagingOpen(site, t0, t1[soul := File(text)], souls[s := text])
  {
    SoulIsFile(site, t0, t, t1, souls, s);
    WritingAdds(site, t, t1, s, text);
    SoulIsStaged(site, t0, t, t1[site.Source(s) + ["SOUL.md"] := File(text)], souls, s, text);
  }

  lemma SoulIsStaged(site: Site, t0: Tree, t: Tree, t2: Tree, souls: map<string, string>, s: string, text: string)
    requires StagingOpen(site, t0, t, souls) && site.Target(s) !in t && SoulAdded(site, t, t2, s, text)
    ensures StagingOpen(site, t0, t2, souls[s := text])
  {
    hide Untouched, PersonaAt;
    var soul := site.Source(s) + ["SOUL.md"];
    SoulIsInside(site, s);
    StagingOnly(site, t0, t, t2);
    OthersStaged(site, t, t2, souls, s);
    ThisStaged(site, t, t2, souls, s, text);
  }

  lemma SoulIsInside(site: Site, s: string)
    ensures var soul := site.Source(s) + ["SOUL.md"];
            site.Staging() <= soul && soul != site.Staging() && soul != site.StagedPersonas()
  {
    var soul := site.Source(s) + ["SOUL.md"];
    assert soul[..|site.Staging()|] == site.Staging();
    assert |soul| == |site.StagedPersonas()| + 2;
  }

  /** Changes below the staging directory are invisible outside it. */
  lemma StagingOnly(site: Site, t0: Tree, t: Tree, t': Tree)
    requires Untouched(site, t0, t)
    requires forall q | q in t && !(site.Staging() <= q) :: q in t' && t'[q] == t[q]
    requires forall q | q in t' && q !in t :: site.Staging() <= q
    ensures Untouched(site, t0, t')
  {
    forall q | !(site.Staging() <= q)
      ensures Kept(site, t0, t', q)
    {
      assert Kept(site, t0, t, q);
    }
  }

  lemma ThisStaged(site: Site, t: Tree, t2: Tree, souls: map<string, string>, s: string, text: string)
    requires WellFormed(t) && site.Target(s) !in t
    requires if s in souls then PersonaAt(t, site.Source(s), souls[s]) else site.Source(s) !in t
    requires site.Source(s) in t2 && t2[site.Source(s)] == Dir && FileAt(t2, site.Source(s) + ["SOUL.md"], text)
    requires forall q | q in t2 && q !in t :: q <= site.Source(s) || q == site.Source(s) + ["SOUL.md"]
    ensures PersonaAt(t2, site.Source(s), text) && site.Target(s) !in t2
  {
    if s !in souls { AbsentBelow(t, site.Source(s)); }
    Layout(site, site.Source(s));
    Layout(site, site.Source(s) + ["SOUL.md"]);
  }

  lemma OthersStaged(site: Site, t: Tree, t2: Tree, souls: map<string, string>, s: string)
    requires forall r | r in souls :: PersonaAt(t, site.Source(r), souls[r]) && site.Target(r) !in t
    requires forall r | r !in souls :: site.Source(r) !in t
    requires forall q | q in t && q != site.Source(s) + ["SOUL.md"] :: q in t2 && t2[q] == t[q]
    requires forall q | q in t2 && q !in t :: q <= site.Source(s) || q == site.Source(s) + ["SOUL.md"]
    ensures forall r | r in souls && r != s :: PersonaAt(t2, site.Source(r), souls[r]) && site.Target(r) !in t2
    ensures forall r | r !in souls && r != s :: site.Source(r) !in t2
  {
    Layout(site, site.Source(s));
    Layout(site, site.Source(s) + ["SOUL.md"]);
    forall r | r != s
      ensures SameBelow(t, t2, site.Source(r))
    {
      forall q | site.Source(r) <= q
        ensures (q in t2 <==> q in t) && (q in t ==> t2[q] == t[q])
      {
        PrefixTrans(site.Source(r), q, site.Source(s));
      }
    }
    forall r | r in souls && r != s
      ensures PersonaAt(t2, site.Source(r), souls[r])
    {
      PersonaFrame(t, t2, site.Source(r), souls[r]);
    }
  }

  /** The staged files beside the personas. */
  function WithFiles(plan: Plan, t: Tree): Tree {
    var t1 := t[plan.site.StagedConfig() := File(plan.newConfig)][plan.site.Backup() := File(plan.oldConfig)];
    if plan.candidates.Some? then t1[plan.site.CandidateSource() := File(plan.candidates.value)] else t1
  }

  lemma FilesStaged(plan: Plan, t0: Tree, t: Tree)
    requires StagingOpen(plan.site, t0, t, plan.souls) && FreshSite(plan.site, t0)
    requires !(plan.site.Staging() <= plan.config) && FileAt(t, plan.config, plan.oldConfig)
    requires forall s | s in plan.slugs :: s in plan.souls
    requires WellFormed(WithFiles(plan, t))
    ensures Staged(plan, WithFiles(plan, t)) && Untouched(plan.site, t0, WithFiles(plan, t))
  {
    var t' := WithFiles(plan, t);
    StagedNames(plan.site);
    StagingOnly(plan.site, t0, t, t');
    Layout(plan.site, plan.site.CandidateTarget());
    assert Kept(plan.site, t0, t', plan.site.CandidateTarget());
    StagedStay(plan, t, t');
  }

  /** Staged personas are untouched by the files staged beside them. */
  lemma StagedStay(plan: Plan, t: Tree, t': Tree)
    requires forall s | s in plan.slugs ::
               s in plan.souls && PersonaAt(t, plan.site.Source(s), plan.souls[s]) && plan.site.Target(s) !in t
    requires forall q | q != plan.site.StagedConfig() && q != plan.site.Backup() && q != plan.site.CandidateSource() ::
               (q in t' <==> q in t) && (q in t ==> t'[q] == t[q])
    ensures forall s | s in plan.slugs ::
            PersonaAt(t', plan.site.Source(s), plan.souls[s]) && plan.site.Target(s) !in t'
  {
    forall s | s in plan.slugs
      ensures PersonaAt(t', plan.site.Source(s), plan.souls[s]) && plan.site.Target(s) !in t'
    {
      forall q | plan.site.Source(s) <= q
        ensures (q in t' <==> q in t) && (q in t ==> t'[q] == t[q])
      {
        Layout(plan.site, q);
      }
      PersonaFrame(t, t', plan.site.Source(s), plan.souls[s]);
      Layout(plan.site, plan.site.Target(s));
    }
  }

  lemma UntouchedTrans(site: Site, t0: Tree, t1: Tree, t2: Tree)
    requires Untouched(site, t0, t1) && Untouched(site, t1, t2)
    ensures Untouched(site, t0, t2)
  {
    forall q | !(site.Staging() <= q)
      ensures Kept(site, t0, t2, q)
    {
      assert Kept(site, t0, t1, q) && Kept(site, t1, t2, q);
    }
  }
}

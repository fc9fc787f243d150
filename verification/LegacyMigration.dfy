/**
The one-time import of legacy selection files into the config log, with a
process that may die between any two steps of it.
*/
module LegacyMigration {
  import opened Wrappers
  import opened ConfigStore
  import Text

  const MIGRATION := "migration"

  /** A file as reading it into a string finds it; one that is not UTF-8 cannot be read. */
  datatype LegacyFile = Unreadable | Readable(content: Document)

  /**
  What survives a crash. `legacy` and `imported` hold, per config key, the file
  the legacy writers left and the renamed file.
  */
  datatype Disk = Disk(rows: seq<Row>, legacy: map<string, LegacyFile>, imported: map<string, Document>)

  /** A failed call ends the startup; so does an error of the log or the rename, which counts as a crash here. */
  datatype Outcome = Done(imported: bool) | Failed | Crashed

  /** The five steps of the import; a process that dies after n of them has `steps == n`. */
  const ALL_STEPS := 5

  /** migrate_legacy_file: read, check the log, parse, append, rename. */
  function Migrate(d: Disk, key: string, steps: nat, now: int): (Disk, Outcome) {
    if steps < 1 then (d, Crashed)
    else if key !in d.legacy then (d, Done(false))
    else if d.legacy[key].Unreadable? then (d, Failed)
    else if steps < 2 then (d, Crashed)
    else if Latest(d.rows, key).Some? then (d, Done(false))
    else if steps < 3 then (d, Crashed)
    else if d.legacy[key].content.Garbled? then (d, Done(false))
    else if steps < 4 then (d, Crashed)
    else
      var content := d.legacy[key].content;
      var d1 := d.(rows := d.rows + [Row(key, content, MIGRATION, None, now)]);
      if steps < 5 then (d1, Crashed)
      else (d1.(imported := d1.imported[key := content], legacy := d1.legacy - {key}), Done(true))
  }

  /** There is a legacy file and it holds a JSON value. */
  predicate HasValue(d: Disk, key: string) {
    key in d.legacy && d.legacy[key].Readable? && d.legacy[key].content.Parsed?
  }

  /** What happens to the disk over the life of an installation. */
  datatype Event =
    | Startup(key: string, steps: nat, now: int)
    | Applied(row: Row)
    | LegacyWritten(key: string, file: LegacyFile)

  /** Every other writer names its own origin. */
  predicate Allowed(e: Event) {
    e.Applied? ==> e.row.origin != MIGRATION
  }

  function After(d: Disk, e: Event): Disk {
    match e
    case Startup(key, steps, now) => Migrate(d, key, steps, now).0
    case Applied(row) => d.(rows := d.rows + [row])
    case LegacyWritten(key, file) => d.(legacy := d.legacy[key := file])
  }

  function Run(d: Disk, events: seq<Event>): Disk
    decreases |events|
  {
    if events == [] then d else Run(After(d, events[0]), events[1..])
  }

  /** A migration row is the first row of its key: it overrode nothing, and there is no second one. */
  ghost predicate ImportsComeFirst(rows: seq<Row>) {
    forall i, j | 0 <= i < j < |rows| && rows[j].origin == MIGRATION :: rows[i].key != rows[j].key
  }

  lemma {:induction false} NoRowsWithoutLatest(rows: seq<Row>, key: string)
    ensures Latest(rows, key).None? <==> forall i | 0 <= i < |rows| :: rows[i].key != key
  {
    if rows != [] { NoRowsWithoutLatest(rows[..|rows| - 1], key); }
  }

  lemma AfterKeepsOrder(d: Disk, e: Event)
    requires ImportsComeFirst(d.rows) && Allowed(e)
    ensures ImportsComeFirst(After(d, e).rows) && d.rows <= After(d, e).rows
  {
    if e.Startup? { NoRowsWithoutLatest(d.rows, e.key); }
  }

  /**
  Over any number of startups, each dying after any step, mixed with any other
  writes: at most one migration row per key, none of which overrides anything,
  and no row ever changes.
  */
  lemma {:induction false} AtMostOneImport(d: Disk, events: seq<Event>)
    requires ImportsComeFirst(d.rows) && forall e | e in events :: Allowed(e)
    ensures ImportsComeFirst(Run(d, events).rows) && d.rows <= Run(d, events).rows
    ensures forall i, j | 0 <= i < |Run(d, events).rows| && 0 <= j < |Run(d, events).rows| ::
              var rows := Run(d, events).rows;
              rows[i].origin == MIGRATION && rows[j].origin == MIGRATION && rows[i].key == rows[j].key ==> i == j
    decreases |events|
  {
    if events != [] {
      assert events[0] in events;
      AfterKeepsOrder(d, events[0]);
      AtMostOneImport(After(d, events[0]), events[1..]);
    }
  }

  /** A startup adds no row for a key the log already has. */
  lemma {:induction false} KeyInLogIsSettled(d: Disk, events: seq<Event>, key: string)
    requires Latest(d.rows, key).Some?
    requires forall e | e in events :: e.Applied? ==> e.row.key != key
    ensures Latest(Run(d, events).rows, key) == Latest(d.rows, key)
    decreases |events|
  {
    if events != [] {
      assert events[0] in events;
      var d1 := After(d, events[0]);
      if d1.rows != d.rows {
        assert d1.rows[..|d1.rows| - 1] == d.rows;
      }
      KeyInLogIsSettled(d1, events[1..], key);
    }
  }

  /**
  Once a startup got past its append, the legacy file's value is the current
  one until the next apply to that key, whatever crashes, startups and stray
  legacy files come after.
  */
  lemma ImportStands(d: Disk, key: string, steps: nat, now: int, rest: seq<Event>)
    requires HasValue(d, key) && Latest(d.rows, key).None? && steps >= 4
    requires forall e | e in rest :: e.Applied? ==> e.row.key != key
    ensures Latest(Run(d, [Startup(key, steps, now)] + rest).rows, key) == Some(d.legacy[key].content)
  {
    var d1 := After(d, Startup(key, steps, now));
    assert d1.rows[..|d1.rows| - 1] == d.rows;
    KeyInLogIsSettled(d1, rest, key);
    assert ([Startup(key, steps, now)] + rest)[1..] == rest;
  }

  /** An imported model selection is read as the model the old file named. */
  lemma ImportedModelIsRead(d: Disk, model: string, steps: nat, now: int, rest: seq<Event>)
    requires KEY_MODEL_SELECTED in d.legacy && d.legacy[KEY_MODEL_SELECTED].Readable?
    requires d.legacy[KEY_MODEL_SELECTED].content == Parsed(JObject(map["model" := JString(model)]))
    requires Latest(d.rows, KEY_MODEL_SELECTED).None? && steps >= 4
    requires forall e | e in rest :: e.Applied? ==> e.row.key != KEY_MODEL_SELECTED
    ensures var d' := Run(d, [Startup(KEY_MODEL_SELECTED, steps, now)] + rest);
            && Latest(d'.rows, KEY_MODEL_SELECTED).Some?
            && ModelFromValue(Latest(d'.rows, KEY_MODEL_SELECTED).value) ==
               if Text.Trim(model) == "" then None else Some(model)
  {
    hide Run, Latest, Text.Trim;
    ImportStands(d, KEY_MODEL_SELECTED, steps, now, rest);
  }

  /** Rows without the clock reading they were written at. */
  function Timeless(rows: seq<Row>): (r: seq<Row>)
    ensures |r| == |rows| && forall i | 0 <= i < |r| :: r[i] == rows[i].(appliedAt := 0)
  {
    seq(|rows|, i requires 0 <= i < |rows| => rows[i].(appliedAt := 0))
  }

  /**
  Dying is harmless for the log: any number of startups that die anywhere,
  followed by one that does not, write what that one alone would have written.
  */
  lemma {:induction false} CrashesAreTransparent(d: Disk, key: string, crashes: seq<Event>, now: int)
    requires forall e | e in crashes :: e.Startup? && e.key == key
    ensures Timeless(Run(d, crashes + [Startup(key, ALL_STEPS, now)]).rows)
         == Timeless(Run(d, [Startup(key, ALL_STEPS, now)]).rows)
    decreases |crashes|
  {
    var final := Startup(key, ALL_STEPS, now);
    if crashes == [] {
      assert crashes + [final] == [final];
    } else {
      var e := crashes[0];
      assert e in crashes;
      var d1 := After(d, e);
      assert (crashes + [final])[0] == e && (crashes + [final])[1..] == crashes[1..] + [final];
      CrashesAreTransparent(d1, key, crashes[1..], now);
      assert Run(d1, [final]) == After(d1, final) && Run(d, [final]) == After(d, final);
      OneCrashIsTransparent(d, e, now);
    }
  }

  lemma OneCrashIsTransparent(d: Disk, crash: Event, now: int)
    requires crash.Startup?
    ensures var final := Startup(crash.key, ALL_STEPS, now);
            Timeless(After(After(d, crash), final).rows) == Timeless(After(d, final).rows)
  {
    var d1 := After(d, crash);
    if d1.rows != d.rows {
      assert d1.rows[..|d1.rows| - 1] == d.rows;
    }
  }

  /** The second of two uninterrupted startups changes nothing, and fails exactly if the first did. */
  lemma StartupIsIdempotent(d: Disk, key: string, now: int, later: int)
    ensures var (d1, r) := Migrate(d, key, ALL_STEPS, now);
            Migrate(d1, key, ALL_STEPS, later) == (d1, if r == Failed then Failed else Done(false))
  {
    var d1 := Migrate(d, key, ALL_STEPS, now).0;
    if d1.rows != d.rows { assert d1.rows[..|d1.rows| - 1] == d.rows; }
  }

  // ---- when the legacy file is retired -------------------------------------------------------

  /**
  Of the events that write the key's first row, the earliest is a startup that
  also lives through the rename.
  */
  predicate Retires(events: seq<Event>, key: string)
    decreases |events|
  {
    if events == [] then false
    else if events[0].Startup? && events[0].key == key && events[0].steps >= 4 then events[0].steps >= ALL_STEPS
    else if events[0].Applied? && events[0].row.key == key then false
    else Retires(events[1..], key)
  }

  /** One step of a legacy file nobody rewrites. */
  lemma StepOfLegacyFile(d: Disk, e: Event, key: string)
    requires key in d.legacy && !(e.LegacyWritten? && e.key == key)
    ensures var d' := After(d, e);
            var importing := && e.Startup? && e.key == key && e.steps >= 4
                             && HasValue(d, key) && Latest(d.rows, key).None?;
            && (key !in d'.legacy <==> importing && e.steps >= ALL_STEPS)
            && (key in d'.legacy ==> d'.legacy[key] == d.legacy[key])
            && (Latest(d'.rows, key).Some? <==>
                  Latest(d.rows, key).Some? || importing || (e.Applied? && e.row.key == key))
  {
    var d' := After(d, e);
    if d'.rows != d.rows { assert d'.rows[..|d'.rows| - 1] == d.rows; }
  }

  lemma {:induction false} GoneStaysGone(d: Disk, events: seq<Event>, key: string)
    requires key !in d.legacy && forall e | e in events :: !(e.LegacyWritten? && e.key == key)
    ensures key !in Run(d, events).legacy
    decreases |events|
  {
    if events != [] {
      assert events[0] in events;
      GoneStaysGone(After(d, events[0]), events[1..], key);
    }
  }

  /**
  Whatever happens, short of a new legacy file: the file is retired if and only
  if it holds a JSON value, the log had no row for the key, and the first event to write one
  is a startup that does not die before its rename. Otherwise the file stays,
  unchanged.
  */
  lemma {:induction false} FileIsRetiredIff(d: Disk, events: seq<Event>, key: string)
    requires key in d.legacy && forall e | e in events :: !(e.LegacyWritten? && e.key == key)
    ensures var d' := Run(d, events);
            && (key !in d'.legacy <==> HasValue(d, key) && Latest(d.rows, key).None? && Retires(events, key))
            && (key in d'.legacy ==> d'.legacy[key] == d.legacy[key])
    decreases |events|
  {
    hide Migrate, Latest, After;
    if events != [] {
      assert events[0] in events;
      var d1 := After(d, events[0]);
      StepOfLegacyFile(d, events[0], key);
      if key in d1.legacy {
        FileIsRetiredIff(d1, events[1..], key);
      } else {
        GoneStaysGone(d1, events[1..], key);
      }
    }
  }

  /** The startup at i is the first to get past its append. */
  predicate FirstToAppend(startups: seq<Event>, i: nat) {
    && i < |startups| && startups[i].Startup? && startups[i].steps >= 4
    && forall j | 0 <= j < i :: startups[j].Startup? ==> startups[j].steps < 4
  }

  lemma {:induction false} RetiresByTheFirst(startups: seq<Event>, key: string, i: nat)
    requires forall e | e in startups :: e.Startup? && e.key == key
    requires FirstToAppend(startups, i)
    ensures Retires(startups, key) <==> startups[i].steps >= ALL_STEPS
  {
    assert startups[0] in startups;
    if i > 0 {
      assert startups[1..][i - 1] == startups[i];
      assert forall j | 0 <= j < i - 1 :: startups[1..][j] == startups[j + 1];
      RetiresByTheFirst(startups[1..], key, i - 1);
    }
  }

  /**
  After any startups that end in a completed one, a file that could be imported
  is still there if and only if the first startup to append its row died before
  the rename.
  */
  lemma UnretiredAfterStartupsIff(d: Disk, startups: seq<Event>, key: string)
    requires HasValue(d, key) && Latest(d.rows, key).None?
    requires forall e | e in startups :: e.Startup? && e.key == key
    requires startups != [] && startups[|startups| - 1].steps >= ALL_STEPS
    ensures key in Run(d, startups).legacy <==> exists i: nat :: FirstToAppend(startups, i) && startups[i].steps == 4
  {
    FileIsRetiredIff(d, startups, key);
    var i := SomeFirst(startups, |startups| - 1);
    RetiresByTheFirst(startups, key, i);
    assert forall k: nat | FirstToAppend(startups, k) :: k == i;
  }

  lemma {:induction false} SomeFirst(startups: seq<Event>, n: nat) returns (i: nat)
    requires n < |startups| && startups[n].Startup? && startups[n].steps >= 4
    requires forall k | 0 <= k < |startups| :: startups[k].Startup?
    ensures FirstToAppend(startups, i)
  {
    if m: nat :| m < n && startups[m].steps >= 4 {
      i := SomeFirst(startups, m);
    } else {
      i := n;
    }
  }

  /** The crash that does it: imported by the first startup, and still unrenamed after a second, completed one. */
  lemma CrashBeforeRename(d: Disk, key: string, now: int, later: int)
    requires HasValue(d, key) && Latest(d.rows, key).None?
    ensures var d' := Run(d, [Startup(key, 4, now), Startup(key, ALL_STEPS, later)]);
            && key in d'.legacy && d'.legacy[key] == d.legacy[key]
            && Latest(d'.rows, key) == Some(d.legacy[key].content)
  {
    var crash, whole := Startup(key, 4, now), Startup(key, ALL_STEPS, later);
    var d1 := After(d, crash);
    assert d1.rows[..|d1.rows| - 1] == d.rows;
    assert [crash, whole][1..] == [whole] && [whole][1..] == [];
    assert Latest(d1.rows, key) == Some(d.legacy[key].content) && After(d1, whole) == d1;
    assert Run(d1, [whole]) == Run(After(d1, whole), []);
    assert Run(d, [crash, whole]) == Run(d1, [whole]);
  }

  // ---- when a startup gets past its migrations ----------------------------------------------

  /** The imports of one uninterrupted startup: the first that fails ends it. */
  function MigrateAll(d: Disk, keys: seq<string>, now: int): (Disk, bool)
    decreases keys
  {
    if keys == [] then (d, true)
    else
      var (d1, r) := Migrate(d, keys[0], ALL_STEPS, now);
      if r == Failed then (d1, false) else MigrateAll(d1, keys[1..], now)
  }

  const STARTUP_KEYS := [KEY_MODEL_SELECTED, KEY_BACKEND_SELECTED]

  predicate IsUnreadable(d: Disk, key: string) {
    key in d.legacy && d.legacy[key].Unreadable?
  }

  /** A startup completes exactly when none of its legacy files is unreadable, whatever the log holds. */
  lemma {:induction false} StartupCompletesIff(d: Disk, keys: seq<string>, now: int)
    ensures MigrateAll(d, keys, now).1 <==> forall key | key in keys :: !IsUnreadable(d, key)
    decreases keys
  {
    if keys != [] {
      var d1 := Migrate(d, keys[0], ALL_STEPS, now).0;
      StartupCompletesIff(d1, keys[1..], now);
      assert keys == [keys[0]] + keys[1..];
      assert forall key :: IsUnreadable(d1, key) <==> IsUnreadable(d, key);
      assert Migrate(d, keys[0], ALL_STEPS, now).1 == Failed <==> IsUnreadable(d, keys[0]);
    }
  }

  lemma {:induction false} UnreadableStays(d: Disk, events: seq<Event>, key: string)
    requires forall e | e in events :: !(e.LegacyWritten? && e.key == key)
    ensures IsUnreadable(Run(d, events), key) <==> IsUnreadable(d, key)
    decreases |events|
  {
    if events != [] {
      assert events[0] in events;
      UnreadableStays(After(d, events[0]), events[1..], key);
    }
  }

  /**
  Nothing the daemon does repairs it: after any startups, crashes and applies,
  a startup completes exactly when one would have completed before, until a
  legacy file is written anew.
  */
  lemma BlockedStartupsStayBlocked(d: Disk, events: seq<Event>, keys: seq<string>, now: int, later: int)
    requires forall e | e in events :: e.LegacyWritten? ==> e.key !in keys
    ensures MigrateAll(Run(d, events), keys, later).1 <==> MigrateAll(d, keys, now).1
  {
    StartupCompletesIff(d, keys, now);
    StartupCompletesIff(Run(d, events), keys, later);
    forall key | key in keys
      ensures IsUnreadable(Run(d, events), key) <==> IsUnreadable(d, key)
    {
      UnreadableStays(d, events, key);
    }
  }

  /** The installation as the process sees it. */
  class Installation {
    const store: ConfigStore
    var legacy: map<string, LegacyFile>
    var imported: map<string, Document>

    constructor (store: ConfigStore, legacy: map<string, LegacyFile>)
      ensures this.store == store && this.legacy == legacy && imported == map[]
    {
      this.store, this.legacy, this.imported := store, legacy, map[];
    }

    function State(): Disk
      reads this, store
    {
      Disk(store.rows, legacy, imported)
    }

    /** One call; `steps` says after which step the process dies, if it does. */
    method MigrateLegacyFile(key: string, steps: nat, now: int) returns (r: Outcome)
      modifies this, store
      ensures (State(), r) == Migrate(old(State()), key, steps, now)
      // an import appends the file's value under this key with its own origin, and only then moves the file away
      ensures r == Done(true) <==>
                && steps >= ALL_STEPS && key in old(legacy) && old(legacy)[key].Readable?
                && old(legacy)[key].content.Parsed?
                && forall i | 0 <= i < |old(store.rows)| :: old(store.rows)[i].key != key
      ensures r == Done(true) ==>
                && store.rows == old(store.rows) + [Row(key, old(legacy)[key].content, "migration", None, now)]
                && imported == old(imported)[key := old(legacy)[key].content] && legacy == old(legacy) - {key}
      // otherwise no file moves, and a row is written only by a call that dies before it can
      ensures r != Done(true) ==> legacy == old(legacy) && imported == old(imported)
      ensures r != Done(true) && store.rows != old(store.rows) ==>
                && r == Crashed && key in old(legacy) && old(legacy)[key].Readable?
                && store.rows == old(store.rows) + [Row(key, old(legacy)[key].content, "migration", None, now)]
      ensures r == Failed ==> key in old(legacy) && old(legacy)[key].Unreadable?
    {
      NoRowsWithoutLatest(store.rows, key);
      hide Latest;
      if steps < 1 { return Crashed; }
      if key !in legacy { return Done(false); }
      if legacy[key].Unreadable? { return Failed; }
      var raw := legacy[key].content;
      if steps < 2 { return Crashed; }
      if Latest(store.rows, key).Some? { return Done(false); }
      if steps < 3 { return Crashed; }
      if raw.Garbled? { return Done(false); }
      if steps < 4 { return Crashed; }
      var _ := store.Apply(key, raw, MIGRATION, None, now, true);
      if steps < 5 { return Crashed; }
      imported := imported[key := raw];
      legacy := legacy - {key};
      return Done(true);
    }

    /** The migrations of an uninterrupted startup; false when one fails, which ends it. */
    method MigrateAtStartup(now: int) returns (completed: bool)
      modifies this, store
      ensures (State(), completed) == MigrateAll(old(State()), STARTUP_KEYS, now)
      ensures completed <==> forall key | key in STARTUP_KEYS :: !IsUnreadable(old(State()), key)
    {
      StartupCompletesIff(State(), STARTUP_KEYS, now);
      hide Migrate, IsUnreadable;
      assert STARTUP_KEYS[1..] == [KEY_BACKEND_SELECTED] && [KEY_BACKEND_SELECTED][1..] == [];
      var r := MigrateLegacyFile(KEY_MODEL_SELECTED, ALL_STEPS, now);
      if r == Failed { return false; }
      ghost var d1 := State();
      r := MigrateLegacyFile(KEY_BACKEND_SELECTED, ALL_STEPS, now);
      assert MigrateAll(d1, [KEY_BACKEND_SELECTED], now) == (State(), r != Failed);
      return r != Failed;
    }
  }
}

/**
The credential lifecycle table, shared by many clients that load, compare-and-swap
and delete records. Each call runs one SQL statement, so an interleaving of any
number of clients is a sequence of calls.
*/
module CredentialState {
  import opened Wrappers
  import opened ProviderAuth

  datatype Record = Record(state: string, attempt: nat, observedAt: int)

  type Rows = map<AuthRef, Record>

  datatype Call =
    | Load(reference: AuthRef)
    | CompareAndSwap(reference: AuthRef, expected: Option<Record>, next: Record)
    | Delete(reference: AuthRef)

  datatype Reply = Loaded(record: Option<Record>) | Swapped(won: bool) | Deleted

  function Stored(rows: Rows, reference: AuthRef): Option<Record> {
    if reference in rows then Some(rows[reference]) else None
  }

  /** A swap wins exactly when the caller's `expected` is what is stored. */
  function Step(rows: Rows, call: Call): (Rows, Reply) {
    match call
    case Load(r) => (rows, Loaded(Stored(rows, r)))
    case CompareAndSwap(r, expected, next) =>
      if Stored(rows, r) == expected then (rows[r := next], Swapped(true)) else (rows, Swapped(false))
    case Delete(r) => (rows - {r}, Deleted)
  }

  class SqliteCredentialStateStore {
    var rows: Rows

    constructor ()
      ensures rows == map[]
    {
      rows := map[];
    }

    method Load(reference: AuthRef) returns (record: Option<Record>)
      ensures (rows, Loaded(record)) == Step(rows, Call.Load(reference))
      ensures record == if reference in rows then Some(rows[reference]) else None
    {
      if reference in rows { return Some(rows[reference]); }
      return None;
    }

    /** INSERT OR IGNORE, and the number of rows it wrote. */
    method InsertOrIgnore(reference: AuthRef, record: Record) returns (changed: nat)
      modifies this
      ensures rows == if reference in old(rows) then old(rows) else old(rows)[reference := record]
      ensures changed == |rows| - |old(rows)|
    {
      if reference in rows { return 0; }
      rows := rows[reference := record];
      return 1;
    }

    /** UPDATE … WHERE record_json = expected, and the number of rows it matched. */
    method UpdateWhere(reference: AuthRef, expected: Record, record: Record) returns (changed: nat)
      modifies this
      ensures var matches := reference in old(rows) && old(rows)[reference] == expected;
              && changed == (if matches then 1 else 0)
              && rows == if matches then old(rows)[reference := record] else old(rows)
    {
      changed := 0;
      if reference in rows && rows[reference] == expected {
        rows := rows[reference := record];
        changed := 1;
      }
    }

    /** No expected record means a first write; otherwise the stored text has to match. */
    method CompareAndSwap(reference: AuthRef, expected: Option<Record>, next: Record) returns (won: bool)
      modifies this
      ensures (rows, Swapped(won)) == Step(old(rows), Call.CompareAndSwap(reference, expected, next))
      ensures won <==> if expected.None? then reference !in old(rows)
                       else reference in old(rows) && old(rows)[reference] == expected.value
      ensures rows == if won then old(rows)[reference := next] else old(rows)
    {
      var changed;
      match expected {
        case None =>
          changed := InsertOrIgnore(reference, next);
        case Some(record) =>
          changed := UpdateWhere(reference, record, next);
      }
      won := changed == 1;
    }

    method Delete(reference: AuthRef)
      modifies this
      ensures (rows, Deleted) == Step(old(rows), Call.Delete(reference))
      ensures rows == old(rows) - {reference}
    {
      rows := rows - {reference};
    }
  }

  // ---- one interleaving of all clients ---------------------------------------------------

  function Run(rows: Rows, calls: seq<Call>): (run: (Rows, seq<Reply>))
    ensures |run.1| == |calls|
    decreases calls
  {
    if calls == [] then (rows, [])
    else
      var (after, reply) := Step(rows, calls[0]);
      var (last, replies) := Run(after, calls[1..]);
      (last, [reply] + replies)
  }

  function On(reference: AuthRef, calls: seq<Call>): seq<Call> {
    if calls == [] then []
    else if calls[0].reference == reference then [calls[0]] + On(reference, calls[1..])
    else On(reference, calls[1..])
  }

  function RepliesOn(reference: AuthRef, calls: seq<Call>, replies: seq<Reply>): seq<Reply>
    requires |calls| == |replies|
  {
    if calls == [] then []
    else if calls[0].reference == reference then [replies[0]] + RepliesOn(reference, calls[1..], replies[1..])
    else RepliesOn(reference, calls[1..], replies[1..])
  }

  // ---- each reference is a register of its own -----------------------------------------------

  function CellStep(cell: Option<Record>, call: Call): (Option<Record>, Reply) {
    match call
    case Load(_) => (cell, Loaded(cell))
    case CompareAndSwap(_, expected, next) =>
      if cell == expected then (Some(next), Swapped(true)) else (cell, Swapped(false))
    case Delete(_) => (None, Deleted)
  }

  function CellRun(cell: Option<Record>, calls: seq<Call>): (run: (Option<Record>, seq<Reply>))
    ensures |run.1| == |calls|
    decreases calls
  {
    if calls == [] then (cell, [])
    else
      var (after, reply) := CellStep(cell, calls[0]);
      var (last, replies) := CellRun(after, calls[1..]);
      (last, [reply] + replies)
  }

  /**
  Under any interleaving, what one reference's callers see and what they leave
  stored is what a single register fed only their calls would give: calls on
  other references neither touch it nor are seen by it.
  */
  lemma {:induction false} ReferencesAreIndependent(rows: Rows, calls: seq<Call>, reference: AuthRef)
    ensures var (after, replies) := Run(rows, calls);
            && CellRun(Stored(rows, reference), On(reference, calls)).0 == Stored(after, reference)
            && CellRun(Stored(rows, reference), On(reference, calls)).1 == RepliesOn(reference, calls, replies)
    decreases calls
  {
    if calls != [] {
      var call := calls[0];
      ReferencesAreIndependent(Step(rows, call).0, calls[1..], reference);
      assert Run(rows, calls).1[1..] == Run(Step(rows, call).0, calls[1..]).1;
      if call.reference == reference {
        assert On(reference, calls)[1..] == On(reference, calls[1..]);
      }
    }
  }

  // ---- the successful writes form a chain -------------------------------------------------------

  datatype Link = Put(expected: Option<Record>, next: Record) | Cleared

  /** The writes that took effect, as told by the replies alone. */
  function Links(calls: seq<Call>, replies: seq<Reply>): seq<Link>
    requires |calls| == |replies|
  {
    if calls == [] then []
    else
      var rest := Links(calls[1..], replies[1..]);
      if calls[0].CompareAndSwap? && replies[0] == Swapped(true) then [Put(calls[0].expected, calls[0].next)] + rest
      else if calls[0].Delete? then [Cleared] + rest
      else rest
  }

  function LinkEnd(link: Link): Option<Record> {
    if link.Put? then Some(link.next) else None
  }

  /** What the last link leaves. */
  function End(start: Option<Record>, links: seq<Link>): Option<Record> {
    if links == [] then start else LinkEnd(links[|links| - 1])
  }

  /** Every winner expected what the link before it left; the first, what was there at the start. */
  predicate IsChain(start: Option<Record>, links: seq<Link>) {
    forall i | 0 <= i < |links| && links[i].Put? :: links[i].expected == End(start, links[..i])
  }

  lemma {:induction false} CellWritesFormAChain(cell: Option<Record>, calls: seq<Call>)
    ensures var (last, replies) := CellRun(cell, calls);
            && IsChain(cell, Links(calls, replies))
            && last == End(cell, Links(calls, replies))
    decreases calls
  {
    if calls != [] {
      var after := CellStep(cell, calls[0]).0;
      CellWritesFormAChain(after, calls[1..]);
      var replies := CellRun(cell, calls).1;
      var rest := Links(calls[1..], replies[1..]);
      assert replies[1..] == CellRun(after, calls[1..]).1;
      var links := Links(calls, replies);
      if links != rest {
        assert links[1..] == rest;
        forall i | 0 <= i < |links| && links[i].Put?
          ensures links[i].expected == End(cell, links[..i])
        {
          if i > 0 {
            assert rest[i - 1] == links[i];
            assert rest[..i - 1] == links[1..i];
          }
        }
      }
    }
  }

  /** Under any interleaving, each reference's winners chain from its first record to its last. */
  lemma WritesFormAChain(rows: Rows, calls: seq<Call>, reference: AuthRef)
    ensures var (after, replies) := Run(rows, calls);
            var mine := On(reference, calls);
            var seen := RepliesOn(reference, calls, replies);
            && |mine| == |seen|
            && IsChain(Stored(rows, reference), Links(mine, seen))
            && Stored(after, reference) == End(Stored(rows, reference), Links(mine, seen))
  {
    ReferencesAreIndependent(rows, calls, reference);
    CellWritesFormAChain(Stored(rows, reference), On(reference, calls));
  }

  // ---- races ----------------------------------------------------------------------------------------

  /** Every call on the reference is a load or a swap from the same expected record. */
  predicate Racing(reference: AuthRef, expected: Option<Record>, calls: seq<Call>) {
    forall i | 0 <= i < |calls| && calls[i].reference == reference ::
      calls[i].Load? || (calls[i].CompareAndSwap? && calls[i].expected == expected)
  }

  /** What each racer would write, in the order the racers arrive. */
  function Nexts(calls: seq<Call>): seq<Record> {
    if calls == [] then []
    else if calls[0].CompareAndSwap? then [calls[0].next] + Nexts(calls[1..])
    else Nexts(calls[1..])
  }

  function Wins(replies: seq<Reply>): nat {
    if replies == [] then 0 else (if replies[0] == Swapped(true) then 1 else 0) + Wins(replies[1..])
  }

  /** The racers that write back what they expected, and the first that does not. */
  function UpToFirstChange(expected: Option<Record>, nexts: seq<Record>): nat {
    if nexts == [] then 0
    else if Some(nexts[0]) == expected then 1 + UpToFirstChange(expected, nexts[1..])
    else 1
  }

  predicate AllRace(expected: Option<Record>, calls: seq<Call>) {
    forall i | 0 <= i < |calls| :: calls[i].Load? || (calls[i].CompareAndSwap? && calls[i].expected == expected)
  }

  lemma {:induction false} OnKeepsRacing(reference: AuthRef, expected: Option<Record>, calls: seq<Call>)
    requires Racing(reference, expected, calls)
    ensures AllRace(expected, On(reference, calls))
  {
    if calls != [] { OnKeepsRacing(reference, expected, calls[1..]); }
  }

  /** How many racers on a register win, whatever they write. */
  lemma {:induction false} RaceOnOneCell(cell: Option<Record>, expected: Option<Record>, calls: seq<Call>)
    requires AllRace(expected, calls)
    ensures Wins(CellRun(cell, calls).1) == if cell == expected then UpToFirstChange(expected, Nexts(calls)) else 0
    ensures cell != expected || Nexts(calls) == [] ==> CellRun(cell, calls).0 == cell
    ensures cell == expected && Nexts(calls) != [] && Some(Nexts(calls)[0]) != expected ==>
              CellRun(cell, calls).0 == Some(Nexts(calls)[0])
    decreases calls
  {
    if calls != [] {
      var after := CellStep(cell, calls[0]).0;
      RaceOnOneCell(after, expected, calls[1..]);
      assert CellRun(cell, calls).1[1..] == CellRun(after, calls[1..]).1;
    }
  }

  lemma {:induction false} WhenOneIsEnough(expected: Option<Record>, nexts: seq<Record>)
    requires nexts != []
    ensures UpToFirstChange(expected, nexts) == 1 <==> Some(nexts[0]) != expected || |nexts| == 1
  {
    if |nexts| > 1 { WhenOneIsEnough(expected, nexts[1..]); }
  }

  /**
  Racers on the record that is stored, with loads and calls on other references
  in between: exactly one wins if and only if the first racer changes the record
  or there is no other racer. A swap that writes back what it expected still
  wins, and leaves the record for the next racer to win too.
  */
  lemma ExactlyOneWinsIff(rows: Rows, calls: seq<Call>, reference: AuthRef, expected: Option<Record>)
    requires Stored(rows, reference) == expected && Racing(reference, expected, calls)
    requires Nexts(On(reference, calls)) != []
    ensures var nexts := Nexts(On(reference, calls));
            var seen := RepliesOn(reference, calls, Run(rows, calls).1);
            && Wins(seen) == UpToFirstChange(expected, nexts)
            && (Wins(seen) == 1 <==> Some(nexts[0]) != expected || |nexts| == 1)
  {
    ReferencesAreIndependent(rows, calls, reference);
    OnKeepsRacing(reference, expected, calls);
    RaceOnOneCell(expected, expected, On(reference, calls));
    WhenOneIsEnough(expected, Nexts(On(reference, calls)));
  }

  /** When every racer writes something new, exactly the first wins and its record is what stays. */
  lemma ExactlyOneWins(rows: Rows, calls: seq<Call>, reference: AuthRef, expected: Option<Record>)
    requires Stored(rows, reference) == expected && Racing(reference, expected, calls)
    requires Nexts(On(reference, calls)) != []
    requires forall n | n in Nexts(On(reference, calls)) :: Some(n) != expected
    ensures Wins(RepliesOn(reference, calls, Run(rows, calls).1)) == 1
    ensures Stored(Run(rows, calls).0, reference) == Some(Nexts(On(reference, calls))[0])
  {
    ReferencesAreIndependent(rows, calls, reference);
    OnKeepsRacing(reference, expected, calls);
    RaceOnOneCell(expected, expected, On(reference, calls));
  }
}

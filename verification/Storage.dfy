/**
 The two ways a state is stored: rows appended to a database, and a file that is overwritten.
 */
module Storage {
  import opened Models
  import opened Parsers
  import opened Engine
  import opened Safety

  const SERIAL_LIMIT: nat := 0x1_0000_0000_0000_0000

  datatype Query = Query(tenant: string, project: string, stack: string, cluster: string)

  datatype Record = Record(key: Query, serial: nat, resources: Index)

  datatype Lookup = Found(record: Record) | NotFound | Refused

  /** Serial += 1 on a uint64. */
  function NextSerial(serial: nat): (next: nat)
    ensures serial < 0xFFFF_FFFF_FFFF_FFFF ==> next == serial + 1
    ensures serial == 0xFFFF_FFFF_FFFF_FFFF ==> next == 0
  {
    (serial + 1) % SERIAL_LIMIT
  }

  /** The where clause of GetLatestState: an empty stack or cluster matches any. */
  predicate Matches(q: Query, r: Record) {
    && r.key.tenant == q.tenant && r.key.project == q.project
    && (q.stack == "" || r.key.stack == q.stack)
    && (q.cluster == "" || r.key.cluster == q.cluster)
  }

  /** A query that names every part of its key matches the records of that key only. */
  predicate IsFull(q: Query) {
    q.tenant != "" && q.project != "" && q.stack != "" && q.cluster != ""
  }

  /** Two parts of a query may be left out: it finds what some completion of them finds. */
  lemma EmptyPartsMatchAny(q: Query, r: Record)
    ensures Matches(q, r) <==> exists stack, cluster ::
        && r.key == Query(q.tenant, q.project, stack, cluster)
        && (q.stack != "" ==> stack == q.stack)
        && (q.cluster != "" ==> cluster == q.cluster)
  {
    assert r.key == Query(r.key.tenant, r.key.project, r.key.stack, r.key.cluster);
  }

  class DbState {
    var rows: seq<Record>

    constructor ()
      ensures rows == []
    {
      rows := [];
    }

    /** Append only. */
    method Apply(state: Record, accepted: bool)
      modifies this
      ensures rows == if accepted then old(rows) + [state] else old(rows)
    {
      if accepted {
        rows := rows + [state];
      }
    }

    /** The matching row with the largest serial. */
    method GetLatestState(q: Query) returns (r: Lookup)
      ensures r.Refused? <==> q.tenant == "" || q.project == ""
      ensures r.Found? ==> IsLargest(rows, q, r.record)
      ensures r.NotFound? ==> forall i :: 0 <= i < |rows| ==> !Matches(q, rows[i])
    {
      if |q.tenant| == 0 || |q.project| == 0 {
        return Refused;
      }
      r := NotFound;
      for i := 0 to |rows|
        invariant r.NotFound? || r.Found?
        invariant r.NotFound? ==> forall j :: 0 <= j < i ==> !Matches(q, rows[j])
        invariant r.Found? ==> IsLargest(rows[..i], q, r.record)
      {
        if Matches(q, rows[i]) && (r.NotFound? || rows[i].serial > r.record.serial) {
          r := Found(rows[i]);
        }
        assert forall x :: x in rows[..i + 1] <==> x in rows[..i] || x == rows[i];
      }
      assert rows[..|rows|] == rows;
    }
  }

  ghost predicate IsLargest(rows: seq<Record>, q: Query, r: Record) {
    r in rows && Matches(q, r) && forall x :: x in rows && Matches(q, x) ==> x.serial <= r.serial
  }

  class FileSystemState {
    var file: Option<Record>
    var createTime: int
    var modifiedTime: int
    /** Everything the file system has accepted, oldest first. */
    ghost var written: seq<Record>

    /** The file holds the state accepted last, and nothing before it. */
    ghost predicate Valid()
      reads this
    {
      file == if written == [] then None else Some(written[|written| - 1])
    }

    constructor ()
      ensures Valid() && written == []
    {
      file, createTime, modifiedTime, written := None, 0, 0, [];
    }

    /** Overwrites the file; the time of its first writing is kept. */
    method Apply(state: Record, now: int, accepted: bool)
      requires Valid()
      modifies this
      ensures Valid() && written == if accepted then old(written) + [state] else old(written)
      ensures accepted ==> modifiedTime == now && createTime == if old(written) == [] || old(createTime) == 0 then now
        else old(createTime)
      ensures !accepted ==> modifiedTime == old(modifiedTime) && createTime == old(createTime)
    {
      var oldState := GetLatestState(Query("", "", "", ""));
      if accepted {
        if oldState.NotFound? || createTime == 0 {
          createTime := now;
        }
        modifiedTime := now;
        file := Some(state);
        written := written + [state];
      }
    }

    /** Whatever the query, the state accepted last; nothing if there is none. */
    method GetLatestState(q: Query) returns (r: Lookup)
      requires Valid()
      ensures r == if written == [] then NotFound else Found(written[|written| - 1])
    {
      r := if file.Some? then Found(file.value) else NotFound;
    }
  }

  // ---- Histories ----

  /**
   What happens to a backend: a writer begins an operation and takes over the recorded serial, or
   writes a state that the backend accepts or not; and others write under other keys.
   */
  datatype Action =
    | Begin
    | Write(resources: Index, accepted: bool)
    | WriteElsewhere(other: Record)

  /** Both backends after the same history, each with the serial of its writer. */
  datatype Backends = Backends(rows: seq<Record>, rowSerial: nat, file: Option<Record>, fileSerial: nat)

  /** The latest row may be any with the largest serial; choice picks one. */
  ghost predicate IsLatest(rows: seq<Record>, q: Query, r: Option<Record>) {
    if r.Some? then IsLargest(rows, q, r.value) else forall x :: x in rows ==> !Matches(q, x)
  }

  function SerialOf(r: Option<Record>): nat {
    if r.Some? then r.value.serial else 0
  }

  ghost predicate IsStep(key: Query, b: Backends, a: Action, b': Backends) {
    match a
    case Begin =>
      && b'.rows == b.rows && b'.file == b.file && b'.fileSerial == SerialOf(b.file)
      && exists latest :: IsLatest(b.rows, key, latest) && b'.rowSerial == SerialOf(latest)
    case Write(resources, accepted) =>
      && b'.rowSerial == NextSerial(b.rowSerial) && b'.fileSerial == NextSerial(b.fileSerial)
      && b'.rows == (if accepted then b.rows + [Record(key, b'.rowSerial, resources)] else b.rows)
      && b'.file == (if accepted then Some(Record(key, b'.fileSerial, resources)) else b.file)
    case WriteElsewhere(other) =>
      other.key != key && b' == b.(rows := b.rows + [other])
  }

  /** The backends agree: same serials, one record each that counts as the latest, and it is the same. */
  ghost predicate Agree(key: Query, b: Backends) {
    && b.rowSerial == b.fileSerial && SerialOf(b.file) <= b.rowSerial
    && (b.file.Some? ==> b.file.value.key == key && IsStrictlyLargest(b.rows, key, b.file.value))
    && (b.file.None? ==> forall x :: x in b.rows ==> x.key != key)
  }

  ghost predicate IsStrictlyLargest(rows: seq<Record>, key: Query, r: Record) {
    r in rows && forall x :: x in rows && x.key == key && x != r ==> x.serial < r.serial
  }

  lemma FullQueryMatchesItsKey(key: Query, r: Record)
    requires IsFull(key)
    ensures Matches(key, r) <==> r.key == key
  {
  }

  /** Agreement means that both backends return the same record, whichever row a tie would pick. */
  lemma AgreeingBackendsReturnTheSame(key: Query, b: Backends, latest: Option<Record>)
    requires IsFull(key) && Agree(key, b) && IsLatest(b.rows, key, latest)
    ensures latest == b.file
  {
    if latest.Some? {
      FullQueryMatchesItsKey(key, latest.value);
      if b.file.Some? {
        assert Matches(key, b.file.value);
      }
    } else if b.file.Some? {
      assert Matches(key, b.file.value);
    }
  }

  lemma AgreeStep(key: Query, b: Backends, a: Action, b': Backends)
    requires IsFull(key) && Agree(key, b) && IsStep(key, b, a, b')
    requires a.Write? ==> b.rowSerial + 1 < SERIAL_LIMIT
    ensures Agree(key, b') && b'.rowSerial <= b.rowSerial + 1
  {
    match a
    case Begin =>
      var latest :| IsLatest(b.rows, key, latest) && b'.rowSerial == SerialOf(latest);
      AgreeingBackendsReturnTheSame(key, b, latest);
    case Write(resources, accepted) =>
      if accepted {
        var r := Record(key, b'.rowSerial, resources);
        forall x | x in b'.rows && x.key == key && x != r ensures x.serial < r.serial {
          assert x in b.rows;
        }
        assert IsStrictlyLargest(b'.rows, key, r);
      }
    case WriteElsewhere(other) =>
      if b.file.Some? {
        assert IsStrictlyLargest(b'.rows, key, b.file.value);
      }
  }

  ghost predicate IsHistory(key: Query, actions: seq<Action>, states: seq<Backends>) {
    && |states| == |actions| + 1 && states[0] == Backends([], 0, None, 0)
    && forall i {:trigger actions[i]} :: 0 <= i < |actions| ==> IsStep(key, states[i], actions[i], states[i + 1])
  }

  lemma {:induction false} AgreeAlongHistory(key: Query, actions: seq<Action>, states: seq<Backends>, i: nat)
    requires IsFull(key) && IsHistory(key, actions, states) && |actions| < SERIAL_LIMIT && i < |states|
    ensures Agree(key, states[i]) && states[i].rowSerial <= i
  {
    if i > 0 {
      AgreeAlongHistory(key, actions, states, i - 1);
      AgreeStep(key, states[i - 1], actions[i - 1], states[i]);
    }
  }

  /**
   For one writer on one full key, over any history of operations, refused writes and writes under
   other keys, the row with the largest serial is what the file holds.
   */
  lemma BackendsAgree(key: Query, actions: seq<Action>, states: seq<Backends>, i: nat, latest: Option<Record>)
    requires IsFull(key) && IsHistory(key, actions, states) && |actions| < SERIAL_LIMIT && i < |states|
    requires IsLatest(states[i].rows, key, latest)
    ensures latest == states[i].file
  {
    AgreeAlongHistory(key, actions, states, i);
    AgreeingBackendsReturnTheSame(key, states[i], latest);
  }

  /** Serials grow with every accepted write. */
  lemma WritesGrow(key: Query, actions: seq<Action>, states: seq<Backends>, i: nat)
    requires IsFull(key) && IsHistory(key, actions, states) && |actions| < SERIAL_LIMIT && i < |actions|
    requires actions[i].Write? && actions[i].accepted
    ensures states[i + 1].file.Some? && SerialOf(states[i].file) < SerialOf(states[i + 1].file)
    ensures forall x :: x in states[i].rows && x.key == key ==> x.serial < SerialOf(states[i + 1].file)
  {
    AgreeAlongHistory(key, actions, states, i);
  }

  /**
   After one more accepted write the row with the largest serial is what the file holds, whatever is
   written and whichever row a tie picks, exactly as long as the serial has not reached the top of its
   range. Then it starts again at zero, and the database goes on returning what it had before.
   */
  lemma AgreementNeedsRoom(key: Query, b: Backends)
    requires IsFull(key) && Agree(key, b) && b.file.Some? && b.rowSerial < SERIAL_LIMIT
    ensures b.rowSerial + 1 < SERIAL_LIMIT <==>
      forall resources, b', latest ::
        IsStep(key, b, Write(resources, true), b') && IsLatest(b'.rows, key, latest) ==> latest == b'.file
    ensures b.rowSerial + 1 == SERIAL_LIMIT && b.file.value.serial > 0 ==>
      forall resources, b', latest ::
        IsStep(key, b, Write(resources, true), b') && IsLatest(b'.rows, key, latest) ==> latest == b.file != b'.file
  {
    if b.rowSerial + 1 < SERIAL_LIMIT {
      forall resources, b', latest | IsStep(key, b, Write(resources, true), b') && IsLatest(b'.rows, key, latest)
        ensures latest == b'.file
      {
        AgreeStep(key, b, Write(resources, true), b');
        AgreeingBackendsReturnTheSame(key, b', latest);
      }
    } else {
      WrappedWriteIsMissed(key, b);
      forall resources, b', latest | IsStep(key, b, Write(resources, true), b') && IsLatest(b'.rows, key, latest)
        && b.file.value.serial > 0
        ensures latest == b.file != b'.file
      {
        WrappedLookup(key, b, resources, b', latest);
      }
    }
  }

  lemma WrappedLookup(key: Query, b: Backends, resources: Index, b': Backends, latest: Option<Record>)
    requires IsFull(key) && Agree(key, b) && b.file.Some? && b.rowSerial + 1 == SERIAL_LIMIT && b.file.value.serial > 0
    requires IsStep(key, b, Write(resources, true), b') && IsLatest(b'.rows, key, latest)
    ensures latest == b.file != b'.file
  {
    assert b.file.value in b'.rows && Matches(key, b.file.value);
    forall x | x in b'.rows && Matches(key, x) && x.serial >= b.file.value.serial ensures x == b.file.value {
      FullQueryMatchesItsKey(key, x);
      assert x in b.rows;
    }
  }

  lemma WrappedWriteIsMissed(key: Query, b: Backends)
    requires IsFull(key) && Agree(key, b) && b.file.Some? && b.rowSerial + 1 == SERIAL_LIMIT
    ensures exists resources, b', latest ::
      IsStep(key, b, Write(resources, true), b') && IsLatest(b'.rows, key, latest) && latest != b'.file
  {
    var resources: Index := if b.file.value.resources == map[] then map["" := Resource("", Null, [])] else map[];
    assert "" in resources || b.file.value.resources != map[];
    var r := Record(key, 0, resources);
    var b' := Backends(b.rows + [r], 0, Some(r), 0);
    assert IsStep(key, b, Write(resources, true), b');
    assert b.file.value in b'.rows && Matches(key, b.file.value) && b.file.value != r;
    forall x | x in b'.rows && Matches(key, x) ensures x.serial <= b.file.value.serial {
      FullQueryMatchesItsKey(key, x);
      assert x in b.rows || x == r;
    }
    assert IsLatest(b'.rows, key, b.file);
  }

  // ---- The backends themselves ----

  /** One action on both backends, and what it does to the serial of either writer. */
  method Perform(db: DbState, fs: FileSystemState, key: Query, a: Action, rowSerial: nat, fileSerial: nat, now: int)
    returns (rowSerial': nat, fileSerial': nat)
    requires IsFull(key) && fs.Valid() && (a.WriteElsewhere? ==> a.other.key != key)
    modifies db, fs
    ensures fs.Valid()
    ensures IsStep(key, Backends(old(db.rows), rowSerial, old(fs.file), fileSerial), a,
                   Backends(db.rows, rowSerial', fs.file, fileSerial'))
  {
    rowSerial', fileSerial' := rowSerial, fileSerial;
    match a {
      case Begin =>
        var row := db.GetLatestState(key);
        var state := fs.GetLatestState(key);
        rowSerial' := if row.Found? then row.record.serial else 0;
        fileSerial' := if state.Found? then state.record.serial else 0;
        assert IsLatest(db.rows, key, if row.Found? then Some(row.record) else None);
      case Write(resources, accepted) =>
        rowSerial', fileSerial' := NextSerial(rowSerial), NextSerial(fileSerial);
        db.Apply(Record(key, rowSerial', resources), accepted);
        fs.Apply(Record(key, fileSerial', resources), now, accepted);
      case WriteElsewhere(other) =>
        db.Apply(other, true);
    }
  }

  /** The resources of the last write that was accepted. */
  function LastAccepted(actions: seq<Action>): Option<Index> {
    if actions == [] then None
    else
      var last := actions[|actions| - 1];
      if last.Write? && last.accepted then Some(last.resources) else LastAccepted(actions[..|actions| - 1])
  }

  lemma HistoryGrows(key: Query, actions: seq<Action>, states: seq<Backends>, a: Action, b: Backends)
    requires IsHistory(key, actions, states) && IsStep(key, states[|actions|], a, b)
    ensures IsHistory(key, actions + [a], states + [b])
  {
    var actions', states' := actions + [a], states + [b];
    forall i {:trigger actions'[i]} | 0 <= i < |actions'| ensures IsStep(key, states'[i], actions'[i], states'[i + 1]) {
      if i < |actions| { assert actions'[i] == actions[i]; }
    }
  }

  /**
   Any history, carried out on a new database and a new file: looked up at its end, both return the
   same record, and it has the resources of the last write that was accepted.
   */
  method Replay(key: Query, actions: seq<Action>, now: int) returns (fromDb: Lookup, fromFile: Lookup)
    requires IsFull(key) && |actions| < SERIAL_LIMIT
    requires forall i :: 0 <= i < |actions| && actions[i].WriteElsewhere? ==> actions[i].other.key != key
    ensures fromDb == fromFile && !fromDb.Refused?
    ensures fromDb.Found? <==> LastAccepted(actions).Some?
    ensures fromDb.Found? ==> fromDb.record.key == key && fromDb.record.resources == LastAccepted(actions).value
  {
    var db := new DbState();
    var fs := new FileSystemState();
    var rowSerial, fileSerial := 0, 0;
    ghost var states := [Backends([], 0, None, 0)];
    for i := 0 to |actions|
      invariant fs.Valid() && IsHistory(key, actions[..i], states)
      invariant states[i] == Backends(db.rows, rowSerial, fs.file, fileSerial)
      invariant HoldsLast(key, fs.file, LastAccepted(actions[..i]))
    {
      assert actions[..i + 1] == actions[..i] + [actions[i]];
      assert actions[..i + 1][..i] == actions[..i];
      rowSerial, fileSerial := Perform(db, fs, key, actions[i], rowSerial, fileSerial, now + i);
      ghost var b := Backends(db.rows, rowSerial, fs.file, fileSerial);
      HistoryGrows(key, actions[..i], states, actions[i], b);
      states := states + [b];
    }
    assert actions[..|actions|] == actions;
    fromDb := db.GetLatestState(key);
    fromFile := fs.GetLatestState(key);
    ghost var latest := if fromDb.Found? then Some(fromDb.record) else None;
    assert IsLatest(db.rows, key, latest);
    BackendsAgree(key, actions, states, |actions|, latest);
  }

  ghost predicate HoldsLast(key: Query, file: Option<Record>, last: Option<Index>) {
    && (file.Some? <==> last.Some?)
    && (file.Some? ==> file.value.key == key && file.value.resources == last.value)
  }

  /** Within one walk: the last state saved is the one with the largest serial. */
  lemma LastSaveIsLargest(c: Config, s: State, key: Query)
    requires Keyed(c) && Reachable(c, s) && IsFull(key)
    ensures var rows := [Record(key, c.serial, c.prior)] + RecordsOf(key, s.saves);
      forall r :: IsLargest(rows, key, r) ==> r.resources == Latest(c, s)
  {
    InvHolds(c, s);
    var rows := [Record(key, c.serial, c.prior)] + RecordsOf(key, s.saves);
    var last := rows[|rows| - 1];
    assert last in rows && Matches(key, last);
    forall r | IsLargest(rows, key, r) ensures r.resources == Latest(c, s) {
      var i :| 0 <= i < |rows| && rows[i] == r;
      assert last.serial <= r.serial;
    }
  }

  ghost function RecordsOf(key: Query, saves: seq<Save>): seq<Record> {
    seq(|saves|, i requires 0 <= i < |saves| => Record(key, saves[i].serial, saves[i].resources))
  }
}

/**
 * The abstract database the migration engine talks to: the goose version
 * table plus an opaque log of what migration payloads did, and the
 * transaction buffer that holds operations until commit.
 */
module Database {
  import opened StrConv

  /** One opaque change a migration payload makes to the schema or data. */
  datatype Effect = Effect(id: nat)

  /** A row of the version table (its timestamp column is not modelled). */
  datatype MigrationRecord = MigrationRecord(versionId: Int64, isApplied: bool)

  /** An error reported by the database or by a migration payload. */
  datatype DbError = DbError(code: nat)

  datatype Db = Db(versionTable: seq<MigrationRecord>, log: seq<Effect>)

  /**
   * The statements the engine issues: a payload effect, the dialect's
   * "insert version" statement and its "delete version" statement.
   */
  datatype Op =
    | Payload(effect: Effect)
    | InsertVersion(version: Int64, applied: bool)
    | DeleteVersion(version: Int64)

  /** The versions the table records as applied. */
  function AppliedVersions(table: seq<MigrationRecord>): set<Int64> {
    set r | r in table && r.isApplied :: r.versionId
  }

  /** The table without any row of `version`, other rows in their order. */
  function WithoutVersion(table: seq<MigrationRecord>, version: Int64): (t: seq<MigrationRecord>)
    ensures forall r :: r in t <==> r in table && r.versionId != version
    ensures |t| <= |table|
  {
    if table == [] then []
    else if table[0].versionId == version then WithoutVersion(table[1..], version)
    else [table[0]] + WithoutVersion(table[1..], version)
  }

  /** Every row of another version survives with as many copies as before; no row of the deleted version does. */
  lemma {:induction false} WithoutVersionCounts(table: seq<MigrationRecord>, version: Int64, r: MigrationRecord)
    ensures multiset(WithoutVersion(table, version))[r] == if r.versionId == version then 0 else multiset(table)[r]
    decreases |table|
  {
    if table != [] {
      assert table == [table[0]] + table[1..];
      WithoutVersionCounts(table[1..], version, r);
    }
  }

  /**
   * Deleting a version from two stretches of the table is deleting it from
   * each: the surviving rows keep their relative order.
   */
  lemma {:induction false} WithoutVersionConcat(a: seq<MigrationRecord>, b: seq<MigrationRecord>, version: Int64)
    ensures WithoutVersion(a + b, version) == WithoutVersion(a, version) + WithoutVersion(b, version)
    decreases |a|
  {
    if a == [] {
      assert a + b == b;
    } else {
      assert (a + b)[0] == a[0] && (a + b)[1..] == a[1..] + b;
      WithoutVersionConcat(a[1..], b, version);
    }
  }

  /** An applied-row insert adds its version to the applied set. */
  lemma AppliedAfterInsert(table: seq<MigrationRecord>, version: Int64)
    ensures AppliedVersions(table + [MigrationRecord(version, true)]) == AppliedVersions(table) + {version}
  {
    var t := table + [MigrationRecord(version, true)];
    assert MigrationRecord(version, true) in t;
    forall v | v in AppliedVersions(t) ensures v in AppliedVersions(table) + {version} {
      var r :| r in t && r.isApplied && r.versionId == v;
      if r != MigrationRecord(version, true) {
        assert r in table;
      }
    }
    forall v | v in AppliedVersions(table) ensures v in AppliedVersions(t) {
      var r :| r in table && r.isApplied && r.versionId == v;
      assert r in t;
    }
  }

  /** What one statement does to the database once it is durable. */
  function ApplyOp(db: Db, op: Op): (db': Db)
    ensures op.Payload? ==> db'.versionTable == db.versionTable && db'.log == db.log + [op.effect]
    ensures !op.Payload? ==> db'.log == db.log
    ensures op.InsertVersion? ==> db'.versionTable == db.versionTable + [MigrationRecord(op.version, op.applied)]
    ensures op.DeleteVersion? ==> AppliedVersions(db'.versionTable) == AppliedVersions(db.versionTable) - {op.version}
  {
    match op
    case Payload(e) => db.(log := db.log + [e])
    case InsertVersion(v, applied) => db.(versionTable := db.versionTable + [MigrationRecord(v, applied)])
    case DeleteVersion(v) => db.(versionTable := WithoutVersion(db.versionTable, v))
  }

  /** The statements `ops` applied in order. */
  function ApplyOps(db: Db, ops: seq<Op>): Db
    decreases |ops|
  {
    if ops == [] then db else ApplyOps(ApplyOp(db, ops[0]), ops[1..])
  }

  /** Applying two runs of statements one after the other is applying their concatenation. */
  lemma {:induction false} ApplyOpsAppend(db: Db, a: seq<Op>, b: seq<Op>)
    ensures ApplyOps(db, a + b) == ApplyOps(ApplyOps(db, a), b)
    decreases |a|
  {
    if a != [] {
      assert (a + b)[0] == a[0] && (a + b)[1..] == a[1..] + b;
      ApplyOpsAppend(ApplyOp(db, a[0]), a[1..], b);
      assert ApplyOps(db, a + b) == ApplyOps(ApplyOp(db, a[0]), a[1..] + b);
      assert ApplyOps(db, a) == ApplyOps(ApplyOp(db, a[0]), a[1..]);
    } else {
      assert a + b == b;
    }
  }

  /** The payload statements that perform a list of effects. */
  function Payloads(effects: seq<Effect>): (ops: seq<Op>)
    ensures |ops| == |effects|
    ensures forall i :: 0 <= i < |ops| ==> ops[i] == Payload(effects[i])
  {
    if effects == [] then [] else [Payload(effects[0])] + Payloads(effects[1..])
  }

  /** Payload statements add their effects to the log and leave the version table alone. */
  lemma {:induction false} ApplyPayloads(db: Db, effects: seq<Effect>)
    ensures ApplyOps(db, Payloads(effects)) == Db(db.versionTable, db.log + effects)
    decreases |effects|
  {
    if effects != [] {
      assert Payloads(effects)[1..] == Payloads(effects[1..]);
      ApplyPayloads(ApplyOp(db, Payload(effects[0])), effects[1..]);
      assert db.log + [effects[0]] + effects[1..] == db.log + effects;
    }
  }

  /** Removing a version's rows from a table that has none changes nothing. */
  lemma {:induction false} WithoutAbsentVersion(table: seq<MigrationRecord>, version: Int64)
    requires forall r :: r in table ==> r.versionId != version
    ensures WithoutVersion(table, version) == table
    decreases |table|
  {
    if table != [] {
      assert table[0] in table;
      assert forall r :: r in table[1..] ==> r in table;
      WithoutAbsentVersion(table[1..], version);
      assert [table[0]] + table[1..] == table;
    }
  }

  /** Deleting a version right after inserting it undoes the insert, and every older row of it. */
  lemma {:induction false} WithoutVersionAfterInsert(table: seq<MigrationRecord>, version: Int64, applied: bool)
    ensures WithoutVersion(table + [MigrationRecord(version, applied)], version) == WithoutVersion(table, version)
    decreases |table|
  {
    if table == [] {
      assert [MigrationRecord(version, applied)][1..] == [];
    } else {
      assert (table + [MigrationRecord(version, applied)])[1..] == table[1..] + [MigrationRecord(version, applied)];
      WithoutVersionAfterInsert(table[1..], version, applied);
    }
  }

  /**
   * A transaction: the statements executed inside it so far, which reach the
   * database only when it commits.
   */
  datatype Tx = Tx(pending: seq<Op>)

  /** db.Begin(): an empty transaction, whose commit changes nothing. */
  function Begin(): (tx: Tx)
    ensures forall db :: Commit(db, tx) == db
  {
    Tx([])
  }

  /**
   * tx.Exec: the statements join the pending buffer and the database is not
   * touched; committing later applies them after those already pending.
   */
  function ExecInTx(tx: Tx, ops: seq<Op>): (tx': Tx)
    ensures forall db :: Commit(db, tx') == ApplyOps(Commit(db, tx), ops)
  {
    assert forall db :: Commit(db, Tx(tx.pending + ops)) == ApplyOps(Commit(db, tx), ops) by {
      forall db ensures Commit(db, Tx(tx.pending + ops)) == ApplyOps(Commit(db, tx), ops) {
        ApplyOpsAppend(db, tx.pending, ops);
      }
    }
    Tx(tx.pending + ops)
  }

  /** tx.Commit() when it succeeds: every pending statement becomes durable, in order. */
  function Commit(db: Db, tx: Tx): (db': Db)
    ensures tx.pending == [] ==> db' == db
    ensures forall effects :: tx.pending == Payloads(effects) ==> db' == Db(db.versionTable, db.log + effects)
  {
    assert forall effects :: tx.pending == Payloads(effects) ==> ApplyOps(db, tx.pending) == Db(db.versionTable, db.log + effects) by {
      forall effects | tx.pending == Payloads(effects) {
        ApplyPayloads(db, effects);
      }
    }
    ApplyOps(db, tx.pending)
  }

  /** tx.Rollback(): the pending statements are discarded and the database is as before. */
  function Rollback(db: Db, tx: Tx): Db {
    db
  }
}

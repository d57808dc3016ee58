/** The migration that gives single-message objects a chunk map, after which every object obeys the ownership invariant. */
module LegacyBackfill {
  import opened ByteStrings
  import opened ChunkMaps
  import opened Multipart
  import opened Ownership

  /** An object row with its old single-message column, 0 when there is none. */
  datatype StoredObject = StoredObject(size: nat, legacyMsg: nat, chunks: seq<Chunk>)

  type Table = map<ObjectKey, StoredObject>

  predicate NeedsBackfill(o: StoredObject) {
    o.size > 0 && o.legacyMsg != 0 && o.chunks == []
  }

  function Backfilled(o: StoredObject): StoredObject {
    if NeedsBackfill(o) then o.(chunks := [Chunk(0, o.legacyMsg, o.size, 0, 0)]) else o
  }

  function Migrated(table: Table): Table {
    map k | k in table :: Backfilled(table[k])
  }

  /** `keys` are the table's keys in the order the query returns them. */
  method BackfillLegacyChunks(table: Table, keys: seq<ObjectKey>, commitOk: bool) returns (after: Table)
    requires (forall k | k in keys :: k in table) && forall k | k in table :: k in keys
    ensures after == if commitOk then Migrated(table) else table
    ensures after.Keys == table.Keys
    ensures forall k | k in table ::
              after[k] == if commitOk && table[k].size > 0 && table[k].legacyMsg != 0 && table[k].chunks == []
                          then table[k].(chunks := [Chunk(0, table[k].legacyMsg, table[k].size, 0, 0)]) else table[k]
  {
    var legacies: seq<ObjectKey> := [];
    for i := 0 to |keys|
      invariant forall k :: k in legacies <==> k in keys[..i] && NeedsBackfill(table[k])
    {
      assert keys[..i + 1] == keys[..i] + [keys[i]];
      if NeedsBackfill(table[keys[i]]) {
        legacies := legacies + [keys[i]];
      }
    }
    assert keys[..|keys|] == keys;
    var filled := table;
    for i := 0 to |legacies|
      invariant filled.Keys == table.Keys
      invariant forall k | k in table :: filled[k] == if k in legacies[..i] then Backfilled(table[k]) else table[k]
    {
      assert legacies[..i + 1] == legacies[..i] + [legacies[i]];
      var o := table[legacies[i]];
      filled := filled[legacies[i] := o.(chunks := [Chunk(0, o.legacyMsg, o.size, 0, 0)])];
    }
    assert legacies[..|legacies|] == legacies;
    after := if commitOk then filled else table;
  }

  /** The gateway over the table; multipart uploads that were under way at the last shutdown are still there. */
  function Opened(table: Table, uploads: map<string, UploadRow>, files: Files, next: nat): Gateway {
    Gateway(map k | k in table :: ObjectRow(table[k].size, table[k].chunks), uploads, files, next)
  }

  /** The message an object stands on before the migration. */
  function Holding(o: StoredObject): set<nat> {
    if o.chunks == [] && o.size > 0 then {o.legacyMsg} else Messages(o.chunks)
  }

  /** An object is mapped already, or empty, or one live message of its size. */
  predicate Sound(files: Files, o: StoredObject) {
    if o.chunks == [] && o.size > 0 then o.legacyMsg != 0 && o.legacyMsg in files && |files[o.legacyMsg]| == o.size
    else Tiles(o.chunks) && Total(o.chunks) == o.size && Holds(files, o.chunks) && Distinct(o.chunks)
  }

  predicate SoundTable(files: Files, table: Table) {
    && (forall k | k in table :: Sound(files, table[k]))
    && forall k, l | k in table && l in table && k != l :: Holding(table[k]) !! Holding(table[l])
  }

  function PartChunks(uploads: map<string, UploadRow>, id: string, n: int): seq<Chunk> {
    if id in uploads && n in uploads[id].parts then uploads[id].parts[n].chunks else []
  }

  /** Stored parts are whole, and neither share messages nor stand on an object's. */
  ghost predicate SoundUploads(files: Files, table: Table, uploads: map<string, UploadRow>) {
    && (forall id, n | id in uploads && n in uploads[id].parts :: PartOk(files, uploads[id].parts[n]))
    && (forall id, n :: Distinct(PartChunks(uploads, id, n)))
    && (forall id, n, id', n' | (id, n) != (id', n') ::
          Messages(PartChunks(uploads, id, n)) !! Messages(PartChunks(uploads, id', n')))
    && forall k, id, n | k in table :: Holding(table[k]) !! Messages(PartChunks(uploads, id, n))
  }

  lemma BackfilledIsWhole(files: Files, o: StoredObject)
    requires Sound(files, o)
    ensures
      var b := Backfilled(o);
      && ObjectOk(files, ObjectRow(b.size, b.chunks)) && Distinct(b.chunks) && Messages(b.chunks) == Holding(o)
  {
    hide Tiles, Total, Messages, Holds, Distinct;
    if NeedsBackfill(o) {
      OneChunk(files, Chunk(0, o.legacyMsg, o.size, 0, 0));
    }
  }

  lemma OneChunk(files: Files, c: Chunk)
    requires c.seqNo == 0 && c.offset == 0 && 0 < c.size
    ensures Tiles([c]) && Total([c]) == c.size && Messages([c]) == {c.msg} && Distinct([c])
    ensures c.msg in files && |files[c.msg]| == c.size ==> Holds(files, [c])
  {
    assert [c][..0] == [];
    assert c in [c];
  }

  /** What a row of the opened gateway stands on: an object's messages, a part's, or nothing. */
  function Standing(table: Table, uploads: map<string, UploadRow>, r: RowId): set<nat> {
    match r
    case AtObject(k) => if k in table then Holding(table[k]) else {}
    case AtPart(id, n) => Messages(PartChunks(uploads, id, n))
  }

  lemma StandingApart(files: Files, table: Table, uploads: map<string, UploadRow>, r: RowId, q: RowId)
    requires SoundTable(files, table) && SoundUploads(files, table, uploads) && r != q
    ensures Standing(table, uploads, r) !! Standing(table, uploads, q)
  {
    hide Distinct, PartOk, Sound, Holding, Messages, PartChunks;
    match (r, q)
    case (AtObject(_), AtObject(_)) =>
    case (AtObject(_), AtPart(_, _)) =>
    case (AtPart(_, _), AtObject(_)) =>
    case (AtPart(id, n), AtPart(id', n')) => assert (id, n) != (id', n');
  }

  lemma MigratedRow(files: Files, table: Table, uploads: map<string, UploadRow>, next: nat, r: RowId)
    requires SoundTable(files, table) && SoundUploads(files, table, uploads)
    ensures
      var g := Opened(Migrated(table), uploads, files, next);
      Distinct(Row(g, r)) && Messages(Row(g, r)) == Standing(table, uploads, r)
  {
    hide PartOk, Sound, Holding, Messages, Distinct;
    NothingOwned();
    match r
    case AtObject(k) =>
      if k in table {
        BackfilledIsWhole(files, table[k]);
      }
    case AtPart(id, n) => assert Distinct(PartChunks(uploads, id, n));
  }

  /**
   Opening the store establishes the ownership invariant: after the migration every object is whole and alone on its
   messages, whichever layout it had before, beside whatever multipart uploads were under way.
   */
  lemma MigrationEstablishesInv(files: Files, table: Table, uploads: map<string, UploadRow>, next: nat)
    requires SoundTable(files, table) && SoundUploads(files, table, uploads) && forall m | m in files :: m < next
    ensures Inv(Opened(Migrated(table), uploads, files, next))
  {
    hide Distinct, ObjectOk, PartOk, Messages, Holding, Sound, Row, Standing;
    var g := Opened(Migrated(table), uploads, files, next);
    forall k | k in table
      ensures ObjectOk(files, g.objects[k])
    {
      BackfilledIsWhole(files, table[k]);
    }
    forall r, q | r != q
      ensures Messages(Row(g, r)) !! Messages(Row(g, q))
    {
      MigratedRow(files, table, uploads, next, r);
      MigratedRow(files, table, uploads, next, q);
      StandingApart(files, table, uploads, r, q);
    }
    forall r
      ensures Distinct(Row(g, r))
    {
      MigratedRow(files, table, uploads, next, r);
    }
  }

  lemma NothingOwned()
    ensures Distinct([]) && Messages([]) == {}
  {
  }

  /** The store as a running gateway leaves it: its rows, and a single-message column that the chunk map agrees with. */
  predicate StoredBy(g: Gateway, table: Table) {
    && table.Keys == g.objects.Keys
    && forall k | k in table ::
         && table[k].size == g.objects[k].size && table[k].chunks == g.objects[k].chunks
         && table[k].legacyMsg == if table[k].chunks == [] then 0 else table[k].chunks[0].msg
  }

  /** A restart, in the middle of uploads too, gives back the very gateway that was shut down. */
  lemma RestartKeeps(g: Gateway, table: Table)
    requires Inv(g) && StoredBy(g, table)
    ensures Opened(Migrated(table), g.uploads, g.files, g.nextMsg) == g
  {
    hide Tiles, Holds, Owned, IdsBelowNext;
    forall k | k in table
      ensures Backfilled(table[k]) == table[k]
    {
    }
    assert Migrated(table) == table;
    var h := Opened(table, g.uploads, g.files, g.nextMsg);
    assert h.objects == g.objects;
  }

  /** Running it again changes nothing. */
  lemma MigrationIsIdempotent(table: Table)
    ensures Migrated(Migrated(table)) == Migrated(table)
  {
    forall k | k in table
      ensures Backfilled(Backfilled(table[k])) == Backfilled(table[k])
    {
    }
  }
}

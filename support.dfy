/** The filestore-aware blockstore: a block that came from a file is stored
    as a metadata record pointing into that file, any other block as its raw
    bytes.  The underlying datastore is a map from key to stored value; the
    failures of its Has, Put, Batch and Commit calls are fixed per key (or
    per store) so that every path through Put and PutMany can be stated. */
module FilestoreSupport {
  import opened Base
  import opened FilestoreCommon

  /** A block handed to Put: a plain block, or a block read from a file,
      carrying where in the file its data lies.  altData, when present, is
      the node encoding to keep instead of the file bytes. */
  datatype Block =
    | Basic(key: Key, data: Bytes)
    | FileBlock(key: Key, data: Bytes, filePath: string, offset: nat, size: nat,
                modTime: int, altData: Option<Bytes>, addOpts: int)

  /** What the datastore holds for a key: raw block bytes, or a record
      together with the add options it was written with. */
  datatype Value = Raw(bytes: Bytes) | WithOpts(obj: DataObj, addOpts: int)

  /** prepareBlock: what to write for a block, or nothing.  `has` is the
      datastore's answer to Has for the block's key; it is consulted only for
      a plain block, which is skipped exactly when Has reports it present
      without error.  A file block always yields a record: a whole-file root
      holding the block data when there is no alternative data, otherwise a
      record flagged as carrying no block data, holding the alternative data. */
  function PrepareBlock(b: Block, has: Result<bool, Error>): (r: Option<Value>)
    ensures r.None? <==> b.Basic? && has == Ok(true)
    ensures b.Basic? && r.Some? ==> r.value == Raw(b.data)
    ensures b.FileBlock? ==> r.Some? && r.value.WithOpts? && r.value.addOpts == b.addOpts
    ensures b.FileBlock? ==>
      var d := r.value.obj;
      && d.filePath == b.filePath && d.offset == b.offset && d.size == b.size && d.modTime == b.modTime
      && (b.altData.None? ==> d.flags == {WholeFile, FileRoot} && d.data == b.data)
      && (b.altData.Some? ==> d.flags == {NoBlockData} && d.data == b.altData.value)
  {
    match b
    case Basic(_, data) =>
      if has == Ok(true) then None else Some(Raw(data))
    case FileBlock(_, data, filePath, offset, size, modTime, altData, addOpts) =>
      var flags := if altData.None? then {WholeFile, FileRoot} else {NoBlockData};
      var content := if altData.None? then data else altData.value;
      Some(WithOpts(DataObj(filePath, offset, size, modTime, flags, content), addOpts))
  }

  /** The answer Has gives for a key of a store whose Has fails on `faults`. */
  function HasIn(store: map<Key, Value>, faults: set<Key>, k: Key): (r: Result<bool, Error>)
    ensures r.Ok? <==> k !in faults
    ensures r.Ok? ==> (r.value <==> k in store)
  {
    if k in faults then Err(Failure("has failed")) else Ok(k in store)
  }

  /** The batch PutMany builds: (key, value) for every block not skipped, in
      input order.  Has is asked of the store as it was before the batch. */
  function Prepared(store: map<Key, Value>, faults: set<Key>, blocks: seq<Block>): seq<(Key, Value)>
  {
    if blocks == [] then []
    else
      var b := blocks[|blocks| - 1];
      Prepared(store, faults, blocks[..|blocks| - 1])
        + match PrepareBlock(b, HasIn(store, faults, b.key))
          case None => []
          case Some(v) => [(b.key, v)]
  }

  /** The batch entries are exactly the blocks not skipped, in input order:
      their keys and values are those of a strictly increasing selection of
      the input, every file block among them. */
  lemma {:induction false} PreparedMeaning(store: map<Key, Value>, faults: set<Key>, blocks: seq<Block>)
    ensures |Prepared(store, faults, blocks)| <= |blocks|
    ensures forall e :: e in Prepared(store, faults, blocks) ==>
      exists b :: b in blocks && b.key == e.0 && PrepareBlock(b, HasIn(store, faults, b.key)) == Some(e.1)
    ensures forall b :: b in blocks && b.FileBlock? ==>
      (b.key, PrepareBlock(b, HasIn(store, faults, b.key)).value) in Prepared(store, faults, blocks)
    ensures forall b :: b in blocks && b.Basic? && (b.key !in store || b.key in faults) ==>
      (b.key, Raw(b.data)) in Prepared(store, faults, blocks)
  {
    if blocks != [] {
      var init := blocks[..|blocks| - 1];
      var b := blocks[|blocks| - 1];
      PreparedMeaning(store, faults, init);
      assert blocks == init + [b];
      forall x | x in blocks ensures x in init || x == b {
      }
    }
  }

  /** Preparing a concatenation prepares each part. */
  lemma {:induction false} PreparedConcat(store: map<Key, Value>, faults: set<Key>, xs: seq<Block>, ys: seq<Block>)
    ensures Prepared(store, faults, xs + ys) == Prepared(store, faults, xs) + Prepared(store, faults, ys)
    decreases |ys|
  {
    if ys == [] {
      assert xs + ys == xs;
    } else {
      var init := ys[..|ys| - 1];
      assert (xs + ys)[..|xs + ys| - 1] == xs + init;
      assert (xs + ys)[|xs + ys| - 1] == ys[|ys| - 1];
      PreparedConcat(store, faults, xs, init);
    }
  }

  /** The first batch entry whose key the batch refuses, as its error. */
  function FirstFault(batch: seq<(Key, Value)>, faults: map<Key, Error>): (r: Option<Error>)
    ensures r.None? <==> forall i :: 0 <= i < |batch| ==> batch[i].0 !in faults
    ensures r.Some? ==> exists i :: 0 <= i < |batch| && batch[i].0 in faults && r.value == faults[batch[i].0]
  {
    if batch == [] then None
    else
      var f := FirstFault(batch[..|batch| - 1], faults);
      var last := batch[|batch| - 1];
      if f.Some? then f
      else if last.0 in faults then Some(faults[last.0])
      else None
  }

  /** A fault already in a prefix decides the whole batch. */
  lemma {:induction false} FirstFaultPrefix(a: seq<(Key, Value)>, b: seq<(Key, Value)>, faults: map<Key, Error>)
    requires FirstFault(a, faults).Some?
    ensures FirstFault(a + b, faults) == FirstFault(a, faults)
    decreases |b|
  {
    if b == [] {
      assert a + b == a;
    } else {
      assert (a + b)[..|a + b| - 1] == a + b[..|b| - 1];
      FirstFaultPrefix(a, b[..|b| - 1], faults);
    }
  }

  /** The store after a committed batch: the entries written in order, a
      later entry for a key overriding an earlier one. */
  function ApplyAll(store: map<Key, Value>, batch: seq<(Key, Value)>): map<Key, Value>
  {
    if batch == [] then store
    else ApplyAll(store, batch[..|batch| - 1])[batch[|batch| - 1].0 := batch[|batch| - 1].1]
  }

  /** The value the last entry for k in the batch writes, if any. */
  function LastWrite(batch: seq<(Key, Value)>, k: Key): (r: Option<Value>)
    ensures r.None? <==> forall i :: 0 <= i < |batch| ==> batch[i].0 != k
  {
    if batch == [] then None
    else if batch[|batch| - 1].0 == k then Some(batch[|batch| - 1].1)
    else
      var r := LastWrite(batch[..|batch| - 1], k);
      assert forall i :: 0 <= i < |batch| - 1 ==> batch[..|batch| - 1][i] == batch[i];
      r
  }

  /** The entry for k that no later entry overrides is the one written. */
  lemma {:induction false} LastWriteIs(batch: seq<(Key, Value)>, i: nat)
    requires i < |batch| && forall j :: i < j < |batch| ==> batch[j].0 != batch[i].0
    ensures LastWrite(batch, batch[i].0) == Some(batch[i].1)
  {
    if i < |batch| - 1 {
      var init := batch[..|batch| - 1];
      assert init[i] == batch[i];
      forall j | i < j < |init| ensures init[j].0 != init[i].0 {
        assert init[j] == batch[j];
      }
      LastWriteIs(init, i);
    }
  }

  /** After a commit a key is present when the batch writes it or it was
      there before; it holds the batch's last write to it, or else its old
      value. */
  lemma {:induction false} ApplyAllMeaning(store: map<Key, Value>, batch: seq<(Key, Value)>, k: Key)
    ensures k in ApplyAll(store, batch) <==> LastWrite(batch, k).Some? || k in store
    ensures k in ApplyAll(store, batch) ==>
      ApplyAll(store, batch)[k] == if LastWrite(batch, k).Some? then LastWrite(batch, k).value else store[k]
  {
    if batch != [] {
      ApplyAllMeaning(store, batch[..|batch| - 1], k);
    }
  }

  /** The filestore-aware blockstore over a datastore. */
  class Blockstore {
    /** The datastore's contents. */
    var datastore: map<Key, Value>
    /** Keys for which Has fails. */
    const hasFaults: set<Key>
    /** Keys for which a direct Put fails, with the error. */
    const putFaults: map<Key, Error>
    /** The error of opening a batch, if it fails. */
    const batchFault: Option<Error>
    /** Keys a batch refuses to take, with the error. */
    const batchPutFaults: map<Key, Error>
    /** The error of committing a batch, if it fails. */
    const commitFault: Option<Error>

    constructor (store: map<Key, Value>, hasFaults: set<Key>, putFaults: map<Key, Error>,
                 batchFault: Option<Error>, batchPutFaults: map<Key, Error>, commitFault: Option<Error>)
      ensures datastore == store && this.hasFaults == hasFaults && this.putFaults == putFaults
      ensures this.batchFault == batchFault && this.batchPutFaults == batchPutFaults
      ensures this.commitFault == commitFault
    {
      datastore := store;
      this.hasFaults := hasFaults;
      this.putFaults := putFaults;
      this.batchFault := batchFault;
      this.batchPutFaults := batchPutFaults;
      this.commitFault := commitFault;
    }

    /** Put: prepare the block; write nothing for a skipped block, otherwise
        write its value under its key, unless the write fails. */
    method Put(b: Block) returns (err: Option<Error>)
      modifies this
      ensures var v := PrepareBlock(b, HasIn(old(datastore), hasFaults, b.key));
        && (v.None? ==> err.None? && datastore == old(datastore))
        && (v.Some? && b.key in putFaults ==> err == Some(putFaults[b.key]) && datastore == old(datastore))
        && (v.Some? && b.key !in putFaults ==> err.None? && datastore == old(datastore)[b.key := v.value])
    {
      var v := PrepareBlock(b, HasIn(datastore, hasFaults, b.key));
      if v.None? {
        return None;
      }
      if b.key in putFaults {
        return Some(putFaults[b.key]);
      }
      datastore := datastore[b.key := v.value];
      err := None;
    }

    /** PutMany: open a batch, add every block not skipped (Has is asked of
        the store as it stands, not of the batch), stop at the first refused
        entry without committing, then commit.  The store changes only on a
        successful commit, and then exactly by the prepared batch. */
    method PutMany(blocks: seq<Block>) returns (err: Option<Error>)
      modifies this
      ensures var batch := Prepared(old(datastore), hasFaults, blocks);
        && (batchFault.Some? ==> err == batchFault && datastore == old(datastore))
        && (batchFault.None? && FirstFault(batch, batchPutFaults).Some? ==>
              err == FirstFault(batch, batchPutFaults) && datastore == old(datastore))
        && (batchFault.None? && FirstFault(batch, batchPutFaults).None? && commitFault.Some? ==>
              err == commitFault && datastore == old(datastore))
        && (batchFault.None? && FirstFault(batch, batchPutFaults).None? && commitFault.None? ==>
              err.None? && datastore == ApplyAll(old(datastore), batch))
    {
      if batchFault.Some? {
        return batchFault;
      }
      var pending: seq<(Key, Value)> := [];
      var i := 0;
      while i < |blocks|
        invariant 0 <= i <= |blocks|
        invariant datastore == old(datastore)
        invariant pending == Prepared(datastore, hasFaults, blocks[..i])
        invariant FirstFault(pending, batchPutFaults).None?
      {
        var b := blocks[i];
        assert blocks[..i + 1][..i] == blocks[..i] && blocks[..i + 1][i] == b;
        var v := PrepareBlock(b, HasIn(datastore, hasFaults, b.key));
        if v.Some? {
          if b.key in batchPutFaults {
            assert Prepared(datastore, hasFaults, blocks[..i + 1]) == pending + [(b.key, v.value)];
            PreparedConcat(datastore, hasFaults, blocks[..i + 1], blocks[i + 1..]);
            assert blocks[..i + 1] + blocks[i + 1..] == blocks;
            FirstFaultPrefix(pending + [(b.key, v.value)], Prepared(datastore, hasFaults, blocks[i + 1..]), batchPutFaults);
            return Some(batchPutFaults[b.key]);
          }
          pending := pending + [(b.key, v.value)];
        }
        i := i + 1;
      }
      assert blocks[..i] == blocks;
      if commitFault.Some? {
        return commitFault;
      }
      datastore := ApplyAll(datastore, pending);
      err := None;
    }
  }

  /** A record written for a file block reads back, through getNode, as
      unchecked exactly when it was given alternative data; otherwise it is
      decoded as a node from the block data it holds. */
  lemma PreparedRecordStatus(b: Block, has: Result<bool, Error>, fetched: Result<MultiStore.Block, Error>, c: Codec)
    requires b.FileBlock?
    ensures var d := PrepareBlock(b, has).value.obj;
      && (GetNode(Ok(d), fetched, c).2 == StatusUnchecked <==> b.altData.Some?)
      && (b.altData.None? ==> GetNode(Ok(d), fetched, c).0 == c.decodeNode(b.data))
  {
  }
}

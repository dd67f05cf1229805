/** The union ("multi") block store: an ordered list of named mounts.  Reads
    ask the mounts in order; Put, PutMany and DeleteBlock go to mount 0 only. */
module MultiStore {
  import opened Base

  datatype Block = Block(key: Key, data: Bytes)

  /** One mounted block store, given by its contents and by the answers it
      gives.  `keys` is the store's own enumeration order (what its
      AllKeysChan yields); `readFaults` are keys on which its Has and Get
      report an error; `writeFaults` are keys on which its Put and
      DeleteBlock fail; `enumFault` makes its AllKeysChan fail to start. */
  datatype Mount = Mount(
    prefix: string,
    keys: seq<Key>,
    blocks: map<Key, Block>,
    readFaults: map<Key, Error>,
    writeFaults: map<Key, Error>,
    enumFault: Option<Error>)

  /** A store lists each of its keys once, lists exactly its keys, and files
      every block under the block's own key. */
  ghost predicate WellFormed(m: Mount)
  {
    && Distinct(m.keys)
    && (forall k :: k in m.keys <==> k in m.blocks)
    && (forall k :: k in m.blocks ==> m.blocks[k].key == k)
  }

  /** The mount's own Has: whether it holds the key, and any error it reports. */
  function HasAt(m: Mount, k: Key): (bool, Option<Error>)
  {
    (k in m.blocks, if k in m.readFaults then Some(m.readFaults[k]) else None)
  }

  /** A mount answers Has with (true, nil). */
  predicate Present(m: Mount, k: Key)
  {
    HasAt(m, k) == (true, None)
  }

  /** The mount's own Get: an absent key is NotFound. */
  function GetAt(m: Mount, k: Key): (r: Result<Block, Error>)
    ensures r.Ok? <==> k in m.blocks && k !in m.readFaults
    ensures r.Ok? ==> r.value == m.blocks[k]
  {
    if k in m.readFaults then Err(m.readFaults[k])
    else if k in m.blocks then Ok(m.blocks[k])
    else Err(NotFound)
  }

  /** The error part of a mount's Get, as Locate reports it. */
  function GetErrorAt(m: Mount, k: Key): Option<Error>
  {
    match GetAt(m, k)
    case Ok(_) => None
    case Err(e) => Some(e)
  }

  /** Stores one block, with no fault check. */
  function Insert(m: Mount, b: Block): (r: Mount)
    ensures r.blocks == m.blocks[b.key := b]
    ensures r.prefix == m.prefix && r.readFaults == m.readFaults
    ensures r.writeFaults == m.writeFaults && r.enumFault == m.enumFault
  {
    m.(blocks := m.blocks[b.key := b],
       keys := if b.key in m.blocks then m.keys else m.keys + [b.key])
  }

  /** Stores blocks one after the other, so a later block wins on a shared key. */
  function InsertAll(m: Mount, bs: seq<Block>): Mount
    decreases |bs|
  {
    if bs == [] then m else InsertAll(Insert(m, bs[0]), bs[1..])
  }

  /** The mount's own Put. */
  function PutAt(m: Mount, b: Block): (Mount, Option<Error>)
  {
    if b.key in m.writeFaults then (m, Some(m.writeFaults[b.key]))
    else (Insert(m, b), None)
  }

  /** The write error of the first block in the batch that cannot be written. */
  function BatchFault(m: Mount, bs: seq<Block>): Option<Error>
  {
    FirstSome(seq(|bs|, i requires 0 <= i < |bs| =>
      if bs[i].key in m.writeFaults then Some(m.writeFaults[bs[i].key]) else None))
  }

  /** The mount's own PutMany: one batch, written whole or not at all. */
  function PutManyAt(m: Mount, bs: seq<Block>): (Mount, Option<Error>)
  {
    var fault := BatchFault(m, bs);
    if fault.Some? then (m, fault) else (InsertAll(m, bs), None)
  }

  /** The mount's own DeleteBlock; deleting an absent key changes nothing. */
  function DeleteAt(m: Mount, k: Key): (Mount, Option<Error>)
  {
    if k in m.writeFaults then (m, Some(m.writeFaults[k]))
    else (m.(blocks := m.blocks - {k}, keys := Without(m.keys, {k})), None)
  }

  /** The mount after all of `ks` have been deleted from it. */
  function DeleteMany(m: Mount, ks: set<Key>): (r: Mount)
    ensures r.prefix == m.prefix && r.writeFaults == m.writeFaults
  {
    m.(blocks := m.blocks - ks, keys := Without(m.keys, ks))
  }

  lemma DeleteManyNone(m: Mount)
    ensures DeleteMany(m, {}) == m
  {
    WithoutNothing(m.keys);
    assert m.blocks - {} == m.blocks;
  }

  lemma DeleteManyStep(m: Mount, ks: set<Key>, k: Key)
    requires k !in m.writeFaults
    ensures DeleteAt(DeleteMany(m, ks), k) == (DeleteMany(m, ks + {k}), None)
  {
    WithoutTwice(m.keys, ks, {k});
    assert m.blocks - ks - {k} == m.blocks - (ks + {k});
  }

  /** The mount's own AllKeysChan, as a finite sequence. */
  function KeysAt(m: Mount): Result<seq<Key>, Error>
  {
    if m.enumFault.Some? then Err(m.enumFault.value) else Ok(m.keys)
  }

  lemma InsertWellFormed(m: Mount, b: Block)
    requires WellFormed(m)
    ensures WellFormed(Insert(m, b))
    ensures Insert(m, b).keys[..|m.keys|] == m.keys
  {
    var r := Insert(m, b);
    if b.key !in m.blocks {
      forall i, j | 0 <= i < j < |r.keys| ensures r.keys[i] != r.keys[j] {
        if j == |m.keys| {
          assert r.keys[i] == m.keys[i];
        }
      }
    }
  }

  lemma {:induction false} InsertAllWellFormed(m: Mount, bs: seq<Block>)
    requires WellFormed(m)
    ensures WellFormed(InsertAll(m, bs))
    decreases |bs|
  {
    if bs != [] {
      InsertWellFormed(m, bs[0]);
      InsertAllWellFormed(Insert(m, bs[0]), bs[1..]);
    }
  }

  lemma DeleteWellFormed(m: Mount, k: Key)
    requires WellFormed(m)
    ensures WellFormed(DeleteAt(m, k).0)
  {
    WithoutDistinct(m.keys, {k});
  }

  /** The concatenation of the mounts' key sequences, in mount order. */
  function AllKeys(ms: seq<Mount>): seq<Key>
  {
    if ms == [] then [] else ms[0].keys + AllKeys(ms[1..])
  }

  /** A key is enumerated by the union iff some mount enumerates it. */
  lemma {:induction false} AllKeysMembers(ms: seq<Mount>, k: Key)
    ensures k in AllKeys(ms) <==> exists i :: 0 <= i < |ms| && k in ms[i].keys
  {
    if ms != [] {
      AllKeysMembers(ms[1..], k);
      if k in AllKeys(ms[1..]) {
        var i :| 0 <= i < |ms[1..]| && k in ms[1..][i].keys;
        assert k in ms[i + 1].keys;
      }
      if exists i :: 0 <= i < |ms| && k in ms[i].keys {
        var i :| 0 <= i < |ms| && k in ms[i].keys;
        if i > 0 {
          assert k in ms[1..][i - 1].keys;
        }
      }
    }
  }

  /** Some mount answers Has with (true, nil). */
  ghost predicate AnyPresent(ms: seq<Mount>, k: Key)
  {
    exists i :: 0 <= i < |ms| && Present(ms[i], k)
  }

  /** The blocks PutMany forwards: those not present anywhere, in input order. */
  ghost function Missing(ms: seq<Mount>, bs: seq<Block>): (r: seq<Block>)
    ensures forall b :: b in r <==> b in bs && !AnyPresent(ms, b.key)
  {
    if bs == [] then []
    else if AnyPresent(ms, bs[0].key) then Missing(ms, bs[1..])
    else [bs[0]] + Missing(ms, bs[1..])
  }

  lemma {:induction false} MissingSnoc(ms: seq<Mount>, bs: seq<Block>, b: Block)
    ensures Missing(ms, bs + [b]) == Missing(ms, bs) + (if AnyPresent(ms, b.key) then [] else [b])
  {
    if bs == [] {
      assert [b][1..] == [];
    } else {
      assert (bs + [b])[1..] == bs[1..] + [b];
      MissingSnoc(ms, bs[1..], b);
    }
  }

  datatype LocateInfo = LocateInfo(prefix: string, error: Option<Error>)

  class MultiBlockstore {
    var mounts: seq<Mount>

    ghost predicate Valid()
      reads this
    {
      forall i :: 0 <= i < |mounts| ==> WellFormed(mounts[i])
    }

    constructor (ms: seq<Mount>)
      requires forall i :: 0 <= i < |ms| ==> WellFormed(ms[i])
      ensures Valid() && mounts == ms
    {
      mounts := ms;
    }

    /** The cache mount, the only one written to. */
    function FirstMount(): (m: Mount)
      reads this
      requires |mounts| > 0
      ensures m == mounts[0] && m in mounts
    {
      mounts[0]
    }

    /** The mount prefixes, one per mount, in mount order. */
    method Mounts() returns (names: seq<string>)
      ensures |names| == |mounts|
      ensures forall i :: 0 <= i < |mounts| ==> names[i] == mounts[i].prefix
    {
      names := [];
      var i := 0;
      while i < |mounts|
        invariant 0 <= i <= |mounts|
        invariant |names| == i
        invariant forall j :: 0 <= j < i ==> names[j] == mounts[j].prefix
      {
        names := names + [mounts[i].prefix];
        i := i + 1;
      }
    }

    /** The store of the first mount named `prefix`, or nil. */
    method Mount(prefix: string) returns (r: Option<Mount>)
      ensures r.None? <==> forall i :: 0 <= i < |mounts| ==> mounts[i].prefix != prefix
      ensures r.Some? ==> exists i :: 0 <= i < |mounts| && mounts[i] == r.value
                            && mounts[i].prefix == prefix
                            && forall j :: 0 <= j < i ==> mounts[j].prefix != prefix
    {
      var i := 0;
      while i < |mounts|
        invariant 0 <= i <= |mounts|
        invariant forall j :: 0 <= j < i ==> mounts[j].prefix != prefix
      {
        if mounts[i].prefix == prefix {
          return Some(mounts[i]);
        }
        i := i + 1;
      }
      return None;
    }

    /** Deletes from mount 0 only. */
    method DeleteBlock(k: Key) returns (err: Option<Error>)
      requires Valid() && |mounts| > 0
      modifies this
      ensures Valid()
      ensures |mounts| == |old(mounts)| && mounts[1..] == old(mounts)[1..]
      ensures (mounts[0], err) == DeleteAt(old(mounts)[0], k)
    {
      DeleteWellFormed(mounts[0], k);
      var (m0, e) := DeleteAt(mounts[0], k);
      mounts := mounts[0 := m0];
      err := e;
    }

    /** Has: (true, nil) iff some mount says so; otherwise false with the
        first error met in mount order, if any. */
    method Has(k: Key) returns (have: bool, err: Option<Error>)
      ensures have <==> AnyPresent(mounts, k)
      ensures have ==> err.None?
      ensures !have ==> (err.None? <==> forall i :: 0 <= i < |mounts| ==> HasAt(mounts[i], k).1.None?)
      ensures !have && err.Some? ==>
        exists i :: 0 <= i < |mounts| && HasAt(mounts[i], k).1 == err
          && forall j :: 0 <= j < i ==> HasAt(mounts[j], k).1.None?
    {
      var firstErr: Option<Error> := None;
      var i := 0;
      while i < |mounts|
        invariant 0 <= i <= |mounts|
        invariant forall j :: 0 <= j < i ==> !Present(mounts[j], k)
        invariant firstErr.None? <==> forall j :: 0 <= j < i ==> HasAt(mounts[j], k).1.None?
        invariant firstErr.Some? ==>
          exists j :: 0 <= j < i && HasAt(mounts[j], k).1 == firstErr
            && forall l :: 0 <= l < j ==> HasAt(mounts[l], k).1.None?
      {
        var (h, e) := HasAt(mounts[i], k);
        if h && e.None? {
          return true, None;
        }
        if e.Some? && firstErr.None? {
          firstErr := e;
        }
        i := i + 1;
      }
      return false, firstErr;
    }

    /** Get: the block of the first mount that has it; when every mount
        fails, the first error other than NotFound, else NotFound (and no
        error at all when there are no mounts). */
    method Get(k: Key) returns (blk: Option<Block>, err: Option<Error>)
      ensures blk.Some? <==> exists i :: 0 <= i < |mounts| && GetAt(mounts[i], k).Ok?
      ensures blk.Some? ==> err.None?
      ensures blk.Some? ==>
        exists i :: 0 <= i < |mounts| && GetAt(mounts[i], k) == Ok(blk.value)
          && forall j :: 0 <= j < i ==> GetAt(mounts[j], k).Err?
      ensures blk.None? && (exists i :: 0 <= i < |mounts| && GetAt(mounts[i], k) != Err(NotFound)) ==>
        exists i :: 0 <= i < |mounts| && err.Some? && GetAt(mounts[i], k) == Err(err.value) && err != Some(NotFound)
          && forall j :: 0 <= j < i ==> GetAt(mounts[j], k) == Err(NotFound)
      ensures blk.None? && (forall i :: 0 <= i < |mounts| ==> GetAt(mounts[i], k) == Err(NotFound)) ==>
        err == if mounts == [] then None else Some(NotFound)
    {
      var firstErr: Option<Error> := None;
      var i := 0;
      while i < |mounts|
        invariant 0 <= i <= |mounts|
        invariant forall j :: 0 <= j < i ==> GetAt(mounts[j], k).Err?
        invariant firstErr.None? <==> i == 0
        invariant (forall j :: 0 <= j < i ==> GetAt(mounts[j], k) == Err(NotFound)) ==>
          firstErr.None? || firstErr == Some(NotFound)
        invariant firstErr.Some? && firstErr != Some(NotFound) ==>
          exists j :: 0 <= j < i && GetAt(mounts[j], k) == Err(firstErr.value)
            && forall l :: 0 <= l < j ==> GetAt(mounts[l], k) == Err(NotFound)
        invariant firstErr == Some(NotFound) ==>
          forall j :: 0 <= j < i ==> GetAt(mounts[j], k) == Err(NotFound)
      {
        var r := GetAt(mounts[i], k);
        if r.Ok? {
          return Some(r.value), None;
        }
        if firstErr.None? || firstErr == Some(NotFound) {
          firstErr := Some(r.error);
        }
        i := i + 1;
      }
      return None, firstErr;
    }

    /** One entry per mount, in mount order: its prefix and its Get error. */
    method Locate(k: Key) returns (res: seq<LocateInfo>)
      ensures |res| == |mounts|
      ensures forall i :: 0 <= i < |mounts| ==>
        res[i] == LocateInfo(mounts[i].prefix, GetErrorAt(mounts[i], k))
    {
      res := [];
      var i := 0;
      while i < |mounts|
        invariant 0 <= i <= |mounts|
        invariant |res| == i
        invariant forall j :: 0 <= j < i ==> res[j] == LocateInfo(mounts[j].prefix, GetErrorAt(mounts[j], k))
      {
        res := res + [LocateInfo(mounts[i].prefix, GetErrorAt(mounts[i], k))];
        i := i + 1;
      }
    }

    /** Put: nothing is written when Has reports the key present without
        error; otherwise the block goes to mount 0. */
    method Put(blk: Block) returns (err: Option<Error>)
      requires Valid() && |mounts| > 0
      modifies this
      ensures Valid()
      ensures AnyPresent(old(mounts), blk.key) ==> mounts == old(mounts) && err.None?
      ensures !AnyPresent(old(mounts), blk.key) ==>
        |mounts| == |old(mounts)| && mounts[1..] == old(mounts)[1..]
        && (mounts[0], err) == PutAt(old(mounts)[0], blk)
    {
      var found, e := Has(blk.key);
      if e.None? && found {
        return None;
      }
      var (m0, e0) := PutAt(mounts[0], blk);
      if e0.None? {
        InsertWellFormed(mounts[0], blk);
      }
      mounts := mounts[0 := m0];
      err := e0;
    }

    /** PutMany: forwards to mount 0, as one batch, exactly the blocks not
        already present, in input order; with none left, no call is made. */
    method PutMany(blks: seq<Block>) returns (err: Option<Error>)
      requires Valid() && |mounts| > 0
      modifies this
      ensures Valid()
      ensures Missing(old(mounts), blks) == [] ==> mounts == old(mounts) && err.None?
      ensures Missing(old(mounts), blks) != [] ==>
        |mounts| == |old(mounts)| && mounts[1..] == old(mounts)[1..]
        && (mounts[0], err) == PutManyAt(old(mounts)[0], Missing(old(mounts), blks))
    {
      var stilladd: seq<Block> := [];
      var i := 0;
      while i < |blks|
        invariant 0 <= i <= |blks|
        invariant mounts == old(mounts) && Valid()
        invariant stilladd == Missing(mounts, blks[..i])
      {
        var found, e := Has(blks[i].key);
        assert blks[..i + 1] == blks[..i] + [blks[i]];
        MissingSnoc(mounts, blks[..i], blks[i]);
        if !(e.None? && found) {
          stilladd := stilladd + [blks[i]];
        }
        i := i + 1;
      }
      assert blks[..i] == blks;
      if |stilladd| == 0 {
        return None;
      }
      var (m0, e0) := PutManyAt(mounts[0], stilladd);
      if e0.None? {
        InsertAllWellFormed(mounts[0], stilladd);
      }
      mounts := mounts[0 := m0];
      err := e0;
    }

    /** AllKeysChan: fails, yielding nothing, if any mount cannot start its
        enumeration; otherwise the mounts' key sequences one after another. */
    method AllKeysChan() returns (r: Result<seq<Key>, Error>)
      ensures r.Err? <==> exists i :: 0 <= i < |mounts| && KeysAt(mounts[i]).Err?
      ensures r.Err? ==> exists i :: 0 <= i < |mounts| && KeysAt(mounts[i]) == Err(r.error)
                           && forall j :: 0 <= j < i ==> KeysAt(mounts[j]).Ok?
      ensures r.Ok? ==> r.value == AllKeys(mounts)
    {
      var ins: seq<seq<Key>> := [];
      var i := 0;
      while i < |mounts|
        invariant 0 <= i <= |mounts|
        invariant |ins| == i
        invariant forall j :: 0 <= j < i ==> KeysAt(mounts[j]) == Ok(ins[j])
      {
        var ch := KeysAt(mounts[i]);
        if ch.Err? {
          return Err(ch.error);
        }
        ins := ins + [ch.value];
        i := i + 1;
      }
      // the merging producer: relay each mount's keys, mount after mount
      var out: seq<Key> := [];
      var j := 0;
      while j < |ins|
        invariant 0 <= j <= |ins|
        invariant out + AllKeys(mounts[j..]) == AllKeys(mounts)
      {
        assert mounts[j..][1..] == mounts[j + 1..];
        out := out + ins[j];
        j := j + 1;
      }
      assert mounts[j..] == [];
      r := Ok(out);
    }
  }
}

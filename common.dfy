/** The filestore's status taxonomy, its listing and formatting of records,
    and the classification of lookup and verification errors into statuses. */
module FilestoreCommon {
  import opened Base
  import MultiStore

  // ---------------------------------------------------------------------
  // Status codes: the tens digit is the family
  // (0x no error, 1x block error, 2x non-block error, 3x database error,
  // 9x unchecked).

  type Status = int

  const StatusDefault: Status := 0
  const StatusOk: Status := 1
  const StatusFound: Status := 2
  const StatusAppended: Status := 3
  const StatusOrphan: Status := 4
  const StatusFileError: Status := 10
  const StatusFileMissing: Status := 11
  const StatusFileChanged: Status := 12
  const StatusIncomplete: Status := 20
  const StatusError: Status := 30
  const StatusKeyNotFound: Status := 31
  const StatusCorrupt: Status := 32
  const StatusUnchecked: Status := 90
  const StatusComplete: Status := 91

  /** The codes the taxonomy names. */
  predicate Known(s: Status)
  {
    s in {StatusDefault, StatusOk, StatusFound, StatusAppended, StatusOrphan,
          StatusFileError, StatusFileMissing, StatusFileChanged, StatusIncomplete,
          StatusError, StatusKeyNotFound, StatusCorrupt, StatusUnchecked, StatusComplete}
  }

  /** The family of a code: its tens digit. */
  function Family(s: Status): int
  {
    s / 10
  }

  predicate AnInternalError(s: Status)
  {
    s == StatusError || s == StatusCorrupt
  }

  predicate AnError(s: Status)
  {
    10 <= s < 90
  }

  predicate OfInterest(s: Status)
  {
    s != StatusOk && s != StatusUnchecked && s != StatusComplete
  }

  /** For the named codes, the predicates follow the families: an error is a
      1x, 2x or 3x code, an internal error is a 3x error other than a missing
      key, and only ok, unchecked and complete are of no interest. */
  lemma StatusFamilies(s: Status)
    requires Known(s)
    ensures AnError(s) <==> Family(s) in {1, 2, 3}
    ensures AnInternalError(s) <==> Family(s) == 3 && s != StatusKeyNotFound
    ensures AnInternalError(s) ==> AnError(s)
    ensures !OfInterest(s) <==> s in {StatusOk, StatusUnchecked, StatusComplete}
    ensures !AnError(s) ==> Family(s) in {0, 9}
  {
  }

  /** The fixed-width label of a status. */
  function StatusLabel(s: Status): string
  {
    if s == 0 then ""
    else if s == StatusOk then "ok       "
    else if s == StatusFound then "found    "
    else if s == StatusAppended then "appended "
    else if s == StatusOrphan then "orphan   "
    else if s == StatusFileError then "error    "
    else if s == StatusFileMissing then "no-file  "
    else if s == StatusFileChanged then "changed  "
    else if s == StatusIncomplete then "incomplete "
    else if s == StatusError then "ERROR    "
    else if s == StatusKeyNotFound then "missing  "
    else if s == StatusCorrupt then "ERROR    "
    else if s == StatusUnchecked then "         "
    else if s == StatusComplete then "complete "
    else "??       "
  }

  /** Every label but that of status 0 is nine characters wide, except
      "incomplete ", which is eleven; unknown codes share the "??" label. */
  lemma LabelWidths(s: Status)
    ensures s == 0 ==> StatusLabel(s) == ""
    ensures s != 0 && s != StatusIncomplete ==> |StatusLabel(s)| == 9
    ensures s == StatusIncomplete ==> |StatusLabel(s)| == 11
    ensures !Known(s) ==> StatusLabel(s) == "??       "
    ensures StatusLabel(s) != [] ==> StatusLabel(s)[0] != ' ' || s == StatusUnchecked
  {
  }

  /** s with its trailing spaces removed. */
  function TrimRight(s: string): (r: string)
    ensures |r| <= |s| && r == s[..|r|]
    ensures forall i :: |r| <= i < |s| ==> s[i] == ' '
    ensures r == [] || r[|r| - 1] != ' '
  {
    if s == [] || s[|s| - 1] != ' ' then s
    else TrimRight(s[..|s| - 1])
  }

  /** The status as a word: the label without padding, "unchecked" when
      nothing is left. */
  function StatusStr(s: Status): string
  {
    var str := TrimRight(StatusLabel(s));
    if str == "" then "unchecked" else str
  }

  /** StatusStr never yields the empty string, strips only padding, and
      names both the default status and the unchecked one "unchecked". */
  lemma StatusStrMeaning(s: Status)
    ensures StatusStr(s) != ""
    ensures StatusStr(0) == "unchecked" && StatusStr(StatusUnchecked) == "unchecked"
    ensures s != 0 && s != StatusUnchecked ==>
      |StatusStr(s)| <= |StatusLabel(s)| && StatusStr(s) == StatusLabel(s)[..|StatusStr(s)|]
      && forall i :: |StatusStr(s)| <= i < |StatusLabel(s)| ==> StatusLabel(s)[i] == ' '
  {
    var t := TrimRight(StatusLabel(StatusUnchecked));
    assert StatusLabel(StatusUnchecked) == "         ";
    TrimSpaces(StatusLabel(StatusUnchecked));
    if s != 0 && s != StatusUnchecked {
      LabelWidths(s);
      assert StatusLabel(s)[0] != ' ';
      assert TrimRight(StatusLabel(s)) != [];
    }
  }

  /** A string of spaces only trims to nothing. */
  lemma {:induction false} TrimSpaces(s: string)
    requires forall i :: 0 <= i < |s| ==> s[i] == ' '
    ensures TrimRight(s) == []
  {
    if s != [] {
      TrimSpaces(s[..|s| - 1]);
    }
  }

  // ---------------------------------------------------------------------
  // Records and their formatting

  datatype Flag = NoBlockData | WholeFile | FileRoot

  /** The metadata record of a file-backed block; its byte encoding is not
      part of this model. */
  datatype DataObj = DataObj(
    filePath: string,
    offset: nat,
    size: nat,
    modTime: int,
    flags: set<Flag>,
    data: Bytes)

  /** A decoded DAG node; the protobuf encoding is not part of this model. */
  datatype Node = Node(links: seq<Key>, data: Bytes)

  /** The helpers from packages this model does not include: key
      conversions, base58, record decoding and formatting, node decoding. */
  datatype Codec = Codec(
    keyFromDsKey: string -> Result<Key, Error>,
    dsKey: Key -> string,
    b58: Key -> string,
    decode: Bytes -> Option<DataObj>,
    objFormat: DataObj -> string,
    decodeNode: Bytes -> Option<Node>)

  /** One scanned record: its datastore key ("/" followed by the raw hash),
      its record when there is one, and its status. */
  datatype ListRes = ListRes(key: string, obj: Option<DataObj>, status: Status)

  /** "root" for a whole-file record, "leaf" otherwise. */
  function What(r: ListRes): (w: string)
    requires r.obj.Some?
    ensures w == "root" <==> WholeFile in r.obj.value.flags
    ensures w == "root" || w == "leaf"
  {
    if WholeFile in r.obj.value.flags then "root" else "leaf"
  }

  /** The raw hash: the key without its leading "/". */
  function RawHash(r: ListRes): string
  {
    if r.key == [] then [] else r.key[1..]
  }

  /** The base58 hash of the key, or 46 question marks when the key does not
      decode. */
  function MHash(r: ListRes, c: Codec): string
  {
    match c.keyFromDsKey(r.key)
    case Ok(k) => c.b58(k)
    case Err(_) => "??????????????????????????????????????????????"
  }

  /** One output line: label, hash and, when there is a record, a space and
      the record's own summary; a bare newline for an empty hash. */
  function Format(r: ListRes, c: Codec): (line: string)
    ensures |line| > 0 && line[|line| - 1] == '\n'
    ensures RawHash(r) == [] ==> line == "\n"
    ensures RawHash(r) != [] ==>
      |StatusLabel(r.status)| < |line| && line[..|StatusLabel(r.status)|] == StatusLabel(r.status)
    ensures RawHash(r) != [] && r.obj.None? ==> line == StatusLabel(r.status) + MHash(r, c) + "\n"
    ensures RawHash(r) != [] && r.obj.Some? ==>
      line == StatusLabel(r.status) + MHash(r, c) + " " + c.objFormat(r.obj.value) + "\n"
  {
    if RawHash(r) == [] then "\n"
    else
      var lbl := StatusLabel(r.status);
      var tail := if r.obj.None? then MHash(r, c) + "\n"
                  else MHash(r, c) + " " + c.objFormat(r.obj.value) + "\n";
      assert (lbl + tail)[..|lbl|] == lbl;
      lbl + tail
  }

  /** A line holds a single newline, its last character, whenever neither
      the hash nor the record's summary holds one. */
  lemma FormatOneLine(r: ListRes, c: Codec)
    requires '\n' !in MHash(r, c)
    requires r.obj.Some? ==> '\n' !in c.objFormat(r.obj.value)
    ensures '\n' !in Format(r, c)[..|Format(r, c)| - 1]
  {
    var line := Format(r, c);
    if RawHash(r) != [] {
      var lbl := StatusLabel(r.status);
      LabelNoNewline(r.status);
      if r.obj.None? {
        assert line[..|line| - 1] == lbl + MHash(r, c);
      } else {
        assert line[..|line| - 1] == lbl + MHash(r, c) + " " + c.objFormat(r.obj.value);
      }
    }
  }

  lemma LabelNoNewline(s: Status)
    ensures '\n' !in StatusLabel(s)
  {
  }

  // ---------------------------------------------------------------------
  // Listing

  /** The filestore database in iteration order: datastore key and raw value. */
  type DbEntries = seq<(string, Bytes)>

  /** The record List builds for each database entry (an undecodable value
      gives no record), with the default status. */
  function Records(entries: DbEntries, c: Codec): (rs: seq<ListRes>)
    ensures |rs| == |entries|
    ensures forall i :: 0 <= i < |entries| ==>
      rs[i] == ListRes(entries[i].0, c.decode(entries[i].1), StatusDefault)
  {
    seq(|entries|, i requires 0 <= i < |entries| => ListRes(entries[i].0, c.decode(entries[i].1), StatusDefault))
  }

  /** ListKeys: every key of the database, in order, with no record. */
  method ListKeys(entries: DbEntries) returns (out: seq<ListRes>)
    ensures |out| == |entries|
    ensures forall i :: 0 <= i < |entries| ==> out[i] == ListRes(entries[i].0, None, StatusDefault)
  {
    out := [];
    var i := 0;
    while i < |entries|
      invariant 0 <= i <= |entries|
      invariant |out| == i
      invariant forall j :: 0 <= j < i ==> out[j] == ListRes(entries[j].0, None, StatusDefault)
    {
      out := out + [ListRes(entries[i].0, None, StatusDefault)];
      i := i + 1;
    }
  }

  /** List: exactly the records the filter accepts, in iteration order. */
  method List(entries: DbEntries, c: Codec, filter: ListRes -> bool) returns (out: seq<ListRes>)
    ensures out == Filter(Records(entries, c), filter)
  {
    out := [];
    var i := 0;
    while i < |entries|
      invariant 0 <= i <= |entries|
      invariant out == Filter(Records(entries, c)[..i], filter)
    {
      var res := ListRes(entries[i].0, c.decode(entries[i].1), StatusDefault);
      assert Records(entries, c)[..i + 1] == Records(entries, c)[..i] + [res];
      FilterSnoc(Records(entries, c)[..i], res, filter);
      if filter(res) {
        out := out + [res];
      }
      i := i + 1;
    }
    assert Records(entries, c)[..i] == Records(entries, c);
  }

  method ListAll(entries: DbEntries, c: Codec) returns (out: seq<ListRes>)
    ensures out == Records(entries, c)
  {
    out := List(entries, c, _ => true);
    FilterAll(Records(entries, c));
  }

  lemma {:induction false} FilterAll(s: seq<ListRes>)
    ensures Filter(s, _ => true) == s
  {
    if s != [] {
      FilterAll(s[1..]);
    }
  }

  /** A whole-file record. */
  predicate IsWholeFile(r: ListRes)
  {
    r.obj.Some? && WholeFile in r.obj.value.flags
  }

  /** ListWholeFile: the whole-file records only.  The source's filter reads
      the flags of the record, so every value must decode. */
  method ListWholeFile(entries: DbEntries, c: Codec) returns (out: seq<ListRes>)
    requires forall i :: 0 <= i < |entries| ==> c.decode(entries[i].1).Some?
    ensures out == Filter(Records(entries, c), IsWholeFile)
    ensures forall r :: r in out <==> r in Records(entries, c) && WholeFile in r.obj.value.flags
  {
    out := List(entries, c, IsWholeFile);
  }

  /** The filestore's GetDirect: the decoded record stored under a key. */
  function GetDirect(db: map<string, Bytes>, dsKey: string, c: Codec): (r: Result<DataObj, Error>)
    ensures r.Ok? <==> dsKey in db && c.decode(db[dsKey]).Some?
    ensures r.Ok? ==> r.value == c.decode(db[dsKey]).value
    ensures r == Err(NotFound) <==> dsKey !in db
  {
    if dsKey !in db then Err(NotFound)
    else match c.decode(db[dsKey])
      case Some(o) => Ok(o)
      case None => Err(Failure("cannot decode record"))
  }

  /** The keys GetDirect finds, in input order, as records. */
  ghost function Found(db: map<string, Bytes>, keys: seq<Key>, c: Codec): seq<ListRes>
  {
    if keys == [] then []
    else
      var dk := c.dsKey(keys[0]);
      var rest := Found(db, keys[1..], c);
      match GetDirect(db, dk, c)
      case Ok(o) => [ListRes(dk, Some(o), StatusDefault)] + rest
      case Err(_) => rest
  }

  lemma {:induction false} FoundSnoc(db: map<string, Bytes>, keys: seq<Key>, k: Key, c: Codec)
    ensures Found(db, keys + [k], c) == Found(db, keys, c) +
      match GetDirect(db, c.dsKey(k), c)
      case Ok(o) => [ListRes(c.dsKey(k), Some(o), StatusDefault)]
      case Err(_) => []
  {
    if keys == [] {
      assert [k][1..] == [];
    } else {
      assert (keys + [k])[1..] == keys[1..] + [k];
      FoundSnoc(db, keys[1..], k, c);
    }
  }

  /** Every record Found returns is one GetDirect finds for one of the keys. */
  lemma {:induction false} FoundMeaning(db: map<string, Bytes>, keys: seq<Key>, c: Codec)
    ensures |Found(db, keys, c)| <= |keys|
    ensures forall r :: r in Found(db, keys, c) ==>
      r.obj.Some? && r.status == StatusDefault
      && (exists k :: k in keys && r.key == c.dsKey(k)) && GetDirect(db, r.key, c) == Ok(r.obj.value)
  {
    if keys != [] {
      FoundMeaning(db, keys[1..], c);
    }
  }

  /** ListByKey: for each key in input order, its record when GetDirect finds it. */
  method ListByKey(db: map<string, Bytes>, keys: seq<Key>, c: Codec) returns (out: seq<ListRes>)
    ensures out == Found(db, keys, c)
  {
    out := [];
    var i := 0;
    while i < |keys|
      invariant 0 <= i <= |keys|
      invariant out == Found(db, keys[..i], c)
    {
      var dsKey := c.dsKey(keys[i]);
      var dataObj := GetDirect(db, dsKey, c);
      assert keys[..i + 1] == keys[..i] + [keys[i]];
      FoundSnoc(db, keys[..i], keys[i], c);
      if dataObj.Ok? {
        out := out + [ListRes(dsKey, Some(dataObj.value), StatusDefault)];
      }
      i := i + 1;
    }
    assert keys[..i] == keys;
  }

  // ---------------------------------------------------------------------
  // Classification

  /** verify: the status of a record from the error its data fetch gave. */
  function Verify(err: Option<Error>): (s: Status)
    ensures s in {StatusOk, StatusFileError, StatusFileMissing, StatusFileChanged}
    ensures s == StatusOk <==> err.None?
    ensures AnError(s) <==> err.Some?
    ensures OfInterest(s) <==> err.Some?
    ensures !AnInternalError(s)
    ensures s == StatusFileMissing <==> err == Some(NotExist)
    ensures s == StatusFileChanged <==> err in {Some(InvalidBlock), Some(EOF), Some(UnexpectedEOF)}
  {
    match err
    case None => StatusOk
    case Some(NotExist) => StatusFileMissing
    case Some(e) =>
      if e == InvalidBlock || e == EOF || e == UnexpectedEOF then StatusFileChanged
      else StatusFileError
  }

  /** getNode: find the node for a key, first as a filestore record, then in
      the blockstore.  `direct` is what GetDirect gave; `fetched` is what the
      blockstore's Get gives, consulted only when there is no record. */
  function GetNode(direct: Result<DataObj, Error>, fetched: Result<MultiStore.Block, Error>, c: Codec)
    : (r: (Option<Node>, Option<DataObj>, Status))
    ensures r.2 in {StatusOk, StatusFound, StatusKeyNotFound, StatusError, StatusCorrupt, StatusUnchecked}
    ensures r.0.Some? <==> r.2 in {StatusOk, StatusFound}
    ensures r.1.Some? <==> r.2 in {StatusOk, StatusUnchecked}
    ensures r.1.Some? ==> direct == Ok(r.1.value)
    ensures r.2 == StatusUnchecked <==> direct.Ok? && NoBlockData in direct.value.flags
    ensures r.2 == StatusKeyNotFound <==> direct == Err(NotFound) && fetched == Err(NotFound)
    ensures r.2 == StatusError <==> direct.Err? && fetched.Err? && !(direct == Err(NotFound) && fetched == Err(NotFound))
    ensures r.2 == StatusOk <==>
      direct.Ok? && NoBlockData !in direct.value.flags && c.decodeNode(direct.value.data).Some?
    ensures r.2 == StatusFound <==> direct.Err? && fetched.Ok? && c.decodeNode(fetched.value.data).Some?
    ensures r.2 == StatusCorrupt <==>
      || (direct.Ok? && NoBlockData !in direct.value.flags && c.decodeNode(direct.value.data).None?)
      || (direct.Err? && fetched.Ok? && c.decodeNode(fetched.value.data).None?)
    ensures r.2 == StatusFound ==> r.0 == c.decodeNode(fetched.value.data)
    ensures r.2 == StatusOk ==> r.0 == c.decodeNode(direct.value.data)
  {
    if direct.Ok? then
      if NoBlockData in direct.value.flags then (None, Some(direct.value), StatusUnchecked)
      else match c.decodeNode(direct.value.data)
        case None => (None, None, StatusCorrupt)
        case Some(n) => (Some(n), Some(direct.value), StatusOk)
    else if direct.error == NotFound && fetched == Err(NotFound) then (None, None, StatusKeyNotFound)
    else if fetched.Err? then (None, None, StatusError)
    else match c.decodeNode(fetched.value.data)
      case None => (None, None, StatusCorrupt)
      case Some(n) => (Some(n), None, StatusFound)
  }
}

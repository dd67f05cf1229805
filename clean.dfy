/** Planning and running a filestore clean: the requested kinds expand into
    a stage mask, the statuses to remove and the kinds that make a file
    incomplete; the stage mask selects one verification; the verified
    records marked for removal become candidate keys; and each candidate is
    removed only if its record has not changed since the snapshot. */
module FilestoreClean {
  import opened Base
  import opened FilestoreCommon

  // ---------------------------------------------------------------------
  // Kinds

  /** The kinds of problem Clean accepts; the first two are compound. */
  datatype Kind = Invalid | Full | Changed | NoFile | FileError | Incomplete | Orphan

  /** The argument each kind is written as. */
  function Name(k: Kind): string
  {
    match k
    case Invalid => "invalid"
    case Full => "full"
    case Changed => "changed"
    case NoFile => "no-file"
    case FileError => "error"
    case Incomplete => "incomplete"
    case Orphan => "orphan"
  }

  /** The arguments the switch recognises. */
  const KindByName: map<string, Kind> := map[
    "invalid" := Invalid, "full" := Full, "changed" := Changed, "no-file" := NoFile,
    "error" := FileError, "incomplete" := Incomplete, "orphan" := Orphan]

  /** The switch on an argument: the kind it names, if any. */
  function KindOf(w: string): (r: Option<Kind>)
  {
    if w in KindByName then Some(KindByName[w]) else None
  }

  /** Every kind is recognised by its own name. */
  lemma KindOfName(k: Kind)
    ensures KindOf(Name(k)) == Some(k)
  {
  }

  /** Kinds of problem with a block itself. */
  const BlockKinds: set<Kind> := {Changed, NoFile, FileError}

  /** Kinds that name a single problem. */
  const PrimitiveKinds: set<Kind> := {Changed, NoFile, FileError, Incomplete, Orphan}

  predicate ValidKind(w: string)
  {
    KindOf(w).Some?
  }

  predicate IsBlockKind(w: string)
  {
    KindOf(w).Some? && KindOf(w).value in BlockKinds
  }

  /** What a compound kind appends to the list being planned. */
  function Expansion(k: Kind): seq<string>
  {
    if k == Invalid then [Name(Changed), Name(NoFile)]
    else if k == Full then [Name(Invalid), Name(Incomplete), Name(Orphan)]
    else []
  }

  /** The primitive kinds one argument asks for. */
  function Requested(w: string): set<Kind>
  {
    match KindOf(w)
    case None => {}
    case Some(Invalid) => {Changed, NoFile}
    case Some(Full) => {Changed, NoFile, Incomplete, Orphan}
    case Some(k) => {k}
  }

  /** The primitive kinds a list of arguments asks for. */
  ghost function RequestedAll(s: seq<string>): set<Kind>
  {
    if s == [] then {} else RequestedAll(s[..|s| - 1]) + Requested(s[|s| - 1])
  }

  /** The primitive kinds named literally in a list. */
  ghost function Primitives(s: seq<string>): set<Kind>
  {
    if s == [] then {}
    else Primitives(s[..|s| - 1]) + (if KindOf(s[|s| - 1]).Some? && KindOf(s[|s| - 1]).value in PrimitiveKinds
                                     then {KindOf(s[|s| - 1]).value} else {})
  }

  lemma {:induction false} PrimitivesMembers(s: seq<string>)
    ensures forall k :: k in Primitives(s) <==> Name(k) in s && k in PrimitiveKinds
  {
    if s != [] {
      var init, w := s[..|s| - 1], s[|s| - 1];
      PrimitivesMembers(init);
      assert s == init + [w];
      forall k ensures k in Primitives(s) <==> Name(k) in s && k in PrimitiveKinds {
        KindOfName(k);
        assert Name(k) in s <==> Name(k) in init || Name(k) == w;
        if KindOf(w).Some? {
          NameOfKind(w);
        }
      }
    }
  }

  lemma {:induction false} RequestedConcat(a: seq<string>, b: seq<string>)
    ensures RequestedAll(a + b) == RequestedAll(a) + RequestedAll(b)
  {
    if b == [] {
      assert a + b == a;
    } else {
      assert (a + b)[..|a + b| - 1] == a + b[..|b| - 1];
      RequestedConcat(a, b[..|b| - 1]);
    }
  }

  /** A list of valid arguments asks for something exactly when it is not empty. */
  lemma {:induction false} RequestedNonEmpty(s: seq<string>)
    requires forall i :: 0 <= i < |s| ==> ValidKind(s[i])
    ensures RequestedAll(s) == {} <==> s == []
  {
    if s != [] {
      var w := s[|s| - 1];
      assert ValidKind(w);
      var k := KindOf(w).value;
      assert Requested(w) == match k
        case Invalid => {Changed, NoFile}
        case Full => {Changed, NoFile, Incomplete, Orphan}
        case _ => {k};
      assert Requested(w) != {};
    }
  }

  lemma {:induction false} RequestedPrimitive(s: seq<string>)
    ensures RequestedAll(s) <= PrimitiveKinds
  {
    if s != [] {
      RequestedPrimitive(s[..|s| - 1]);
    }
  }

  lemma RequestedTwo(a: string, b: string)
    ensures RequestedAll([a, b]) == Requested(a) + Requested(b)
  {
    assert [a, b][..1] == [a] && [a][..0] == [];
    assert RequestedAll([a]) == Requested(a);
  }

  lemma RequestedThree(a: string, b: string, c: string)
    ensures RequestedAll([a, b, c]) == Requested(a) + Requested(b) + Requested(c)
  {
    assert [a, b, c][..2] == [a, b];
    RequestedTwo(a, b);
  }

  /** Expanding a compound kind asks for what the kind itself asks for. */
  lemma ExpansionRequests(w: string)
    requires KindOf(w) in {Some(Invalid), Some(Full)}
    ensures RequestedAll(Expansion(KindOf(w).value)) == Requested(w)
  {
    KindOfName(Changed);
    KindOfName(NoFile);
    KindOfName(Invalid);
    KindOfName(Incomplete);
    KindOfName(Orphan);
    if KindOf(w) == Some(Invalid) {
      RequestedTwo(Name(Changed), Name(NoFile));
    } else {
      RequestedThree(Name(Invalid), Name(Incomplete), Name(Orphan));
    }
  }

  /** An argument's share of the planning loop's work: compound kinds count
      for what they expand into. */
  function Weight(w: string): nat
  {
    match KindOf(w)
    case Some(Full) => 6
    case Some(Invalid) => 3
    case _ => 1
  }

  function TotalWeight(s: seq<string>): nat
  {
    if s == [] then 0 else TotalWeight(s[..|s| - 1]) + Weight(s[|s| - 1])
  }

  lemma {:induction false} WeightConcat(a: seq<string>, b: seq<string>)
    ensures TotalWeight(a + b) == TotalWeight(a) + TotalWeight(b)
  {
    if b == [] {
      assert a + b == a;
    } else {
      assert (a + b)[..|a + b| - 1] == a + b[..|b| - 1];
      WeightConcat(a, b[..|b| - 1]);
    }
  }

  lemma WeightTwo(a: string, b: string)
    ensures TotalWeight([a, b]) == Weight(a) + Weight(b)
  {
    assert [a, b][..1] == [a] && [a][..0] == [];
    assert TotalWeight([a]) == Weight(a);
  }

  lemma WeightThree(a: string, b: string, c: string)
    ensures TotalWeight([a, b, c]) == Weight(a) + Weight(b) + Weight(c)
  {
    assert [a, b, c][..2] == [a, b];
    WeightTwo(a, b);
  }

  /** Expanding a compound kind leaves one unit less work. */
  lemma ExpansionWeight(w: string)
    requires KindOf(w) in {Some(Invalid), Some(Full)}
    ensures TotalWeight(Expansion(KindOf(w).value)) == Weight(w) - 1
  {
    KindOfName(Changed);
    KindOfName(NoFile);
    KindOfName(Invalid);
    KindOfName(Incomplete);
    KindOfName(Orphan);
    if KindOf(w) == Some(Invalid) {
      WeightTwo(Name(Changed), Name(NoFile));
    } else {
      WeightThree(Name(Invalid), Name(Incomplete), Name(Orphan));
    }
  }

  /** A turn of the planning loop leaves less work: a primitive argument
      by itself, a compound one with its expansion appended. */
  lemma ExpandWeight(what: seq<string>, i: nat)
    requires i < |what|
    ensures TotalWeight(what[i + 1..]) < TotalWeight(what[i..])
    ensures KindOf(what[i]) in {Some(Invalid), Some(Full)} ==>
      TotalWeight((what + Expansion(KindOf(what[i]).value))[i + 1..]) < TotalWeight(what[i..])
  {
    RestStep(what, i);
    if KindOf(what[i]) in {Some(Invalid), Some(Full)} {
      SliceAppend(what, Expansion(KindOf(what[i]).value), i + 1);
      StepExpand(what[i + 1..], what[i]);
    }
  }

  /** The list the planning loop walks, from position i on: each compound
      argument appends its expansion to the end of the list. */
  ghost function ExpandFrom(what: seq<string>, i: nat): seq<string>
    requires i <= |what|
    decreases TotalWeight(what[i..])
  {
    if i == |what| then what
    else
      ExpandWeight(what, i);
      if KindOf(what[i]) in {Some(Invalid), Some(Full)} then ExpandFrom(what + Expansion(KindOf(what[i]).value), i + 1)
      else ExpandFrom(what, i + 1)
  }

  /** The whole list the planning loop walks for the arguments what0. */
  ghost function Expanded(what0: seq<string>): seq<string>
  {
    ExpandFrom(what0, 0)
  }

  /** A compound kind is expanded where it stands in the list, so a kind
      asked for twice is listed twice: "invalid" then "changed" make a file
      incomplete when it is changed, changed, or has no file. */
  lemma ExpandedDuplicates()
    ensures Expanded(["invalid", "changed"]) == ["invalid", "changed", "changed", "no-file"]
    ensures Filter(Expanded(["invalid", "changed"]), IsBlockKind) == ["changed", "changed", "no-file"]
  {
    var w := ["invalid", "changed"];
    var e := w + ["changed", "no-file"];
    assert KindOf("invalid") == Some(Invalid) && KindOf("changed") == Some(Changed);
    assert KindOf("no-file") == Some(NoFile);
    assert Expansion(Invalid) == ["changed", "no-file"];
    assert ExpandFrom(w, 0) == ExpandFrom(e, 1);
    assert ExpandFrom(e, 1) == ExpandFrom(e, 2) == ExpandFrom(e, 3) == ExpandFrom(e, 4) == e;
    assert e[1..][1..][1..][1..] == [];
    assert e[1..] == ["changed", "changed", "no-file"];
  }

  // ---------------------------------------------------------------------
  // Stages and statuses

  /** Stage bits, written in octal in the source: 0100 basic verification,
      0020 incompleteness, 0003 orphans. */
  const StageBlocks: bv8 := 0x40
  const StageIncomplete: bv8 := 0x10
  const StageOrphans: bv8 := 0x03

  function StageBit(k: Kind): bv8
  {
    if k in BlockKinds then StageBlocks
    else if k == Incomplete then StageIncomplete
    else if k == Orphan then StageOrphans
    else 0
  }

  /** The stage mask for a set of primitive kinds. */
  function StagesOf(kinds: set<Kind>): bv8
  {
    (if kinds * BlockKinds != {} then StageBlocks else 0)
    | (if Incomplete in kinds then StageIncomplete else 0)
    | (if Orphan in kinds then StageOrphans else 0)
  }

  lemma StagesAdd(kinds: set<Kind>, k: Kind)
    requires k in PrimitiveKinds
    ensures StagesOf(kinds + {k}) == StagesOf(kinds) | StageBit(k)
  {
    if k in BlockKinds {
      assert k in (kinds + {k}) * BlockKinds;
    }
  }

  /** Every stage mask is an OR of a subset of the three stage bits, and it
      is zero exactly when no primitive kind is asked for. */
  lemma StagesRange(kinds: set<Kind>)
    ensures StagesOf(kinds) in {0, 0x40, 0x10, 0x03, 0x50, 0x43, 0x13, 0x53}
    ensures StagesOf(kinds) == 0 <==> kinds * PrimitiveKinds == {}
  {
    if kinds * PrimitiveKinds != {} {
      var k :| k in kinds * PrimitiveKinds;
      if k in BlockKinds {
        assert k in kinds * BlockKinds;
      }
    } else {
      assert Incomplete !in kinds * PrimitiveKinds && Orphan !in kinds * PrimitiveKinds;
      assert kinds * BlockKinds <= kinds * PrimitiveKinds;
    }
  }

  /** The status each primitive kind marks for removal. */
  function Mark(k: Kind): Status
  {
    match k
    case Changed => StatusFileChanged
    case NoFile => StatusFileMissing
    case FileError => StatusFileError
    case Incomplete => StatusIncomplete
    case _ => StatusOrphan
  }

  ghost function Marks(kinds: set<Kind>): set<Status>
  {
    set k | k in kinds && k in PrimitiveKinds :: Mark(k)
  }

  lemma MarksAdd(kinds: set<Kind>, k: Kind)
    requires k in PrimitiveKinds
    ensures Marks(kinds + {k}) == Marks(kinds) + {Mark(k)}
  {
  }

  /** The removal table for a set of kinds. */
  ghost function Table(kinds: set<Kind>): seq<bool>
  {
    seq(100, s => s in Marks(kinds))
  }

  lemma TableAdd(kinds: set<Kind>, k: Kind)
    requires k in PrimitiveKinds
    ensures Table(kinds)[Mark(k) := true] == Table(kinds + {k})
  {
    MarksAdd(kinds, k);
  }

  /** What planning yields: the stage mask, the removal table indexed by
      status, and the kinds under which a file counts as incomplete. */
  datatype Plan = Plan(stages: bv8, toRemove: seq<bool>, incompleteWhen: seq<string>)

  /** The plan for a set of primitive kinds. */
  ghost predicate PlanFor(p: Plan, kinds: set<Kind>)
  {
    && p.stages == StagesOf(kinds)
    && |p.toRemove| == 100
    && (forall s :: 0 <= s < 100 ==> (p.toRemove[s] <==> s in Marks(kinds)))
    && (forall w :: w in p.incompleteWhen <==> IsBlockKind(w) && KindOf(w).value in kinds)
  }

  /** The plan Clean makes for valid arguments: the stage mask and removal
      table of the kinds asked for, and the block kinds of the walked list,
      in the order walked and with repetitions. */
  ghost function PlanOf(what: seq<string>): Plan
  {
    Plan(StagesOf(RequestedAll(what)), Table(RequestedAll(what)), Filter(Expanded(what), IsBlockKind))
  }

  /** The planning loop's invariant after i arguments of the growing list
      what, which starts as what0. */
  ghost predicate Planned(what0: seq<string>, what: seq<string>, i: int,
                          stages: bv8, toRemove: seq<bool>, incompleteWhen: seq<string>)
  {
    PlannedParts(what0, what, i, stages, toRemove, incompleteWhen)
  }

  ghost predicate PlannedParts(what0: seq<string>, what: seq<string>, i: int,
                               stages: bv8, toRemove: seq<bool>, incompleteWhen: seq<string>)
  {
    && 0 <= i <= |what|
    && |what0| <= |what| && what[..|what0|] == what0
    && (forall j :: |what0| <= j < |what| ==> ValidKind(what[j]))
    && (forall j :: 0 <= j < i ==> ValidKind(what[j]))
    && RequestedAll(what0) == Primitives(what[..i]) + RequestedAll(what[i..])
    && stages == StagesOf(Primitives(what[..i]))
    && toRemove == Table(Primitives(what[..i]))
    && incompleteWhen == Filter(what[..i], IsBlockKind)
  }

  /** A compound argument: its expansion goes to the end of the list. */
  lemma TurnCompound(what0: seq<string>, what: seq<string>, i: int,
                     stages: bv8, toRemove: seq<bool>, incompleteWhen: seq<string>, k: Kind)
    requires Planned(what0, what, i, stages, toRemove, incompleteWhen)
    requires i < |what| && KindOf(what[i]) == Some(k) && (k == Invalid || k == Full)
    ensures Planned(what0, what + Expansion(k), i + 1, stages, toRemove, incompleteWhen)
    ensures TotalWeight((what + Expansion(k))[i + 1..]) < TotalWeight(what[i..])
  {
    var w := what[i];
    var what' := what + Expansion(k);
    SliceAppend(what, Expansion(k), i + 1);
    SliceAppend(what, Expansion(k), |what0|);
    assert what'[..i + 1] == what[..i] + [w];
    StepRest(what[i..], w);
    assert what[i..][1..] == what[i + 1..];
    StepSeen(what[..i], w, Some(k));
    StepExpand(what[i + 1..], w);
    forall j | |what0| <= j < |what'| ensures ValidKind(what'[j]) {
      if j >= |what| {
        assert what'[j] in Expansion(k);
      }
    }
    var seen := what[..i];
    assert Primitives(what'[..i + 1]) == Primitives(seen);
    assert Filter(what'[..i + 1], IsBlockKind) == Filter(seen, IsBlockKind);
    assert RequestedAll(what'[i + 1..]) == RequestedAll(what[i + 1..]) + Requested(w);
    assert RequestedAll(what[i..]) == Requested(w) + RequestedAll(what[i + 1..]);
  }

  /** A primitive argument: its stage bit, status and block kind are recorded. */
  lemma TurnPrimitive(what0: seq<string>, what: seq<string>, i: int,
                      stages: bv8, toRemove: seq<bool>, incompleteWhen: seq<string>, k: Kind)
    requires Planned(what0, what, i, stages, toRemove, incompleteWhen)
    requires i < |what| && KindOf(what[i]) == Some(k) && k in PrimitiveKinds
    ensures Planned(what0, what, i + 1, stages | StageBit(k), toRemove[Mark(k) := true],
                    if k in BlockKinds then incompleteWhen + [what[i]] else incompleteWhen)
    ensures TotalWeight(what[i + 1..]) < TotalWeight(what[i..])
  {
    PrimitiveRecorded(what0, what, i, stages, toRemove, incompleteWhen, k);
  }

  /** The kinds, stage mask, removal table and incompleteWhen list after a
      primitive argument. */
  lemma PrimitiveRecorded(what0: seq<string>, what: seq<string>, i: int,
                          stages: bv8, toRemove: seq<bool>, incompleteWhen: seq<string>, k: Kind)
    requires 0 <= i < |what| && KindOf(what[i]) == Some(k) && k in PrimitiveKinds
    requires RequestedAll(what0) == Primitives(what[..i]) + RequestedAll(what[i..])
    requires stages == StagesOf(Primitives(what[..i]))
    requires toRemove == Table(Primitives(what[..i]))
    requires incompleteWhen == Filter(what[..i], IsBlockKind)
    ensures RequestedAll(what0) == Primitives(what[..i + 1]) + RequestedAll(what[i + 1..])
    ensures stages | StageBit(k) == StagesOf(Primitives(what[..i + 1]))
    ensures toRemove[Mark(k) := true] == Table(Primitives(what[..i + 1]))
    ensures (if k in BlockKinds then incompleteWhen + [what[i]] else incompleteWhen) == Filter(what[..i + 1], IsBlockKind)
    ensures TotalWeight(what[i + 1..]) < TotalWeight(what[i..])
  {
    SeenStep(what, i, k);
    RestStep(what, i);
    StagesAdd(Primitives(what[..i]), k);
    TableAdd(Primitives(what[..i]), k);
    assert Requested(what[i]) == {k};
  }

  /** The arguments seen grow by what[i]. */
  lemma SeenStep(what: seq<string>, i: int, k: Kind)
    requires 0 <= i < |what| && KindOf(what[i]) == Some(k)
    ensures k in PrimitiveKinds ==> Primitives(what[..i + 1]) == Primitives(what[..i]) + {k}
    ensures Filter(what[..i + 1], IsBlockKind) ==
      Filter(what[..i], IsBlockKind) + (if k in BlockKinds then [what[i]] else [])
  {
    assert what[..i + 1] == what[..i] + [what[i]];
    StepSeen(what[..i], what[i], Some(k));
  }

  /** The arguments still to come shrink by what[i]. */
  lemma RestStep(what: seq<string>, i: int)
    requires 0 <= i < |what|
    ensures RequestedAll(what[i..]) == Requested(what[i]) + RequestedAll(what[i + 1..])
    ensures TotalWeight(what[i..]) == Weight(what[i]) + TotalWeight(what[i + 1..])
  {
    StepRest(what[i..], what[i]);
    assert what[i..][1..] == what[i + 1..];
  }

  /** One turn of the argument loop: the switch on the i-th argument. */
  method Turn(ghost what0: seq<string>, what: seq<string>, i: int,
              stages: bv8, toRemove: seq<bool>, incompleteWhen: seq<string>)
    returns (r: Result<(seq<string>, bv8, seq<bool>, seq<string>), string>)
    requires Planned(what0, what, i, stages, toRemove, incompleteWhen) && i < |what|
    ensures r.Err? ==> i < |what0| && !ValidKind(what0[i]) && r.error == "invalid arg: " + what0[i]
                       && forall j :: 0 <= j < i ==> ValidKind(what0[j])
    ensures r.Ok? ==> Planned(what0, r.value.0, i + 1, r.value.1, r.value.2, r.value.3)
                      && TotalWeight(r.value.0[i + 1..]) < TotalWeight(what[i..])
                      && ExpandFrom(r.value.0, i + 1) == ExpandFrom(what, i)
  {
    var w := what[i];
    var kind := KindOf(w);
    if kind.None? {
      PlanReject(what0, what, i, stages, toRemove, incompleteWhen);
      return Err("invalid arg: " + w);
    }
    var k := kind.value;
    if k == Invalid || k == Full {
      TurnCompound(what0, what, i, stages, toRemove, incompleteWhen, k);
      r := Ok((what + Expansion(k), stages, toRemove, incompleteWhen));
    } else {
      TurnPrimitive(what0, what, i, stages, toRemove, incompleteWhen, k);
      r := Ok((what, stages | StageBit(k), toRemove[Mark(k) := true],
               if k in BlockKinds then incompleteWhen + [w] else incompleteWhen));
    }
  }

  /** The argument loop of Clean: walks the kinds, appending the expansion of
      each compound kind to the list it is walking, and stops at the first
      argument it does not know. */
  method PlanClean(what0: seq<string>) returns (r: Result<Plan, string>)
    ensures r.Err? <==> exists j :: 0 <= j < |what0| && !ValidKind(what0[j])
    ensures r.Err? ==> exists j :: 0 <= j < |what0| && !ValidKind(what0[j])
                         && (forall j' :: 0 <= j' < j ==> ValidKind(what0[j']))
                         && r.error == "invalid arg: " + what0[j]
    ensures r.Ok? ==> PlanFor(r.value, RequestedAll(what0)) && r.value == PlanOf(what0)
  {
    var what := what0;
    var stages: bv8 := 0;
    var toRemove := seq(100, _ => false);
    var incompleteWhen: seq<string> := [];
    var i := 0;
    PlanStart(what0);
    while i < |what|
      invariant Planned(what0, what, i, stages, toRemove, incompleteWhen)
      invariant ExpandFrom(what, i) == Expanded(what0)
      decreases TotalWeight(what[i..])
    {
      var t := Turn(what0, what, i, stages, toRemove, incompleteWhen);
      if t.Err? {
        return Err(t.error);
      }
      what, stages, toRemove, incompleteWhen := t.value.0, t.value.1, t.value.2, t.value.3;
      i := i + 1;
    }
    PlanDone(what0, what, stages, toRemove, incompleteWhen);
    r := Ok(Plan(stages, toRemove, incompleteWhen));
  }

  lemma PlanStart(what0: seq<string>)
    ensures Planned(what0, what0, 0, 0, seq(100, _ => false), [])
  {
    assert Table({}) == seq(100, _ => false);
    assert what0[..0] == [] && what0[0..] == what0 && what0[..|what0|] == what0;
  }

  /** An unknown argument is one of the original ones, and the first of
      them that is unknown. */
  lemma PlanReject(what0: seq<string>, what: seq<string>, i: int,
                   stages: bv8, toRemove: seq<bool>, incompleteWhen: seq<string>)
    requires Planned(what0, what, i, stages, toRemove, incompleteWhen)
    requires i < |what| && !ValidKind(what[i])
    ensures i < |what0| && what[i] == what0[i]
    ensures forall j :: 0 <= j < i ==> ValidKind(what0[j])
  {
    forall j | 0 <= j < i ensures ValidKind(what0[j]) {
      assert what0[j] == what[..|what0|][j];
    }
    assert what0[i] == what[..|what0|][i];
  }

  /** Once every argument is walked, the state is the plan for what was asked. */
  lemma PlanDone(what0: seq<string>, what: seq<string>, stages: bv8, toRemove: seq<bool>, incompleteWhen: seq<string>)
    requires Planned(what0, what, |what|, stages, toRemove, incompleteWhen)
    ensures forall j :: 0 <= j < |what0| ==> ValidKind(what0[j])
    ensures PlanFor(Plan(stages, toRemove, incompleteWhen), RequestedAll(what0))
    ensures Plan(stages, toRemove, incompleteWhen) ==
      Plan(StagesOf(RequestedAll(what0)), Table(RequestedAll(what0)), Filter(what, IsBlockKind))
  {
    assert what[..|what|] == what && what[|what|..] == [];
    forall j | 0 <= j < |what0| ensures ValidKind(what0[j]) {
      assert what0[j] == what[j];
    }
    assert RequestedAll(what[|what|..]) == {};
    PlanOfKinds(what, stages, toRemove, incompleteWhen);
  }

  /** The plan recorded once every argument has been seen is the plan for
      the primitive kinds the list names. */
  lemma PlanOfKinds(what: seq<string>, stages: bv8, toRemove: seq<bool>, incompleteWhen: seq<string>)
    requires stages == StagesOf(Primitives(what))
    requires toRemove == Table(Primitives(what))
    requires incompleteWhen == Filter(what, IsBlockKind)
    ensures PlanFor(Plan(stages, toRemove, incompleteWhen), Primitives(what))
  {
    PrimitivesMembers(what);
    forall x ensures x in incompleteWhen <==> IsBlockKind(x) && KindOf(x).value in Primitives(what) {
      if IsBlockKind(x) {
        var k := KindOf(x).value;
        KindOfName(k);
        assert Name(k) == x by {
          NameOfKind(x);
        }
      }
    }
  }

  lemma NameOfKind(w: string)
    requires KindOf(w).Some?
    ensures Name(KindOf(w).value) == w
  {
  }

  /** One turn of the planning loop, on the kinds still to come. */
  lemma StepRest(rest: seq<string>, w: string)
    requires rest != [] && rest[0] == w
    ensures RequestedAll(rest) == Requested(w) + RequestedAll(rest[1..])
    ensures TotalWeight(rest) == Weight(w) + TotalWeight(rest[1..])
  {
    assert rest == [w] + rest[1..];
    RequestedConcat([w], rest[1..]);
    WeightConcat([w], rest[1..]);
    assert [w][..0] == [];
  }

  /** One turn of the planning loop, on the kinds already seen. */
  lemma StepSeen(seen: seq<string>, w: string, kind: Option<Kind>)
    requires kind == KindOf(w)
    ensures kind.Some? && kind.value in BlockKinds ==> Filter(seen + [w], IsBlockKind) == Filter(seen, IsBlockKind) + [w]
    ensures !(kind.Some? && kind.value in BlockKinds) ==> Filter(seen + [w], IsBlockKind) == Filter(seen, IsBlockKind)
    ensures kind.Some? && kind.value in PrimitiveKinds ==> Primitives(seen + [w]) == Primitives(seen) + {kind.value}
    ensures !(kind.Some? && kind.value in PrimitiveKinds) ==> Primitives(seen + [w]) == Primitives(seen)
  {
    FilterSnoc(seen, w, IsBlockKind);
    assert (seen + [w])[..|seen|] == seen;
  }

  /** A turn of the planning loop on a compound kind. */
  lemma StepExpand(rest: seq<string>, w: string)
    requires KindOf(w) in {Some(Invalid), Some(Full)}
    ensures RequestedAll(rest + Expansion(KindOf(w).value)) == RequestedAll(rest) + Requested(w)
    ensures TotalWeight(rest + Expansion(KindOf(w).value)) == TotalWeight(rest) + Weight(w) - 1
    ensures forall x :: x in Expansion(KindOf(w).value) ==> ValidKind(x)
  {
    var e := Expansion(KindOf(w).value);
    RequestedConcat(rest, e);
    ExpansionRequests(w);
    WeightConcat(rest, e);
    ExpansionWeight(w);
    KindOfName(Changed);
    KindOfName(NoFile);
    KindOfName(Invalid);
    KindOfName(Incomplete);
    KindOfName(Orphan);
  }

  // ---------------------------------------------------------------------
  // Stage dispatch

  datatype VerifyParams = VerifyParams(
    level: int, verbose: int, skipOrphans: bool, incompleteWhen: seq<string>, noObjInfo: bool)

  /** The verification Clean runs before removing anything. */
  datatype Verification =
    | VerifyBasic(params: VerifyParams)
    | VerifyFull(params: VerifyParams)
    | VerifyPostOrphan(level: int, incompleteWhen: seq<string>)

  /** The dispatch on the stage mask; None is the panic branch. */
  function Dispatch(stages: bv8, incompleteWhen: seq<string>): Option<Verification>
  {
    if stages == 0x40 then Some(VerifyBasic(VerifyParams(6, 1, false, [], true)))
    else if stages in {0x50, 0x43, 0x03} then Some(VerifyFull(VerifyParams(6, 6, false, incompleteWhen, true)))
    else if stages == 0x10 then Some(VerifyFull(VerifyParams(1, 6, true, [], true)))
    else if stages in {0x53, 0x13} then Some(VerifyPostOrphan(6, incompleteWhen))
    else None
  }

  /** Every stage mask planning can produce selects exactly one verification,
      except the empty one, which panics.  Post-orphan verification runs
      exactly when both incomplete files and orphans are to be cleaned,
      basic verification exactly when only block problems are, and the
      orphan scan is skipped exactly when only incomplete files are. */
  lemma DispatchMeaning(kinds: set<Kind>, incompleteWhen: seq<string>)
    requires kinds <= PrimitiveKinds
    ensures Dispatch(StagesOf(kinds), incompleteWhen).None? <==> kinds == {}
    ensures Dispatch(StagesOf(kinds), incompleteWhen).Some? ==>
      var v := Dispatch(StagesOf(kinds), incompleteWhen).value;
      && (v.VerifyPostOrphan? <==> Incomplete in kinds && Orphan in kinds)
      && (v.VerifyBasic? <==> kinds <= BlockKinds)
      && (v.VerifyFull? && v.params.skipOrphans <==> kinds == {Incomplete})
      && (v.VerifyFull? && !v.params.skipOrphans ==> v.params.incompleteWhen == incompleteWhen)
  {
    StagesRange(kinds);
    if kinds != {} {
      var k :| k in kinds;
    }
  }

  /** Clean reaches the panic branch only when it was given no kinds. */
  lemma PlanPanicsOnlyWhenEmpty(what: seq<string>, p: Plan)
    requires forall i :: 0 <= i < |what| ==> ValidKind(what[i])
    requires PlanFor(p, RequestedAll(what))
    ensures Dispatch(p.stages, p.incompleteWhen).None? <==> what == []
  {
    RequestedNonEmpty(what);
    RequestedPrimitive(what);
    DispatchMeaning(RequestedAll(what), p.incompleteWhen);
  }

  // ---------------------------------------------------------------------
  // Candidates

  predicate Marked(toRemove: seq<bool>, r: ListRes)
  {
    0 <= r.status < |toRemove| && toRemove[r.status]
  }

  function MarkedBy(toRemove: seq<bool>): ListRes -> bool
  {
    r => Marked(toRemove, r)
  }

  /** The raw keys of a run of records, converted one after the other; the
      first datastore key that does not convert is the error. */
  function KeysOf(rs: seq<ListRes>, c: Codec): Result<seq<Key>, Error>
  {
    if rs == [] then Ok([])
    else match KeysOf(rs[..|rs| - 1], c)
      case Err(e) => Err(e)
      case Ok(ks) =>
        match c.keyFromDsKey(rs[|rs| - 1].key)
        case Err(e) => Err(e)
        case Ok(k) => Ok(ks + [k])
  }

  /** KeysOf succeeds when every key converts, giving the converted keys in
      order; otherwise it fails with the error of the first key that does not. */
  lemma {:induction false} KeysOfMeaning(rs: seq<ListRes>, c: Codec)
    ensures KeysOf(rs, c).Ok? <==> forall j :: 0 <= j < |rs| ==> c.keyFromDsKey(rs[j].key).Ok?
    ensures KeysOf(rs, c).Ok? ==>
      |KeysOf(rs, c).value| == |rs|
      && forall j :: 0 <= j < |rs| ==> c.keyFromDsKey(rs[j].key) == Ok(KeysOf(rs, c).value[j])
    ensures KeysOf(rs, c).Err? ==>
      exists j :: 0 <= j < |rs| && c.keyFromDsKey(rs[j].key) == Err(KeysOf(rs, c).error)
        && (forall j' :: 0 <= j' < j ==> c.keyFromDsKey(rs[j'].key).Ok?)
  {
    if rs != [] {
      var init := rs[..|rs| - 1];
      KeysOfMeaning(init, c);
      assert forall j :: 0 <= j < |init| ==> init[j] == rs[j];
      if KeysOf(init, c).Err? {
        var j :| 0 <= j < |init| && c.keyFromDsKey(init[j].key) == Err(KeysOf(init, c).error)
          && forall j' :: 0 <= j' < j ==> c.keyFromDsKey(init[j'].key).Ok?;
        assert c.keyFromDsKey(rs[j].key) == Err(KeysOf(rs, c).error);
      }
    }
  }

  /** Once a prefix fails to convert, what follows does not matter. */
  lemma {:induction false} KeysOfErrExtends(a: seq<ListRes>, b: seq<ListRes>, c: Codec)
    requires KeysOf(a, c).Err?
    ensures KeysOf(a + b, c) == KeysOf(a, c)
    decreases |b|
  {
    if b != [] {
      var ab := a + b;
      assert ab[..|ab| - 1] == a + b[..|b| - 1];
      KeysOfErrExtends(a, b[..|b| - 1], c);
    } else {
      assert a + b == a;
    }
  }

  lemma KeysOfSnoc(rs: seq<ListRes>, x: ListRes, c: Codec, ks: seq<Key>, k: Key)
    requires KeysOf(rs, c) == Ok(ks)
    ensures c.keyFromDsKey(x.key) == Ok(k) ==> KeysOf(rs + [x], c) == Ok(ks + [k])
    ensures c.keyFromDsKey(x.key).Err? ==> KeysOf(rs + [x], c) == Err(c.keyFromDsKey(x.key).error)
  {
    assert (rs + [x])[..|rs|] == rs;
  }

  /** One record more of the verified stream. */
  lemma SelectStep(results: seq<ListRes>, i: nat, toRemove: seq<bool>)
    requires i < |results|
    ensures Filter(results[..i + 1], MarkedBy(toRemove)) ==
      Filter(results[..i], MarkedBy(toRemove)) + (if Marked(toRemove, results[i]) then [results[i]] else [])
  {
    assert results[..i + 1] == results[..i] + [results[i]];
    FilterSnoc(results[..i], results[i], MarkedBy(toRemove));
  }

  /** A key that does not convert decides the outcome of the whole stream. */
  lemma SelectStop(results: seq<ListRes>, i: nat, toRemove: seq<bool>, c: Codec)
    requires i < |results|
    requires KeysOf(Filter(results[..i + 1], MarkedBy(toRemove)), c).Err?
    ensures KeysOf(Filter(results, MarkedBy(toRemove)), c) == KeysOf(Filter(results[..i + 1], MarkedBy(toRemove)), c)
  {
    assert results == results[..i + 1] + results[i + 1..];
    FilterConcat(results[..i + 1], results[i + 1..], MarkedBy(toRemove));
    KeysOfErrExtends(Filter(results[..i + 1], MarkedBy(toRemove)), Filter(results[i + 1..], MarkedBy(toRemove)), c);
  }

  /** The candidate loop of Clean: the keys of the verified records whose
      status is marked for removal, in stream order; the first record whose
      datastore key does not convert ends the stream with that error. */
  method SelectCandidates(results: seq<ListRes>, toRemove: seq<bool>, c: Codec) returns (r: Result<seq<Key>, Error>)
    requires |toRemove| == 100
    requires forall i :: 0 <= i < |results| ==> 0 <= results[i].status < 100
    ensures r == KeysOf(Filter(results, MarkedBy(toRemove)), c)
  {
    var toDel: seq<Key> := [];
    var i := 0;
    while i < |results|
      invariant 0 <= i <= |results|
      invariant KeysOf(Filter(results[..i], MarkedBy(toRemove)), c) == Ok(toDel)
    {
      var res := results[i];
      ghost var done := Filter(results[..i], MarkedBy(toRemove));
      SelectStep(results, i, toRemove);
      if toRemove[res.status] {
        var key := c.keyFromDsKey(res.key);
        KeysOfSnoc(done, res, c, toDel, if key.Ok? then key.value else []);
        if key.Err? {
          SelectStop(results, i, toRemove, c);
          return Err(key.error);
        }
        assert Marked(toRemove, res);
        assert Filter(results[..i + 1], MarkedBy(toRemove)) == done + [res];
        toDel := toDel + [key.value];
        assert KeysOf(done + [res], c) == Ok(toDel);
      } else {
        assert !Marked(toRemove, res);
        assert Filter(results[..i + 1], MarkedBy(toRemove)) == done;
      }
      i := i + 1;
    }
    assert results[..i] == results;
    r := Ok(toDel);
  }

  // ---------------------------------------------------------------------
  // Guarded removal

  /** One line of the removal report: the key's hash and, when it was not
      removed, why; an empty error text means the key was removed. */
  datatype RemovedBlock = RemovedBlock(hash: string, error: string)

  /** The filestore's compare-and-delete update with no new value (the
      update itself is not part of this model; this is its assumed effect):
      an update fault leaves the database alone; a key no longer present
      counts as done; with an original value, a record that differs from it
      is left in place and reported as not done; otherwise it is deleted. */
  function UpdateSpec(db: map<string, Bytes>, faults: map<string, Error>, key: string, origVal: Option<Bytes>)
    : (r: (map<string, Bytes>, bool, Option<Error>))
    ensures r.2.Some? ==> r.0 == db && !r.1
    ensures r.0 == db || r.0 == db - {key}
    ensures r.1 && r.2.None? ==> key !in r.0
    ensures !r.1 && r.2.None? ==> key in db && origVal.Some? && db[key] != origVal.value && r.0 == db
  {
    if key in faults then (db, false, Some(faults[key]))
    else if key !in db then (db, true, None)
    else if origVal.Some? && db[key] != origVal.value then (db, false, None)
    else (db - {key}, true, None)
  }

  /** rmBlocks for one key that survived the pin check: in shared mode the
      record is compared with the snapshot's value first; a key the
      snapshot lacks is reported and skipped. */
  function RmStep(db: map<string, Bytes>, faults: map<string, Error>, snap: Option<map<string, Bytes>>, k: Key, c: Codec)
    : (r: (RemovedBlock, map<string, Bytes>))
    ensures r.0.hash == c.b58(k)
    ensures r.1 == db || r.1 == db - {c.dsKey(k)}
    ensures r.0.error == [] ==> c.dsKey(k) !in r.1
    ensures r.0.error == "value changed" ==> r.1 == db
    ensures snap.None? && c.dsKey(k) !in faults ==> r.0.error == [] && c.dsKey(k) !in r.1
  {
    var dk := c.dsKey(k);
    var hash := c.b58(k);
    if snap.Some? && dk !in snap.value then
      (RemovedBlock(hash, Message(NotFound)), db)
    else
      var origVal := if snap.Some? then Some(snap.value[dk]) else None;
      var u := UpdateSpec(db, faults, dk, origVal);
      if u.2.Some? then (RemovedBlock(hash, Message(u.2.value)), u.0)
      else if !u.1 then (RemovedBlock(hash, "value changed"), u.0)
      else (RemovedBlock(hash, ""), u.0)
  }

  /** rmBlocks over a sequence of keys: the report and the final database. */
  ghost function RmAll(db: map<string, Bytes>, faults: map<string, Error>, snap: Option<map<string, Bytes>>,
                       ks: seq<Key>, c: Codec): (seq<RemovedBlock>, map<string, Bytes>)
  {
    if ks == [] then ([], db)
    else
      var prev := RmAll(db, faults, snap, ks[..|ks| - 1], c);
      var step := RmStep(prev.1, faults, snap, ks[|ks| - 1], c);
      (prev.0 + [step.0], step.1)
  }

  /** Exactly one report line per key, in key order, naming that key. */
  lemma {:induction false} RmOneRecordPerKey(db: map<string, Bytes>, faults: map<string, Error>,
                                             snap: Option<map<string, Bytes>>, ks: seq<Key>, c: Codec)
    ensures |RmAll(db, faults, snap, ks, c).0| == |ks|
    ensures forall j :: 0 <= j < |ks| ==> RmAll(db, faults, snap, ks, c).0[j].hash == c.b58(ks[j])
  {
    if ks != [] {
      RmOneRecordPerKey(db, faults, snap, ks[..|ks| - 1], c);
    }
  }

  /** Removal only deletes, and only the records of the given keys. */
  lemma {:induction false} RmFrame(db: map<string, Bytes>, faults: map<string, Error>,
                                   snap: Option<map<string, Bytes>>, ks: seq<Key>, c: Codec)
    ensures var db' := RmAll(db, faults, snap, ks, c).1;
      && db'.Keys <= db.Keys
      && (forall x :: x in db' ==> db'[x] == db[x])
      && (forall x :: x in db && (forall j :: 0 <= j < |ks| ==> x != c.dsKey(ks[j])) ==> x in db')
  {
    if ks != [] {
      RmFrame(db, faults, snap, ks[..|ks| - 1], c);
    }
  }

  /** In shared mode a record is deleted only if it still holds the
      snapshot's value: a record the snapshot lacks, or one changed since,
      survives. */
  lemma {:induction false} RmSharedKeepsChanged(db: map<string, Bytes>, faults: map<string, Error>,
                                                snap: map<string, Bytes>, ks: seq<Key>, c: Codec)
    ensures var db' := RmAll(db, faults, Some(snap), ks, c).1;
      forall x :: x in db && (x !in snap || db[x] != snap[x]) ==> x in db'
  {
    if ks != [] {
      RmSharedKeepsChanged(db, faults, snap, ks[..|ks| - 1], c);
      RmFrame(db, faults, Some(snap), ks[..|ks| - 1], c);
    }
  }

  /** In exclusive mode no snapshot is consulted: every key without an
      update fault is removed and reported as removed. */
  lemma {:induction false} RmExclusiveRemovesAll(db: map<string, Bytes>, faults: map<string, Error>,
                                                 ks: seq<Key>, c: Codec)
    requires forall j :: 0 <= j < |ks| ==> c.dsKey(ks[j]) !in faults
    ensures var r := RmAll(db, faults, None, ks, c);
      && |r.0| == |ks|
      && (forall j :: 0 <= j < |ks| ==> r.0[j].error == [] && c.dsKey(ks[j]) !in r.1)
  {
    RmOneRecordPerKey(db, faults, None, ks, c);
    if ks != [] {
      var init := ks[..|ks| - 1];
      RmExclusiveRemovesAll(db, faults, init, c);
      RmFrame(db, faults, None, init, c);
      var prev := RmAll(db, faults, None, init, c);
      var step := RmStep(prev.1, faults, None, ks[|ks| - 1], c);
      forall j | 0 <= j < |ks| ensures RmAll(db, faults, None, ks, c).0[j].error == [] && c.dsKey(ks[j]) !in step.1 {
        if j < |ks| - 1 {
          assert ks[j] == init[j];
          assert RmAll(db, faults, None, ks, c).0[j] == prev.0[j];
        }
      }
    }
  }

  /** Every argument names a kind. */
  predicate AllValid(what: seq<string>)
  {
    forall j :: 0 <= j < |what| ==> ValidKind(what[j])
  }

  /** The candidates Clean selects for valid arguments what: the chosen
      verification's error, the error of the first marked record whose
      key does not convert, or the keys of the marked records.  No kinds at
      all select nothing. */
  ghost function Candidates(what: seq<string>, verify: Verification -> Result<seq<ListRes>, Error>, c: Codec)
    : Result<seq<Key>, Error>
  {
    var p := PlanOf(what);
    match Dispatch(p.stages, p.incompleteWhen)
    case None => Ok([])
    case Some(v) =>
      match verify(v)
      case Err(e) => Err(e)
      case Ok(rs) => KeysOf(Filter(rs, MarkedBy(p.toRemove)), c)
  }

  /** The candidates are exactly the keys of the verified records whose
      status is one the requested kinds mark for removal. */
  lemma CandidatesMarked(what: seq<string>, verify: Verification -> Result<seq<ListRes>, Error>, c: Codec,
                         v: Verification, rs: seq<ListRes>)
    requires Dispatch(PlanOf(what).stages, PlanOf(what).incompleteWhen) == Some(v)
    requires verify(v) == Ok(rs)
    requires Candidates(what, verify, c).Ok?
    ensures forall k :: k in Candidates(what, verify, c).value <==>
      exists r :: r in rs && r.status in Marks(RequestedAll(what)) && c.keyFromDsKey(r.key) == Ok(k)
  {
    var p := PlanOf(what);
    var fs := Filter(rs, MarkedBy(p.toRemove));
    var ks := Candidates(what, verify, c).value;
    KeysOfMeaning(fs, c);
    forall k | k in ks
      ensures exists r :: r in rs && r.status in Marks(RequestedAll(what)) && c.keyFromDsKey(r.key) == Ok(k)
    {
      var j :| 0 <= j < |ks| && ks[j] == k;
      assert fs[j] in fs && MarkedBy(p.toRemove)(fs[j]);
      MarkedByPlan(what, fs[j]);
    }
    forall k, r | r in rs && r.status in Marks(RequestedAll(what)) && c.keyFromDsKey(r.key) == Ok(k)
      ensures k in ks
    {
      MarkedByPlan(what, r);
      assert MarkedBy(p.toRemove)(r) && r in fs;
      var j :| 0 <= j < |fs| && fs[j] == r;
      assert ks[j] == k;
    }
  }

  /** A record is marked by the plan's table iff its status is one the
      requested kinds mark. */
  lemma MarkedByPlan(what: seq<string>, r: ListRes)
    ensures Marked(PlanOf(what).toRemove, r) <==> r.status in Marks(RequestedAll(what))
  {
    if r.status in Marks(RequestedAll(what)) {
      var k :| k in RequestedAll(what) && k in PrimitiveKinds && Mark(k) == r.status;
    }
  }

  function Unpinned(pinned: Key -> bool): Key -> bool
  {
    k => !pinned(k)
  }

  /** The filestore's record database, which rmBlocks updates in place. */
  class FilestoreDb {
    var db: map<string, Bytes>
    /** Keys whose update fails, and with what error. */
    const faults: map<string, Error>

    constructor (db0: map<string, Bytes>, faults0: map<string, Error>)
      ensures db == db0 && faults == faults0
    {
      db := db0;
      faults := faults0;
    }

    method Update(key: string, origVal: Option<Bytes>) returns (ok: bool, err: Option<Error>)
      modifies this
      ensures (db, ok, err) == UpdateSpec(old(db), faults, key, origVal)
    {
      var u := UpdateSpec(db, faults, key, origVal);
      db, ok, err := u.0, u.1, u.2;
    }

    /** rmBlocks: the pin check (modelled by the given predicate) drops the
        pinned keys, then each remaining key is removed as RmStep says and
        reported, in order. */
    method RmBlocks(keys: seq<Key>, pinned: Key -> bool, snap: Option<map<string, Bytes>>, c: Codec)
      returns (out: seq<RemovedBlock>)
      modifies this
      ensures (out, db) == RmAll(old(db), faults, snap, Filter(keys, Unpinned(pinned)), c)
    {
      var stillOkay := Filter(keys, Unpinned(pinned));
      out := [];
      var i := 0;
      while i < |stillOkay|
        invariant 0 <= i <= |stillOkay|
        invariant (out, db) == RmAll(old(db), faults, snap, stillOkay[..i], c)
      {
        var k := stillOkay[i];
        assert stillOkay[..i + 1][..i] == stillOkay[..i];
        var keyBytes := c.dsKey(k);
        var origVal: Option<Bytes> := None;
        if snap.Some? {
          if keyBytes !in snap.value {
            out := out + [RemovedBlock(c.b58(k), Message(NotFound))];
            i := i + 1;
            continue;
          }
          origVal := Some(snap.value[keyBytes]);
        }
        var ok, err := Update(keyBytes, origVal);
        if err.Some? {
          out := out + [RemovedBlock(c.b58(k), Message(err.value))];
        } else if !ok {
          out := out + [RemovedBlock(c.b58(k), "value changed")];
        } else {
          out := out + [RemovedBlock(c.b58(k), "")];
        }
        i := i + 1;
      }
      assert stillOkay[..i] == stillOkay;
    }

    /** Clean as a whole.  An unknown kind is rejected before the snapshot
        is taken; a snapshot failure is returned; the rest is what the
        background worker does: dispatch (no kinds at all is the panic),
        verification (its result is a parameter, as a function of the
        verification chosen), candidate selection, then removal with the
        snapshot in shared mode and without it in exclusive mode. */
    method Clean(what: seq<string>, exclusive: bool, snapshot: Result<map<string, Bytes>, Error>,
                 verify: Verification -> Result<seq<ListRes>, Error>, pinned: Key -> bool, c: Codec)
      returns (outcome: CleanOutcome)
      requires forall v :: verify(v).Ok? ==>
        forall i :: 0 <= i < |verify(v).value| ==> 0 <= verify(v).value[i].status < 100
      modifies this
      ensures outcome.Rejected? <==> !AllValid(what)
      ensures outcome.Rejected? ==>
        exists j :: 0 <= j < |what| && !ValidKind(what[j]) && AllValid(what[..j])
                    && outcome.msg == "invalid arg: " + what[j]
      ensures outcome.SnapshotFailed? <==> AllValid(what) && snapshot.Err?
      ensures outcome.SnapshotFailed? ==> outcome.err == snapshot.error
      ensures outcome.Panicked? <==> what == [] && snapshot.Ok?
      ensures outcome.Closed? <==> AllValid(what) && snapshot.Ok? && what != [] && Candidates(what, verify, c).Err?
      ensures outcome.Closed? ==> outcome.err == Candidates(what, verify, c).error
      ensures outcome.Finished? <==> AllValid(what) && snapshot.Ok? && what != [] && Candidates(what, verify, c).Ok?
      ensures outcome.Finished? ==>
        (outcome.report, db) == RmAll(old(db), faults, if exclusive then None else Some(snapshot.value),
                                      Filter(Candidates(what, verify, c).value, Unpinned(pinned)), c)
      ensures !outcome.Finished? ==> db == old(db)
    {
      var plan := PlanClean(what);
      if plan.Err? {
        ghost var j :| 0 <= j < |what| && !ValidKind(what[j])
                       && (forall j' :: 0 <= j' < j ==> ValidKind(what[j']))
                       && plan.error == "invalid arg: " + what[j];
        assert AllValid(what[..j]);
        return Rejected(plan.error);
      }
      var p := plan.value;
      if snapshot.Err? {
        return SnapshotFailed(snapshot.error);
      }
      if what == [] {
        assert RequestedAll(what) == {};
        DispatchMeaning({}, p.incompleteWhen);
      } else {
        PlanPanicsOnlyWhenEmpty(what, p);
      }
      var v := Dispatch(p.stages, p.incompleteWhen);
      if v.None? {
        return Panicked;
      }
      var ch := verify(v.value);
      if ch.Err? {
        return Closed(ch.error);
      }
      var toDel := SelectCandidates(ch.value, p.toRemove, c);
      if toDel.Err? {
        return Closed(toDel.error);
      }
      var report := RmBlocks(toDel.value, pinned, if exclusive then None else Some(snapshot.value), c);
      return Finished(report);
    }
  }

  /** How Clean ends: an error returned to the caller, the panic, the output
      closed with an error, or the removal report. */
  datatype CleanOutcome =
    | Rejected(msg: string)
    | SnapshotFailed(err: Error)
    | Panicked
    | Closed(err: Error)
    | Finished(report: seq<RemovedBlock>)
}

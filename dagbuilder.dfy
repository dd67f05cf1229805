/** The helper the importer's layouts use to build a DAG from a file: it
    hands out the splitter's chunks one at a time, with one chunk of
    look-ahead so that the layouts can ask whether input remains, and fills
    nodes with data chunks up to the link limit. */
module DagBuilder {
  import opened Base

  /** The largest data a single block may carry. */
  const BlockSizeLimit: nat := 1048576

  const ErrSizeLimitExceeded: Error := Failure("object size limit exceeded")

  /** The error of a DAG service that refuses a node. */
  const ErrRefused: Error := Failure("dag service refused node")

  /** Where a chunk lies in its file. */
  datatype PosInfo = PosInfo(fullPath: string, offset: nat)

  /** A chunk as the splitter gives it; no data marks the end of the input. */
  datatype Chunk = Chunk(posInfo: Option<PosInfo>, data: Option<Bytes>)

  /** The DAG service the helper writes to: whether it wants alternative
      data kept for file blocks, and the data of the nodes it refuses to add. */
  datatype DagService = DagService(needAltData: bool, refuses: set<Bytes>)

  datatype DagBuilderParams = DagBuilderParams(maxlinks: int, dagserv: DagService)

  /** Every chunk carries data. */
  predicate AllData(cs: seq<Chunk>)
  {
    forall c :: c in cs ==> c.data.Some?
  }

  /** The data of a sequence of chunks that all carry data. */
  function DataOf(cs: seq<Chunk>): (r: seq<Bytes>)
    requires AllData(cs)
    ensures |r| == |cs|
    ensures forall i :: 0 <= i < |cs| ==> r[i] == cs[i].data.value
  {
    if cs == [] then [] else [cs[0].data.value] + DataOf(cs[1..])
  }

  /** Data a layer fill can add as a child: within the size limit and
      accepted by the DAG service. */
  predicate Addable(d: Bytes, dserv: DagService)
  {
    |d| <= BlockSizeLimit && d !in dserv.refuses
  }

  /** Why data cannot be added: the size check comes first. */
  function AddError(d: Bytes): Error
  {
    if |d| > BlockSizeLimit then ErrSizeLimitExceeded else ErrRefused
  }

  /** How a layer fill from `children0` and `pending0` may end: the next
      chunks' data added as children, each addable, never past the link
      limit.  On success the node is full or the input used up; on failure
      the node still had room and the next chunk, which is consumed, could
      not be added, for the reason the error gives. */
  ghost predicate LayerFilled(children0: seq<Bytes>, pending0: seq<Chunk>, maxlinks: int, dserv: DagService,
                              children: seq<Bytes>, pending: seq<Chunk>, err: Option<Error>)
  {
    && AllData(pending0)
    && |children0| <= |children|
    && |children| <= (if |children0| < maxlinks then maxlinks else |children0|)
    && var m := |children| - |children0|;
    && m <= |pending0|
    && children == children0 + DataOf(pending0[..m])
    && (forall j :: 0 <= j < m ==> Addable(pending0[j].data.value, dserv))
    && (err.None? ==> pending == pending0[m..] && (|children| >= maxlinks || pending == []))
    && (err.Some? ==>
          && m < |pending0| && |children| < maxlinks && pending == pending0[m + 1..]
          && !Addable(pending0[m].data.value, dserv) && err.value == AddError(pending0[m].data.value))
  }

  /** LayerFilled leaves no choice: the children added, the chunks left and
      the error are fixed by the node's children, the pending chunks, the
      link limit and the DAG service. */
  lemma LayerFilledUnique(children0: seq<Bytes>, pending0: seq<Chunk>, maxlinks: int, dserv: DagService,
                          c1: seq<Bytes>, p1: seq<Chunk>, e1: Option<Error>,
                          c2: seq<Bytes>, p2: seq<Chunk>, e2: Option<Error>)
    requires LayerFilled(children0, pending0, maxlinks, dserv, c1, p1, e1)
    requires LayerFilled(children0, pending0, maxlinks, dserv, c2, p2, e2)
    ensures c1 == c2 && p1 == p2 && e1 == e2
  {
  }

  /** Where a layer fill stands after `taken` chunks were added as children. */
  ghost predicate LayerSoFar(children0: seq<Bytes>, pending0: seq<Chunk>, maxlinks: int, dserv: DagService,
                             children: seq<Bytes>, pending: seq<Chunk>, taken: nat)
  {
    && AllData(pending0)
    && taken <= |pending0| && |children| == |children0| + taken
    && |children| <= (if |children0| < maxlinks then maxlinks else |children0|)
    && children == children0 + DataOf(pending0[..taken])
    && (forall j :: 0 <= j < taken ==> Addable(pending0[j].data.value, dserv))
    && pending == pending0[taken..]
  }

  lemma LayerStart(children0: seq<Bytes>, pending0: seq<Chunk>, maxlinks: int, dserv: DagService)
    requires AllData(pending0)
    ensures LayerSoFar(children0, pending0, maxlinks, dserv, children0, pending0, 0)
  {
    assert pending0[..0] == [] && pending0[0..] == pending0;
  }

  /** Stopping with the node full or the input used up is a success. */
  lemma LayerStop(children0: seq<Bytes>, pending0: seq<Chunk>, maxlinks: int, dserv: DagService,
                  children: seq<Bytes>, pending: seq<Chunk>, taken: nat)
    requires LayerSoFar(children0, pending0, maxlinks, dserv, children, pending, taken)
    requires |children| >= maxlinks || pending == []
    ensures LayerFilled(children0, pending0, maxlinks, dserv, children, pending, None)
  {
  }

  /** The next chunk, once added as a child, moves the fill on. */
  lemma LayerStep(children0: seq<Bytes>, pending0: seq<Chunk>, maxlinks: int, dserv: DagService,
                  children: seq<Bytes>, pending: seq<Chunk>, taken: nat)
    requires LayerSoFar(children0, pending0, maxlinks, dserv, children, pending, taken)
    requires |children| < maxlinks && pending != []
    requires pending[0].data.Some? && Addable(pending[0].data.value, dserv)
    ensures pending[1..] == pending0[taken + 1..]
    ensures LayerSoFar(children0, pending0, maxlinks, dserv, children + [pending[0].data.value], pending[1..], taken + 1)
  {
    assert pending0[..taken + 1] == pending0[..taken] + [pending0[taken]];
    var r := DataOf(pending0[..taken]) + [pending0[taken].data.value];
    assert r == DataOf(pending0[..taken + 1]);
  }

  /** A chunk taken but not addable ends the fill with its error. */
  lemma LayerFail(children0: seq<Bytes>, pending0: seq<Chunk>, maxlinks: int, dserv: DagService,
                  children: seq<Bytes>, pending: seq<Chunk>, taken: nat, e: Error)
    requires LayerSoFar(children0, pending0, maxlinks, dserv, children, pending, taken)
    requires |children| < maxlinks && pending != [] && pending[0].data.Some?
    requires !Addable(pending[0].data.value, dserv) && e == AddError(pending[0].data.value)
    ensures LayerFilled(children0, pending0, maxlinks, dserv, children, pending[1..], Some(e))
  {
    assert pending[1..] == pending0[taken + 1..];
  }

  /** A node under construction: its data chunk and its children, each
      child given by the data it was added with. */
  class UnixfsNode {
    var data: Option<Chunk>
    var children: seq<Bytes>

    constructor ()
      ensures data.None? && children == []
    {
      data := None;
      children := [];
    }

    method SetData(c: Chunk)
      modifies this
      ensures data == Some(c) && children == old(children)
    {
      data := Some(c);
    }

    /** Adds a child holding data; the DAG service may refuse it, and then
        nothing is added. */
    method AddChild(child: Bytes, dserv: DagService) returns (err: Option<Error>)
      modifies this
      ensures data == old(data)
      ensures child in dserv.refuses ==> err == Some(ErrRefused) && children == old(children)
      ensures child !in dserv.refuses ==> err.None? && children == old(children) + [child]
    {
      if child in dserv.refuses {
        return Some(ErrRefused);
      }
      children := children + [child];
      return None;
    }
  }

  class DagBuilderHelper {
    const dserv: DagService
    const maxlinks: int
    const needAltData: bool
    /** The chunks the splitter has still to give, in order. */
    var spl: seq<Chunk>
    /** The look-ahead chunk; no data when nothing is waiting. */
    var nextData: Chunk
    /** Every chunk the splitter gives, in order. */
    ghost const stream: seq<Chunk>
    /** The chunks Next has returned so far. */
    ghost var returned: seq<Chunk>

    /** The chunks still to be returned: the waiting one, then the
        splitter's. */
    function Pending(): seq<Chunk>
      reads this
    {
      (if nextData.data.Some? then [nextData] else []) + spl
    }

    /** Every chunk carries data; the chunks returned and the chunks still
        pending are the whole stream, in order. */
    ghost predicate Valid()
      reads this
    {
      && AllData(spl) && AllData(Pending())
      && returned + Pending() == stream
    }

    /** New: the link limit and the DAG service come from the params, the
        chunks from the splitter; nothing is waiting yet. */
    constructor (params: DagBuilderParams, splitter: seq<Chunk>)
      requires AllData(splitter)
      ensures maxlinks == params.maxlinks && dserv == params.dagserv
      ensures needAltData == params.dagserv.needAltData
      ensures Maxlinks() == params.maxlinks
      ensures Pending() == splitter && returned == [] && stream == splitter
      ensures Valid()
    {
      dserv := params.dagserv;
      maxlinks := params.maxlinks;
      needAltData := params.dagserv.needAltData;
      spl := splitter;
      nextData := Chunk(None, None);
      stream := splitter;
      returned := [];
    }

    function Maxlinks(): int
    {
      maxlinks
    }

    /** prepareNext: pulls a chunk from the splitter only when none is
        waiting; the chunks still to be returned do not change. */
    method PrepareNext()
      requires Valid()
      modifies this
      ensures Valid() && returned == old(returned)
      ensures Pending() == old(Pending())
      ensures nextData.data.Some? <==> Pending() != []
      ensures old(nextData.data.Some?) ==> nextData == old(nextData) && spl == old(spl)
    {
      if nextData.data.Some? {
        return;
      }
      if spl == [] {
        nextData := Chunk(None, None);
      } else {
        nextData := spl[0];
        spl := spl[1..];
      }
    }

    /** Done: whether no chunk remains; it consumes nothing. */
    method Done() returns (done: bool)
      requires Valid()
      modifies this
      ensures Valid() && returned == old(returned)
      ensures Pending() == old(Pending())
      ensures done <==> Pending() == []
    {
      PrepareNext();
      done := nextData.data.None?;
    }

    /** Next: the first pending chunk, which is consumed; a chunk without
        data once nothing remains. */
    method Next() returns (d: Chunk)
      requires Valid()
      modifies this
      ensures Valid()
      ensures old(Pending()) == [] ==> d.data.None? && Pending() == [] && returned == old(returned)
      ensures old(Pending()) != [] ==>
        d == old(Pending())[0] && Pending() == old(Pending())[1..] && returned == old(returned) + [d]
    {
      PrepareNext();
      d := nextData;
      assert d.data.Some? ==> Pending() == [d] + spl;
      if d.data.Some? {
        assert Pending() == [d] + spl;
        assert (returned + [d]) + spl == returned + Pending();
        returned := returned + [d];
      }
      nextData := nextData.(data := None);
      assert Pending() == spl;
    }

    /** FillNodeWithData: puts the next chunk's data into the node; nothing
        is done when no chunk remains, and a chunk over the size limit is
        refused. */
    method FillNodeWithData(node: UnixfsNode) returns (err: Option<Error>)
      requires Valid()
      modifies this, node
      ensures Valid()
      ensures node.children == old(node.children)
      ensures old(Pending()) == [] ==> err.None? && node.data == old(node.data) && Pending() == []
      ensures old(Pending()) != [] ==> Pending() == old(Pending())[1..]
      ensures old(Pending()) != [] && |old(Pending())[0].data.value| > BlockSizeLimit ==>
        err == Some(ErrSizeLimitExceeded) && node.data == old(node.data)
      ensures old(Pending()) != [] && |old(Pending())[0].data.value| <= BlockSizeLimit ==>
        err.None? && node.data == Some(old(Pending())[0])
    {
      var d := Next();
      if d.data.None? {
        return None;
      }
      if |d.data.value| > BlockSizeLimit {
        return Some(ErrSizeLimitExceeded);
      }
      node.SetData(d);
      return None;
    }

    /** FillNodeLayer: adds data children to the node while it has fewer
        than maxlinks children and input remains.  The children added are
        the next chunks' data, in order; on success the node is full or the
        input used up; a chunk over the size limit or refused by the DAG
        service is consumed and ends the layer.  The node's own data is
        left alone. */
    method FillNodeLayer(node: UnixfsNode) returns (err: Option<Error>)
      requires Valid()
      modifies this, node
      ensures Valid()
      ensures node.data == old(node.data)
      ensures LayerFilled(old(node.children), old(Pending()), maxlinks, dserv, node.children, Pending(), err)
    {
      ghost var pending0 := Pending();
      ghost var children0 := node.children;
      ghost var taken: nat := 0;
      LayerStart(children0, pending0, maxlinks, dserv);
      while true
        invariant Valid()
        invariant node.data == old(node.data)
        invariant LayerSoFar(children0, pending0, maxlinks, dserv, node.children, Pending(), taken)
        decreases |Pending()|
      {
        if |node.children| >= maxlinks {
          LayerStop(children0, pending0, maxlinks, dserv, node.children, Pending(), taken);
          return None;
        }
        var done := Done();
        if done {
          LayerStop(children0, pending0, maxlinks, dserv, node.children, Pending(), taken);
          return None;
        }
        ghost var pending := Pending();
        assert pending[0].data.Some?;
        var child := new UnixfsNode();
        err := FillNodeWithData(child);
        if err.Some? {
          LayerFail(children0, pending0, maxlinks, dserv, node.children, pending, taken, err.value);
          return;
        }
        var chunk := child.data.value.data.value;
        ghost var before := node.children;
        err := node.AddChild(chunk, dserv);
        if err.Some? {
          LayerFail(children0, pending0, maxlinks, dserv, before, pending, taken, err.value);
          return;
        }
        LayerStep(children0, pending0, maxlinks, dserv, before, pending, taken);
        taken := taken + 1;
      }
    }
  }
}

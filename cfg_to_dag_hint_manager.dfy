/**
 * The loop-hint tracker of the CFG-to-DAG phase. Blocks are identified by numbers; the tracker
 * relates blocks of the original CFG ("orig"), of the CFG right before the transform
 * ("before DAG") and of the DAG produced by it ("after DAG"), and records one hint per loop head.
 */
module CfgToDagHintManager {
  import opened Wrappers
  import Util

  type BlockId = nat

  /** The hint recorded for a loop head; its contents are not part of this model. */
  datatype LoopHeadHint = LoopHeadHint(id: nat)

  /** The loop structure of the original CFG: its loop headers and, per header, the sources of its back edges. */
  datatype LoopGraph = LoopGraph(headers: seq<BlockId>, backEdgeNodes: BlockId -> seq<BlockId>)

  ghost predicate Injective(m: map<BlockId, BlockId>)
  {
    forall a, b :: a in m && b in m && a != b ==> m[a] != m[b]
  }

  /** The inverse of an injective map: values become keys. */
  function Inverse(m: map<BlockId, BlockId>): (r: map<BlockId, BlockId>)
    requires Injective(m)
    ensures r.Keys == m.Values
    ensures forall k :: k in m ==> r[m[k]] == k
    ensures forall v :: v in r ==> r[v] in m && m[r[v]] == v
  {
    map k | k in m.Keys :: m[k] := k
  }

  /** Inverting twice gives the map back. */
  lemma InverseInverse(m: map<BlockId, BlockId>)
    requires Injective(m)
    ensures Injective(Inverse(m)) && Inverse(Inverse(m)) == m
  {
    var r := Inverse(m);
    assert Inverse(r).Keys == m.Keys;
  }

  /** Every header and back-edge node of `g` has a block before the transform. */
  ghost predicate Translatable(g: LoopGraph, origToBeforeDag: map<BlockId, BlockId>)
  {
    forall i :: 0 <= i < |g.headers| ==>
      g.headers[i] in origToBeforeDag &&
      forall b :: b in g.backEdgeNodes(g.headers[i]) ==> b in origToBeforeDag
  }

  /** The (back-edge node, loop head) pairs contributed by header `h`, translated to before-DAG blocks. */
  function HeaderPairs(h: BlockId, nodes: seq<BlockId>, inv: map<BlockId, BlockId>): seq<(BlockId, BlockId)>
    requires h in inv && forall b :: b in nodes ==> b in inv
  {
    seq(|nodes|, i requires 0 <= i < |nodes| => (inv[nodes[i]], inv[h]))
  }

  /** All translated (back-edge node, loop head) pairs, header by header, in the order of the nested loops. */
  function BackedgePairs(g: LoopGraph, n: nat, inv: map<BlockId, BlockId>): seq<(BlockId, BlockId)>
    requires n <= |g.headers| && Translatable(g, inv)
  {
    if n == 0 then []
    else BackedgePairs(g, n - 1, inv) + HeaderPairs(g.headers[n - 1], g.backEdgeNodes(g.headers[n - 1]), inv)
  }

  /** `k` is a translated back-edge node and `x` the translated header of one of its loops. */
  ghost predicate RecordsBackedge(g: LoopGraph, inv: map<BlockId, BlockId>, k: BlockId, x: BlockId)
  {
    exists h, b :: h in g.headers && b in g.backEdgeNodes(h) && h in inv && b in inv && k == inv[b] && x == inv[h]
  }

  lemma AddAllSnoc(d: map<BlockId, seq<BlockId>>, ps: seq<(BlockId, BlockId)>, p: (BlockId, BlockId))
    ensures Util.AddAll(d, ps + [p]) == Util.Added(Util.AddAll(d, ps), p.0, p.1)
  {
    assert (ps + [p])[..|ps|] == ps;
  }

  lemma HeaderPairsSnoc(ps: seq<(BlockId, BlockId)>, h: BlockId, nodes: seq<BlockId>, j: nat, inv: map<BlockId, BlockId>)
    requires j < |nodes| && h in inv && forall b :: b in nodes ==> b in inv
    ensures ps + HeaderPairs(h, nodes[..j + 1], inv) == (ps + HeaderPairs(h, nodes[..j], inv)) + [(inv[nodes[j]], inv[h])]
  {
    assert HeaderPairs(h, nodes[..j + 1], inv) == HeaderPairs(h, nodes[..j], inv) + [(inv[nodes[j]], inv[h])];
  }

  /** The table after recording that back-edge node `key` closes the loop of `head`. */
  lemma RecordStep(table: map<BlockId, seq<BlockId>>, key: BlockId, head: BlockId, ps: seq<(BlockId, BlockId)>)
    requires table == Util.AddAll(map[], ps)
    ensures (if key in table then table[key := table[key] + [head]] else table[key := [head]]) == Util.AddAll(map[], ps + [(key, head)])
  {
    AddAllSnoc(map[], ps, (key, head));
    if key !in table {
      assert Util.ListAt(table, key) + [head] == [head];
    }
  }

  /**
   * The back-edge table built by the constructor's nested loops: for every loop header and every
   * back-edge node of it, the header is appended to the node's list of loop heads.
   */
  method BuildBackedgeTable(g: LoopGraph, origToBeforeDag: map<BlockId, BlockId>) returns (table: map<BlockId, seq<BlockId>>)
    requires Translatable(g, origToBeforeDag)
    ensures table == Util.AddAll(map[], BackedgePairs(g, |g.headers|, origToBeforeDag))
  {
    table := map[];
    for i := 0 to |g.headers|
      invariant table == Util.AddAll(map[], BackedgePairs(g, i, origToBeforeDag))
    {
      var loopHead := g.headers[i];
      var nodes := g.backEdgeNodes(loopHead);
      ghost var done := BackedgePairs(g, i, origToBeforeDag);
      assert done + HeaderPairs(loopHead, nodes[..0], origToBeforeDag) == done;
      for j := 0 to |nodes|
        invariant table == Util.AddAll(map[], done + HeaderPairs(loopHead, nodes[..j], origToBeforeDag))
      {
        var block := nodes[j];
        RecordStep(table, origToBeforeDag[block], origToBeforeDag[loopHead], done + HeaderPairs(loopHead, nodes[..j], origToBeforeDag));
        HeaderPairsSnoc(done, loopHead, nodes, j, origToBeforeDag);
        if origToBeforeDag[block] in table {
          table := table[origToBeforeDag[block] := table[origToBeforeDag[block]] + [origToBeforeDag[loopHead]]];
        } else {
          table := table[origToBeforeDag[block] := [origToBeforeDag[loopHead]]];
        }
      }
      assert nodes[..|nodes|] == nodes;
    }
  }

  lemma {:induction false} BackedgePairsMembers(g: LoopGraph, n: nat, inv: map<BlockId, BlockId>, k: BlockId, x: BlockId)
    requires n <= |g.headers| && Translatable(g, inv)
    ensures (k, x) in BackedgePairs(g, n, inv) <==>
      exists i, b :: 0 <= i < n && b in g.backEdgeNodes(g.headers[i]) && k == inv[b] && x == inv[g.headers[i]]
  {
    if n > 0 {
      BackedgePairsMembers(g, n - 1, inv, k, x);
      var h := g.headers[n - 1];
      var hp := HeaderPairs(h, g.backEdgeNodes(h), inv);
      if (k, x) in hp {
        var j :| 0 <= j < |hp| && hp[j] == (k, x);
        assert g.backEdgeNodes(h)[j] in g.backEdgeNodes(g.headers[n - 1]);
      }
      if exists i, b :: 0 <= i < n && b in g.backEdgeNodes(g.headers[i]) && k == inv[b] && x == inv[g.headers[i]] {
        var i, b :| 0 <= i < n && b in g.backEdgeNodes(g.headers[i]) && k == inv[b] && x == inv[g.headers[i]];
        if i == n - 1 {
          var j :| 0 <= j < |g.backEdgeNodes(h)| && g.backEdgeNodes(h)[j] == b;
          assert hp[j] == (k, x);
        }
      }
    }
  }

  lemma ValuesOfMembers(pairs: seq<(BlockId, BlockId)>, k: BlockId, x: BlockId)
    ensures x in Util.ValuesOf(pairs, k) <==> (k, x) in pairs
  {
    if |pairs| > 0 {
      ValuesOfMembers(pairs[..|pairs| - 1], k, x);
      assert pairs == pairs[..|pairs| - 1] + [pairs[|pairs| - 1]];
    }
  }

  /**
   * The back-edge table holds exactly the translated back-edge relation: `x` is listed under `k`
   * iff `k` is the translation of a back-edge node of a loop whose header translates to `x`. A
   * node that is a back-edge source of several loops accumulates all their heads.
   */
  lemma BackedgeTableExact(g: LoopGraph, inv: map<BlockId, BlockId>, k: BlockId, x: BlockId)
    requires Translatable(g, inv)
    ensures var table := Util.AddAll(map[], BackedgePairs(g, |g.headers|, inv));
      (k in table && x in table[k]) <==> RecordsBackedge(g, inv, k, x)
  {
    var pairs := BackedgePairs(g, |g.headers|, inv);
    Util.AddAllGroupsByKey(pairs, k);
    ValuesOfMembers(pairs, k, x);
    BackedgePairsMembers(g, |g.headers|, inv, k, x);
    if RecordsBackedge(g, inv, k, x) {
      var h, b :| h in g.headers && b in g.backEdgeNodes(h) && h in inv && b in inv && k == inv[b] && x == inv[h];
      var i :| 0 <= i < |g.headers| && g.headers[i] == h;
      assert (k, x) in pairs;
      assert pairs[0].0 == k || exists j :: 0 <= j < |pairs| && pairs[j].0 == k;
    }
    if (k, x) in pairs {
      var i, b :| 0 <= i < |g.headers| && b in g.backEdgeNodes(g.headers[i]) && k == inv[b] && x == inv[g.headers[i]];
      assert g.headers[i] in g.headers;
    }
  }

  class CfgToDagHintManager {
    /** The loop structure the tracker was built from. */
    ghost const graph: LoopGraph
    /** Back-edge node to the loop heads it closes (before-DAG blocks); filled by the constructor only. */
    const backedgeNodeToLoopHead: map<BlockId, seq<BlockId>>
    const beforeDagToOrig: map<BlockId, BlockId>
    const origToBeforeDag: map<BlockId, BlockId>
    /** Original loop head to its hint. */
    var loopHeadHints: map<BlockId, LoopHeadHint>
    /** Back-edge blocks introduced by the transform, to their original loop head. */
    var newBackedgeNodesToLoopHead: map<BlockId, BlockId>
    /** Pre-loop-entry blocks introduced by the transform, to their original loop head. */
    var newPreLoopNodesToLoopHead: map<BlockId, BlockId>
    /** After-DAG block to original block; None until it is set. */
    var afterDagToOrig: Option<map<BlockId, BlockId>>

    ghost predicate Valid()
      reads this
    {
      Injective(beforeDagToOrig) &&
      origToBeforeDag == Inverse(beforeDagToOrig) &&
      Translatable(graph, origToBeforeDag) &&
      backedgeNodeToLoopHead == Util.AddAll(map[], BackedgePairs(graph, |graph.headers|, origToBeforeDag))
    }

    constructor (graph: LoopGraph, beforeDagToOrig: map<BlockId, BlockId>)
      requires Injective(beforeDagToOrig) && Translatable(graph, Inverse(beforeDagToOrig))
      ensures Valid()
      ensures this.graph == graph && this.beforeDagToOrig == beforeDagToOrig
      ensures loopHeadHints == map[] && newBackedgeNodesToLoopHead == map[] && newPreLoopNodesToLoopHead == map[]
      ensures afterDagToOrig == None
    {
      this.graph := graph;
      this.beforeDagToOrig := beforeDagToOrig;
      var inv := Inverse(beforeDagToOrig);
      var table := BuildBackedgeTable(graph, inv);
      origToBeforeDag := inv;
      backedgeNodeToLoopHead := table;
      loopHeadHints := map[];
      newBackedgeNodesToLoopHead := map[];
      newPreLoopNodesToLoopHead := map[];
      afterDagToOrig := None;
    }

    /** The setter of the after-DAG-to-original map. */
    method SetAfterDagToOrig(m: map<BlockId, BlockId>)
      modifies this
      ensures afterDagToOrig == Some(m)
      ensures loopHeadHints == old(loopHeadHints)
      ensures newBackedgeNodesToLoopHead == old(newBackedgeNodesToLoopHead)
      ensures newPreLoopNodesToLoopHead == old(newPreLoopNodesToLoopHead)
    {
      afterDagToOrig := Some(m);
    }

    /** The loop heads `block` closes a back edge of, if it closes any. */
    function TryIsBackedgeNode(block: BlockId): (r: Option<seq<BlockId>>)
      requires Valid()
      reads this
      ensures r.Some? <==> exists x :: RecordsBackedge(graph, origToBeforeDag, block, x)
      ensures r.Some? ==> forall x :: x in r.value <==> RecordsBackedge(graph, origToBeforeDag, block, x)
    {
      if block in backedgeNodeToLoopHead then
        var heads := backedgeNodeToLoopHead[block];
        assert forall x :: x in heads <==> RecordsBackedge(graph, origToBeforeDag, block, x) by {
          forall x { BackedgeTableExact(graph, origToBeforeDag, block, x); }
        }
        assert exists x :: RecordsBackedge(graph, origToBeforeDag, block, x) by {
          var pairs := BackedgePairs(graph, |graph.headers|, origToBeforeDag);
          Util.AddAllGroupsByKey(pairs, block);
          var i :| 0 <= i < |pairs| && pairs[i].0 == block;
          ValuesOfMembers(pairs, block, pairs[i].1);
          assert pairs[i] == (block, pairs[i].1);
          BackedgeTableExact(graph, origToBeforeDag, block, pairs[i].1);
        }
        Some(heads)
      else
        assert forall x :: !RecordsBackedge(graph, origToBeforeDag, block, x) by {
          forall x { BackedgeTableExact(graph, origToBeforeDag, block, x); }
        }
        None
    }

    /** Record the hint of an original loop head; a second hint for the same head is refused. */
    method AddHint(block: BlockId, hint: LoopHeadHint) returns (o: Outcome)
      modifies this
      ensures o.Pass? <==> block !in old(loopHeadHints)
      ensures o.Fail? ==> o.fault == DuplicateKey && loopHeadHints == old(loopHeadHints)
      ensures o.Pass? ==> loopHeadHints == old(loopHeadHints)[block := hint]
      ensures newBackedgeNodesToLoopHead == old(newBackedgeNodesToLoopHead)
      ensures newPreLoopNodesToLoopHead == old(newPreLoopNodesToLoopHead)
      ensures afterDagToOrig == old(afterDagToOrig)
      ensures o.Pass? && Valid() ==> forall b :: b in beforeDagToOrig && beforeDagToOrig[b] == block ==> IsLoopHead(b) == Ok(Some(hint))
    {
      if block in loopHeadHints {
        return Fail(DuplicateKey);
      }
      loopHeadHints := loopHeadHints[block := hint];
      return Pass;
    }

    /** Record a back-edge block introduced by the transform; registering it twice is refused. */
    method AddNewBackedgeBlock(newBackedgeBlock: BlockId, loopHead: BlockId) returns (o: Outcome)
      modifies this
      ensures o.Pass? <==> newBackedgeBlock !in old(newBackedgeNodesToLoopHead)
      ensures o.Fail? ==> o.fault == DuplicateKey && newBackedgeNodesToLoopHead == old(newBackedgeNodesToLoopHead)
      ensures o.Pass? ==> newBackedgeNodesToLoopHead == old(newBackedgeNodesToLoopHead)[newBackedgeBlock := loopHead]
      ensures loopHeadHints == old(loopHeadHints)
      ensures newPreLoopNodesToLoopHead == old(newPreLoopNodesToLoopHead)
      ensures afterDagToOrig == old(afterDagToOrig)
      ensures o.Pass? ==> forall b :: afterDagToOrig.Some? && b in afterDagToOrig.value && afterDagToOrig.value[b] == newBackedgeBlock ==>
        IsNewBackedgeBlock(b) ==
          if loopHead !in loopHeadHints then Err(UnexpectedState("Cannot find loop head for new backedge node."))
          else if loopHead in origToBeforeDag then Ok(Some((origToBeforeDag[loopHead], loopHeadHints[loopHead])))
          else Err(KeyNotFound)
    {
      if newBackedgeBlock in newBackedgeNodesToLoopHead {
        return Fail(DuplicateKey);
      }
      newBackedgeNodesToLoopHead := newBackedgeNodesToLoopHead[newBackedgeBlock := loopHead];
      return Pass;
    }

    /** Record a pre-loop-entry block introduced by the transform; registering it twice is refused. */
    method AddNewPreLoopEntryBlock(newPreLoopEntryBlock: BlockId, loopHead: BlockId) returns (o: Outcome)
      modifies this
      ensures o.Pass? <==> newPreLoopEntryBlock !in old(newPreLoopNodesToLoopHead)
      ensures o.Fail? ==> o.fault == DuplicateKey && newPreLoopNodesToLoopHead == old(newPreLoopNodesToLoopHead)
      ensures o.Pass? ==> newPreLoopNodesToLoopHead == old(newPreLoopNodesToLoopHead)[newPreLoopEntryBlock := loopHead]
      ensures loopHeadHints == old(loopHeadHints)
      ensures newBackedgeNodesToLoopHead == old(newBackedgeNodesToLoopHead)
      ensures afterDagToOrig == old(afterDagToOrig)
      ensures o.Pass? ==> forall b :: afterDagToOrig.Some? && b in afterDagToOrig.value && afterDagToOrig.value[b] == newPreLoopEntryBlock ==>
        IsNewPreLoopEntryBlock(b) == Ok(true)
    {
      if newPreLoopEntryBlock in newPreLoopNodesToLoopHead {
        return Fail(DuplicateKey);
      }
      newPreLoopNodesToLoopHead := newPreLoopNodesToLoopHead[newPreLoopEntryBlock := loopHead];
      return Pass;
    }

    /**
     * Whether an after-DAG block is a back-edge block introduced by the transform; if so, the
     * before-DAG loop head and its hint. A registered block whose loop head has no hint is an
     * unexpected state.
     */
    function IsNewBackedgeBlock(afterDagBlock: BlockId): (r: Result<Option<(BlockId, LoopHeadHint)>>)
      reads this
      ensures afterDagToOrig.None? ==> r == Err(NullReference)
      ensures r.Ok? ==> afterDagToOrig.Some? && afterDagBlock in afterDagToOrig.value
      ensures r == Ok(None) <==> (afterDagToOrig.Some? && afterDagBlock in afterDagToOrig.value &&
                                  afterDagToOrig.value[afterDagBlock] !in newBackedgeNodesToLoopHead)
      ensures r.Ok? && r.value.Some? ==>
        var loopHead := newBackedgeNodesToLoopHead[afterDagToOrig.value[afterDagBlock]];
        loopHead in loopHeadHints && loopHead in origToBeforeDag && r.value.value == (origToBeforeDag[loopHead], loopHeadHints[loopHead])
      ensures r.Err? && r.fault.UnexpectedState? ==>
        afterDagToOrig.Some? && afterDagBlock in afterDagToOrig.value &&
        afterDagToOrig.value[afterDagBlock] in newBackedgeNodesToLoopHead &&
        newBackedgeNodesToLoopHead[afterDagToOrig.value[afterDagBlock]] !in loopHeadHints
      ensures afterDagToOrig.Some? && afterDagBlock !in afterDagToOrig.value ==> r == Err(KeyNotFound)
      // a registered block: its loop head's hint, an unexpected state without one, a lookup failure without a before-DAG block
      ensures afterDagToOrig.Some? && afterDagBlock in afterDagToOrig.value &&
              afterDagToOrig.value[afterDagBlock] in newBackedgeNodesToLoopHead ==>
        var loopHead := newBackedgeNodesToLoopHead[afterDagToOrig.value[afterDagBlock]];
        (loopHead in loopHeadHints && loopHead in origToBeforeDag ==> r == Ok(Some((origToBeforeDag[loopHead], loopHeadHints[loopHead])))) &&
        (loopHead !in loopHeadHints ==> r == Err(UnexpectedState("Cannot find loop head for new backedge node."))) &&
        (loopHead in loopHeadHints && loopHead !in origToBeforeDag ==> r == Err(KeyNotFound))
    {
      if afterDagToOrig.None? then Err(NullReference)
      else if afterDagBlock !in afterDagToOrig.value then Err(KeyNotFound)
      else
        var orig := afterDagToOrig.value[afterDagBlock];
        if orig in newBackedgeNodesToLoopHead then
          var loopHeadOrig := newBackedgeNodesToLoopHead[orig];
          if loopHeadOrig in loopHeadHints then
            if loopHeadOrig in origToBeforeDag then Ok(Some((origToBeforeDag[loopHeadOrig], loopHeadHints[loopHeadOrig])))
            else Err(KeyNotFound)
          else Err(UnexpectedState("Cannot find loop head for new backedge node."))
        else Ok(None)
    }

    /** The overload that reports only the hint. */
    function IsNewBackedgeBlockHint(afterDagBlock: BlockId): (r: Result<Option<LoopHeadHint>>)
      reads this
      ensures r.Err? <==> IsNewBackedgeBlock(afterDagBlock).Err?
      ensures r.Ok? ==> (r.value.Some? <==> IsNewBackedgeBlock(afterDagBlock).value.Some?)
      ensures r.Ok? && r.value.Some? ==> r.value.value == IsNewBackedgeBlock(afterDagBlock).value.value.1
    {
      match IsNewBackedgeBlock(afterDagBlock)
      case Err(f) => Err(f)
      case Ok(None) => Ok(None)
      case Ok(Some((_, hint))) => Ok(Some(hint))
    }

    /** Whether an after-DAG block is a pre-loop-entry block introduced by the transform. */
    function IsNewPreLoopEntryBlock(afterDagBlock: BlockId): (r: Result<bool>)
      reads this
      ensures afterDagToOrig.None? ==> r == Err(NullReference)
      ensures r.Ok? <==> afterDagToOrig.Some? && afterDagBlock in afterDagToOrig.value
      ensures r.Ok? ==> (r.value <==> afterDagToOrig.value[afterDagBlock] in newPreLoopNodesToLoopHead)
    {
      if afterDagToOrig.None? then Err(NullReference)
      else if afterDagBlock !in afterDagToOrig.value then Err(KeyNotFound)
      else Ok(afterDagToOrig.value[afterDagBlock] in newPreLoopNodesToLoopHead)
    }

    /** The hint of a before-DAG block's original block, if that block is a loop head with a hint. */
    function IsLoopHead(beforeDagBlock: BlockId): (r: Result<Option<LoopHeadHint>>)
      reads this
      ensures r.Ok? <==> beforeDagBlock in beforeDagToOrig
      ensures r.Ok? ==> (r.value.Some? <==> beforeDagToOrig[beforeDagBlock] in loopHeadHints)
      ensures r.Ok? && r.value.Some? ==> r.value.value == loopHeadHints[beforeDagToOrig[beforeDagBlock]]
    {
      if beforeDagBlock !in beforeDagToOrig then Err(KeyNotFound)
      else
        var orig := beforeDagToOrig[beforeDagBlock];
        if orig in loopHeadHints then Ok(Some(loopHeadHints[orig])) else Ok(None)
    }

    /** The hint of a before-DAG block's original block; a block without a hint is a lookup failure. */
    function GetLoopHead(beforeDagBlock: BlockId): (r: Result<LoopHeadHint>)
      reads this
      ensures r.Ok? <==> beforeDagBlock in beforeDagToOrig && beforeDagToOrig[beforeDagBlock] in loopHeadHints
      ensures r.Err? ==> r.fault == KeyNotFound
    {
      if beforeDagBlock !in beforeDagToOrig then Err(KeyNotFound)
      else
        var orig := beforeDagToOrig[beforeDagBlock];
        if orig in loopHeadHints then Ok(loopHeadHints[orig]) else Err(KeyNotFound)
    }
  }

  /** `GetLoopHead` succeeds exactly when `IsLoopHead` reports a hint, and returns that hint. */
  lemma GetLoopHeadAgreesWithIsLoopHead(m: CfgToDagHintManager, b: BlockId)
    ensures m.GetLoopHead(b).Ok? <==> m.IsLoopHead(b).Ok? && m.IsLoopHead(b).value.Some?
    ensures m.GetLoopHead(b).Ok? ==> m.GetLoopHead(b).value == m.IsLoopHead(b).value.value
  {
  }

  /**
   * A hit of `IsNewBackedgeBlock` names a before-DAG loop head whose original block is the loop head
   * registered for the new back-edge block, and whose `IsLoopHead` reports the same hint.
   */
  lemma NewBackedgeHeadIsLoopHead(m: CfgToDagHintManager, b: BlockId)
    requires m.Valid()
    requires m.IsNewBackedgeBlock(b).Ok? && m.IsNewBackedgeBlock(b).value.Some?
    ensures var (head, hint) := m.IsNewBackedgeBlock(b).value.value;
      head in m.beforeDagToOrig &&
      m.beforeDagToOrig[head] == m.newBackedgeNodesToLoopHead[m.afterDagToOrig.value[b]] &&
      m.IsLoopHead(head) == Ok(Some(hint))
  {
  }
}
